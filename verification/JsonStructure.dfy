/** The parser looks at the kinds of tokens only: changing what string literals hold commutes with it. */
module JsonStructure {
  import opened Common
  import opened Json

  function MapToken<S, T>(f: S -> T, t: Token<S>): Token<T> {
    match t
    case Punct(p) => Punct(p)
    case Quoted(s) => Quoted(f(s))
    case Bare(text) => Bare(text)
  }

  function MapTokens<S, T>(f: S -> T, ts: seq<Token<S>>): seq<Token<T>> {
    seq(|ts|, i requires 0 <= i < |ts| => MapToken(f, ts[i]))
  }

  function MapJson<S, T>(f: S -> T, j: Json<S>): Json<T>
    decreases j
  {
    match j
    case JStr(s) => JStr(f(s))
    case JBare(text) => JBare(text)
    case JArr(items) => JArr(MapItems(f, items))
    case JObj(members) => JObj(MapMembers(f, members))
  }

  function MapItems<S, T>(f: S -> T, items: seq<Json<S>>): seq<Json<T>>
    decreases items
  {
    if items == [] then [] else [MapJson(f, items[0])] + MapItems(f, items[1..])
  }

  function MapMembers<S, T>(f: S -> T, members: seq<Member<S>>): seq<Member<T>>
    decreases members
  {
    if members == [] then [] else
    var m := members[0];
    assert m.value < m;
    [Member(f(m.key), MapJson(f, m.value))] + MapMembers(f, members[1..])
  }

  // ---------------------------------------------------------------- naturality of the parser

  lemma MapTokensDrop<S, T>(f: S -> T, ts: seq<Token<S>>, n: nat)
    requires n <= |ts|
    ensures MapTokens(f, ts)[n..] == MapTokens(f, ts[n..])
  {}

  lemma {:induction false} ParseValueMap<S, T>(f: S -> T, ts: seq<Token<S>>)
    ensures ParseValue(ts).None? ==> ParseValue(MapTokens(f, ts)).None?
    ensures ParseValue(ts).Some? ==>
              ParseValue(MapTokens(f, ts)) ==
              Some((MapJson(f, ParseValue(ts).value.0), MapTokens(f, ParseValue(ts).value.1)))
    decreases |ts|, 0
  {
    if ts != [] {
      MapTokensDrop(f, ts, 1);
      if |ts| > 1 { MapTokensDrop(f, ts, 2); }
      if ts[0] == Punct('{') {
        ParseMembersMap(f, ts[1..]);
      } else if ts[0] == Punct('[') {
        ParseItemsMap(f, ts[1..]);
      }
    }
  }

  lemma {:induction false} ParseItemsMap<S, T>(f: S -> T, ts: seq<Token<S>>)
    ensures ParseItems(ts).None? ==> ParseItems(MapTokens(f, ts)).None?
    ensures ParseItems(ts).Some? ==>
              ParseItems(MapTokens(f, ts)) ==
              Some((MapItems(f, ParseItems(ts).value.0), MapTokens(f, ParseItems(ts).value.1)))
    decreases |ts|, 1
  {
    ParseValueMap(f, ts);
    var v := ParseValue(ts);
    if v.Some? && v.value.1 != [] {
      var x, rest := v.value.0, v.value.1;
      MapTokensDrop(f, rest, 1);
      assert MapTokens(f, rest)[0] == MapToken(f, rest[0]);
      if rest[0] == Punct(']') {
        assert [x][1..] == [];
        assert MapItems(f, [x]) == [MapJson(f, x)];
      } else if rest[0] == Punct(',') {
        ParseItemsMap(f, rest[1..]);
        var more := ParseItems(rest[1..]);
        if more.Some? {
          assert ([v.value.0] + more.value.0)[1..] == more.value.0;
        }
      }
    }
  }

  lemma {:induction false} ParseMembersMap<S, T>(f: S -> T, ts: seq<Token<S>>)
    ensures ParseMembers(ts).None? ==> ParseMembers(MapTokens(f, ts)).None?
    ensures ParseMembers(ts).Some? ==>
              ParseMembers(MapTokens(f, ts)) ==
              Some((MapMembers(f, ParseMembers(ts).value.0), MapTokens(f, ParseMembers(ts).value.1)))
    decreases |ts|, 1
  {
    if |ts| >= 2 {
      MapTokensDrop(f, ts, 2);
      ParseValueMap(f, ts[2..]);
      var v := ParseValue(ts[2..]);
      if v.Some? && v.value.1 != [] {
        var x, rest := v.value.0, v.value.1;
        MapTokensDrop(f, rest, 1);
        assert MapTokens(f, rest)[0] == MapToken(f, rest[0]);
        if ts[0].Quoted? && rest[0] == Punct('}') {
          var m := Member(ts[0].s, x);
          assert [m][1..] == [];
          assert MapMembers(f, [m]) == [Member(f(m.key), MapJson(f, x))];
        } else if ts[0].Quoted? && rest[0] == Punct(',') {
          ParseMembersMap(f, rest[1..]);
          var more := ParseMembers(rest[1..]);
          if more.Some? {
            assert ([Member(ts[0].s, x)] + more.value.0)[1..] == more.value.0;
          }
        }
      }
    }
  }

  // Parsing commutes with any change made inside the string literals.
  lemma ParseMap<S, T>(f: S -> T, ts: seq<Token<S>>)
    ensures Parse(ts).None? ==> Parse(MapTokens(f, ts)).None?
    ensures Parse(ts).Some? ==> Parse(MapTokens(f, ts)) == Some(MapJson(f, Parse(ts).value))
  {
    ParseValueMap(f, ts);
  }

  // Every string literal of j, member names included, satisfies q.
  ghost predicate Everywhere<S>(q: S -> bool, j: Json<S>)
    decreases j
  {
    match j
    case JStr(s) => q(s)
    case JBare(_) => true
    case JArr(items) => EverywhereItems(q, items)
    case JObj(members) => EverywhereMembers(q, members)
  }

  ghost predicate EverywhereItems<S>(q: S -> bool, items: seq<Json<S>>)
    decreases items
  {
    items == [] || (Everywhere(q, items[0]) && EverywhereItems(q, items[1..]))
  }

  ghost predicate EverywhereMembers<S>(q: S -> bool, members: seq<Member<S>>)
    decreases members
  {
    members == [] ||
    (var m := members[0];
     assert m.value < m;
     q(m.key) && Everywhere(q, m.value) && EverywhereMembers(q, members[1..]))
  }

  // What implies what on one literal does so everywhere.
  lemma {:induction false} EverywhereImplies<S(!new)>(q: S -> bool, r: S -> bool, j: Json<S>)
    requires (forall s :: q(s) ==> r(s)) && Everywhere(q, j)
    ensures Everywhere(r, j)
    decreases j
  {
    match j
    case JStr(_) =>
    case JBare(_) =>
    case JArr(items) => ItemsImply(q, r, items);
    case JObj(members) => MembersImply(q, r, members);
  }

  lemma {:induction false} ItemsImply<S(!new)>(q: S -> bool, r: S -> bool, items: seq<Json<S>>)
    requires (forall s :: q(s) ==> r(s)) && EverywhereItems(q, items)
    ensures EverywhereItems(r, items)
    decreases items
  {
    if items != [] {
      EverywhereImplies(q, r, items[0]);
      ItemsImply(q, r, items[1..]);
    }
  }

  lemma {:induction false} MembersImply<S(!new)>(q: S -> bool, r: S -> bool, members: seq<Member<S>>)
    requires (forall s :: q(s) ==> r(s)) && EverywhereMembers(q, members)
    ensures EverywhereMembers(r, members)
    decreases members
  {
    if members != [] {
      var m := members[0];
      assert m.value < m;
      EverywhereImplies(q, r, m.value);
      MembersImply(q, r, members[1..]);
    }
  }

  // Two changes made one after the other are one change.
  lemma {:induction false} MapCompose<S(!new), T, U>(f: S -> T, g: T -> U, h: S -> U, j: Json<S>)
    requires forall s :: h(s) == g(f(s))
    ensures MapJson(g, MapJson(f, j)) == MapJson(h, j)
    decreases j
  {
    match j
    case JStr(_) =>
    case JBare(_) =>
    case JArr(items) => MapComposeItems(f, g, h, items);
    case JObj(members) => MapComposeMembers(f, g, h, members);
  }

  lemma {:induction false} MapComposeItems<S(!new), T, U>(f: S -> T, g: T -> U, h: S -> U, items: seq<Json<S>>)
    requires forall s :: h(s) == g(f(s))
    ensures MapItems(g, MapItems(f, items)) == MapItems(h, items)
    decreases items
  {
    if items != [] {
      MapCompose(f, g, h, items[0]);
      MapComposeItems(f, g, h, items[1..]);
    }
  }

  lemma {:induction false} MapComposeMembers<S(!new), T, U>(f: S -> T, g: T -> U, h: S -> U, members: seq<Member<S>>)
    requires forall s :: h(s) == g(f(s))
    ensures MapMembers(g, MapMembers(f, members)) == MapMembers(h, members)
    decreases members
  {
    if members != [] {
      var m := members[0];
      assert m.value < m;
      MapCompose(f, g, h, m.value);
      MapComposeMembers(f, g, h, members[1..]);
    }
  }

  // Two changes give the same value exactly when they agree on every string literal in it.
  lemma {:induction false} MapAgrees<S(!new), T>(f: S -> T, g: S -> T, q: S -> bool, j: Json<S>)
    requires forall s :: q(s) <==> f(s) == g(s)
    ensures MapJson(f, j) == MapJson(g, j) <==> Everywhere(q, j)
    decreases j
  {
    match j
    case JStr(_) =>
    case JBare(_) =>
    case JArr(items) => ItemsAgree(f, g, q, items);
    case JObj(members) => MembersAgree(f, g, q, members);
  }

  lemma {:induction false} ItemsAgree<S(!new), T>(f: S -> T, g: S -> T, q: S -> bool, items: seq<Json<S>>)
    requires forall s :: q(s) <==> f(s) == g(s)
    ensures MapItems(f, items) == MapItems(g, items) <==> EverywhereItems(q, items)
    decreases items
  {
    if items != [] {
      MapAgrees(f, g, q, items[0]);
      ItemsAgree(f, g, q, items[1..]);
      SameHeadAndTail(MapItems(f, items), MapItems(g, items));
    }
  }

  lemma {:induction false} MembersAgree<S(!new), T>(f: S -> T, g: S -> T, q: S -> bool, members: seq<Member<S>>)
    requires forall s :: q(s) <==> f(s) == g(s)
    ensures MapMembers(f, members) == MapMembers(g, members) <==> EverywhereMembers(q, members)
    decreases members
  {
    if members != [] {
      var m := members[0];
      assert m.value < m;
      MapAgrees(f, g, q, m.value);
      MembersAgree(f, g, q, members[1..]);
      SameHeadAndTail(MapMembers(f, members), MapMembers(g, members));
    }
  }

  lemma SameHeadAndTail<T>(a: seq<T>, b: seq<T>)
    requires a != [] && b != []
    ensures a == b <==> a[0] == b[0] && a[1..] == b[1..]
  {
    assert a == [a[0]] + a[1..] && b == [b[0]] + b[1..];
  }

  // ---------------------------------------------------------------- what valid JSON never contains

  predicate TwoOpens<S>(ts: seq<Token<S>>, i: int) {
    0 <= i < |ts| - 1 && ts[i] == Punct('{') && ts[i + 1] == Punct('{')
  }

  ghost predicate Used<S>(ts: seq<Token<S>>, rest: seq<Token<S>>) {
    var n := |ts| - |rest|;
    && 0 < n <= |ts|
    && rest == ts[n..]
    && ts[n - 1] != Punct('{')
    && forall i :: 0 <= i < n - 1 ==> !TwoOpens(ts, i)
  }

  lemma UsedMore<S>(ts: seq<Token<S>>, k: nat, rest: seq<Token<S>>)
    requires k <= |ts| && Used(ts[k..], rest)
    requires forall i :: 0 <= i < k ==> !TwoOpens(ts, i)
    ensures Used(ts, rest)
  {
    var n := |ts| - |rest|;
    forall i | 0 <= i < n - 1 ensures !TwoOpens(ts, i) {
      if i >= k { assert !TwoOpens(ts[k..], i - k); }
    }
  }

  lemma UsedThen<S>(ts: seq<Token<S>>, mid: seq<Token<S>>, rest: seq<Token<S>>)
    requires Used(ts, mid) && mid != [] && mid[0] != Punct('{')
    requires rest == mid[1..] || Used(mid[1..], rest)
    ensures Used(ts, rest)
  {
    var n, m := |ts| - |mid|, |ts| - |rest|;
    assert ts[n..][1..] == ts[n + 1..];
    forall i | 0 <= i < m - 1 ensures !TwoOpens(ts, i) {
      if i > n { assert !TwoOpens(mid[1..], i - n - 1); }
    }
  }

  lemma {:induction false} ValueHasNoTwoOpens<S>(ts: seq<Token<S>>)
    requires ParseValue(ts).Some?
    ensures Used(ts, ParseValue(ts).value.1)
    decreases |ts|, 0
  {
    if ts[0] == Punct('{') && ts[1] != Punct('}') {
      MembersHaveNoTwoOpens(ts[1..]);
      UsedMore(ts, 1, ParseMembers(ts[1..]).value.1);
    } else if ts[0] == Punct('[') && ts[1] != Punct(']') {
      ItemsHaveNoTwoOpens(ts[1..]);
      UsedMore(ts, 1, ParseItems(ts[1..]).value.1);
    }
  }

  lemma {:induction false} ItemsHaveNoTwoOpens<S>(ts: seq<Token<S>>)
    requires ParseItems(ts).Some?
    ensures Used(ts, ParseItems(ts).value.1)
    decreases |ts|, 1
  {
    ValueHasNoTwoOpens(ts);
    var rest := ParseValue(ts).value.1;
    if rest[0] == Punct(',') { ItemsHaveNoTwoOpens(rest[1..]); }
    UsedThen(ts, rest, ParseItems(ts).value.1);
  }

  lemma {:induction false} MembersHaveNoTwoOpens<S>(ts: seq<Token<S>>)
    requires ParseMembers(ts).Some?
    ensures Used(ts, ParseMembers(ts).value.1)
    decreases |ts|, 1
  {
    ValueHasNoTwoOpens(ts[2..]);
    var rest := ParseValue(ts[2..]).value.1;
    UsedMore(ts, 2, rest);
    if rest[0] == Punct(',') { MembersHaveNoTwoOpens(rest[1..]); }
    UsedThen(ts, rest, ParseMembers(ts).value.1);
  }

  // In a text that parses, an opening brace is never directly followed by another one, so "{{" occurs
  // inside string literals only.
  lemma ValidHasNoTwoOpens<S>(ts: seq<Token<S>>)
    requires Parse(ts).Some?
    ensures forall i :: !TwoOpens(ts, i)
  {
    ValueHasNoTwoOpens(ts);
  }
}
