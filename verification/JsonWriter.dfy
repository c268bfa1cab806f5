/**
 Writing a JSON value as json.dumps does, and reading it back (RFC 8259, sections 3 to 7). A template that is
 already parsed is written before it is rendered, and so is a body that goes into a query
 (app/connector_executor.py:74-75, 382).
 */
module JsonWriter {
  import opened Common
  import opened Json
  import opened JsonStrings
  import opened JsonStructure
  import opened TemplateProofs
  import Template

  type Value = Json<PyStr>

  // ---------------------------------------------------------------- the writer

  // The text of a value, with more text behind it.
  function WriteTo(j: Value, rest: string): string
    decreases j
  {
    match j
    case JStr(s) => WriteString(s, rest)
    case JBare(text) => text + rest
    case JArr(items) => "[" + WriteItems(items, "]" + rest)
    case JObj(members) => "{" + WriteMembers(members, "}" + rest)
  }

  function WriteString(s: PyStr, rest: string): string {
    "\"" + (Escape(s) + ("\"" + rest))
  }

  function WriteItems(items: seq<Value>, rest: string): string
    decreases items
  {
    if items == [] then rest
    else if |items| == 1 then WriteTo(items[0], rest)
    else WriteTo(items[0], ", " + WriteItems(items[1..], rest))
  }

  function WriteMembers(members: seq<Member<PyStr>>, rest: string): string
    decreases members
  {
    if members == [] then rest else
    var m := members[0];
    assert m.value < m;
    var behind := if |members| == 1 then rest else ", " + WriteMembers(members[1..], rest);
    WriteString(m.key, ": " + WriteTo(m.value, behind))
  }

  function Write(j: Value): string {
    WriteTo(j, "")
  }

  // Numbers and names are written as they are, so they have to be some.
  predicate BaresOk(j: Value)
    decreases j
  {
    match j
    case JStr(_) => true
    case JBare(text) => IsBareValue(text)
    case JArr(items) => ItemsOk(items)
    case JObj(members) => MembersOk(members)
  }

  predicate ItemsOk(items: seq<Value>)
    decreases items
  {
    items == [] || (BaresOk(items[0]) && ItemsOk(items[1..]))
  }

  predicate MembersOk(members: seq<Member<PyStr>>)
    decreases members
  {
    members == [] ||
    (var m := members[0];
     assert m.value < m;
     BaresOk(m.value) && MembersOk(members[1..]))
  }

  // ---------------------------------------------------------------- the tokens of a value

  type Tokens = seq<Token<seq<Unit>>>

  function Tokens1(t: Token<seq<Unit>>, rest: Tokens): Tokens {
    [t] + rest
  }

  function TokensOf(j: Value, rest: Tokens): Tokens
    decreases j
  {
    match j
    case JStr(s) => Tokens1(Quoted(UnitsOf(s)), rest)
    case JBare(text) => Tokens1(Bare(text), rest)
    case JArr(items) => Tokens1(Punct('['), ItemTokens(items, Tokens1(Punct(']'), rest)))
    case JObj(members) => Tokens1(Punct('{'), MemberTokens(members, Tokens1(Punct('}'), rest)))
  }

  function ItemTokens(items: seq<Value>, rest: Tokens): Tokens
    decreases items
  {
    if items == [] then rest
    else if |items| == 1 then TokensOf(items[0], rest)
    else TokensOf(items[0], Tokens1(Punct(','), ItemTokens(items[1..], rest)))
  }

  function MemberTokens(members: seq<Member<PyStr>>, rest: Tokens): Tokens
    decreases members
  {
    if members == [] then rest else
    var m := members[0];
    assert m.value < m;
    var behind := if |members| == 1 then rest else Tokens1(Punct(','), MemberTokens(members[1..], rest));
    Tokens1(Quoted(UnitsOf(m.key)), Tokens1(Punct(':'), TokensOf(m.value, behind)))
  }

  // ---------------------------------------------------------------- the lexer finds them

  predicate Separate(rest: string) {
    rest == "" || EndsBare(rest[0])
  }

  lemma {:induction false} DigitsArePlain(t: string)
    ensures forall k :: 0 <= k < DigitRun(t) ==> !EndsBare(t[k])
  {
    if t != [] && IsDigit(t[0]) {
      DigitsArePlain(t[1..]);
      forall k | 0 <= k < DigitRun(t) ensures !EndsBare(t[k]) {
        if k > 0 { assert t[k] == t[1..][k - 1]; }
      }
    }
  }

  predicate PlainText(t: string) {
    forall c :: c in t ==> !EndsBare(c)
  }

  lemma PlainParts(a: string, b: string)
    requires (forall k :: 0 <= k < |a| ==> !EndsBare(a[k])) && PlainText(b)
    ensures PlainText(a + b)
  {}

  lemma ExponentIsPlain(t: string)
    requires IsExponent(t)
    ensures PlainText(t)
  {
    if t != "" {
      var n := if |t| > 1 && (t[1] == '+' || t[1] == '-') then 2 else 1;
      DigitsArePlain(t[n..]);
      PlainParts(t[n..], "");
      assert t[n..] + "" == t[n..] && t == t[..n] + t[n..];
      PlainParts(t[..n], t[n..]);
    }
  }

  lemma FractionIsPlain(t: string)
    requires IsFraction(t)
    ensures PlainText(t)
  {
    if t != "" && t[0] == '.' {
      var u, n := t[1..], DigitRun(t[1..]);
      DigitsArePlain(u);
      ExponentIsPlain(u[n..]);
      assert u == u[..n] + u[n..] && t == "." + u;
      PlainParts(u[..n], u[n..]);
      PlainParts(".", u);
    } else {
      ExponentIsPlain(t);
    }
  }

  lemma NumberIsPlain(t: string)
    requires IsNumber(t)
    ensures t != "" && PlainText(t)
  {
    var u := if t != "" && t[0] == '-' then t[1..] else t;
    var n := DigitRun(u);
    DigitsArePlain(u);
    FractionIsPlain(u[n..]);
    assert u == u[..n] + u[n..];
    PlainParts(u[..n], u[n..]);
    if u != t {
      assert t == "-" + u;
      PlainParts("-", u);
    }
  }

  lemma BareIsPlain(t: string)
    requires IsBareValue(t)
    ensures t != "" && PlainText(t)
  {
    if t !in {"true", "false", "null", "NaN", "Infinity", "-Infinity"} { NumberIsPlain(t); }
  }

  lemma BareLexes(t: string, rest: string)
    requires IsBareValue(t) && Separate(rest)
    ensures Lex(t + rest) == Cons(Bare(t), Lex(rest))
  {
    BareIsPlain(t);
    BareLexesAs(t, rest);
  }

  lemma BareLexesAs(t: string, rest: string)
    requires t != "" && PlainText(t) && Separate(rest)
    ensures Lex(t + rest) == Cons(Bare(t), Lex(rest))
  {
    BareRunStops(t, rest);
    assert (t + rest)[0] == t[0] && t[0] in t;
    assert (t + rest)[..|t|] == t && (t + rest)[|t|..] == rest;
  }

  lemma StringLexes(s: PyStr, rest: string)
    ensures Lex(WriteString(s, rest)) == Cons(Quoted(UnitsOf(s)), Lex(rest))
  {
    var tail := "\"" + rest;
    assert tail[1..] == rest && StrBody(tail) == Some(Inside([], rest));
    EscapeReads(s, tail);
    assert WriteString(s, rest)[1..] == Escape(s) + tail;
    assert UnitsOf(s) + [] == UnitsOf(s);
  }

  lemma PunctLexes(p: char, rest: string)
    requires IsPunct(p)
    ensures Lex([p] + rest) == Cons(Punct(p), Lex(rest))
  {
    assert ([p] + rest)[1..] == rest;
  }

  // A punctuation mark and a blank.
  lemma SpacedLexes(p: char, rest: string)
    requires IsPunct(p)
    ensures Lex([p, ' '] + rest) == Cons(Punct(p), Lex(rest))
  {
    assert [p, ' '] + rest == [p] + ([' '] + rest) && ([' '] + rest)[1..] == rest;
    PunctLexes(p, [' '] + rest);
  }

  lemma {:induction false} ValueLexes(j: Value, rest: string)
    requires BaresOk(j) && Separate(rest) && Lex(rest).Some?
    ensures Lex(WriteTo(j, rest)) == Some(TokensOf(j, Lex(rest).value))
    decreases j
  {
    match j
    case JStr(s) => StringLexes(s, rest);
    case JBare(text) => BareLexes(text, rest);
    case JArr(items) =>
      PunctLexes(']', rest);
      ItemsLex(items, "]" + rest);
      PunctLexes('[', WriteItems(items, "]" + rest));
    case JObj(members) =>
      PunctLexes('}', rest);
      MembersLex(members, "}" + rest);
      PunctLexes('{', WriteMembers(members, "}" + rest));
  }

  lemma {:induction false} ItemsLex(items: seq<Value>, rest: string)
    requires ItemsOk(items) && Separate(rest) && Lex(rest).Some?
    ensures Lex(WriteItems(items, rest)) == Some(ItemTokens(items, Lex(rest).value))
    decreases items
  {
    if |items| == 1 {
      ValueLexes(items[0], rest);
    } else if items != [] {
      var more := WriteItems(items[1..], rest);
      ItemsLex(items[1..], rest);
      assert ", " == [',', ' '];
      SpacedLexes(',', more);
      ValueLexes(items[0], ", " + more);
    }
  }

  lemma {:induction false} MembersLex(members: seq<Member<PyStr>>, rest: string)
    requires MembersOk(members) && Separate(rest) && Lex(rest).Some?
    ensures Lex(WriteMembers(members, rest)) == Some(MemberTokens(members, Lex(rest).value))
    decreases members
  {
    if members != [] {
      var m := members[0];
      assert m.value < m;
      if |members| == 1 {
        MemberLexes(m, rest);
      } else {
        var more := WriteMembers(members[1..], rest);
        MembersLex(members[1..], rest);
        assert ", " == [',', ' '];
        SpacedLexes(',', more);
        MemberLexes(m, ", " + more);
      }
    }
  }

  lemma {:induction false} MemberLexes(m: Member<PyStr>, behind: string)
    requires BaresOk(m.value) && Separate(behind) && Lex(behind).Some?
    ensures Lex(WriteString(m.key, ": " + WriteTo(m.value, behind)))
            == Some(Tokens1(Quoted(UnitsOf(m.key)), Tokens1(Punct(':'), TokensOf(m.value, Lex(behind).value))))
    decreases m
  {
    assert m.value < m;
    ValueLexes(m.value, behind);
    assert ": " == [':', ' '];
    SpacedLexes(':', WriteTo(m.value, behind));
    StringLexes(m.key, ": " + WriteTo(m.value, behind));
  }

  // ---------------------------------------------------------------- the parser takes them back

  lemma FirstToken(j: Value, rest: Tokens)
    ensures TokensOf(j, rest) != [] && TokensOf(j, rest)[0] != Punct(']') && TokensOf(j, rest)[0] != Punct('}')
  {}

  lemma {:induction false} ValueParses(j: Value, rest: Tokens)
    requires BaresOk(j)
    ensures ParseValue(TokensOf(j, rest)) == Some((MapJson(UnitsOf, j), rest))
    decreases j
  {
    var ts := TokensOf(j, rest);
    match j
    case JStr(s) => assert ts[1..] == rest;
    case JBare(text) => assert ts[1..] == rest;
    case JArr(items) =>
      var inner := ItemTokens(items, Tokens1(Punct(']'), rest));
      assert ts[1..] == inner;
      if items == [] {
        assert ts[2..] == rest;
      } else {
        ItemsParse(items, rest);
      }
    case JObj(members) =>
      var inner := MemberTokens(members, Tokens1(Punct('}'), rest));
      assert ts[1..] == inner;
      if members == [] {
        assert ts[2..] == rest;
      } else {
        MembersParse(members, rest);
      }
  }

  lemma {:induction false} ItemsParse(items: seq<Value>, rest: Tokens)
    requires ItemsOk(items) && items != []
    ensures var ts := ItemTokens(items, Tokens1(Punct(']'), rest));
            ts != [] && ts[0] != Punct(']') && ParseItems(ts) == Some((MapItems(UnitsOf, items), rest))
    decreases items
  {
    if |items| == 1 {
      var behind := Tokens1(Punct(']'), rest);
      FirstToken(items[0], behind);
      ValueParses(items[0], behind);
      assert behind[1..] == rest && items[1..] == [];
      assert MapItems(UnitsOf, items) == [MapJson(UnitsOf, items[0])];
    } else {
      var more := ItemTokens(items[1..], Tokens1(Punct(']'), rest));
      var behind := Tokens1(Punct(','), more);
      FirstToken(items[0], behind);
      ValueParses(items[0], behind);
      ItemsParse(items[1..], rest);
      assert behind[1..] == more;
    }
  }

  lemma {:induction false} MembersParse(members: seq<Member<PyStr>>, rest: Tokens)
    requires MembersOk(members) && members != []
    ensures var ts := MemberTokens(members, Tokens1(Punct('}'), rest));
            ts != [] && ts[0].Quoted? && ParseMembers(ts) == Some((MapMembers(UnitsOf, members), rest))
    decreases members
  {
    var m := members[0];
    assert m.value < m;
    if |members| == 1 {
      var behind := Tokens1(Punct('}'), rest);
      MemberParses(m, behind);
      assert behind[1..] == rest && members[1..] == [];
      assert MapMembers(UnitsOf, members) == [Member(UnitsOf(m.key), MapJson(UnitsOf, m.value))];
    } else {
      var more := MemberTokens(members[1..], Tokens1(Punct('}'), rest));
      var behind := Tokens1(Punct(','), more);
      MemberParses(m, behind);
      MembersParse(members[1..], rest);
      assert behind[1..] == more;
    }
  }

  lemma {:induction false} MemberParses(m: Member<PyStr>, behind: Tokens)
    requires BaresOk(m.value)
    ensures var ts := Tokens1(Quoted(UnitsOf(m.key)), Tokens1(Punct(':'), TokensOf(m.value, behind)));
            && |ts| >= 2 && ts[0] == Quoted(UnitsOf(m.key)) && ts[1] == Punct(':')
            && ParseValue(ts[2..]) == Some((MapJson(UnitsOf, m.value), behind))
    decreases m
  {
    assert m.value < m;
    ValueParses(m.value, behind);
    var ts := Tokens1(Quoted(UnitsOf(m.key)), Tokens1(Punct(':'), TokensOf(m.value, behind)));
    assert ts[2..] == TokensOf(m.value, behind);
  }

  // ---------------------------------------------------------------- the round trip

  // What was written is read back, item by item and member by member in order, with its strings as units.
  lemma WrittenReads(j: Value)
    requires BaresOk(j)
    ensures Read(Write(j)) == Some(MapJson(UnitsOf, j))
  {
    assert Lex("") == Some([]);
    ValueLexes(j, "");
    ValueParses(j, []);
  }

  ghost function Whole(): PyStr -> bool {
    s => NoSplitPair(s)
  }

  lemma {:induction false} MapIdentity(f: PyStr -> PyStr, j: Value)
    requires forall s :: f(s) == s
    ensures MapJson(f, j) == j
    decreases j
  {
    match j
    case JStr(_) =>
    case JBare(_) =>
    case JArr(items) => ItemsIdentity(f, items);
    case JObj(members) => MembersIdentity(f, members);
  }

  lemma {:induction false} ItemsIdentity(f: PyStr -> PyStr, items: seq<Value>)
    requires forall s :: f(s) == s
    ensures MapItems(f, items) == items
    decreases items
  {
    if items != [] {
      MapIdentity(f, items[0]);
      ItemsIdentity(f, items[1..]);
    }
  }

  lemma {:induction false} MembersIdentity(f: PyStr -> PyStr, members: seq<Member<PyStr>>)
    requires forall s :: f(s) == s
    ensures MapMembers(f, members) == members
    decreases members
  {
    if members != [] {
      var m := members[0];
      assert m.value < m;
      MapIdentity(f, m.value);
      MembersIdentity(f, members[1..]);
    }
  }

  // Writing and reading give any value back, if and only if no string in it, member names included, holds a split
  // surrogate pair.
  lemma DumpsThenLoads(j: Value)
    requires BaresOk(j)
    ensures Template.Loads(Write(j)).Some?
    ensures Template.Loads(Write(j)) == Some(j) <==> Everywhere(Whole(), j)
  {
    WrittenReads(j);
    var there: PyStr -> PyStr := s => Decode(UnitsOf(s));
    var same: PyStr -> PyStr := s => s;
    MapCompose(UnitsOf, Decode, there, j);
    forall s ensures Whole()(s) <==> there(s) == same(s) { DecodeUnits(s); }
    MapAgrees(there, same, Whole(), j);
    MapIdentity(same, j);
  }
}
