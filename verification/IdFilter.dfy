/** The end of the id extraction: cleaning the candidates and keeping the longest ones (app/llm_utils.py:114-121). */
module IdFilter {
  import opened Common

  type Id = PyStr

  const HASH: CodePoint := '#' as int

  predicate Blank(c: CodePoint) {
    IsSpace(c)
  }

  function Cleaned(raw: Id): Id {
    Strip(LStrip(Strip(raw, Blank), IsHash), Blank)
  }

  predicate IsHash(c: CodePoint) {
    c == HASH
  }

  // Blanks around an id, and the hashes in front of it with the blanks behind them, are cut off; nothing else is.
  lemma CleaningCuts(before: Id, hashes: Id, between: Id, id: Id, behind: Id)
    requires id != [] && !IsSpace(id[0]) && !IsSpace(id[|id| - 1]) && id[0] != HASH
    requires forall c :: c in before || c in between || c in behind ==> IsSpace(c)
    requires (forall c :: c in hashes ==> c == HASH) && (hashes == [] ==> between == [])
    ensures Cleaned(before + (hashes + (between + (id + behind)))) == id
  {
    var front, rest := hashes + between, between + (id + behind);
    ConcatAssoc(hashes, between, id + behind);
    assert (hashes + rest)[0] == (if hashes == [] then id[0] else hashes[0]);
    assert hashes != [] ==> hashes[0] in hashes;
    LStripOver(before, hashes + rest, Blank);
    RStripOver(front, id, behind, Blank);
    ConcatAssoc(hashes, between, id);
    HashesCut(hashes, between, id);
  }

  lemma HashesCut(hashes: Id, between: Id, id: Id)
    requires id != [] && !IsSpace(id[0]) && !IsSpace(id[|id| - 1]) && id[0] != HASH
    requires (forall c :: c in between ==> IsSpace(c)) && forall c :: c in hashes ==> c == HASH
    ensures Strip(LStrip(hashes + (between + id), IsHash), Blank) == id
  {
    assert (between + id)[0] == if between == [] then id[0] else between[0];
    assert between != [] ==> between[0] in between;
    LStripOver(hashes, between + id, IsHash);
    LStripOver(between, id, Blank);
  }

  lemma {:induction false} LStripOver(before: Id, s: Id, blank: CodePoint -> bool)
    requires (forall c :: c in before ==> blank(c)) && s != [] && !blank(s[0])
    ensures LStrip(before + s, blank) == s
    decreases |before|
  {
    if before == [] {
      assert before + s == s;
    } else {
      assert (before + s)[1..] == before[1..] + s && before[0] in before;
      LStripOver(before[1..], s, blank);
    }
  }

  lemma {:induction false} RStripOver(before: Id, s: Id, behind: Id, blank: CodePoint -> bool)
    requires (forall c :: c in behind ==> blank(c)) && s != [] && !blank(s[|s| - 1])
    ensures RStrip(before + (s + behind), blank) == before + s
    decreases |behind|
  {
    var all := before + (s + behind);
    if behind == [] {
      assert all == before + s;
    } else {
      var n := |behind| - 1;
      assert all[..|all| - 1] == before + (s + behind[..n]) && behind[n] in behind;
      RStripOver(before, s, behind[..n], blank);
    }
  }

  // part in whole, as Python asks it of two strings.
  predicate Contains(part: Id, whole: Id) {
    exists i :: 0 <= i <= |whole| && IsAt(part, whole, i)
  }

  // Some candidate other than v has v in it.
  predicate Swallowed(ids: seq<Id>, v: Id) {
    exists k :: 0 <= k < |ids| && ids[k] != v && Contains(v, ids[k])
  }

  function AllCleaned(ids: seq<Id>): (r: seq<Id>)
    ensures |r| == |ids| && forall k :: 0 <= k < |ids| ==> r[k] == Cleaned(ids[k])
  {
    seq(|ids|, k requires 0 <= k < |ids| => Cleaned(ids[k]))
  }

  ghost predicate Keeps(ids: seq<Id>, v: Id) {
    v != [] && v in AllCleaned(ids) && !Swallowed(ids, v)
  }

  // The place of the first v, or the length of the list when there is none.
  function IndexOf(s: seq<Id>, v: Id): (k: nat)
    ensures k <= |s| && (k < |s| ==> s[k] == v)
    ensures v !in s[..k] && (v in s ==> k < |s|)
  {
    if s == [] || s[0] == v then 0 else
    var k := IndexOf(s[1..], v) + 1;
    assert s[..k] == [s[0]] + s[1..][..k - 1] && s == [s[0]] + s[1..];
    k
  }

  function FoundAt(ids: seq<Id>, v: Id): nat {
    IndexOf(AllCleaned(ids), v)
  }

  ghost predicate InFoundOrder(ids: seq<Id>, kept: seq<Id>) {
    forall a, b :: 0 <= a < b < |kept| ==> FoundAt(ids, kept[a]) < FoundAt(ids, kept[b])
  }

  ghost predicate KeepsBefore(ids: seq<Id>, n: nat, v: Id) {
    Keeps(ids, v) && FoundAt(ids, v) < n
  }

  // For any candidates: exactly the cleaned ones that no other candidate swallows, once each, in the order in
  // which they were found.
  method Filter(ids: seq<Id>) returns (kept: seq<Id>)
    ensures forall v :: v in kept <==> Keeps(ids, v)
    ensures InFoundOrder(ids, kept)
  {
    kept := [];
    for n := 0 to |ids|
      invariant KeptSoFar(ids, kept, n)
    {
      var cleaned := Cleaned(ids[n]);
      if cleaned != [] && cleaned !in kept && !Swallowed(ids, cleaned) {
        TakesOne(ids, kept, n);
        kept := kept + [cleaned];
      } else {
        SkipsOne(ids, kept, n);
      }
    }
  }

  ghost predicate KeptSoFar(ids: seq<Id>, kept: seq<Id>, n: nat) {
    (forall v :: v in kept <==> KeepsBefore(ids, n, v)) && InFoundOrder(ids, kept)
  }

  lemma SkipsOne(ids: seq<Id>, kept: seq<Id>, n: nat)
    requires n < |ids| && KeptSoFar(ids, kept, n)
    requires Cleaned(ids[n]) == [] || Cleaned(ids[n]) in kept || Swallowed(ids, Cleaned(ids[n]))
    ensures KeptSoFar(ids, kept, n + 1)
  {
    KeepsOneMore(ids, n);
  }

  lemma TakesOne(ids: seq<Id>, kept: seq<Id>, n: nat)
    requires n < |ids| && KeptSoFar(ids, kept, n)
    requires Cleaned(ids[n]) != [] && Cleaned(ids[n]) !in kept && !Swallowed(ids, Cleaned(ids[n]))
    ensures KeptSoFar(ids, kept + [Cleaned(ids[n])], n + 1)
  {
    var v := Cleaned(ids[n]);
    KeepsOneMore(ids, n);
    assert AllCleaned(ids)[n] == v;
    assert Keeps(ids, v) && FoundAt(ids, v) >= n;
    forall a | 0 <= a < |kept| ensures FoundAt(ids, kept[a]) < FoundAt(ids, v) {
      assert KeepsBefore(ids, n, kept[a]);
    }
  }

  lemma KeepsOneMore(ids: seq<Id>, n: nat)
    requires n < |ids|
    ensures forall v :: KeepsBefore(ids, n + 1, v) <==>
                          KeepsBefore(ids, n, v) || (v == Cleaned(ids[n]) && Keeps(ids, v))
  {
    assert Cleaned(ids[n]) == AllCleaned(ids)[n];
  }

  // ---------------------------------------------------------------- for any candidates

  lemma SliceOfSlice(s: Id, j: nat, m: nat, i: nat, n: nat)
    requires j + m <= |s| && i + n <= m
    ensures s[j..j + m][i..i + n] == s[i + j..i + j + n]
  {
    var l, r := s[j..j + m][i..i + n], s[i + j..i + j + n];
    assert |l| == |r|;
    forall k | 0 <= k < n ensures l[k] == r[k] {}
  }

  lemma ContainsTransitive(a: Id, b: Id, c: Id)
    requires Contains(a, b) && Contains(b, c)
    ensures Contains(a, c)
  {
    var i: nat :| i <= |b| && IsAt(a, b, i);
    var j: nat :| j <= |c| && IsAt(b, c, j);
    SliceOfSlice(c, j, |b|, i, |a|);
    assert IsAt(a, c, i + j);
  }

  lemma LongerIfContained(part: Id, whole: Id)
    requires Contains(part, whole) && part != whole
    ensures |part| < |whole|
  {
    var i: nat :| i <= |whole| && IsAt(part, whole, i);
    assert whole[0..|whole|] == whole;
  }

  lemma StripInside(s: Id, blank: CodePoint -> bool)
    ensures Contains(Strip(s, blank), s)
  {
    var pre, post := StripCuts(s, blank);
    assert IsAt(Strip(s, blank), s, |pre|);
  }

  lemma CleanedIsInside(raw: Id)
    ensures Contains(Cleaned(raw), raw)
  {
    var a := Strip(raw, Blank);
    var b := LStrip(a, IsHash);
    StripInside(raw, Blank);
    var pre := LStripCuts(a, IsHash);
    assert IsAt(b, a, |pre|);
    StripInside(b, Blank);
    ContainsTransitive(b, a, raw);
    ContainsTransitive(Cleaned(raw), b, raw);
  }

  // A candidate that does need cleaning swallows its own cleaned form, so that one is never kept, not even
  // when it was found by itself as well.
  lemma UncleanIsLost(ids: seq<Id>, raw: Id)
    requires raw in ids && Cleaned(raw) != raw
    ensures !Keeps(ids, Cleaned(raw))
  {
    CleanedIsInside(raw);
    var k :| 0 <= k < |ids| && ids[k] == raw;
  }

  // So the kept ids are the candidates that are not empty, need no cleaning and are in no other candidate.
  lemma KeptAreMaximal(ids: seq<Id>, v: Id)
    ensures Keeps(ids, v) <==> v in ids && v != [] && Cleaned(v) == v && !Swallowed(ids, v)
  {
    if Keeps(ids, v) {
      var k :| 0 <= k < |ids| && AllCleaned(ids)[k] == v;
      if Cleaned(ids[k]) != ids[k] { UncleanIsLost(ids, ids[k]); }
    } else if v in ids && Cleaned(v) == v {
      var k :| 0 <= k < |ids| && ids[k] == v;
      assert AllCleaned(ids)[k] == v;
    }
  }

  // Whatever the candidates are, no kept id is in another kept id.
  lemma KeptIsAnAntichain(ids: seq<Id>, u: Id, v: Id)
    requires Keeps(ids, u) && Keeps(ids, v) && Contains(u, v)
    ensures u == v
  {
    KeptAreMaximal(ids, v);
    var k :| 0 <= k < |ids| && ids[k] == v;
  }

  // Every candidate is in one that is in no other.
  lemma {:induction false} SomeMaximalHolds(ids: seq<Id>, v: Id, size: nat) returns (m: Id)
    requires v in ids && forall k :: 0 <= k < |ids| ==> |ids[k]| <= size
    ensures m in ids && Contains(v, m) && !Swallowed(ids, m)
    decreases size - |v|
  {
    assert IsAt(v, v, 0);
    if Swallowed(ids, v) {
      var k :| 0 <= k < |ids| && ids[k] != v && Contains(v, ids[k]);
      LongerIfContained(v, ids[k]);
      m := SomeMaximalHolds(ids, ids[k], size);
      ContainsTransitive(v, ids[k], m);
    } else {
      m := v;
    }
  }

  function Longest(ids: seq<Id>): (n: nat)
    ensures forall k :: 0 <= k < |ids| ==> |ids[k]| <= n
  {
    if ids == [] then 0 else
    var n := Longest(ids[1..]);
    assert forall k :: 0 < k < |ids| ==> ids[k] == ids[1..][k - 1];
    if |ids[0]| > n then |ids[0]| else n
  }

  ghost predicate Covered(ids: seq<Id>, u: Id) {
    exists v :: Keeps(ids, v) && Contains(u, v)
  }

  predicate NeedsNoCleaning(id: Id) {
    id != [] && Cleaned(id) == id
  }

  // Every candidate is in some kept id, if and only if each candidate that is in no other is not empty and
  // needs no cleaning.
  lemma CoverageExactly(ids: seq<Id>)
    ensures (forall u :: u in ids ==> Covered(ids, u))
       <==> (forall m :: m in ids && !Swallowed(ids, m) ==> NeedsNoCleaning(m))
  {
    if forall u :: u in ids ==> Covered(ids, u) {
      forall m | m in ids && !Swallowed(ids, m) ensures NeedsNoCleaning(m) {
        assert Covered(ids, m);
        var v :| Keeps(ids, v) && Contains(m, v);
        KeptAreMaximal(ids, v);
        var k :| 0 <= k < |ids| && ids[k] == v;
      }
    }
    if forall m :: m in ids && !Swallowed(ids, m) ==> NeedsNoCleaning(m) {
      forall u | u in ids ensures Covered(ids, u) {
        var m := SomeMaximalHolds(ids, u, Longest(ids));
        KeptAreMaximal(ids, m);
      }
    }
  }

  // ---------------------------------------------------------------- what the patterns produce

  // No pattern lets a blank or a hash into a candidate, or an empty one through.
  predicate Plain(id: Id) {
    id != [] && forall c :: c in id ==> !IsSpace(c) && c != HASH
  }

  lemma PlainIsClean(id: Id)
    requires Plain(id)
    ensures Cleaned(id) == id
  {
    assert id[0] in id && id[|id| - 1] in id;
  }

  // Of candidates as the patterns produce them, the filter keeps exactly the ones that are in no other, and
  // every candidate is in some kept id.
  lemma KeptIsAMaximalAntichain(ids: seq<Id>, kept: seq<Id>)
    requires forall k :: 0 <= k < |ids| ==> Plain(ids[k])
    requires forall v :: v in kept <==> Keeps(ids, v)
    ensures forall v :: v in kept <==> v in ids && !Swallowed(ids, v)
    ensures forall u, v :: u in kept && v in kept && Contains(u, v) ==> u == v
    ensures forall u :: u in ids ==> exists v :: v in kept && Contains(u, v)
  {
    forall m | m in ids ensures NeedsNoCleaning(m) {
      var k :| 0 <= k < |ids| && ids[k] == m;
      PlainIsClean(m);
    }
    forall v ensures v in kept <==> v in ids && !Swallowed(ids, v) { KeptAreMaximal(ids, v); }
    forall u, v | u in kept && v in kept && Contains(u, v) ensures u == v { KeptIsAnAntichain(ids, u, v); }
    CoverageExactly(ids);
    forall u | u in ids ensures exists v :: v in kept && Contains(u, v) {
      assert Covered(ids, u);
      var v :| Keeps(ids, v) && Contains(u, v);
    }
  }
}
