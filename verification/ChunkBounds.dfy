/** How long the chunks of split_text get, for every size and overlap. */
module ChunkBounds {
  import opened Common
  import opened Chunker

  // ---------------------------------------------------------------- nothing is too long

  // The first of the separators when n of them are left.
  function SepOf(n: nat): string {
    if n >= 7 then "\n\n" else if n == 6 then "\n" else if n == 5 then ". " else if n == 4 then "? "
    else if n == 3 then "! " else if n == 2 then " " else ""
  }

  // Which lists of separators the recursion can meet.
  ghost predicate IsSeps(seps: seq<string>) {
    1 <= |seps| <= 7 && forall i :: 0 <= i < |seps| ==> seps[i] == SepOf(|seps| - i)
  }

  lemma AllSeps()
    ensures IsSeps(SEPARATORS)
  {}

  lemma FirstSep(seps: seq<string>)
    requires IsSeps(seps)
    ensures seps[0] == SepOf(|seps|) && (|seps| >= 2 ==> IsSeps(seps[1..]))
  {}

  lemma SepEnds(n: nat)
    requires n >= 2
    ensures var sep := SepOf(n); sep != "" && sep[|sep| - 1] == if n >= 6 then '\n' else ' '
    ensures Mark(SepOf(n)) == if n == 5 then "." else if n == 4 then "?" else if n == 3 then "!" else ""
  {}

  lemma {:induction false} SlicesFit(s: string, step: int, size: nat)
    requires step >= 1
    ensures forall t :: t in Slices(s, step, size) ==> |t| <= size
    decreases |s|
  {
    if s != "" { SlicesFit(s[Min(step, |s|)..], step, size); }
  }

  // The splitter on a text that is too long, at a level that has a separator.
  lemma SplitLong(chunk: string, seps: seq<string>, size: nat, overlap: int)
    requires |chunk| > size && seps != [] && seps[0] != ""
    ensures SplitRec(chunk, seps, size, overlap) == Tokens(SplitOn(chunk, seps[0]), seps, size, overlap)
  {}

  lemma {:induction false} BaseSplitsFit(chunk: string, seps: seq<string>, size: nat, overlap: int)
    requires IsSeps(seps)
    ensures forall t :: t in SplitRec(chunk, seps, size, overlap) ==> |t| <= size
    decreases |seps|, 0
  {
    if chunk != "" && |chunk| > size {
      if seps[0] == "" {
        SlicesFit(chunk, Max(1, size - overlap), size);
      } else {
        TokensFit(SplitOn(chunk, seps[0]), seps, size, overlap);
      }
    }
  }

  lemma {:induction false} TokensFit(pieces: seq<string>, seps: seq<string>, size: nat, overlap: int)
    requires IsSeps(seps) && seps[0] != ""
    ensures forall t :: t in Tokens(pieces, seps, size, overlap) ==> |t| <= size
    decreases |seps|, 0, |pieces|
  {
    if pieces != [] {
      FirstSep(seps);
      BaseSplitsFit(Token(pieces[0], seps[0]), seps[1..], size, overlap);
      TokensFit(pieces[1..], seps, size, overlap);
    }
  }

  // By how much a chunk can get over size: a whole overlap and the blank behind it. An overlap of size or
  // more is never taken, because no chunk is longer than that.
  function Extra(size: nat, overlap: int): nat {
    if 0 < overlap < size then overlap + 1 else 0
  }

  // The chunk being filled is always stripped, and it only gets over size by an overlap and a blank.
  predicate Filling(c: Chunk, size: nat, overlap: int) {
    Stripped(c.text) && c.cut <= |c.text| && |c.text| <= size + Extra(size, overlap)
  }

  lemma GlueStripped(a: string, m: string, b: string)
    requires a != "" && b != "" && Stripped(a) && Stripped(b)
    ensures Stripped(a + m + b) && StripStr(a + m + b) == a + m + b
  {
    assert (a + m + b)[0] == a[0] && (a + m + b)[|a + m + b| - 1] == b[|b| - 1];
    StripFixed(a + m + b, Blank);
  }

  lemma NextIsFilling(cur: string, split: string, size: nat, overlap: int)
    requires Stripped(split) && split != "" && |split| <= size && |cur| <= size + Extra(size, overlap)
    ensures Filling(Next(cur, split, overlap), size, overlap)
    ensures var n := Next(cur, split, overlap); n.text[n.cut..] == split && n.text != ""
  {
    if overlap > 0 && |cur| > overlap {
      var tail := StripStr(cur[|cur| - overlap..]);
      if tail != "" { GlueStripped(tail, " ", split); }
    }
  }

  // What a step does, seen from outside: nothing, or the split goes behind the chunk, or it starts a new one.
  lemma StepShape(split: string, c: Chunk, size: nat, overlap: int)
    requires |split| <= size && Filling(c, size, overlap)
    ensures var s := StripStr(split);
            || (s == "" && Step(split, c, size, overlap) == ([], c))
            || (s != "" && c.text == "" && Step(split, c, size, overlap) == ([], Chunk(s, 0)))
            || (s != "" && c.text != "" && |c.text| + 1 + |s| <= size
                && Step(split, c, size, overlap) == ([], Chunk(c.text + "\n" + s, c.cut)))
            || (s != "" && c.text != "" && |c.text| + 1 + |s| > size
                && Step(split, c, size, overlap) == ([c], Next(c.text, s, overlap)))
  {
    var s := StripStr(split);
    if s != "" && c.text != "" { GlueStripped(c.text, "\n", s); }
  }

  lemma StepKeepsFilling(split: string, c: Chunk, size: nat, overlap: int)
    requires |split| <= size && Filling(c, size, overlap)
    ensures var (out, c') := Step(split, c, size, overlap);
            Filling(c', size, overlap) && (out == [] || (out == [c] && c.text != ""))
  {
    StepShape(split, c, size, overlap);
    var s := StripStr(split);
    if s != "" && c.text != "" {
      GlueStripped(c.text, "\n", s);
      NextIsFilling(c.text, s, size, overlap);
    }
  }

  lemma {:induction false} MergedFit(splits: seq<string>, c: Chunk, size: nat, overlap: int)
    requires (forall t :: t in splits ==> |t| <= size) && Filling(c, size, overlap)
    ensures forall x :: x in Merge(splits, c, size, overlap) ==> Filling(x, size, overlap) && x.text != ""
    decreases |splits|
  {
    if splits != [] {
      StepKeepsFilling(splits[0], c, size, overlap);
      MergedFit(splits[1..], Step(splits[0], c, size, overlap).1, size, overlap);
    }
  }

  // Every base split fits, so the branch for an oversized split is never taken: a chunk is put out only
  // when it is full, and it is the one being filled.
  lemma OversizedBranchIsDead(text: string, size: nat, overlap: int, split: string, c: Chunk)
    requires split in SplitRec(text, SEPARATORS, size, overlap)
    ensures |split| <= size
    ensures c.text == "" ==> Step(split, c, size, overlap).0 == []
  {
    AllSeps();
    BaseSplitsFit(text, SEPARATORS, size, overlap);
  }

  // ---------------------------------------------------------------- something is left to merge

  predicate HasInk(s: string) {
    exists i :: 0 <= i < |s| && !Blank(s[i])
  }

  ghost predicate AnyInk(ss: seq<string>) {
    exists k :: 0 <= k < |ss| && HasInk(ss[k])
  }

  lemma AnyInkConcat(a: seq<string>, b: seq<string>)
    requires AnyInk(a) || AnyInk(b)
    ensures AnyInk(a + b)
  {
    if AnyInk(a) {
      var k :| 0 <= k < |a| && HasInk(a[k]);
      assert (a + b)[k] == a[k];
    } else {
      var k :| 0 <= k < |b| && HasInk(b[k]);
      assert (a + b)[|a| + k] == b[k];
    }
  }

  lemma OneHasInk(s: string)
    requires HasInk(s)
    ensures AnyInk([s])
  {
    assert HasInk([s][0]);
  }

  predicate Ends(s: string, m: string) {
    |m| <= |s| && s[|s| - |m|..] == m
  }

  lemma EndsTail(s: string, n: nat, m: string)
    requires n <= |s| && |m| <= |s| - n
    ensures Ends(s[n..], m) <==> Ends(s, m)
  {
    assert s[n..][|s| - n - |m|..] == s[|s| - |m|..];
  }

  lemma EndsMore(s: string, m: string, x: string)
    requires Ends(s, m)
    ensures Ends(s + x, m + x)
  {
    assert s + x == s[..|s| - |m|] + (m + x);
  }

  lemma PrefixIsInside(s: string, sep: string, c: char)
    requires c in sep
    ensures sep <= s ==> c in s
  {}

  // A separator with a character that the text does not have.
  lemma {:induction false} NothingToSplit(s: string, sep: string, c: char)
    requires c in sep && c !in s
    ensures SplitOn(s, sep) == [s]
    decreases |s|
  {
    PrefixIsInside(s, sep, c);
    if s != "" {
      NothingToSplit(s[1..], sep, c);
      assert [s[0]] + s[1..] == s;
    }
  }

  function LastOf(r: seq<string>): string
    requires r != []
  {
    r[|r| - 1]
  }

  lemma SeparatorIsBefore(s: string, m: string, sep: string)
    requires sep != "" && sep <= s && Ends(s, m) && sep[|sep| - 1] !in m
    ensures |sep| <= |s| - |m|
  {
    var k := |s| - |m|;
    forall i | k <= i < |s| ensures s[i] in m { assert s[i] == s[k..][i - k]; }
    assert s[|sep| - 1] == sep[|sep| - 1];
  }

  // The last piece of a text ends as the text does, up to the last separator.
  lemma {:induction false} LastPieceEnds(s: string, m: string, sep: string)
    requires sep != "" && m != "" && sep[|sep| - 1] !in m && Ends(s, m)
    ensures Ends(LastOf(SplitOn(s, sep)), m)
    decreases |s|
  {
    var k, n := |s| - |m|, |sep|;
    if sep <= s {
      SeparatorIsBefore(s, m, sep);
      EndsTail(s, n, m);
      LastPieceEnds(s[n..], m, sep);
      var q := SplitOn(s[n..], sep);
      assert LastOf([""] + q) == LastOf(q);
    } else if k == 0 {
      assert s == m;
      NothingToSplit(s, sep, sep[n - 1]);
    } else {
      EndsTail(s, 1, m);
      LastPieceEnds(s[1..], m, sep);
      LastInFront(s[0], SplitOn(s[1..], sep), m);
    }
  }

  lemma LastInFront(c: char, q: seq<string>, m: string)
    requires q != [] && Ends(LastOf(q), m)
    ensures Ends(LastOf([[c] + q[0]] + q[1..]), m)
  {
    var r := [[c] + q[0]] + q[1..];
    if |q| == 1 {
      EndsTail([c] + q[0], 1, m);
      assert ([c] + q[0])[1..] == q[0];
    } else {
      assert LastOf(r) == LastOf(q);
    }
  }

  // What the marks put back have made of the end of a text when a level is reached.
  function MarkTail(levels: nat): string {
    if levels >= 5 then "" else if levels == 4 then "." else if levels == 3 then ".?" else ".?!"
  }

  predicate InkTail(s: string, levels: nat) {
    s != "" && !Blank(s[|s| - 1]) && Ends(s, MarkTail(levels))
  }

  lemma InkTailHasInk(s: string, levels: nat)
    requires InkTail(s, levels)
    ensures HasInk(s)
  {
    assert !Blank(s[|s| - 1]);
  }

  lemma EndsLast(s: string, m: string)
    requires m != "" && Ends(s, m)
    ensures s[|s| - 1] == m[|m| - 1]
  {
    assert s[|s| - |m|..][|m| - 1] == s[|s| - 1];
  }

  lemma TokenEndsInMark(s: string, sep: string)
    requires s != "" && |Mark(sep)| == 1
    ensures var t := Token(s, sep); t != "" && t[|t| - 1] == Mark(sep)[0]
  {}

  lemma TokenAddsMark(s: string, sep: string)
    requires s != "" && (Mark(sep) == "" || (|Mark(sep)| == 1 && Mark(sep)[0] != s[|s| - 1]))
    ensures Token(s, sep) == s + Mark(sep)
  {}

  // The last piece keeps the end m of the text, and its mark is put behind it.
  lemma MarkGoesBehind(s: string, m: string, sep: string)
    requires sep != "" && m != "" && sep[|sep| - 1] !in m && Ends(s, m)
    requires Mark(sep) == "" || (|Mark(sep)| == 1 && Mark(sep)[0] != m[|m| - 1])
    ensures LastOf(SplitOn(s, sep)) != "" && Ends(Token(LastOf(SplitOn(s, sep)), sep), m + Mark(sep))
  {
    LastPieceEnds(s, m, sep);
    var p := LastOf(SplitOn(s, sep));
    EndsLast(p, m);
    EndsMore(p, m, Mark(sep));
    TokenAddsMark(p, sep);
  }

  lemma MarksAreTail(s: string, n: nat)
    requires n <= 4 && Ends(s, MarkTail(n))
    ensures InkTail(s, n)
  {
    EndsLast(s, MarkTail(n));
  }

  lemma LastIsEnd(s: string)
    requires s != ""
    ensures Ends(s, [s[|s| - 1]])
  {}

  // Where no mark is put back, the last character stays.
  lemma LastSurvives(s: string, sep: string)
    requires sep != "" && s != "" && s[|s| - 1] != sep[|sep| - 1]
    ensures var p := LastOf(SplitOn(s, sep)); p != "" && p[|p| - 1] == s[|s| - 1]
  {
    LastIsEnd(s);
    LastPieceEnds(s, [s[|s| - 1]], sep);
    EndsLast(LastOf(SplitOn(s, sep)), [s[|s| - 1]]);
  }

  lemma TailWithoutMark(s: string, sep: string, n: nat)
    requires sep != "" && Blank(sep[|sep| - 1]) && Mark(sep) == "" && n >= 5
    requires s != "" && !Blank(s[|s| - 1])
    ensures LastOf(SplitOn(s, sep)) != "" && InkTail(Token(LastOf(SplitOn(s, sep)), sep), n)
  {
    LastSurvives(s, sep);
    var p := LastOf(SplitOn(s, sep));
    assert p[|p|..] == MarkTail(n);
  }

  lemma TailWithStop(s: string, sep: string)
    requires sep != "" && Blank(sep[|sep| - 1]) && Mark(sep) == "."
    requires s != "" && !Blank(s[|s| - 1])
    ensures LastOf(SplitOn(s, sep)) != "" && InkTail(Token(LastOf(SplitOn(s, sep)), sep), 4)
  {
    LastSurvives(s, sep);
    var t := Token(LastOf(SplitOn(s, sep)), sep);
    TokenEndsInMark(LastOf(SplitOn(s, sep)), sep);
    LastIsEnd(t);
    assert [t[|t| - 1]] == MarkTail(4);
    MarksAreTail(t, 4);
  }

  lemma SepsEndBlank(n: nat)
    requires n >= 2
    ensures SepOf(n) != "" && Blank(SepOf(n)[|SepOf(n)| - 1])
  {
    SepEnds(n);
  }

  lemma TailOfMarks(s: string, n: nat)
    requires 2 <= n <= 4 && Ends(s, MarkTail(n))
    ensures LastOf(SplitOn(s, SepOf(n))) != "" && InkTail(Token(LastOf(SplitOn(s, SepOf(n))), SepOf(n)), n - 1)
  {
    SepEnds(n);
    MarkGoesBehind(s, MarkTail(n), SepOf(n));
    assert MarkTail(n) + Mark(SepOf(n)) == MarkTail(n - 1);
    MarksAreTail(Token(LastOf(SplitOn(s, SepOf(n))), SepOf(n)), n - 1);
  }

  lemma TailSurvives(s: string, seps: seq<string>)
    requires IsSeps(seps) && |seps| >= 2 && InkTail(s, |seps|)
    ensures seps[0] != "" && LastOf(SplitOn(s, seps[0])) != ""
    ensures InkTail(Token(LastOf(SplitOn(s, seps[0])), seps[0]), |seps| - 1)
  {
    FirstSep(seps);
    SepEnds(|seps|);
    SepsEndBlank(|seps|);
    if |seps| >= 6 {
      TailWithoutMark(s, seps[0], |seps| - 1);
    } else if |seps| == 5 {
      TailWithStop(s, seps[0]);
    } else {
      TailOfMarks(s, |seps|);
    }
  }

  // Slices a step apart, of which each leaves out at most two characters, meet ink when the last three are ink.
  lemma {:induction false} SlicesHaveInk(s: string, step: int, size: nat)
    requires 1 <= step <= size + 2 && size >= 1 && s != ""
    requires forall i :: 0 <= i < |s| && i >= |s| - 3 ==> !Blank(s[i])
    ensures AnyInk(Slices(s, step, size))
    decreases |s|
  {
    var first, rest := s[..Min(size, |s|)], s[Min(step, |s|)..];
    if |s| <= step {
      var i := Max(0, |s| - 3);
      assert first[i] == s[i] && HasInk(first);
      OneHasInk(first);
    } else {
      SlicesHaveInk(rest, step, size);
    }
    AnyInkConcat([first], Slices(rest, step, size));
  }

  lemma {:induction false} SplitsHaveInk(chunk: string, seps: seq<string>, size: nat, overlap: int)
    requires size >= 1 && overlap >= -2 && IsSeps(seps) && InkTail(chunk, |seps|)
    ensures AnyInk(SplitRec(chunk, seps, size, overlap))
    decreases |seps|, 1, 0
  {
    if |chunk| <= size {
      InkTailHasInk(chunk, |seps|);
      OneHasInk(chunk);
    } else if |seps| == 1 {
      FirstSep(seps);
      MarksAreInk(chunk);
      SlicesHaveInk(chunk, Max(1, size - overlap), size);
    } else {
      TailSurvives(chunk, seps);
      FirstSep(seps);
      SplitLong(chunk, seps, size, overlap);
      TokensHaveInk(SplitOn(chunk, seps[0]), seps, size, overlap);
    }
  }

  lemma MarksAreInk(s: string)
    requires Ends(s, ".?!")
    ensures |s| >= 3 && forall i :: |s| - 3 <= i < |s| ==> !Blank(s[i])
  {
    var k := |s| - 3;
    assert s[k] == s[k..][0] && s[k + 1] == s[k..][1] && s[k + 2] == s[k..][2];
  }

  lemma {:induction false} TokensHaveInk(pieces: seq<string>, seps: seq<string>, size: nat, overlap: int)
    requires size >= 1 && overlap >= -2 && IsSeps(seps) && |seps| >= 2 && IsSeps(seps[1..])
    requires pieces != [] && LastOf(pieces) != "" && InkTail(Token(LastOf(pieces), seps[0]), |seps| - 1)
    ensures AnyInk(Tokens(pieces, seps, size, overlap))
    decreases |seps|, 0, |pieces|
  {
    if |pieces| == 1 {
      PieceHasInk(pieces[0], seps, size, overlap);
    } else {
      TokensHaveInk(pieces[1..], seps, size, overlap);
    }
    AnyInkConcat(TokenSplits(pieces[0], seps, size, overlap), Tokens(pieces[1..], seps, size, overlap));
  }

  lemma {:induction false} PieceHasInk(piece: string, seps: seq<string>, size: nat, overlap: int)
    requires size >= 1 && overlap >= -2 && IsSeps(seps) && |seps| >= 2 && IsSeps(seps[1..])
    requires piece != "" && InkTail(Token(piece, seps[0]), |seps| - 1)
    ensures AnyInk(TokenSplits(piece, seps, size, overlap))
    decreases |seps|, 0, 0
  {
    var token := Token(piece, seps[0]);
    if |token| > size {
      SplitsHaveInk(token, seps[1..], size, overlap);
    } else {
      InkTailHasInk(token, |seps| - 1);
      OneHasInk(token);
    }
  }

  lemma {:induction false} MergeNotEmpty(splits: seq<string>, c: Chunk, size: nat, overlap: int)
    requires (forall t :: t in splits ==> |t| <= size) && Filling(c, size, overlap)
    requires c.text != "" || AnyInk(splits)
    ensures Merge(splits, c, size, overlap) != []
    decreases |splits|
  {
    if splits != [] {
      var (out, c') := Step(splits[0], c, size, overlap);
      StepKeepsFilling(splits[0], c, size, overlap);
      if out == [] {
        if c.text != "" || HasInk(splits[0]) {
          StepHasText(splits[0], c, size, overlap);
        } else {
          var k :| 0 <= k < |splits| && HasInk(splits[k]);
          assert splits[1..][k - 1] == splits[k];
        }
        MergeNotEmpty(splits[1..], c', size, overlap);
      }
    }
  }

  lemma StepHasText(split: string, c: Chunk, size: nat, overlap: int)
    requires |split| <= size && Filling(c, size, overlap) && (c.text != "" || HasInk(split))
    requires Step(split, c, size, overlap).0 == []
    ensures Step(split, c, size, overlap).1.text != ""
  {
    var s := StripStr(split);
    if c.text != "" {
      if s != "" { GlueStripped(c.text, "\n", s); }
    } else {
      var i :| 0 <= i < |split| && !Blank(split[i]);
      var pre, post := StripCuts(split, Blank);
      assert split[i] in pre + s + post;
    }
  }

  // ---------------------------------------------------------------- how long a chunk can get

  // The bound that the code keeps: size, plus an overlap and one blank where the overlap is less than size. Only
  // an overlap of -3 or less can lose every character that is not blank, and then the text comes back whole.
  lemma ChunkBound(text: string, size: nat, overlap: int)
    requires size >= 1
    ensures forall x :: x in SplitChunks(text, size, overlap) ==>
              || |x.text| <= size + Extra(size, overlap)
              || (overlap <= -3 && SplitChunks(text, size, overlap) == [Chunk(StripStr(text), 0)])
  {
    var t := StripStr(text);
    if text != "" && |t| > size {
      var splits := SplitRec(t, SEPARATORS, size, overlap);
      AllSeps();
      BaseSplitsFit(t, SEPARATORS, size, overlap);
      MergedFit(splits, Chunk("", 0), size, overlap);
      if overlap >= -2 {
        SplitsHaveInk(t, SEPARATORS, size, overlap);
        MergeNotEmpty(splits, Chunk("", 0), size, overlap);
      }
    }
  }

  // Two full splits without white space make a second chunk of size + overlap + 1 characters.
  lemma FullSplitsMerge(a: string, b: string, size: nat, overlap: int)
    requires 0 < overlap < size && |a| == |b| == size
    requires (forall c :: c in a ==> !Blank(c)) && (forall c :: c in b ==> !Blank(c))
    ensures Merge([a, b], Chunk("", 0), size, overlap)
         == [Chunk(a, 0), Chunk(a[size - overlap..] + " " + b, overlap + 1)]
  {
    var tail, first, none := a[size - overlap..], Chunk(a, 0), Chunk("", 0);
    StripFixed(a, Blank);
    StripFixed(b, Blank);
    assert Step(a, none, size, overlap) == ([], first);
    var second := Chunk(tail + " " + b, overlap + 1);
    FullNext(a, b, overlap);
    GlueStripped(a, "\n", b);
    StepShape(b, first, size, overlap);
    assert Step(b, first, size, overlap) == ([first], second);
    MergeTwo(a, b, none, size, overlap);
  }

  lemma FullNext(a: string, b: string, overlap: int)
    requires 0 < overlap < |a| && b != ""
    requires (forall c :: c in a ==> !Blank(c)) && (forall c :: c in b ==> !Blank(c))
    ensures Next(a, b, overlap) == Chunk(a[|a| - overlap..] + " " + b, overlap + 1)
  {
    var tail := a[|a| - overlap..];
    StripFixed(tail, Blank);
    GlueStripped(tail, " ", b);
  }

  lemma MergeTwo(a: string, b: string, c: Chunk, size: nat, overlap: int)
    ensures var (out1, c1) := Step(a, c, size, overlap);
            var (out2, c2) := Step(b, c1, size, overlap);
            Merge([a, b], c, size, overlap) == out1 + (out2 + if c2.text != "" then [c2] else [])
  {
    var (out1, c1) := Step(a, c, size, overlap);
    var (out2, c2) := Step(b, c1, size, overlap);
    assert [a, b][1..] == [b] && [b][1..] == [];
    assert Merge([b], c1, size, overlap) == out2 + Merge([], c2, size, overlap);
  }

  lemma {:induction false} OneBreakSplits(a: string, b: string)
    requires '\n' !in a && '\n' !in b
    ensures SplitOn(a + "\n\n" + b, "\n\n") == [a, b]
    decreases |a|
  {
    var s := a + "\n\n" + b;
    if a == "" {
      assert s[..2] == "\n\n" && s[2..] == b;
      NothingToSplit(b, "\n\n", '\n');
    } else {
      assert s[0] == a[0] && s[1..] == a[1..] + "\n\n" + b;
      OneBreakSplits(a[1..], b);
      assert [a[0]] + a[1..] == a;
    }
  }

  // For an overlap between 0 and size the bound is reached: two paragraphs of size characters without white
  // space give a second chunk of size + overlap + 1.
  lemma BoundIsReached(a: string, b: string, size: nat, overlap: int)
    requires 0 < overlap < size && |a| == |b| == size
    requires (forall c :: c in a ==> !Blank(c)) && (forall c :: c in b ==> !Blank(c))
    ensures SplitChunks(a + "\n\n" + b, size, overlap)
         == [Chunk(a, 0), Chunk(a[size - overlap..] + " " + b, overlap + 1)]
    ensures |a[size - overlap..] + " " + b| == size + overlap + 1
  {
    GlueStripped(a, "\n\n", b);
    TwoParagraphsSplit(a, b, size, overlap);
    FullSplitsMerge(a, b, size, overlap);
  }

  lemma TwoParagraphsSplit(a: string, b: string, size: nat, overlap: int)
    requires 0 < |a| <= size && 0 < |b| <= size && |a| + |b| + 2 > size
    requires (forall c :: c in a ==> !Blank(c)) && (forall c :: c in b ==> !Blank(c))
    ensures SplitRec(a + "\n\n" + b, SEPARATORS, size, overlap) == [a, b]
  {
    assert Blank('\n');
    OneBreakSplits(a, b);
    SplitLong(a + "\n\n" + b, SEPARATORS, size, overlap);
    TokensOfTwo(a, b, size, overlap);
  }

  lemma TokensOfTwo(a: string, b: string, size: nat, overlap: int)
    requires a != "" && b != "" && |a| <= size && |b| <= size
    ensures Tokens([a, b], SEPARATORS, size, overlap) == [a, b]
  {
    assert [a, b][1..] == [b] && [b][1..] == [];
    assert TokenSplits(a, SEPARATORS, size, overlap) == [a] && TokenSplits(b, SEPARATORS, size, overlap) == [b];
    assert Tokens([b], SEPARATORS, size, overlap) == [b] + Tokens([], SEPARATORS, size, overlap) == [b];
    assert [a] + [b] == [a, b];
  }

  function Times(c: char, n: nat): (r: string)
    ensures |r| == n && forall i :: 0 <= i < n ==> r[i] == c
  {
    seq(n, i => c)
  }

  // One level of separators that the text does not have, up to the mark that it puts behind it.
  lemma PassLevel(chunk: string, seps: seq<string>, size: nat, overlap: int, c: char)
    requires |chunk| > size && seps != [] && c in seps[0] && c !in chunk
    ensures SplitRec(chunk, seps, size, overlap) == SplitRec(Token(chunk, seps[0]), seps[1..], size, overlap)
  {
    NothingToSplit(chunk, seps[0], c);
    SplitLong(chunk, seps, size, overlap);
    assert [chunk][1..] == [];
    var one := TokenSplits(chunk, seps, size, overlap);
    assert Tokens([chunk], seps, size, overlap) == one + [] == one;
  }

  // A text that does not fit, has no separator in it and no mark at its end goes down to the cutting level.
  lemma PassWords(w: string, size: nat, overlap: int)
    requires |w| > size && '\n' !in w && ' ' !in w && w[|w| - 1] == '.'
    ensures SplitRec(w, SEPARATORS[3..], size, overlap) == Slices(w + "?!", Max(1, size - overlap), size)
  {
    var s := SEPARATORS;
    assert s[3..][1..] == s[4..] && s[4..][1..] == s[5..] && s[5..][1..] == s[6..];
    PassLevel(w, s[3..], size, overlap, ' ');
    PassLevel(w + "?", s[4..], size, overlap, ' ');
    assert w + "?" + "!" == w + "?!";
    PassLevel(w + "?!", s[5..], size, overlap, ' ');
  }

  // A text that begins with a separator and then has size blanks of another kind: its first three characters
  // that are not blank are dropped or fall between two slices.
  function Hidden(size: nat): string {
    ". " + (Times('\t', size) + ".")
  }

  lemma HiddenIsStripped(size: nat)
    ensures StripStr(Hidden(size)) == Hidden(size) && |Hidden(size)| == size + 3
  {
    var t := Hidden(size);
    assert t[0] == '.' && t[|t| - 1] == '.';
    StripFixed(t, Blank);
  }

  lemma HiddenWordIsOneSlice(size: nat, overlap: int)
    requires overlap <= -3
    ensures SplitRec(Times('\t', size) + ".", SEPARATORS[3..], size, overlap) == [Times('\t', size)]
  {
    var w, step := Times('\t', size) + ".", Max(1, size - overlap);
    PassWords(w, size, overlap);
    var u := w + "?!";
    assert u[..size] == Times('\t', size) && u[|u|..] == "";
    assert Slices(u, step, size) == [u[..size]] + Slices("", step, size);
  }

  // The first piece is empty, so what stood in front of it is dropped.
  lemma HiddenHead(w: string, size: nat, overlap: int)
    requires |w| > size && ' ' !in w && w[|w| - 1] == '.'
    ensures SplitRec(". " + w, SEPARATORS[2..], size, overlap) == SplitRec(w, SEPARATORS[3..], size, overlap)
  {
    var t, s := ". " + w, SEPARATORS[2..];
    SplitLong(t, s, size, overlap);
    NothingToSplit(w, ". ", ' ');
    assert t[2..] == w && SplitOn(t, ". ") == [""] + [w];
    assert ["", w][1..] == [w] && [w][1..] == [] && s[1..] == SEPARATORS[3..];
    var one := TokenSplits(w, s, size, overlap);
    assert Tokens([w], s, size, overlap) == one + Tokens([], s, size, overlap) == one;
    assert Tokens(["", w], s, size, overlap) == TokenSplits("", s, size, overlap) + Tokens([w], s, size, overlap);
  }

  lemma HiddenSplits(size: nat, overlap: int)
    requires overlap <= -3
    ensures SplitRec(Hidden(size), SEPARATORS, size, overlap) == [Times('\t', size)]
  {
    var t, s := Hidden(size), SEPARATORS;
    assert s[0..] == s && s[1..][1..] == s[2..];
    PassLevel(t, s, size, overlap, '\n');
    PassLevel(t, s[1..], size, overlap, '\n');
    HiddenHead(Times('\t', size) + ".", size, overlap);
    HiddenWordIsOneSlice(size, overlap);
  }

  lemma HiddenComesBackWhole(size: nat, overlap: int)
    requires overlap <= -3
    ensures SplitChunks(Hidden(size), size, overlap) == [Chunk(Hidden(size), 0)]
  {
    HiddenIsStripped(size);
    HiddenSplits(size, overlap);
    BlankMergesToNothing(Times('\t', size), size, overlap);
  }

  lemma BlankMergesToNothing(s: string, size: nat, overlap: int)
    requires forall i :: 0 <= i < |s| ==> Blank(s[i])
    ensures Merge([s], Chunk("", 0), size, overlap) == []
  {
    var pre, post := StripCuts(s, Blank);
    var r := StripStr(s);
    forall i | 0 <= i < |r| ensures Blank(r[i]) { assert r[i] == s[|pre| + i]; }
    assert [s][1..] == [];
    assert Merge([s], Chunk("", 0), size, overlap) == [] + Merge([], Chunk("", 0), size, overlap);
  }

  // With a size of zero even one character comes back whole.
  lemma NothingFitsIntoNothing(overlap: int)
    ensures SplitChunks("x", 0, overlap) == [Chunk("x", 0)]
  {
    StripFixed("x", Blank);
    var c := Chunk("", 0);
    AllSeps();
    BaseSplitsFit("x", SEPARATORS, 0, overlap);
    EmptyMergesToNothing(SplitRec("x", SEPARATORS, 0, overlap), overlap);
  }

  lemma {:induction false} EmptyMergesToNothing(splits: seq<string>, overlap: int)
    requires forall t :: t in splits ==> |t| <= 0
    ensures Merge(splits, Chunk("", 0), 0, overlap) == []
    decreases |splits|
  {
    if splits != [] {
      assert splits[0] in splits && splits[0] == "";
      EmptyMergesToNothing(splits[1..], overlap);
    }
  }

  predicate KeepsSize(text: string, size: nat, overlap: int) {
    forall x :: x in SplitChunks(text, size, overlap) ==> |x.text| <= size
  }

  // The length that the documentation promises, at most size, is kept for every text exactly when size is
  // positive and the overlap is size or more, 0, -1 or -2.
  lemma SizeKeptExactly(size: nat, overlap: int)
    ensures (forall text :: KeepsSize(text, size, overlap)) <==> size >= 1 && (-2 <= overlap <= 0 || overlap >= size)
  {
    if size == 0 {
      NothingFitsIntoNothing(overlap);
      assert SplitChunks("x", 0, overlap)[0] == Chunk("x", 0);
      assert !KeepsSize("x", size, overlap);
    } else if overlap <= -3 {
      HiddenComesBackWhole(size, overlap);
      HiddenIsStripped(size);
      assert SplitChunks(Hidden(size), size, overlap)[0] == Chunk(Hidden(size), 0);
      assert !KeepsSize(Hidden(size), size, overlap);
    } else if 0 < overlap < size {
      var a := Times('a', size);
      BoundIsReached(a, a, size, overlap);
      assert |SplitChunks(a + "\n\n" + a, size, overlap)[1].text| == size + overlap + 1;
      assert !KeepsSize(a + "\n\n" + a, size, overlap);
    } else {
      forall text ensures KeepsSize(text, size, overlap) {
        ChunkBound(text, size, overlap);
      }
    }
  }
}
