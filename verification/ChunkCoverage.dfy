/** What the chunks of split_text hold: no letter or digit of the text is lost, and when none is repeated. */
module ChunkCoverage {
  import opened Common
  import opened Chunker
  import opened ChunkBounds

  // ---------------------------------------------------------------- the characters that count

  // Not white space and not a sentence mark; letters and digits are among these.
  predicate Keep(c: char) {
    !Blank(c) && c != '.' && c != '?' && c != '!'
  }

  function Core(s: string): string {
    if s == "" then "" else (if Keep(s[0]) then [s[0]] else "") + Core(s[1..])
  }

  function Flat(ss: seq<string>): string {
    if ss == [] then "" else ss[0] + Flat(ss[1..])
  }

  lemma {:induction false} CoreConcat(a: string, b: string)
    ensures Core(a + b) == Core(a) + Core(b)
    decreases |a|
  {
    if a == "" {
      assert a + b == b;
    } else {
      assert (a + b)[0] == a[0] && (a + b)[1..] == a[1..] + b;
      CoreConcat(a[1..], b);
      ConcatAssoc(if Keep(a[0]) then [a[0]] else "", Core(a[1..]), Core(b));
    }
  }

  lemma {:induction false} FlatConcat(a: seq<string>, b: seq<string>)
    ensures Flat(a + b) == Flat(a) + Flat(b)
    decreases |a|
  {
    if a == [] {
      assert a + b == b;
    } else {
      assert (a + b)[1..] == a[1..] + b;
      FlatConcat(a[1..], b);
      ConcatAssoc(a[0], Flat(a[1..]), Flat(b));
    }
  }

  lemma {:induction false} NoCore(s: string)
    requires forall c :: c in s ==> !Keep(c)
    ensures Core(s) == ""
  {
    if s != "" { NoCore(s[1..]); }
  }

  lemma CoreStrip(s: string)
    ensures Core(StripStr(s)) == Core(s)
  {
    var pre, post := StripCuts(s, Blank);
    NoCore(pre);
    NoCore(post);
    CoreConcat(pre, StripStr(s));
    CoreConcat(pre + StripStr(s), post);
  }

  lemma CoreToken(s: string, sep: string)
    ensures Core(Token(s, sep)) == Core(s)
    ensures |Token(s, sep)| <= |s| + 1
  {
    NoCore(Mark(sep));
    CoreConcat(s, Mark(sep));
  }

  // ---------------------------------------------------------------- taking apart at a separator

  function Join(ss: seq<string>, sep: string): string {
    if ss == [] then "" else if |ss| == 1 then ss[0] else ss[0] + (sep + Join(ss[1..], sep))
  }

  lemma JoinFront(c: char, q: seq<string>, sep: string)
    requires q != []
    ensures Join([[c] + q[0]] + q[1..], sep) == [c] + Join(q, sep)
  {
    var r := [[c] + q[0]] + q[1..];
    assert r[0] == [c] + q[0] && r[1..] == q[1..];
    if |q| > 1 { ConcatAssoc([c], q[0], sep + Join(q[1..], sep)); }
  }

  // Joining the pieces gives the text back.
  lemma {:induction false} SplitThenJoin(s: string, sep: string)
    requires sep != ""
    ensures Join(SplitOn(s, sep), sep) == s
    decreases |s|
  {
    if sep <= s {
      var rest := SplitOn(s[|sep|..], sep);
      SplitThenJoin(s[|sep|..], sep);
      assert ([""] + rest)[1..] == rest;
      assert "" + (sep + s[|sep|..]) == s;
    } else if s != "" {
      SplitThenJoin(s[1..], sep);
      JoinFront(s[0], SplitOn(s[1..], sep), sep);
      assert [s[0]] + s[1..] == s;
    }
  }

  lemma {:induction false} CoreSplit(s: string, sep: string)
    requires sep != "" && Core(sep) == ""
    ensures Core(Flat(SplitOn(s, sep))) == Core(s)
    decreases |s|
  {
    var r := SplitOn(s, sep);
    if sep <= s {
      CoreSplit(s[|sep|..], sep);
      assert r[1..] == SplitOn(s[|sep|..], sep);
      assert sep + s[|sep|..] == s;
      CoreConcat(sep, s[|sep|..]);
      assert "" + Flat(r[1..]) == Flat(r[1..]);
    } else if s != "" {
      CoreSplit(s[1..], sep);
      var q := SplitOn(s[1..], sep);
      assert r[0] == [s[0]] + q[0] && r[1..] == q[1..];
      ConcatAssoc([s[0]], q[0], Flat(q[1..]));
      CoreConcat([s[0]], Flat(q));
      CoreConcat([s[0]], s[1..]);
      assert [s[0]] + s[1..] == s;
    }
  }

  // Where the pieces stand in the text.
  lemma {:induction false} PieceIsStretch(s: string, sep: string, k: nat) returns (a: nat)
    requires sep != "" && k < |SplitOn(s, sep)|
    ensures IsAt(SplitOn(s, sep)[k], s, a) && (k == 0 ==> a == 0)
    decreases |s|
  {
    var r := SplitOn(s, sep);
    a := 0;
    if sep <= s {
      if k > 0 {
        var b := PieceIsStretch(s[|sep|..], sep, k - 1);
        a := b + |sep|;
        IsAtTail(r[k], s, |sep|, b);
      }
    } else if s != "" {
      var b := PieceIsStretch(s[1..], sep, k);
      if k > 0 {
        a := b + 1;
        IsAtTail(r[k], s, 1, b);
      } else {
        IsAtFront(SplitOn(s[1..], sep)[0], s);
      }
    }
  }

  lemma IsAtTail(p: string, s: string, n: nat, b: nat)
    requires n <= |s| && IsAt(p, s[n..], b)
    ensures IsAt(p, s, b + n)
  {
    assert s[b + n..b + n + |p|] == s[n..][b..b + |p|];
  }

  lemma IsAtFront(q: string, s: string)
    requires s != "" && IsAt(q, s[1..], 0)
    ensures IsAt([s[0]] + q, s, 0)
  {
    assert s[0..|q| + 1] == [s[0]] + s[1..][0..|q|];
  }

  lemma {:induction false} PieceHasNoSep(s: string, c: char, k: nat)
    requires k < |SplitOn(s, [c])|
    ensures c !in SplitOn(s, [c])[k]
    decreases |s|
  {
    if [c] <= s {
      if k > 0 { PieceHasNoSep(s[1..], c, k - 1); }
    } else if s != "" {
      assert s[0] == c ==> [c] <= s;
      PieceHasNoSep(s[1..], c, k);
    }
  }

  lemma SepsHaveNoCore(seps: seq<string>)
    requires IsSeps(seps)
    ensures Core(seps[0]) == ""
  {
    FirstSep(seps);
    NoCore(SepOf(|seps|));
  }

  // ---------------------------------------------------------------- nothing is lost or repeated

  function Bodies(cs: seq<Chunk>): seq<string>
    requires forall x :: x in cs ==> x.cut <= |x.text|
  {
    seq(|cs|, i requires 0 <= i < |cs| => cs[i].text[cs[i].cut..])
  }

  lemma CoreGlue(text: string, cut: nat, s: string)
    requires cut <= |text|
    ensures Core((text + "\n" + s)[cut..]) == Core(text[cut..]) + Core(s)
    ensures (text + "\n" + s)[..cut] == text[..cut]
  {
    assert (text + "\n" + s)[cut..] == text[cut..] + "\n" + s;
    CoreConcat(text[cut..] + "\n", s);
    CoreConcat(text[cut..], "\n");
    NoCore("\n");
  }

  lemma StepCore(split: string, c: Chunk, size: nat, overlap: int)
    requires |split| <= size && Filling(c, size, overlap)
    ensures var (out, c') := Step(split, c, size, overlap);
            && c'.cut <= |c'.text|
            && (if out == [] then Core(c'.text[c'.cut..]) == Core(c.text[c.cut..]) + Core(split)
                else out == [c] && Core(c'.text[c'.cut..]) == Core(split))
  {
    var s := StripStr(split);
    CoreStrip(split);
    StepShape(split, c, size, overlap);
    if s != "" && c.text != "" {
      CoreGlue(c.text, c.cut, s);
      NextIsFilling(c.text, s, size, overlap);
    }
  }

  // The bodies of a chunk and of those that follow it.
  lemma BodiesCons(c: Chunk, rest: seq<Chunk>)
    requires c.cut <= |c.text| && forall x :: x in rest ==> x.cut <= |x.text|
    ensures Core(Flat(Bodies([c] + rest))) == Core(c.text[c.cut..]) + Core(Flat(Bodies(rest)))
  {
    var body := c.text[c.cut..];
    assert Bodies([c] + rest) == [body] + Bodies(rest);
    assert ([body] + Bodies(rest))[1..] == Bodies(rest);
    CoreConcat(body, Flat(Bodies(rest)));
  }

  // Dropping each chunk's overlap and putting the rest together gives back what the base splits hold.
  lemma {:induction false} MergeCore(splits: seq<string>, c: Chunk, size: nat, overlap: int)
    requires (forall t :: t in splits ==> |t| <= size) && Filling(c, size, overlap)
    ensures forall x :: x in Merge(splits, c, size, overlap) ==> x.cut <= |x.text|
    ensures Core(Flat(Bodies(Merge(splits, c, size, overlap)))) == Core(c.text[c.cut..]) + Core(Flat(splits))
    decreases |splits|
  {
    MergedFit(splits, c, size, overlap);
    if splits == [] {
      if c.text != "" {
        BodiesCons(c, []);
        assert [c] + [] == [c];
      }
    } else {
      var (out, c') := Step(splits[0], c, size, overlap);
      StepKeepsFilling(splits[0], c, size, overlap);
      StepCore(splits[0], c, size, overlap);
      MergeCore(splits[1..], c', size, overlap);
      CoreConcat(splits[0], Flat(splits[1..]));
      if out == [] {
        ConcatAssoc(Core(c.text[c.cut..]), Core(splits[0]), Core(Flat(splits[1..])));
        assert [] + Merge(splits[1..], c', size, overlap) == Merge(splits[1..], c', size, overlap);
      } else {
        BodiesCons(c, Merge(splits[1..], c', size, overlap));
      }
    }
  }

  // A chunk repeats something exactly when there is an overlap, the chunk before it is longer than that, and its
  // end is not blank. Then the repeated part is that end, stripped, and a blank.
  predicate Repeats(prev: string, x: Chunk, overlap: int) {
    if 0 < overlap < |prev| && StripStr(prev[|prev| - overlap..]) != ""
    then 0 < x.cut <= |x.text| && x.text[..x.cut] == StripStr(prev[|prev| - overlap..]) + " "
    else x.cut == 0
  }

  lemma NextRepeats(cur: string, s: string, overlap: int)
    requires s != "" && Stripped(s)
    ensures Repeats(cur, Next(cur, s, overlap), overlap)
  {
    if overlap > 0 && |cur| > overlap {
      var tail := StripStr(cur[|cur| - overlap..]);
      if tail != "" {
        GlueStripped(tail, " ", s);
        assert (tail + " " + s)[..|tail| + 1] == tail + " ";
      }
    }
  }

  lemma RepeatsBehind(prev: string, c: Chunk, s: string, overlap: int)
    requires Repeats(prev, c, overlap) && c.cut <= |c.text|
    ensures Repeats(prev, Chunk(c.text + "\n" + s, c.cut), overlap)
  {
    assert (c.text + "\n" + s)[..c.cut] == c.text[..c.cut];
  }

  lemma StepRepeats(split: string, c: Chunk, size: nat, overlap: int, prev: string)
    requires |split| <= size && Filling(c, size, overlap) && Repeats(prev, c, overlap)
    ensures var (out, c') := Step(split, c, size, overlap);
            Repeats(if out == [] then prev else c.text, c', overlap)
  {
    var s := StripStr(split);
    var (out, c') := Step(split, c, size, overlap);
    StepShape(split, c, size, overlap);
    if s == "" || c.text == "" {
      assert out == [] && (c' == c || c' == Chunk(s, 0));
    } else if out == [] {
      assert c' == Chunk(c.text + "\n" + s, c.cut);
      RepeatsBehind(prev, c, s, overlap);
    } else {
      assert c' == Next(c.text, s, overlap);
      NextRepeats(c.text, s, overlap);
    }
  }

  lemma {:induction false} MergeRepeats(splits: seq<string>, c: Chunk, size: nat, overlap: int, prev: string)
    requires (forall t :: t in splits ==> |t| <= size) && Filling(c, size, overlap) && Repeats(prev, c, overlap)
    ensures var m := Merge(splits, c, size, overlap);
            && (m != [] ==> Repeats(prev, m[0], overlap))
            && forall i :: 0 <= i < |m| - 1 ==> Repeats(m[i].text, m[i + 1], overlap)
    decreases |splits|
  {
    if splits != [] {
      var (out, c') := Step(splits[0], c, size, overlap);
      StepKeepsFilling(splits[0], c, size, overlap);
      StepRepeats(splits[0], c, size, overlap, prev);
      MergeRepeats(splits[1..], c', size, overlap, if out == [] then prev else c.text);
    }
  }

  // ---------------------------------------------------------------- words that are not too long

  predicate Unbroken(s: string, i: int, j: int)
    requires 0 <= i <= j <= |s|
  {
    forall k :: i <= k < j ==> s[k] != ' ' && s[k] != '\n'
  }

  // No word, that is no stretch without a blank or a line break, has more than n characters.
  ghost predicate WordsFit(s: string, n: int) {
    forall i, j :: 0 <= i <= j <= |s| && Unbroken(s, i, j) ==> j - i <= n
  }

  predicate OneLine(s: string) {
    '\n' !in s
  }

  // What a text has to satisfy, with n separators left, never to reach the level that cuts words.
  ghost predicate Cuttable(s: string, n: nat, size: int) {
    if n >= 6 then WordsFit(s, size - 3)
    else if n <= 1 then |s| <= size
    else OneLine(s) && WordsFit(s, size - (n - 2))
  }

  lemma WordsFitStretch(s: string, a: nat, b: nat, n: int)
    requires a <= b <= |s| && WordsFit(s, n)
    ensures WordsFit(s[a..b], n)
  {
    forall i, j | 0 <= i <= j <= b - a && Unbroken(s[a..b], i, j) ensures j - i <= n {
      forall k | a + i <= k < a + j ensures s[k] != ' ' && s[k] != '\n' {
        assert s[k] == s[a..b][k - a];
      }
      assert Unbroken(s, a + i, a + j);
    }
  }

  lemma WordsFitToken(s: string, sep: string, n: int)
    requires WordsFit(s, n)
    ensures WordsFit(Token(s, sep), n + 1)
    ensures OneLine(s) ==> OneLine(Token(s, sep))
  {
    var t := Token(s, sep);
    forall i, j | 0 <= i <= j <= |t| && Unbroken(t, i, j) ensures j - i <= n + 1 {
      var l := Min(j, |s|);
      if i <= l {
        forall k | i <= k < l ensures s[k] != ' ' && s[k] != '\n' { assert s[k] == t[k]; }
        assert Unbroken(s, i, l);
      } else {
        assert Unbroken(s, 0, 0);
      }
    }
  }

  lemma PieceFits(s: string, sep: string, n: int, k: nat)
    requires sep != "" && WordsFit(s, n) && k < |SplitOn(s, sep)|
    ensures WordsFit(SplitOn(s, sep)[k], n) && (OneLine(s) ==> OneLine(SplitOn(s, sep)[k]))
  {
    var p := SplitOn(s, sep)[k];
    var a := PieceIsStretch(s, sep, k);
    WordsFitStretch(s, a, a + |p|, n);
    assert forall i :: 0 <= i < |p| ==> p[i] == s[a..a + |p|][i] == s[a + i];
  }

  // Where the single separator is a line break, no piece has one; where it is a blank, a piece is a word.
  lemma PieceOfBreaks(s: string, k: nat)
    requires k < |SplitOn(s, "\n")|
    ensures OneLine(SplitOn(s, "\n")[k])
  {
    assert "\n" == ['\n'];
    PieceHasNoSep(s, '\n', k);
  }

  lemma PieceIsWord(s: string, n: int, k: nat)
    requires OneLine(s) && WordsFit(s, n) && k < |SplitOn(s, " ")|
    ensures |SplitOn(s, " ")[k]| <= n
  {
    assert " " == [' '];
    var p := SplitOn(s, " ")[k];
    PieceFits(s, " ", n, k);
    PieceHasNoSep(s, ' ', k);
    assert Unbroken(p, 0, |p|);
  }

  // A piece of a cuttable text, with its mark put back, is cuttable at the next level.
  lemma PieceIsCuttable(s: string, n: nat, size: nat, k: nat)
    requires 2 <= n <= 7 && Cuttable(s, n, size) && SepOf(n) != "" && k < |SplitOn(s, SepOf(n))|
    ensures Cuttable(Token(SplitOn(s, SepOf(n))[k], SepOf(n)), n - 1, size)
  {
    SepEnds(n);
    var sep := SepOf(n);
    if n >= 6 {
      PieceFits(s, sep, size - 3, k);
      if n == 6 { PieceOfBreaks(s, k); }
    } else if n > 2 {
      PieceFits(s, sep, size - (n - 2), k);
      WordsFitToken(SplitOn(s, sep)[k], sep, size - (n - 2));
    } else {
      PieceIsWord(s, size, k);
    }
  }

  // Without overlap the cutting level repeats nothing.
  lemma {:induction false} SlicesOnce(s: string, size: nat)
    requires size >= 1
    ensures Flat(Slices(s, size, size)) == s
    decreases |s|
  {
    if s != "" {
      var m := Min(size, |s|);
      SlicesOnce(s[m..], size);
      assert s[..m] + s[m..] == s;
    }
  }

  lemma {:induction false} SplitsCore(chunk: string, seps: seq<string>, size: nat, overlap: int)
    requires size >= 1 && IsSeps(seps) && (overlap == 0 || Cuttable(chunk, |seps|, size))
    ensures Core(Flat(SplitRec(chunk, seps, size, overlap))) == Core(chunk)
    decreases |seps|, 1, 0
  {
    if chunk != "" && |chunk| > size {
      FirstSep(seps);
      if |seps| == 1 {
        SlicesOnce(chunk, size);
      } else {
        SepEnds(|seps|);
        SplitLong(chunk, seps, size, overlap);
        var pieces := SplitOn(chunk, seps[0]);
        SepsHaveNoCore(seps);
        CoreSplit(chunk, seps[0]);
        forall k | 0 <= k < |pieces| && overlap != 0 ensures Cuttable(Token(pieces[k], seps[0]), |seps| - 1, size) {
          PieceIsCuttable(chunk, |seps|, size, k);
        }
        TokensCore(pieces, seps, size, overlap);
      }
    } else if chunk != "" {
      FlatOne(chunk);
    }
  }

  lemma FlatOne(s: string)
    ensures Flat([s]) == s
  {
    assert Flat([s]) == s + Flat([s][1..]) == s;
  }

  lemma {:induction false} TokensCore(pieces: seq<string>, seps: seq<string>, size: nat, overlap: int)
    requires size >= 1 && IsSeps(seps) && |seps| >= 2 && IsSeps(seps[1..])
    requires forall k :: 0 <= k < |pieces| ==> overlap == 0 || Cuttable(Token(pieces[k], seps[0]), |seps| - 1, size)
    ensures Core(Flat(Tokens(pieces, seps, size, overlap))) == Core(Flat(pieces))
    decreases |seps|, 0, |pieces|
  {
    if pieces != [] {
      var p, first := pieces[0], TokenSplits(pieces[0], seps, size, overlap);
      var token := Token(p, seps[0]);
      assert Core(Flat(first)) == Core(p) by {
        CoreToken(p, seps[0]);
        SplitsCore(token, seps[1..], size, overlap);
        FlatOne(token);
      }
      TokensCore(pieces[1..], seps, size, overlap);
      FlatConcat(first, Tokens(pieces[1..], seps, size, overlap));
      CoreConcat(Flat(first), Flat(Tokens(pieces[1..], seps, size, overlap)));
      CoreConcat(p, Flat(pieces[1..]));
    }
  }

  // The bodies of the chunks hold what the base splits hold, or the text itself when it was not split.
  lemma ChunksHoldSplits(text: string, size: nat, overlap: int)
    requires size >= 1
    ensures var cs := SplitChunks(text, size, overlap);
            && (forall x :: x in cs ==> x.cut <= |x.text|)
            && (Core(Flat(Bodies(cs))) == Core(text)
                || Core(Flat(Bodies(cs))) == Core(Flat(SplitRec(StripStr(text), SEPARATORS, size, overlap))))
  {
    var t, c := StripStr(text), Chunk("", 0);
    if text != "" {
      AllSeps();
      CoreStrip(text);
      BaseSplitsFit(t, SEPARATORS, size, overlap);
      MergeCore(SplitRec(t, SEPARATORS, size, overlap), c, size, overlap);
      BodiesCons(Chunk(t, 0), []);
      assert [Chunk(t, 0)] + [] == [Chunk(t, 0)] && t[0..] == t;
    }
  }

  // When no word has more than size - 3 characters, or there is no overlap, dropping from each chunk the end
  // of the chunk before it that it repeats, and putting the rest together, gives the letters and digits of
  // the text, in order, none lost and none repeated.
  lemma Coverage(text: string, size: nat, overlap: int)
    requires size >= 1 && (overlap == 0 || WordsFit(StripStr(text), size - 3))
    ensures var cs := SplitChunks(text, size, overlap);
            && (forall x :: x in cs ==> x.cut <= |x.text|)
            && Core(Flat(Bodies(cs))) == Core(text)
            && (cs != [] ==> cs[0].cut == 0)
            && forall i :: 0 <= i < |cs| - 1 ==> Repeats(cs[i].text, cs[i + 1], overlap)
  {
    var t, c := StripStr(text), Chunk("", 0);
    AllSeps();
    CoreStrip(text);
    ChunksHoldSplits(text, size, overlap);
    SplitsCore(t, SEPARATORS, size, overlap);
    BaseSplitsFit(t, SEPARATORS, size, overlap);
    MergeRepeats(SplitRec(t, SEPARATORS, size, overlap), c, size, overlap, "");
  }

  // ---------------------------------------------------------------- any text

  // a is b with some characters left out.
  predicate Within(a: string, b: string)
    decreases |b|
  {
    a == "" || (b != "" && ((a[0] == b[0] && Within(a[1..], b[1..])) || Within(a, b[1..])))
  }

  lemma {:induction false} WithinItself(a: string)
    ensures Within(a, a)
  {
    if a != "" { WithinItself(a[1..]); }
  }

  lemma {:induction false} WithinConcat(a: string, b: string, c: string, d: string)
    requires Within(a, b) && Within(c, d)
    ensures Within(a + c, b + d)
    decreases |b|
  {
    if b == "" {
      assert a + c == c && b + d == d;
    } else {
      assert (b + d)[1..] == b[1..] + d;
      if a != "" && a[0] == b[0] && Within(a[1..], b[1..]) {
        WithinConcat(a[1..], b[1..], c, d);
        assert (a + c)[1..] == a[1..] + c;
      } else {
        WithinConcat(a, b[1..], c, d);
        assert a + c == "" || Within(a + c, (b + d)[1..]);
      }
    }
  }

  lemma {:induction false} SlicesCover(s: string, step: int, size: nat)
    requires 1 <= step <= size
    ensures Within(Core(s), Core(Flat(Slices(s, step, size))))
    decreases |s|
  {
    if s != "" {
      var m, l := Min(step, |s|), Min(size, |s|);
      var rest := Slices(s[m..], step, size);
      SlicesCover(s[m..], step, size);
      assert s[..m] + s[m..] == s && s[..m] + s[m..l] == s[..l];
      CoreConcat(s[..m], s[m..]);
      CoreConcat(s[..m], s[m..l]);
      CoreConcat(s[..l], Flat(rest));
      WithinItself(Core(s[..m]));
      WithinConcat(Core(s[..m]), Core(s[..m]), "", Core(s[m..l]));
      assert Core(s[..m]) + "" == Core(s[..m]);
      WithinConcat(Core(s[..m]), Core(s[..l]), Core(s[m..]), Core(Flat(rest)));
    }
  }

  lemma {:induction false} SplitsCover(chunk: string, seps: seq<string>, size: nat, overlap: int)
    requires size >= 1 && overlap >= 0 && IsSeps(seps)
    ensures Within(Core(chunk), Core(Flat(SplitRec(chunk, seps, size, overlap))))
    decreases |seps|, 1, 0
  {
    if chunk != "" && |chunk| > size {
      if seps[0] == "" {
        SlicesCover(chunk, Max(1, size - overlap), size);
      } else {
        SepsHaveNoCore(seps);
        CoreSplit(chunk, seps[0]);
        TokensCover(SplitOn(chunk, seps[0]), seps, size, overlap);
      }
    } else if chunk != "" {
      FlatOne(chunk);
      WithinItself(Core(chunk));
    }
  }

  lemma {:induction false} TokensCover(pieces: seq<string>, seps: seq<string>, size: nat, overlap: int)
    requires size >= 1 && overlap >= 0 && IsSeps(seps) && seps[0] != ""
    ensures Within(Core(Flat(pieces)), Core(Flat(Tokens(pieces, seps, size, overlap))))
    decreases |seps|, 0, |pieces|
  {
    if pieces != [] {
      var p, first := pieces[0], TokenSplits(pieces[0], seps, size, overlap);
      var rest := Tokens(pieces[1..], seps, size, overlap);
      assert Within(Core(p), Core(Flat(first))) by {
        var token := Token(p, seps[0]);
        FirstSep(seps);
        CoreToken(p, seps[0]);
        SplitsCover(token, seps[1..], size, overlap);
        WithinItself(Core(token));
        FlatOne(token);
      }
      TokensCover(pieces[1..], seps, size, overlap);
      FlatConcat(first, rest);
      CoreConcat(Flat(first), Flat(rest));
      CoreConcat(p, Flat(pieces[1..]));
      WithinConcat(Core(p), Core(Flat(first)), Core(Flat(pieces[1..])), Core(Flat(rest)));
    }
  }

  // Whatever the words are, no letter or digit is ever lost: long words only make the cutting level repeat
  // some.
  lemma NothingIsLost(text: string, size: nat, overlap: int)
    requires size >= 1 && overlap >= 0
    ensures var cs := SplitChunks(text, size, overlap);
            && (forall x :: x in cs ==> x.cut <= |x.text|)
            && Within(Core(text), Core(Flat(Bodies(cs))))
  {
    AllSeps();
    CoreStrip(text);
    ChunksHoldSplits(text, size, overlap);
    SplitsCover(StripStr(text), SEPARATORS, size, overlap);
    WithinItself(Core(text));
  }
}
