/** How split_text puts its base splits together: whole, in order, and as many into a chunk as fit. */
module ChunkGroups {
  import opened Common
  import opened Chunker
  import opened ChunkBounds
  import opened ChunkCoverage

  // The base splits that are left after stripping.
  function Inked(splits: seq<string>): seq<string> {
    if splits == [] then [] else
    var s := StripStr(splits[0]);
    (if s == "" then [] else [s]) + Inked(splits[1..])
  }

  function Concat(groups: seq<seq<string>>): seq<string> {
    if groups == [] then [] else groups[0] + Concat(groups[1..])
  }

  // The chunk without its overlap is its group, joined by line breaks.
  ghost predicate Holds(x: Chunk, g: seq<string>) {
    g != [] && x.cut <= |x.text| && x.text[x.cut..] == Join(g, "\n")
  }

  ghost predicate AllHold(cs: seq<Chunk>, groups: seq<seq<string>>) {
    |groups| == |cs| && forall i :: 0 <= i < |cs| ==> Holds(cs[i], groups[i])
  }

  // The first split of the next group does not fit behind this chunk any more.
  ghost predicate Full(x: Chunk, next: seq<string>, size: nat) {
    next != [] && |x.text| + 1 + |next[0]| > size
  }

  ghost predicate AllFull(cs: seq<Chunk>, groups: seq<seq<string>>, size: nat)
    requires |groups| == |cs|
  {
    forall i :: 0 <= i < |cs| - 1 ==> Full(cs[i], groups[i + 1], size)
  }

  // What is being filled, with the splits that are in it so far.
  ghost predicate Fills(c: Chunk, g: seq<string>) {
    if c.text == "" then g == [] else Holds(c, g)
  }

  lemma {:induction false} JoinSnoc(g: seq<string>, s: string, sep: string)
    requires g != []
    ensures Join(g + [s], sep) == Join(g, sep) + sep + s
  {
    if |g| == 1 {
      assert (g + [s])[1..] == [s];
    } else {
      assert (g + [s])[1..] == g[1..] + [s];
      JoinSnoc(g[1..], s, sep);
      assert g[0] + (sep + (Join(g[1..], sep) + sep + s)) == g[0] + (sep + Join(g[1..], sep)) + sep + s;
    }
  }

  lemma HoldsMore(c: Chunk, g: seq<string>, s: string)
    requires Holds(c, g)
    ensures Holds(Chunk(c.text + "\n" + s, c.cut), g + [s])
  {
    JoinSnoc(g, s, "\n");
    assert (c.text + "\n" + s)[c.cut..] == c.text[c.cut..] + "\n" + s;
  }

  // One chunk in front of those that follow.
  lemma ConsHolds(c: Chunk, g: seq<string>, cs: seq<Chunk>, groups: seq<seq<string>>, size: nat)
    requires Holds(c, g) && AllHold(cs, groups) && AllFull(cs, groups, size)
    requires cs != [] ==> Full(c, groups[0], size)
    ensures AllHold([c] + cs, [g] + groups) && AllFull([c] + cs, [g] + groups, size)
    ensures Concat([g] + groups) == g + Concat(groups)
  {
    assert ([g] + groups)[1..] == groups;
  }

  // These groups of all splits make these chunks, and the first chunk begins like the group g, unless g is empty.
  ghost predicate Grouped(cs: seq<Chunk>, groups: seq<seq<string>>, all: seq<string>, g: seq<string>, size: nat) {
    && AllHold(cs, groups) && AllFull(cs, groups, size) && Concat(groups) == all
    && (g != [] ==> groups != [] && groups[0] != [] && groups[0][0] == g[0])
  }

  lemma MergeAfterStep(splits: seq<string>, c: Chunk, size: nat, overlap: int)
    requires splits != []
    ensures var (out, c') := Step(splits[0], c, size, overlap);
            Merge(splits, c, size, overlap) ==
              if out == [] then Merge(splits[1..], c', size, overlap) else out + Merge(splits[1..], c', size, overlap)
  {}

  lemma {:induction false} MergeGroups(splits: seq<string>, c: Chunk, g: seq<string>, size: nat, overlap: int)
    returns (groups: seq<seq<string>>)
    requires (forall t :: t in splits ==> |t| <= size) && Filling(c, size, overlap) && Fills(c, g)
    ensures Grouped(Merge(splits, c, size, overlap), groups, g + Inked(splits), g, size)
    decreases |splits|
  {
    if splits == [] {
      groups := if c.text == "" then [] else [g];
      assert [g][1..] == [] && g + [] == g;
    } else {
      MergeAfterStep(splits, c, size, overlap);
      StepKeepsFilling(splits[0], c, size, overlap);
      var (out, c') := Step(splits[0], c, size, overlap);
      if out == [] {
        var g' := FillsMore(splits[0], c, g, size, overlap);
        InkedCons(splits, g);
        groups := MergeGroups(splits[1..], c', g', size, overlap);
      } else {
        var s := StripStr(splits[0]);
        StartsNext(splits[0], c, size, overlap);
        var rest := MergeGroups(splits[1..], c', [s], size, overlap);
        groups := [g] + rest;
        GroupedCons(c, g, s, Merge(splits[1..], c', size, overlap), rest, Inked(splits[1..]), size);
      }
    }
  }

  lemma InkedCons(splits: seq<string>, g: seq<string>)
    requires splits != []
    ensures var s := StripStr(splits[0]);
            g + Inked(splits) == (if s == "" then g else g + [s]) + Inked(splits[1..])
  {
    var s, rest := StripStr(splits[0]), Inked(splits[1..]);
    if s == "" {
      assert Inked(splits) == [] + rest == rest;
    } else {
      ConcatAssoc(g, [s], rest);
    }
  }

  // A full chunk in front of the others.
  lemma GroupedCons(c: Chunk, g: seq<string>, s: string, cs: seq<Chunk>, groups: seq<seq<string>>, rest: seq<string>,
                    size: nat)
    requires Holds(c, g) && Grouped(cs, groups, [s] + rest, [s], size) && |c.text| + 1 + |s| > size
    ensures Grouped([c] + cs, [g] + groups, g + ([s] + rest), g, size)
  {
    ConsHolds(c, g, cs, groups, size);
  }

  lemma FillsMore(split: string, c: Chunk, g: seq<string>, size: nat, overlap: int) returns (g': seq<string>)
    requires |split| <= size && Filling(c, size, overlap) && Fills(c, g)
    requires Step(split, c, size, overlap).0 == []
    ensures g' == if StripStr(split) == "" then g else g + [StripStr(split)]
    ensures Fills(Step(split, c, size, overlap).1, g')
  {
    var s := StripStr(split);
    g' := if s == "" then g else g + [s];
    StepShape(split, c, size, overlap);
    if s != "" {
      if c.text == "" {
        assert [] + [s] == [s] && s[0..] == s;
      } else {
        HoldsMore(c, g, s);
      }
    }
  }

  lemma StartsNext(split: string, c: Chunk, size: nat, overlap: int)
    requires |split| <= size && Filling(c, size, overlap) && Step(split, c, size, overlap).0 != []
    ensures var s := StripStr(split);
            && Step(split, c, size, overlap).0 == [c] && c.text != "" && s != "" && |c.text| + 1 + |s| > size
            && Fills(Step(split, c, size, overlap).1, [s])
  {
    StepShape(split, c, size, overlap);
    NextIsFilling(c.text, StripStr(split), size, overlap);
  }

  // A text that does not fit is split into its base splits, stripped, and the chunks are consecutive groups of
  // them: each chunk, without the overlap, is its group joined by line breaks, and it is full, because the split that
  // follows it did not fit behind it.
  lemma ChunksAreFullGroups(text: string, size: nat, overlap: int) returns (groups: seq<seq<string>>)
    requires |StripStr(text)| > size
    requires Inked(SplitRec(StripStr(text), SEPARATORS, size, overlap)) != []
    ensures var cs := SplitChunks(text, size, overlap);
            && AllHold(cs, groups) && AllFull(cs, groups, size)
            && Concat(groups) == Inked(SplitRec(StripStr(text), SEPARATORS, size, overlap))
            && (cs != [] ==> cs[0].cut == 0)
            && forall i :: 0 <= i < |cs| - 1 ==> Repeats(cs[i].text, cs[i + 1], overlap)
  {
    var t, c := StripStr(text), Chunk("", 0);
    var splits := SplitRec(t, SEPARATORS, size, overlap);
    AllSeps();
    BaseSplitsFit(t, SEPARATORS, size, overlap);
    groups := MergeGroups(splits, c, [], size, overlap);
    MergeRepeats(splits, c, size, overlap, "");
    assert [] + Inked(splits) == Inked(splits);
  }

  // A text that fits, or that has nothing left after stripping the base splits, comes back whole.
  lemma ShortTextIsWhole(text: string, size: nat, overlap: int)
    requires text != ""
    requires |StripStr(text)| <= size || Inked(SplitRec(StripStr(text), SEPARATORS, size, overlap)) == []
    ensures SplitChunks(text, size, overlap) == [Chunk(StripStr(text), 0)]
  {
    if |StripStr(text)| > size {
      NothingToMerge(SplitRec(StripStr(text), SEPARATORS, size, overlap), size, overlap);
    }
  }

  lemma {:induction false} NothingToMerge(splits: seq<string>, size: nat, overlap: int)
    requires Inked(splits) == []
    ensures Merge(splits, Chunk("", 0), size, overlap) == []
  {
    if splits != [] {
      assert StripStr(splits[0]) == "";
      NothingToMerge(splits[1..], size, overlap);
    }
  }

  // ---------------------------------------------------------------- where the base splits come from

  // The base splits of a piece: the piece with its mark when that fits, and otherwise what the finer separators
  // make of it.
  ghost predicate IsPart(part: seq<string>, piece: string, seps: seq<string>, size: nat, overlap: int)
    requires seps != []
  {
    if piece == "" then part == []
    else if |Token(piece, seps[0])| <= size then part == [Token(piece, seps[0])]
    else part == SplitRec(Token(piece, seps[0]), seps[1..], size, overlap)
  }

  lemma {:induction false} TokensAreParts(pieces: seq<string>, seps: seq<string>, size: nat, overlap: int)
    returns (parts: seq<seq<string>>)
    requires seps != []
    ensures |parts| == |pieces| && Concat(parts) == Tokens(pieces, seps, size, overlap)
    ensures forall k :: 0 <= k < |pieces| ==> IsPart(parts[k], pieces[k], seps, size, overlap)
    decreases |pieces|
  {
    if pieces == [] {
      parts := [];
    } else {
      var rest := TokensAreParts(pieces[1..], seps, size, overlap);
      parts := [TokenSplits(pieces[0], seps, size, overlap)] + rest;
      assert parts[1..] == rest;
    }
  }

  // A text that does not fit is cut at its first separator only; a piece that fits stays whole, and only one that
  // does not is cut further. A text that fits is not cut at all.
  lemma PiecesStayWhole(chunk: string, seps: seq<string>, size: nat, overlap: int) returns (parts: seq<seq<string>>)
    requires chunk != "" && seps != [] && seps[0] != ""
    ensures |chunk| <= size ==> SplitRec(chunk, seps, size, overlap) == [chunk]
    ensures |chunk| > size ==>
              && |parts| == |SplitOn(chunk, seps[0])|
              && SplitRec(chunk, seps, size, overlap) == Concat(parts)
              && forall k :: 0 <= k < |parts| ==> IsPart(parts[k], SplitOn(chunk, seps[0])[k], seps, size, overlap)
  {
    parts := TokensAreParts(SplitOn(chunk, seps[0]), seps, size, overlap);
  }

  predicate IsMark(m: string) {
    m == "." || m == "?" || m == "!"
  }

  function Marked(pieces: seq<string>, sep: string): (r: seq<string>)
    ensures |r| == |pieces| && forall k :: 0 <= k < |r| ==> r[k] == Token(pieces[k], sep)
  {
    seq(|pieces|, k requires 0 <= k < |pieces| => Token(pieces[k], sep))
  }

  // The pieces at a sentence separator keep their marks: with a blank between them they are the text again,
  // with a mark at its end.
  lemma SentencesKeepTheirMarks(text: string, m: string)
    requires IsMark(m)
    requires forall p :: p in SplitOn(text, m + " ") ==> p != "" && p[|p| - 1] != m[0]
    ensures Join(Marked(SplitOn(text, m + " "), m + " "), " ") == text + m
  {
    SplitThenJoin(text, m + " ");
    MarkedJoin(SplitOn(text, m + " "), m);
  }

  lemma {:induction false} MarkedJoin(pieces: seq<string>, m: string)
    requires IsMark(m) && pieces != [] && forall p :: p in pieces ==> p != "" && p[|p| - 1] != m[0]
    ensures Join(Marked(pieces, m + " "), " ") == Join(pieces, m + " ") + m
    decreases |pieces|
  {
    var sep, rest := m + " ", pieces[1..];
    MarkOf(m);
    assert pieces[0] in pieces;
    assert Marked(pieces, sep)[1..] == Marked(rest, sep);
    if rest != [] {
      MarkedJoin(rest, m);
      Sentence(pieces[0], m, Join(rest, sep));
    }
  }

  lemma MarkOf(m: string)
    requires IsMark(m)
    ensures Mark(m + " ") == m
  {
    assert "." + " " == ". " && "?" + " " == "? " && "!" + " " == "! ";
  }

  lemma Sentence(p: string, m: string, rest: string)
    ensures (p + m) + (" " + (rest + m)) == p + ((m + " ") + rest) + m
  {}

  // Where the k-th of some windows begins, when they are step apart.
  function Offset(k: nat, step: nat): nat {
    if k == 0 then 0 else Offset(k - 1, step) + step
  }

  lemma {:induction false} OffsetIsProduct(k: nat, step: nat)
    ensures Offset(k, step) == k * step
  {
    if k > 0 {
      OffsetIsProduct(k - 1, step);
      assert k * step == (k - 1) * step + step;
    }
  }

  // The k-th slice of a word is the window of size characters that starts k steps in.
  lemma {:induction false} SliceAt(s: string, step: nat, size: nat, k: nat)
    requires step >= 1
    ensures k < |Slices(s, step, size)| <==> Offset(k, step) < |s|
    ensures Offset(k, step) < |s| ==>
              Slices(s, step, size)[k] == s[Offset(k, step)..Min(Offset(k, step) + size, |s|)]
    decreases k
  {
    if s != "" && k > 0 {
      var m, a := Min(step, |s|), Offset(k - 1, step);
      SliceAt(s[m..], step, size, k - 1);
      if a + step < |s| { SliceShift(s, step, a, Min(a + step + size, |s|) - step); }
    }
  }

  lemma SliceShift(s: string, n: nat, a: nat, b: nat)
    requires n <= |s| && a <= b <= |s| - n
    ensures s[n..][a..b] == s[n + a..n + b]
  {}

  // At the level without a separator the windows are size - overlap apart, and at least one.
  lemma LongWordIsCut(word: string, seps: seq<string>, size: nat, overlap: int, k: nat)
    requires |word| > size && seps != [] && seps[0] == ""
    ensures var step := if size - overlap > 1 then size - overlap else 1;
            var r := SplitRec(word, seps, size, overlap);
            && (k < |r| <==> k * step < |word|)
            && (k < |r| ==> r[k] == word[k * step..Min(k * step + size, |word|)])
  {
    SliceAt(word, Max(1, size - overlap), size, k);
    OffsetIsProduct(k, Max(1, size - overlap));
  }
}
