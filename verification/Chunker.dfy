/** split_text of app/rag.py: the recursive splitter and the merging loop with overlap. */
module Chunker {
  import opened Common

  predicate Blank(c: char) {
    IsSpace(c as int)
  }

  function StripStr(s: string): (r: string)
    ensures |r| <= |s|
    ensures Stripped(r)
  {
    Strip(s, Blank)
  }

  predicate Stripped(s: string) {
    s == "" || (!Blank(s[0]) && !Blank(s[|s| - 1]))
  }

  const SEPARATORS: seq<string> := ["\n\n", "\n", ". ", "? ", "! ", " ", ""]

  // ---------------------------------------------------------------- specification

  // s.split(sep): the separators are taken from the left, none overlapping.
  function SplitOn(s: string, sep: string): (r: seq<string>)
    requires sep != ""
    ensures r != []
    decreases |s|
  {
    if sep <= s then [""] + SplitOn(s[|sep|..], sep)
    else if s == "" then [""]
    else
      var r := SplitOn(s[1..], sep);
      [[s[0]] + r[0]] + r[1..]
  }

  // sep.strip() for the separators that end a sentence, "" for the others.
  function Mark(sep: string): string {
    if sep == ". " then "." else if sep == "? " then "?" else if sep == "! " then "!" else ""
  }

  // The sentence separators give their mark back to a piece that does not end in it.
  function Token(s: string, sep: string): string {
    if s != "" && Mark(sep) != "" && s[|s| - 1] != Mark(sep)[0] then s + Mark(sep) else s
  }

  function Min(a: int, b: int): int {
    if a < b then a else b
  }

  function Max(a: int, b: int): int {
    if a < b then b else a
  }

  // text_chunk[i:i + size] for i in range(0, len(text_chunk), step)
  function Slices(s: string, step: int, size: int): seq<string>
    requires step >= 1 && size >= 0
    decreases |s|
  {
    if s == "" then [] else [s[..Min(size, |s|)]] + Slices(s[Min(step, |s|)..], step, size)
  }

  // _split_recursive
  function SplitRec(chunk: string, seps: seq<string>, size: nat, overlap: int): seq<string>
    decreases |seps|, 0
  {
    if chunk == "" then []
    else if |chunk| <= size || seps == [] then [chunk]
    else if seps[0] == "" then Slices(chunk, Max(1, size - overlap), size)
    else Tokens(SplitOn(chunk, seps[0]), seps, size, overlap)
  }

  function Tokens(pieces: seq<string>, seps: seq<string>, size: nat, overlap: int): seq<string>
    requires seps != []
    decreases |seps|, 0, |pieces|
  {
    if pieces == [] then []
    else TokenSplits(pieces[0], seps, size, overlap) + Tokens(pieces[1..], seps, size, overlap)
  }

  function TokenSplits(piece: string, seps: seq<string>, size: nat, overlap: int): seq<string>
    requires seps != []
    decreases |seps|, 0, 0
  {
    var token := Token(piece, seps[0]);
    if piece == "" then []
    else if |token| > size then SplitRec(token, seps[1..], size, overlap)
    else [token]
  }

  // A chunk; its first cut characters repeat the end of the chunk before it.
  datatype Chunk = Chunk(text: string, cut: nat)

  // The chunk that is started when split does not fit behind cur any more.
  function Next(cur: string, split: string, overlap: int): Chunk {
    if overlap > 0 && |cur| > overlap then
      var tail := StripStr(cur[|cur| - overlap..]);
      if tail != "" then Chunk(StripStr(tail + " " + split), |tail| + 1) else Chunk(split, 0)
    else Chunk(split, 0)
  }

  // A split put behind what is being filled.
  function Joined(cur: string, split: string): string {
    if cur != "" then StripStr(cur + "\n" + split) else split
  }

  // What one split does to the chunk c that is being filled: the chunks put out, and the new c.
  function Step(split: string, c: Chunk, size: nat, overlap: int): (seq<Chunk>, Chunk) {
    var s := StripStr(split);
    var candidate := Joined(c.text, s);
    if s == "" then ([], c)
    else if |candidate| <= size then ([], Chunk(candidate, if c.text != "" then c.cut else 0))
    else if c.text != "" then ([c], Next(c.text, s, overlap))
    else ([Chunk(s, 0)], Chunk("", 0))
  }

  // The merging loop from here on.
  function Merge(splits: seq<string>, c: Chunk, size: nat, overlap: int): seq<Chunk>
    decreases |splits|
  {
    if splits == [] then (if c.text != "" then [c] else []) else
    var (out, c') := Step(splits[0], c, size, overlap);
    out + Merge(splits[1..], c', size, overlap)
  }

  function SplitChunks(text: string, size: nat, overlap: int): seq<Chunk> {
    if text == "" then [] else
    var t := StripStr(text);
    if |t| <= size then [Chunk(t, 0)] else
    var merged := Merge(SplitRec(t, SEPARATORS, size, overlap), Chunk("", 0), size, overlap);
    if merged == [] then [Chunk(t, 0)] else merged
  }

  function Texts(cs: seq<Chunk>): seq<string> {
    seq(|cs|, i requires 0 <= i < |cs| => cs[i].text)
  }

  lemma TextsConcat(a: seq<Chunk>, b: seq<Chunk>)
    ensures Texts(a + b) == Texts(a) + Texts(b)
  {}

  // ---------------------------------------------------------------- the code

  // The cutting level: a window of size characters, moved by step.
  method SliceChunk(chunk: string, step: int, size: nat) returns (result: seq<string>)
    requires step >= 1
    ensures result == Slices(chunk, step, size)
  {
    result := [];
    var i := 0;
    while i < |chunk|
      invariant 0 <= i
      invariant result + Slices(chunk[Min(i, |chunk|)..], step, size) == Slices(chunk, step, size)
      decreases |chunk| - i
    {
      ghost var rest := chunk[i..];
      var slice := chunk[i..Min(i + size, |chunk|)];
      assert slice == rest[..Min(size, |rest|)];
      assert chunk[Min(i + step, |chunk|)..] == rest[Min(step, |rest|)..];
      ConcatAssoc(result, [slice], Slices(rest[Min(step, |rest|)..], step, size));
      result := result + [slice];
      i := i + step;
    }
  }

  method SplitRecursive(chunk: string, seps: seq<string>, size: nat, overlap: int) returns (result: seq<string>)
    ensures result == SplitRec(chunk, seps, size, overlap)
    decreases |seps|, 1
  {
    if chunk == "" { return []; }
    if |chunk| <= size || seps == [] { return [chunk]; }
    var sep := seps[0];
    result := [];
    if sep == "" {
      result := SliceChunk(chunk, Max(1, size - overlap), size);
      return;
    }
    var splits := SplitOn(chunk, sep);
    for n := 0 to |splits|
      invariant result + Tokens(splits[n..], seps, size, overlap) == Tokens(splits, seps, size, overlap)
    {
      assert splits[n..][1..] == splits[n + 1..];
      ConcatAssoc(result, TokenSplits(splits[n], seps, size, overlap), Tokens(splits[n + 1..], seps, size, overlap));
      var more := SplitPiece(splits[n], seps, size, overlap);
      result := result + more;
    }
  }

  // One round of the loop over the pieces.
  method SplitPiece(piece: string, seps: seq<string>, size: nat, overlap: int) returns (result: seq<string>)
    requires seps != []
    ensures result == TokenSplits(piece, seps, size, overlap)
    decreases |seps|, 0
  {
    if piece == "" { return []; }
    var token := Token(piece, seps[0]);
    if |token| <= size { return [token]; }
    result := SplitRecursive(token, seps[1..], size, overlap);
  }

  // One round of the merging loop: the chunks it puts out, and the chunk that is being filled after it.
  method AddSplit(piece: string, current: string, size: nat, overlap: int, ghost c: Chunk)
    returns (more: seq<string>, next: string)
    requires current == c.text
    ensures more == Texts(Step(piece, c, size, overlap).0) && next == Step(piece, c, size, overlap).1.text
  {
    var split := StripStr(piece);
    if split == "" { return [], current; }
    var candidate := Joined(current, split);
    if |candidate| <= size { return [], candidate; }
    if current == "" { return [split], ""; }
    more := [current];
    next := StartNext(current, split, overlap);
  }

  method StartNext(current: string, split: string, overlap: int) returns (next: string)
    ensures next == Next(current, split, overlap).text
  {
    if overlap > 0 && |current| > overlap {
      var tail := StripStr(current[|current| - overlap..]);
      next := if tail != "" then StripStr(tail + " " + split) else split;
    } else {
      next := split;
    }
  }

  // The merging loop of split_text.
  method MergeSplits(splits: seq<string>, size: nat, overlap: int) returns (chunks: seq<string>)
    ensures chunks == Texts(Merge(splits, Chunk("", 0), size, overlap))
  {
    chunks := [];
    var current := "";
    ghost var done, c := [], Chunk("", 0);
    for n := 0 to |splits|
      invariant chunks == Texts(done) && current == c.text
      invariant done + Merge(splits[n..], c, size, overlap) == Merge(splits, Chunk("", 0), size, overlap)
    {
      ghost var (out, c') := Step(splits[n], c, size, overlap);
      ConcatAssoc(done, out, Merge(splits[n + 1..], c', size, overlap));
      assert splits[n..][1..] == splits[n + 1..];
      TextsConcat(done, out);
      var more;
      more, current := AddSplit(splits[n], current, size, overlap, c);
      chunks := chunks + more;
      done, c := done + out, c';
    }
    TextsConcat(done, if current != "" then [c] else []);
    if current != "" { chunks := chunks + [current]; }
  }

  method SplitText(text: string, size: nat, overlap: int) returns (chunks: seq<string>)
    ensures chunks == Texts(SplitChunks(text, size, overlap))
  {
    if text == "" { return []; }
    var t := StripStr(text);
    if |t| <= size { return [t]; }
    var splits := SplitRecursive(t, SEPARATORS, size, overlap);
    chunks := MergeSplits(splits, size, overlap);
    if chunks == [] { chunks := [t]; }
  }
}
