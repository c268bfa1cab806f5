/** Shared vocabulary: optional and failing results, and Python strings as code point sequences. */
module Common {

  datatype Option<+T> = None | Some(value: T)

  datatype Result<+T, +E> = Ok(value: T) | Err(error: E)
  {
    predicate IsFailure() {
      Err?
    }

    function PropagateFailure<U>(): Result<U, E>
      requires Err?
    {
      Err(error)
    }

    function Extract(): T
      requires Ok?
    {
      value
    }
  }

  // A Python str is a sequence of code points. Unlike a Dafny char, a code point may be half of a
  // surrogate pair standing on its own.
  type CodePoint = c: int | 0 <= c < 0x110000
  type PyStr = seq<CodePoint>

  // The code points of an ASCII literal.
  function Codes(s: string): (r: PyStr)
    ensures |r| == |s|
    ensures forall i :: 0 <= i < |s| && s[i] as int < 0x80 ==> r[i] == s[i] as int
  {
    seq(|s|, i requires 0 <= i < |s| => s[i] as int)
  }

  // What Python takes for true of an optional string, and its a or b.
  predicate Truthy(a: Option<PyStr>) {
    a.Some? && a.value != []
  }

  function Or(a: Option<PyStr>, b: Option<PyStr>): Option<PyStr> {
    if Truthy(a) then a else b
  }

  ghost predicate Sorted(s: seq<int>) {
    forall i, j :: 0 <= i <= j < |s| ==> s[i] <= s[j]
  }

  predicate IsAt<T(==)>(part: seq<T>, whole: seq<T>, i: nat) {
    i + |part| <= |whole| && whole[i..i + |part|] == part
  }

  lemma ConcatAssoc<T>(a: seq<T>, b: seq<T>, c: seq<T>)
    ensures a + (b + c) == (a + b) + c
  {}

  // What str.isspace accepts, which is what str.strip() removes.
  predicate IsSpace(c: CodePoint) {
    0x09 <= c <= 0x0D || 0x1C <= c <= 0x20 || c == 0x85 || c == 0xA0 || c == 0x1680
    || 0x2000 <= c <= 0x200A || c == 0x2028 || c == 0x2029 || c == 0x202F || c == 0x205F || c == 0x3000
  }

  function LStrip<T>(s: seq<T>, blank: T -> bool): (r: seq<T>)
    ensures |r| <= |s|
    ensures r == [] || !blank(r[0])
  {
    if s != [] && blank(s[0]) then LStrip(s[1..], blank) else s
  }

  function RStrip<T>(s: seq<T>, blank: T -> bool): (r: seq<T>)
    ensures r == [] || !blank(r[|r| - 1])
    ensures r <= s
  {
    if s != [] && blank(s[|s| - 1]) then RStrip(s[..|s| - 1], blank) else s
  }

  function Strip<T>(s: seq<T>, blank: T -> bool): (r: seq<T>)
    ensures |r| <= |s|
    ensures r == [] || (!blank(r[0]) && !blank(r[|r| - 1]))
  {
    RStrip(LStrip(s, blank), blank)
  }

  lemma {:induction false} StripFixed<T>(s: seq<T>, blank: T -> bool)
    requires s == [] || (!blank(s[0]) && !blank(s[|s| - 1]))
    ensures Strip(s, blank) == s
  {}

  // Stripping removes a blank prefix and a blank suffix, and nothing else.
  lemma {:induction false} StripCuts<T>(s: seq<T>, blank: T -> bool) returns (pre: seq<T>, post: seq<T>)
    ensures s == pre + Strip(s, blank) + post
    ensures forall c :: c in pre ==> blank(c)
    ensures forall c :: c in post ==> blank(c)
  {
    pre := LStripCuts(s, blank);
    post := RStripCuts(LStrip(s, blank), blank);
    ConcatAssoc(pre, Strip(s, blank), post);
  }

  lemma {:induction false} LStripCuts<T>(s: seq<T>, blank: T -> bool) returns (pre: seq<T>)
    ensures s == pre + LStrip(s, blank)
    ensures forall c :: c in pre ==> blank(c)
  {
    if s != [] && blank(s[0]) {
      var rest, r := s[1..], LStrip(s[1..], blank);
      var p := LStripCuts(rest, blank);
      pre := [s[0]] + p;
      assert LStrip(s, blank) == r && rest == p + r && s == [s[0]] + rest;
      ConcatAssoc([s[0]], p, r);
    } else {
      pre := [];
      assert s == [] + s;
    }
  }

  lemma {:induction false} RStripLeavesBlanks<T>(s: seq<T>, blank: T -> bool)
    ensures forall i :: |RStrip(s, blank)| <= i < |s| ==> blank(s[i])
  {
    if s != [] && blank(s[|s| - 1]) {
      var front := s[..|s| - 1];
      RStripLeavesBlanks(front, blank);
      assert forall i :: 0 <= i < |front| ==> front[i] == s[i];
    }
  }

  lemma RStripCuts<T>(s: seq<T>, blank: T -> bool) returns (post: seq<T>)
    ensures s == RStrip(s, blank) + post
    ensures forall c :: c in post ==> blank(c)
  {
    var n := |RStrip(s, blank)|;
    post := s[n..];
    RStripLeavesBlanks(s, blank);
    assert forall i :: 0 <= i < |post| ==> post[i] == s[n + i];
  }
}
