/** The printer json.dumps(value)[1:-1] and the decoder json.loads, on the inside of a string literal. */
module JsonStrings {
  import opened Common
  import opened Json

  predicate IsHigh(c: int) {
    0xD800 <= c < 0xDC00
  }

  predicate IsLow(c: int) {
    0xDC00 <= c < 0xE000
  }

  // ---------------------------------------------------------------- decoding

  function CodeOf(u: Unit): CodePoint {
    match u
    case Raw(c) => c as int
    case Esc(code) => code
  }

  // Two escapes in a row join when they are the two halves of one astral character.
  predicate Joins(a: Unit, b: Unit) {
    a.Esc? && IsHigh(a.code) && b.Esc? && IsLow(b.code)
  }

  function Astral(high: int, low: int): CodePoint
    requires IsHigh(high) && IsLow(low)
  {
    0x10000 + (high - 0xD800) * 0x400 + (low - 0xDC00)
  }

  function Decode(u: seq<Unit>): PyStr {
    if u == [] then []
    else if |u| >= 2 && Joins(u[0], u[1]) then [Astral(u[0].code, u[1].code)] + Decode(u[2..])
    else [CodeOf(u[0])] + Decode(u[1..])
  }

  // Two pieces of a literal meet in the middle of an astral character.
  predicate Seam(a: seq<Unit>, b: seq<Unit>) {
    a != [] && b != [] && Joins(a[|a| - 1], b[0])
  }

  lemma DecodeOne(a: seq<Unit>)
    requires |a| == 1
    ensures Decode(a) == [CodeOf(a[0])]
  {
    assert a[1..] == [];
  }

  // Pieces decode one by one, unless there is a seam: then two characters become one.
  lemma {:induction false} DecodeConcat(a: seq<Unit>, b: seq<Unit>)
    ensures !Seam(a, b) ==> Decode(a + b) == Decode(a) + Decode(b)
    ensures Seam(a, b) ==> |Decode(a + b)| == |Decode(a)| + |Decode(b)| - 1
    decreases |a|
  {
    if a == [] {
      assert a + b == b;
    } else if |a| >= 2 && Joins(a[0], a[1]) {
      assert (a + b)[0] == a[0] && (a + b)[1] == a[1] && (a + b)[2..] == a[2..] + b;
      DecodeConcat(a[2..], b);
      ConcatAssoc([Astral(a[0].code, a[1].code)], Decode(a[2..]), Decode(b));
    } else if |a| == 1 && Seam(a, b) {
      assert (a + b)[0] == a[0] && (a + b)[1] == b[0] && (a + b)[2..] == b[1..];
      DecodeOne(a);
    } else {
      assert (a + b)[0] == a[0] && (a + b)[1..] == a[1..] + b;
      DecodeConcat(a[1..], b);
      ConcatAssoc([CodeOf(a[0])], Decode(a[1..]), Decode(b));
    }
  }

  // ---------------------------------------------------------------- escaping

  function HexDigit(n: int): (c: char)
    requires 0 <= n < 16
    ensures HexVal(c) == Some(n)
    ensures c != '{' && c != '"' && c != '\\'
  {
    if n < 10 then ('0' as int + n) as char else ('a' as int + (n - 10)) as char
  }

  function UEscape(c: int): string
    requires 0 <= c < 0x10000
  {
    ['\\', 'u', HexDigit(c / 0x1000), HexDigit(c / 0x100 % 16), HexDigit(c / 0x10 % 16), HexDigit(c % 16)]
  }

  function HighHalf(c: CodePoint): (h: int)
    requires c >= 0x10000
    ensures IsHigh(h)
  {
    0xD800 + (c - 0x10000) / 0x400
  }

  function LowHalf(c: CodePoint): (l: int)
    requires c >= 0x10000
    ensures IsLow(l)
  {
    0xDC00 + (c - 0x10000) % 0x400
  }

  predicate Plain(c: CodePoint) {
    0x20 <= c < 0x7F && c != 0x22 && c != 0x5C
  }

  function EscapeChar(c: CodePoint): string {
    if c == 0x22 then ['\\', '"']
    else if c == 0x5C then ['\\', '\\']
    else if c == 0x0A then ['\\', 'n']
    else if c == 0x0D then ['\\', 'r']
    else if c == 0x09 then ['\\', 't']
    else if c == 0x0C then ['\\', 'f']
    else if c == 0x08 then ['\\', 'b']
    else if Plain(c) then [c as char]
    else if c < 0x10000 then UEscape(c)
    else UEscape(HighHalf(c)) + UEscape(LowHalf(c))
  }

  function Escape(v: PyStr): string {
    if v == [] then "" else EscapeChar(v[0]) + Escape(v[1..])
  }

  // The units that the lexer must read back from an escaped character.
  function UnitsOfChar(c: CodePoint): seq<Unit> {
    if Plain(c) then [Raw(c as char)]
    else if c < 0x10000 then [Esc(c)]
    else [Esc(HighHalf(c)), Esc(LowHalf(c))]
  }

  function UnitsOf(v: PyStr): seq<Unit> {
    if v == [] then [] else UnitsOfChar(v[0]) + UnitsOf(v[1..])
  }

  lemma DigitsGiveCode(c: int)
    requires 0 <= c < 0x10000
    ensures 0 <= c / 0x1000 < 16
    ensures c == ((c / 0x1000 * 16 + c / 0x100 % 16) * 16 + c / 0x10 % 16) * 16 + c % 16
  {}

  lemma EscAtUEscape(c: int, t: string)
    requires 0 <= c < 0x10000
    ensures EscAt(UEscape(c) + t) == Some((c, 6))
    ensures (UEscape(c) + t)[6..] == t
  {
    var e := UEscape(c);
    var s := e + t;
    assert s[0] == e[0] && s[1] == e[1] && s[2] == e[2] && s[3] == e[3] && s[4] == e[4] && s[5] == e[5];
    DigitsGiveCode(c);
  }

  lemma StrBodyUEscape(c: int, t: string)
    requires 0 <= c < 0x10000
    ensures StrBody(UEscape(c) + t) == Prepend([Esc(c)], StrBody(t))
  {
    EscAtUEscape(c, t);
  }

  lemma PrependTwice(a: seq<Unit>, b: seq<Unit>, o: Option<Inside>)
    ensures Prepend(a, Prepend(b, o)) == Prepend(a + b, o)
  {
    if o.Some? {
      assert a + (b + o.value.units) == a + b + o.value.units;
    }
  }

  lemma AstralReads(c: CodePoint, t: string)
    requires c >= 0x10000
    ensures StrBody(EscapeChar(c) + t) == Prepend(UnitsOfChar(c), StrBody(t))
  {
    var h, l := HighHalf(c), LowHalf(c);
    ConcatAssoc(UEscape(h), UEscape(l), t);
    StrBodyUEscape(h, UEscape(l) + t);
    StrBodyUEscape(l, t);
    PrependTwice([Esc(h)], [Esc(l)], StrBody(t));
    assert [Esc(h)] + [Esc(l)] == UnitsOfChar(c);
  }

  lemma RawCharReads(c: CodePoint, t: string)
    requires |EscapeChar(c)| == 1
    ensures StrBody(EscapeChar(c) + t) == Prepend(UnitsOfChar(c), StrBody(t))
  {
    var s := EscapeChar(c) + t;
    assert s[0] == EscapeChar(c)[0] && s[1..] == t;
  }

  lemma ShortEscapeReads(c: CodePoint, t: string)
    requires |EscapeChar(c)| == 2
    ensures StrBody(EscapeChar(c) + t) == Prepend(UnitsOfChar(c), StrBody(t))
  {
    var e := EscapeChar(c);
    var s := e + t;
    assert s[0] == e[0] && s[1] == e[1] && s[2..] == t;
    assert EscAt(s) == Some((c, 2));
  }

  lemma EscapedCharReads(c: CodePoint, t: string)
    ensures StrBody(EscapeChar(c) + t) == Prepend(UnitsOfChar(c), StrBody(t))
  {
    if c >= 0x10000 {
      AstralReads(c, t);
    } else if |EscapeChar(c)| == 1 {
      RawCharReads(c, t);
    } else if |EscapeChar(c)| == 2 {
      ShortEscapeReads(c, t);
    } else {
      StrBodyUEscape(c, t);
    }
  }

  lemma {:induction false} EscapeReads(v: PyStr, t: string)
    ensures StrBody(Escape(v) + t) == Prepend(UnitsOf(v), StrBody(t))
    decreases |v|
  {
    if v == [] {
      assert Escape(v) + t == t;
      if StrBody(t).Some? { assert [] + StrBody(t).value.units == StrBody(t).value.units; }
    } else {
      var e := EscapeChar(v[0]);
      assert Escape(v) + t == e + (Escape(v[1..]) + t);
      EscapedCharReads(v[0], Escape(v[1..]) + t);
      EscapeReads(v[1..], t);
      PrependTwice(UnitsOfChar(v[0]), UnitsOf(v[1..]), StrBody(t));
    }
  }

  // ---------------------------------------------------------------- round trip

  // A high half directly followed by a low half, as two separate code points.
  predicate SplitPairAt(v: PyStr, i: int) {
    0 <= i < |v| - 1 && IsHigh(v[i]) && IsLow(v[i + 1])
  }

  ghost predicate NoSplitPair(v: PyStr) {
    forall i :: !SplitPairAt(v, i)
  }

  lemma {:induction false} DecodeUnits(v: PyStr)
    ensures NoSplitPair(v) ==> Decode(UnitsOf(v)) == v
    ensures !NoSplitPair(v) ==> |Decode(UnitsOf(v))| < |v|
    ensures |Decode(UnitsOf(v))| <= |v|
    decreases |v|
  {
    if v != [] {
      var u, w := UnitsOfChar(v[0]), UnitsOf(v[1..]);
      DecodeUnits(v[1..]);
      forall i ensures SplitPairAt(v, i) <==> (i == 0 && SplitPairAt(v, 0)) || SplitPairAt(v[1..], i - 1) {}
      if SplitPairAt(v, 0) {
        assert UnitsOf(v[1..]) == [Esc(v[1])] + UnitsOf(v[1..][1..]);
        assert u + w == [Esc(v[0]), Esc(v[1])] + UnitsOf(v[1..][1..]);
        DecodeUnits(v[1..][1..]);
        assert (u + w)[2..] == UnitsOf(v[1..][1..]);
      } else {
        FirstUnit(v[1..]);
        DecodeConcat(u, w);
        DecodeChar(v[0]);
        if NoSplitPair(v) {
          forall i ensures !SplitPairAt(v[1..], i) {
            assert !SplitPairAt(v, i + 1);
          }
        } else {
          var i :| SplitPairAt(v, i);
          assert SplitPairAt(v[1..], i - 1);
        }
      }
    }
  }

  lemma DecodeChar(c: CodePoint)
    ensures Decode(UnitsOfChar(c)) == [c]
  {
    if c >= 0x10000 {
      assert UnitsOfChar(c)[2..] == [];
    } else {
      assert UnitsOfChar(c)[1..] == [];
    }
  }

  lemma FirstUnit(v: PyStr)
    ensures v != [] ==> UnitsOf(v) != []
    ensures v != [] ==> UnitsOf(v)[0].Esc? && IsLow(UnitsOf(v)[0].code) ==> IsLow(v[0])
  {}

  // What json.loads makes of the literal that json.dumps writes.
  function RoundTrip(v: PyStr): Option<PyStr> {
    var b := StrBody(Escape(v) + "\"");
    if b.None? || b.value.rest != "" then None else Some(Decode(b.value.units))
  }

  // Escaping and decoding undo each other exactly on the strings that hold no split surrogate pair.
  lemma EscapeRoundTrip(v: PyStr)
    ensures RoundTrip(v).Some?
    ensures RoundTrip(v) == Some(v) <==> NoSplitPair(v)
  {
    EscapeReads(v, "\"");
    assert StrBody("\"") == Some(Inside([], ""));
    assert UnitsOf(v) + [] == UnitsOf(v);
    DecodeUnits(v);
  }

  // A string that really is Unicode text: no surrogate code points at all.
  predicate IsScalar(v: PyStr) {
    forall c :: c in v ==> !IsHigh(c) && !IsLow(c)
  }

  // Between two pieces of a literal, such a value joins with neither of them.
  lemma {:induction false} ScalarDoesNotJoin(v: PyStr)
    requires IsScalar(v)
    ensures NoSplitPair(v) && Decode(UnitsOf(v)) == v
    ensures v != [] ==> UnitsOf(v) != []
    ensures v != [] ==> !(UnitsOf(v)[0].Esc? && IsLow(UnitsOf(v)[0].code))
    ensures v != [] ==> !(UnitsOf(v)[|UnitsOf(v)| - 1].Esc? && IsHigh(UnitsOf(v)[|UnitsOf(v)| - 1].code))
    decreases |v|
  {
    if v != [] {
      ScalarDoesNotJoin(v[1..]);
      forall i ensures !SplitPairAt(v, i) {
        if 0 <= i < |v| - 1 { assert v[i] in v; }
      }
      DecodeUnits(v);
      assert v[0] in v;
    }
  }
}
