/** JSON text as json.loads reads it and json.dumps writes it (RFC 8259, sections 2, 4 and 7). */
module Json {
  import opened Common

  // One character of a string literal: standing for itself, or written as an escape sequence.
  datatype Unit = Raw(c: char) | Esc(code: CodePoint)

  datatype Token<+S> = Punct(p: char) | Quoted(s: S) | Bare(text: string)

  // A parsed text; S is what a string literal is read as. Object members keep their order.
  datatype Json<+S> = JStr(s: S) | JBare(text: string) | JArr(items: seq<Json<S>>) | JObj(members: seq<Member<S>>)

  datatype Member<+S> = Member(key: S, value: Json<S>)

  // ---------------------------------------------------------------- lexer

  predicate IsWs(c: char) {
    c == ' ' || c == '\t' || c == '\n' || c == '\r'
  }

  predicate IsPunct(c: char) {
    c == '{' || c == '}' || c == '[' || c == ']' || c == ':' || c == ','
  }

  predicate EndsBare(c: char) {
    IsWs(c) || IsPunct(c) || c == '"'
  }

  function HexVal(c: char): Option<nat> {
    if '0' <= c <= '9' then Some(c as int - '0' as int)
    else if 'a' <= c <= 'f' then Some(c as int - 'a' as int + 10)
    else if 'A' <= c <= 'F' then Some(c as int - 'A' as int + 10)
    else None
  }

  // The escape sequence at the head of t: the code it stands for and how long it is.
  function EscAt(t: string): (r: Option<(CodePoint, nat)>)
    ensures r.Some? ==> 2 <= r.value.1 <= |t|
    ensures r.Some? ==> forall k :: 1 <= k < r.value.1 ==> t[k] != '{' && t[k] != '}'
  {
    if |t| < 2 then None else
    match t[1]
    case '"' => Some((0x22, 2))
    case '\\' => Some((0x5C, 2))
    case '/' => Some((0x2F, 2))
    case 'b' => Some((0x08, 2))
    case 'f' => Some((0x0C, 2))
    case 'n' => Some((0x0A, 2))
    case 'r' => Some((0x0D, 2))
    case 't' => Some((0x09, 2))
    case 'u' =>
      if |t| < 6 then None else
      var a, b, c, d := HexVal(t[2]), HexVal(t[3]), HexVal(t[4]), HexVal(t[5]);
      if a.Some? && b.Some? && c.Some? && d.Some?
      then Some((((a.value * 16 + b.value) * 16 + c.value) * 16 + d.value, 6))
      else None
    case _ => None
  }

  datatype Inside = Inside(units: seq<Unit>, rest: string)

  function Prepend(u: seq<Unit>, b: Option<Inside>): Option<Inside> {
    if b.None? then None else Some(Inside(u + b.value.units, b.value.rest))
  }

  // The rest of a string literal whose opening quote has been read. A raw control character is refused.
  function StrBody(t: string): (r: Option<Inside>)
    ensures r.Some? ==> |r.value.rest| < |t|
    decreases |t|
  {
    if t == [] then None
    else if t[0] == '"' then Some(Inside([], t[1..]))
    else if t[0] == '\\' then
      var e := EscAt(t);
      if e.None? then None else Prepend([Esc(e.value.0)], StrBody(t[e.value.1..]))
    else if t[0] as int < 0x20 then None
    else Prepend([Raw(t[0])], StrBody(t[1..]))
  }

  function BareRun(t: string): (n: nat)
    ensures n <= |t|
    ensures forall k :: 0 <= k < n ==> !EndsBare(t[k])
    ensures n < |t| ==> EndsBare(t[n])
  {
    if t == [] || EndsBare(t[0]) then 0 else 1 + BareRun(t[1..])
  }

  function Lex(t: string): Option<seq<Token<seq<Unit>>>>
    decreases |t|
  {
    if t == [] then Some([])
    else if IsWs(t[0]) then Lex(t[1..])
    else if IsPunct(t[0]) then Cons(Punct(t[0]), Lex(t[1..]))
    else if t[0] == '"' then
      var b := StrBody(t[1..]);
      if b.None? then None else Cons(Quoted(b.value.units), Lex(b.value.rest))
    else
      var n := BareRun(t);
      Cons(Bare(t[..n]), Lex(t[n..]))
  }

  function Cons<T>(x: T, xs: Option<seq<T>>): Option<seq<T>> {
    if xs.None? then None else Some([x] + xs.value)
  }

  // ---------------------------------------------------------------- parser

  predicate IsDigit(c: char) {
    '0' <= c <= '9'
  }

  function DigitRun(t: string): (n: nat)
    ensures n <= |t|
  {
    if t == [] || !IsDigit(t[0]) then 0 else 1 + DigitRun(t[1..])
  }

  predicate IsExponent(t: string) {
    t == [] ||
    ((t[0] == 'e' || t[0] == 'E') &&
     var d := if |t| > 1 && (t[1] == '+' || t[1] == '-') then t[2..] else t[1..];
     d != [] && DigitRun(d) == |d|)
  }

  predicate IsFraction(t: string) {
    if t != [] && t[0] == '.'
    then DigitRun(t[1..]) > 0 && IsExponent(t[1..][DigitRun(t[1..])..])
    else IsExponent(t)
  }

  predicate IsNumber(t: string) {
    var u := if t != [] && t[0] == '-' then t[1..] else t;
    var n := DigitRun(u);
    n > 0 && (u[0] == '0' ==> n == 1) && IsFraction(u[n..])
  }

  // json.loads also reads the three non-finite names.
  predicate IsBareValue(t: string) {
    t in {"true", "false", "null", "NaN", "Infinity", "-Infinity"} || IsNumber(t)
  }

  function ParseValue<S>(ts: seq<Token<S>>): (r: Option<(Json<S>, seq<Token<S>>)>)
    ensures r.Some? ==> |r.value.1| < |ts|
    decreases |ts|, 0
  {
    if ts == [] then None else
    match ts[0]
    case Quoted(s) => Some((JStr(s), ts[1..]))
    case Bare(text) => if IsBareValue(text) then Some((JBare(text), ts[1..])) else None
    case Punct(p) =>
      if p == '{' then
        if |ts| > 1 && ts[1] == Punct('}') then Some((JObj([]), ts[2..])) else
        var m := ParseMembers(ts[1..]);
        if m.None? then None else Some((JObj(m.value.0), m.value.1))
      else if p == '[' then
        if |ts| > 1 && ts[1] == Punct(']') then Some((JArr([]), ts[2..])) else
        var m := ParseItems(ts[1..]);
        if m.None? then None else Some((JArr(m.value.0), m.value.1))
      else None
  }

  function ParseItems<S>(ts: seq<Token<S>>): (r: Option<(seq<Json<S>>, seq<Token<S>>)>)
    ensures r.Some? ==> |r.value.1| < |ts|
    decreases |ts|, 1
  {
    var v := ParseValue(ts);
    if v.None? || v.value.1 == [] then None else
    var (x, rest) := v.value;
    if rest[0] == Punct(']') then Some(([x], rest[1..]))
    else if rest[0] == Punct(',') then
      var m := ParseItems(rest[1..]);
      if m.None? then None else Some(([x] + m.value.0, m.value.1))
    else None
  }

  function ParseMembers<S>(ts: seq<Token<S>>): (r: Option<(seq<Member<S>>, seq<Token<S>>)>)
    ensures r.Some? ==> |r.value.1| < |ts|
    decreases |ts|, 1
  {
    if |ts| < 2 || !ts[0].Quoted? || ts[1] != Punct(':') then None else
    var v := ParseValue(ts[2..]);
    if v.None? || v.value.1 == [] then None else
    var (x, rest) := v.value;
    if rest[0] == Punct('}') then Some(([Member(ts[0].s, x)], rest[1..]))
    else if rest[0] == Punct(',') then
      var m := ParseMembers(rest[1..]);
      if m.None? then None else Some(([Member(ts[0].s, x)] + m.value.0, m.value.1))
    else None
  }

  function Parse<S>(ts: seq<Token<S>>): Option<Json<S>> {
    var v := ParseValue(ts);
    if v.None? || v.value.1 != [] then None else Some(v.value.0)
  }

  // The text read with its string literals left as units.
  function Read(t: string): Option<Json<seq<Unit>>> {
    var ts := Lex(t);
    if ts.None? then None else Parse(ts.value)
  }
}
