/**
 A template with a seam between two values: a subject that ends in the first half of an astral character, and
 behind it a body that begins with the second half (app/connector_executor.py:77-100).
 */
module TemplateSeam {
  import opened Common
  import opened Json
  import opened JsonStrings
  import opened JsonStructure
  import opened Template
  import opened TemplateProofs
  import opened TemplateValues

  // "{{subject}}{{body}}" between quotes.
  const HOLES := HoleText("subject") + HoleText("body")
  const TEMPLATE := Quote(HOLES)

  lemma HolesRender(p: Pattern, k: string, l: string, ctx: Context, s: PyStr, b: PyStr)
    requires IsKey(k) && IsKey(l) && Chosen(k, ctx) == Ok(s) && Chosen(l, ctx) == Ok(b)
    ensures p.RenderText(Quote(HoleText(k) + HoleText(l)), ctx) == Ok("\"" + (Escape(s) + (Escape(b) + "\"")))
  {
    var tail := HoleText(l) + "\"";
    var inner := HoleText(k) + tail;
    QuoteAlone(p, ctx);
    HoleRenders(p, l, "\"", ctx, b);
    HoleRenders(p, k, tail, ctx, s);
    QuoteRenders(p, inner, ctx);
    Requoted(HoleText(k), HoleText(l));
  }

  lemma Requoted(a: string, b: string)
    ensures Quote(a + b) == "\"" + (a + (b + "\""))
  {}

  lemma RenderedReads(s: PyStr, b: PyStr)
    ensures Read("\"" + (Escape(s) + (Escape(b) + "\""))) == Some(JStr(UnitsOf(s) + UnitsOf(b)))
  {
    var t, body := "\"" + (Escape(s) + (Escape(b) + "\"")), Escape(s) + (Escape(b) + "\"");
    assert t[1..] == body;
    assert StrBody("\"") == Some(Inside([], ""));
    EscapeReads(b, "\"");
    EscapeReads(s, Escape(b) + "\"");
    assert UnitsOf(b) + [] == UnitsOf(b);
    ReadString(t, UnitsOf(s) + UnitsOf(b));
  }

  lemma TemplateReads()
    ensures Read(TEMPLATE) == Some(JStr(Raws(HOLES)))
  {
    var body := HOLES + "\"";
    PlainReads(body, |HOLES|);
    assert body[..|HOLES|] == HOLES && body[|HOLES|..] == "\"" && TEMPLATE[1..] == body;
    assert StrBody("\"") == Some(Inside([], ""));
    assert Raws(HOLES) + [] == Raws(HOLES);
    ReadString(TEMPLATE, Raws(HOLES));
  }

  lemma HolePieces(p: Pattern, key: string, rest: string)
    requires IsKey(key)
    ensures p.Pieces(Raws(HoleText(key) + rest)) == [Hole(key)] + p.Pieces(Raws(rest))
  {
    var t := HoleText(key) + rest;
    HoleMatches(p, key, rest);
    ViewOfRaws(t, |key| + 4);
    PiecesStep(p, Raws(t), key, Raws(rest));
  }

  lemma ViewOfRaws(t: string, n: nat)
    requires n <= |t|
    ensures View(Raws(t)) == t && Raws(t)[n..] == Raws(t[n..])
  {}

  lemma PiecesStep(p: Pattern, u: seq<Unit>, key: string, rest: seq<Unit>)
    requires p.MatchAt(View(u)) == |key| > 0
    requires View(u)[2..|key| + 2] == key && u[|key| + 4..] == rest
    ensures p.Pieces(u) == [Hole(key)] + p.Pieces(rest)
  {}

  lemma TemplatePieces(p: Pattern)
    ensures p.Pieces(Raws(HOLES)) == [Hole("subject"), Hole("body")]
  {
    HolePieces(p, "body", "");
    assert HoleText("body") + "" == HoleText("body") && Raws("") == [];
    HolePieces(p, "subject", HoleText("body"));
    assert [Hole("body")] + [] == [Hole("body")];
  }

  lemma TemplateFills(p: Pattern, ctx: Context, s: PyStr, b: PyStr)
    requires Chosen("subject", ctx) == Ok(s) && Chosen("body", ctx) == Ok(b)
    ensures Fill(p.Pieces(Raws(HOLES)), ctx) == s + b
  {
    TemplatePieces(p);
    HolesFill("subject", "body", ctx);
  }

  lemma HolesFill(k: string, l: string, ctx: Context)
    ensures Fill([Hole(k), Hole(l)], ctx) == ValueOf(k, ctx) + ValueOf(l, ctx)
  {
    var ps := [Hole(k), Hole(l)];
    assert ps[1..] == [Hole(l)] && ps[1..][1..] == [];
    assert Fill(ps[1..], ctx) == ValueOf(l, ctx) + [];
  }

  // ---------------------------------------------------------------- the values

  lemma EndsHigh(x: PyStr, high: CodePoint)
    requires IsHigh(high)
    ensures !IsNoSubject(x + [high])
  {
    var v := x + [high];
    var l := LStrip(v, IsSpace);
    LStripKeepsEnd(x, high);
    assert Strip(v, IsSpace) == l;
    var low := seq(|l|, i requires 0 <= i < |l| => Lower(l[i]));
    assert low[|low| - 1] == high;
    AsciiEnd("(no subject)");
    AsciiEnd("no subject");
    AsciiEnd("none");
    AsciiEnd("null");
  }

  lemma AsciiEnd(s: string)
    requires s != "" && s[|s| - 1] as int < 0x80
    ensures Codes(s)[|Codes(s)| - 1] < 0x80
  {}

  lemma {:induction false} LStripKeepsEnd(x: PyStr, high: CodePoint)
    requires IsHigh(high)
    ensures var l := LStrip(x + [high], IsSpace); l != [] && l[|l| - 1] == high
    decreases |x|
  {
    if x != [] && IsSpace(x[0]) {
      assert (x + [high])[1..] == x[1..] + [high];
      LStripKeepsEnd(x[1..], high);
    }
  }

  lemma HolesAreKeys(ctx: Context, x: PyStr, high: CodePoint, b: PyStr)
    requires IsHigh(high) && Subject in ctx && ctx[Subject] == Some(x + [high]) && Body in ctx && ctx[Body] == Some(b)
    ensures Chosen("subject", ctx) == Ok(x + [high]) && Chosen("body", ctx) == Ok(b)
  {
    EndsHigh(x, high);
    KeyIsNamed(Subject);
    KeyIsNamed(Body);
    assert Name(Subject) == "subject" && Name(Body) == "body";
  }

  lemma {:induction false} UnitsAppend(x: PyStr, high: CodePoint)
    requires IsHigh(high)
    ensures UnitsOf(x + [high]) == UnitsOf(x) + [Esc(high)]
    decreases |x|
  {
    if x == [] {
      assert x + [high] == [high] && [high][1..] == [];
    } else {
      assert (x + [high])[1..] == x[1..] + [high];
      UnitsAppend(x[1..], high);
      ConcatAssoc(UnitsOfChar(x[0]), UnitsOf(x[1..]), [Esc(high)]);
    }
  }

  lemma HalvesDecode(high: CodePoint, low: CodePoint)
    requires IsHigh(high) && IsLow(low)
    ensures Decode([Esc(high), Esc(low)]) == [Astral(high, low)]
  {
    assert [Esc(high), Esc(low)][2..] == [];
  }

  lemma UnitsMeet(x: PyStr, high: CodePoint, low: CodePoint, y: PyStr)
    requires IsHigh(high) && IsLow(low)
    ensures UnitsOf(x + [high]) + UnitsOf([low] + y) == UnitsOf(x) + ([Esc(high), Esc(low)] + UnitsOf(y))
  {
    UnitsAppend(x, high);
    UnitsPrepend(low, y);
    Regroup(UnitsOf(x), Esc(high), Esc(low), UnitsOf(y));
  }

  lemma UnitsPrepend(low: CodePoint, y: PyStr)
    requires IsLow(low)
    ensures UnitsOf([low] + y) == [Esc(low)] + UnitsOf(y)
  {
    assert ([low] + y)[1..] == y;
  }

  lemma Regroup(a: seq<Unit>, b: Unit, c: Unit, d: seq<Unit>)
    ensures (a + [b]) + ([c] + d) == a + ([b, c] + d)
  {}

  lemma SeamDecodes(x: PyStr, high: CodePoint, low: CodePoint, y: PyStr)
    requires IsHigh(high) && IsLow(low) && IsScalar(x) && IsScalar(y)
    ensures Decode(UnitsOf(x + [high]) + UnitsOf([low] + y)) == x + ([Astral(high, low)] + y)
  {
    var pair := [Esc(high), Esc(low)];
    UnitsMeet(x, high, low, y);
    ScalarDoesNotJoin(x);
    ScalarDoesNotJoin(y);
    HalvesDecode(high, low);
    DecodeConcat(pair, UnitsOf(y));
    DecodeConcat(UnitsOf(x), pair + UnitsOf(y));
  }

  lemma SeamRenders(p: Pattern, ctx: Context, s: PyStr, b: PyStr)
    requires Chosen("subject", ctx) == Ok(s) && Chosen("body", ctx) == Ok(b)
    ensures p.RenderText(TEMPLATE, ctx) == Ok("\"" + (Escape(s) + (Escape(b) + "\"")))
  {
    var k, l := KeyPair();
    HolesRender(p, k, l, ctx, s, b);
  }

  // The two keys, named, so that the proof above does not take their letters apart.
  lemma KeyPair() returns (k: string, l: string)
    ensures k == "subject" && l == "body" && IsKey(k) && IsKey(l) && TEMPLATE == Quote(HoleText(k) + HoleText(l))
  {
    k, l := "subject", "body";
  }

  lemma SeamIsRead(t: string, s: PyStr, b: PyStr)
    requires t == "\"" + (Escape(s) + (Escape(b) + "\""))
    ensures Loads(t) == Some(JStr(Decode(UnitsOf(s) + UnitsOf(b))))
  {
    RenderedReads(s, b);
  }

  lemma SeamIsFilled(p: Pattern, ctx: Context, s: PyStr, b: PyStr)
    requires Chosen("subject", ctx) == Ok(s) && Chosen("body", ctx) == Ok(b)
    ensures Read(TEMPLATE).Some? && MapJson(Filled(p, ctx), Read(TEMPLATE).value) == JStr(s + b)
  {
    TemplateReads();
    TemplateFills(p, ctx, s, b);
  }

  // The parse of the rendered text has one astral character where the template filled in has two halves.
  lemma SeamLosesACharacter(p: Pattern, ctx: Context, x: PyStr, high: CodePoint, low: CodePoint, y: PyStr)
    requires IsHigh(high) && IsLow(low) && IsScalar(x) && IsScalar(y)
    requires Subject in ctx && ctx[Subject] == Some(x + [high]) && Body in ctx && ctx[Body] == Some([low] + y)
    ensures p.RenderText(TEMPLATE, ctx).Ok? && Read(TEMPLATE).Some?
    ensures Loads(p.RenderText(TEMPLATE, ctx).value) == Some(JStr(x + ([Astral(high, low)] + y)))
    ensures MapJson(Filled(p, ctx), Read(TEMPLATE).value) == JStr((x + [high]) + ([low] + y))
  {
    HolesAreKeys(ctx, x, high, [low] + y);
    SeamRenders(p, ctx, x + [high], [low] + y);
    SeamIsRead(p.RenderText(TEMPLATE, ctx).value, x + [high], [low] + y);
    SeamDecodes(x, high, low, y);
    SeamIsFilled(p, ctx, x + [high], [low] + y);
  }
}
