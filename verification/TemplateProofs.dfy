/** Rendering a template's text and then parsing it is parsing it and then filling its strings in. */
module TemplateProofs {
  import opened Common
  import opened Json
  import opened JsonStrings
  import opened JsonStructure
  import opened Template

  // ---------------------------------------------------------------- where the pattern matches

  lemma {:induction false} WordRunStops(p: Pattern, w: string, y: string)
    requires forall k :: 0 <= k < |w| ==> p.IsWord(w[k])
    requires y == [] || !p.IsWord(y[0])
    ensures p.WordRun(w + y) == |w|
  {
    if w == [] {
      assert w + y == y;
    } else {
      assert (w + y)[1..] == w[1..] + y;
      WordRunStops(p, w[1..], y);
    }
  }

  // A match is decided by the characters it covers.
  lemma MatchIsLocal(p: Pattern, t: string, x: string)
    requires p.MatchAt(t) > 0
    requires p.MatchAt(t) + 4 <= |x| && x[..p.MatchAt(t) + 4] == t[..p.MatchAt(t) + 4]
    ensures p.MatchAt(x) == p.MatchAt(t)
  {
    var n := p.MatchAt(t);
    assert forall k :: 0 <= k < n + 4 ==> x[k] == t[..n + 4][k];
    forall k | 0 <= k < n ensures p.IsWord(x[2..][..n][k]) {
      assert x[2..][..n][k] == x[k + 2] == t[k + 2] == t[2..][k];
    }
    WordRunStops(p, x[2..][..n], x[2..][n..]);
    assert x[2..] == x[2..][..n] + x[2..][n..];
  }

  predicate PlainChar(c: char) {
    c != '"' && c != '\\' && c as int >= 0x20
  }

  lemma MatchIsPlain(p: Pattern, t: string)
    requires p.MatchAt(t) > 0
    ensures forall k :: 0 <= k < p.MatchAt(t) + 4 ==> PlainChar(t[k])
  {
    var n := p.MatchAt(t);
    forall k | 0 <= k < n + 4 ensures PlainChar(t[k]) {
      if 2 <= k < n + 2 { assert p.IsWord(t[2..][k - 2]); }
    }
  }

  lemma {:induction false} PlainReads(t: string, k: nat)
    requires k <= |t| && forall i :: 0 <= i < k ==> PlainChar(t[i])
    ensures StrBody(t) == Prepend(Raws(t[..k]), StrBody(t[k..]))
    decreases k
  {
    var b := StrBody(t[k..]);
    if k == 0 {
      assert t[0..] == t;
      if b.Some? { assert Raws(t[..0]) + b.value.units == b.value.units; }
    } else {
      PlainReads(t[1..], k - 1);
      assert t[1..][k - 1..] == t[k..];
      assert Raws(t[..k]) == [Raw(t[0])] + Raws(t[1..][..k - 1]);
      PrependTwice([Raw(t[0])], Raws(t[1..][..k - 1]), b);
    }
  }

  // Units that stand for themselves are the very characters of the text.
  lemma {:induction false} RawUnitsAreText(t: string, m: nat)
    requires StrBody(t).Some? && m <= |StrBody(t).value.units|
    requires forall k :: 0 <= k < m ==> StrBody(t).value.units[k].Raw?
    ensures m <= |t| && t[..m] == View(StrBody(t).value.units)[..m]
    decreases m
  {
    if m > 0 {
      var u := StrBody(t).value.units;
      assert u[0].Raw?;
      assert t[0] != '\\';
      assert StrBody(t) == Prepend([Raw(t[0])], StrBody(t[1..]));
      var u' := StrBody(t[1..]).value.units;
      assert u[1..] == u';
      forall k | 0 <= k < m - 1 ensures u'[k].Raw? { assert u'[k] == u[k + 1]; }
      RawUnitsAreText(t[1..], m - 1);
      forall k | 0 <= k < m ensures t[k] == View(u)[k] {
        if k > 0 { assert t[k] == t[1..][..m - 1][k - 1] == View(u')[k - 1] == View(u)[k]; }
      }
    }
  }

  // The pattern sees the same match in the text of a string literal and in its units.
  lemma MatchInUnits(p: Pattern, t: string)
    requires StrBody(t).Some? && t != [] && t[0] != '"' && t[0] != '\\'
    ensures p.MatchAt(View(StrBody(t).value.units)) == p.MatchAt(t)
  {
    var u := StrBody(t).value.units;
    var n, m := p.MatchAt(t), p.MatchAt(View(u));
    if n > 0 {
      MatchIsPlain(p, t);
      PlainReads(t, n + 4);
      assert View(u)[..n + 4] == t[..n + 4];
      MatchIsLocal(p, t, View(u));
    } else if m > 0 {
      MatchIsPlain(p, View(u));
      forall k | 0 <= k < m + 4 ensures u[k].Raw? { assert PlainChar(View(u)[k]); }
      RawUnitsAreText(t, m + 4);
      MatchIsLocal(p, View(u), t);
    }
  }

  // ---------------------------------------------------------------- rendering text

  lemma RenderStep(p: Pattern, t: string, ctx: Context)
    requires t != [] && p.MatchAt(t) == 0 && p.RenderText(t, ctx).Ok?
    ensures p.RenderText(t[1..], ctx).Ok? && p.RenderText(t, ctx).value == [t[0]] + p.RenderText(t[1..], ctx).value
  {}

  lemma {:induction false} RenderSkip(p: Pattern, t: string, k: nat, ctx: Context)
    requires k <= |t| && forall i :: 0 <= i < k ==> t[i] != '{'
    requires p.RenderText(t, ctx).Ok?
    ensures p.RenderText(t[k..], ctx).Ok?
    ensures p.RenderText(t, ctx).value == t[..k] + p.RenderText(t[k..], ctx).value
    decreases k
  {
    if k == 0 {
      assert t[0..] == t;
      assert t[..0] + p.RenderText(t, ctx).value == p.RenderText(t, ctx).value;
    } else {
      assert p.MatchAt(t) == 0;
      RenderStep(p, t, ctx);
      RenderSkip(p, t[1..], k - 1, ctx);
      assert t[1..][k - 1..] == t[k..];
      assert t[..k] == [t[0]] + t[1..][..k - 1];
      ConcatAssoc([t[0]], t[1..][..k - 1], p.RenderText(t[k..], ctx).value);
    }
  }

  // Rendering goes through exactly when every key it meets is known and has a value.
  lemma {:induction false} RenderSucceeds(p: Pattern, t: string, ctx: Context)
    ensures p.RenderText(t, ctx).Ok? <==> forall k :: k in p.Find(t) ==> Chosen(k, ctx).Ok?
    ensures p.RenderText(t, ctx).Err? ==>
              exists k :: k in p.Find(t) && Chosen(k, ctx) == Err(p.RenderText(t, ctx).error)
    decreases |t|
  {
    if t != [] {
      var n := p.MatchAt(t);
      RenderSucceeds(p, if n > 0 then t[n + 4..] else t[1..], ctx);
      if n > 0 { assert t[2..n + 2] in p.Find(t); }
    }
  }

  // What rendering does to the rest of a string literal: it fills the units and renders what follows.
  ghost predicate RendersTo(p: Pattern, t: string, ctx: Context, r: string)
    requires StrBody(t).Some?
  {
    var b := StrBody(t).value;
    && p.RenderText(b.rest, ctx).Ok?
    && StrBody(r) == Some(Inside(p.SubstUnits(b.units, ctx), p.RenderText(b.rest, ctx).value))
  }

  lemma RenderInEscape(p: Pattern, t: string, ctx: Context)
    requires StrBody(t).Some? && p.RenderText(t, ctx).Ok? && t[0] == '\\'
    requires var s := t[EscAt(t).value.1..];
             p.RenderText(s, ctx).Ok? ==> RendersTo(p, s, ctx, p.RenderText(s, ctx).value)
    ensures RendersTo(p, t, ctx, p.RenderText(t, ctx).value)
  {
    var b, r, e := StrBody(t).value, p.RenderText(t, ctx).value, EscAt(t).value;
    assert b.units[1..] == StrBody(t[e.1..]).value.units;
    RenderSkip(p, t, e.1, ctx);
    EscAtIsLocal(t, r);
    assert r[e.1..] == p.RenderText(t[e.1..], ctx).value;
  }

  // Reading a string literal goes through a placeholder one unit a character.
  lemma MatchReads(p: Pattern, t: string)
    requires StrBody(t).Some? && p.MatchAt(t) > 0
    ensures var n, u := p.MatchAt(t), StrBody(t).value.units;
            && StrBody(t[n + 4..]).Some?
            && |u| >= n + 4
            && p.MatchAt(View(u)) == n
            && View(u)[2..n + 2] == t[2..n + 2]
            && StrBody(t[n + 4..]).value == Inside(u[n + 4..], StrBody(t).value.rest)
  {
    MatchInUnits(p, t);
    MatchIsPlain(p, t);
    PlainReads(t, p.MatchAt(t) + 4);
  }

  lemma RenderHole(p: Pattern, t: string, ctx: Context)
    requires p.RenderText(t, ctx).Ok? && p.MatchAt(t) > 0
    ensures var n := p.MatchAt(t);
            && Chosen(t[2..n + 2], ctx).Ok? && p.RenderText(t[n + 4..], ctx).Ok?
            && p.RenderText(t, ctx).value
               == Escape(Chosen(t[2..n + 2], ctx).value) + p.RenderText(t[n + 4..], ctx).value
  {}

  lemma SubstHole(p: Pattern, u: seq<Unit>, ctx: Context)
    requires p.MatchAt(View(u)) > 0
    ensures var n := p.MatchAt(View(u));
            p.SubstUnits(u, ctx) == UnitsOf(ValueOf(View(u)[2..n + 2], ctx)) + p.SubstUnits(u[n + 4..], ctx)
  {}

  lemma RenderInPlaceholder(p: Pattern, t: string, ctx: Context)
    requires StrBody(t).Some? && p.RenderText(t, ctx).Ok? && p.MatchAt(t) > 0
    requires var s := t[p.MatchAt(t) + 4..];
             StrBody(s).Some? ==> RendersTo(p, s, ctx, p.RenderText(s, ctx).value)
    ensures RendersTo(p, t, ctx, p.RenderText(t, ctx).value)
  {
    MatchReads(p, t);
    var n, u := p.MatchAt(t), StrBody(t).value.units;
    var v, r := Chosen(t[2..n + 2], ctx).value, p.RenderText(t[n + 4..], ctx).value;
    RenderHole(p, t, ctx);
    SubstHole(p, u, ctx);
    EscapeReads(v, r);
  }

  lemma {:induction false} RenderInString(p: Pattern, t: string, ctx: Context)
    requires StrBody(t).Some? && p.RenderText(t, ctx).Ok?
    ensures RendersTo(p, t, ctx, p.RenderText(t, ctx).value)
    decreases |t|
  {
    var b, r := StrBody(t).value, p.RenderText(t, ctx).value;
    if t[0] == '"' {
      assert r[1..] == p.RenderText(t[1..], ctx).value;
    } else if t[0] == '\\' {
      RenderSkip(p, t, EscAt(t).value.1, ctx);
      RenderInString(p, t[EscAt(t).value.1..], ctx);
      RenderInEscape(p, t, ctx);
    } else if p.MatchAt(t) > 0 {
      if StrBody(t[p.MatchAt(t) + 4..]).Some? { RenderInString(p, t[p.MatchAt(t) + 4..], ctx); }
      RenderInPlaceholder(p, t, ctx);
    } else {
      MatchInUnits(p, t);
      assert b.units[1..] == StrBody(t[1..]).value.units;
      RenderInString(p, t[1..], ctx);
      assert r[1..] == p.RenderText(t[1..], ctx).value;
    }
  }

  lemma EscAtIsLocal(t: string, r: string)
    requires EscAt(t).Some? && EscAt(t).value.1 <= |r| && t[..EscAt(t).value.1] == r[..EscAt(t).value.1]
    ensures EscAt(r) == EscAt(t)
  {
    var n := EscAt(t).value.1;
    assert forall k :: 0 <= k < n ==> t[k] == t[..n][k] == r[..n][k] == r[k];
  }

  // ---------------------------------------------------------------- rendering tokens

  ghost predicate NoTwoOpens(ts: seq<Token<seq<Unit>>>) {
    forall i :: !TwoOpens(ts, i)
  }

  lemma NoTwoOpensTail(ts: seq<Token<seq<Unit>>>)
    requires NoTwoOpens(ts) && ts != []
    ensures NoTwoOpens(ts[1..])
  {
    forall i ensures !TwoOpens(ts[1..], i) {
      assert !TwoOpens(ts, i + 1);
    }
  }

  // Outside string literals a text whose tokens never hold two opening braces in a row has no match.
  lemma NoMatchOutside(p: Pattern, t: string)
    requires t != [] && Lex(t).Some? && NoTwoOpens(Lex(t).value)
    ensures p.MatchAt(t) == 0
  {
    if p.MatchAt(t) > 0 {
      assert Lex(t[1..]) == Cons(Punct('{'), Lex(t[1..][1..]));
      assert TwoOpens(Lex(t).value, 0);
    }
  }

  lemma {:induction false} BareRunStops(w: string, y: string)
    requires forall k :: 0 <= k < |w| ==> !EndsBare(w[k])
    requires y == [] || EndsBare(y[0])
    ensures BareRun(w + y) == |w|
  {
    if w == [] {
      assert w + y == y;
    } else {
      assert (w + y)[1..] == w[1..] + y;
      BareRunStops(w[1..], y);
    }
  }

  lemma {:induction false} RenderTokens(p: Pattern, t: string, ctx: Context)
    requires Lex(t).Some? && NoTwoOpens(Lex(t).value) && p.RenderText(t, ctx).Ok?
    ensures Lex(p.RenderText(t, ctx).value) == Some(MapTokens(p.Filler(ctx), Lex(t).value))
    decreases |t|
  {
    var f := p.Filler(ctx);
    if t == [] {
      assert MapTokens(f, Lex(t).value) == [];
    } else {
      var ts, r := Lex(t).value, p.RenderText(t, ctx).value;
      NoMatchOutside(p, t);
      assert r[1..] == p.RenderText(t[1..], ctx).value;
      if IsWs(t[0]) {
        RenderTokens(p, t[1..], ctx);
      } else if IsPunct(t[0]) {
        ConsMaps(f, Punct(t[0]), Lex(t[1..]).value);
        NoTwoOpensTail(ts);
        RenderTokens(p, t[1..], ctx);
      } else if t[0] == '"' {
        RenderInString(p, t[1..], ctx);
        var b := StrBody(t[1..]).value;
        ConsMaps(f, Quoted(b.units), Lex(b.rest).value);
        NoTwoOpensTail(ts);
        RenderTokens(p, b.rest, ctx);
      } else {
        var n := BareRun(t);
        RenderSkip(p, t, n, ctx);
        ConsMaps(f, Bare(t[..n]), Lex(t[n..]).value);
        NoTwoOpensTail(ts);
        RenderTokens(p, t[n..], ctx);
        var rest := p.RenderText(t[n..], ctx).value;
        if t[n..] != [] {
          NoMatchOutside(p, t[n..]);
          assert rest[0] == t[n..][0];
        }
        BareRunStops(t[..n], rest);
        assert r[..n] == t[..n] && r[n..] == rest;
      }
    }
  }

  lemma ConsMaps(f: seq<Unit> -> seq<Unit>, x: Token<seq<Unit>>, xs: seq<Token<seq<Unit>>>)
    ensures ([x] + xs)[1..] == xs
    ensures MapTokens(f, [x] + xs) == [MapToken(f, x)] + MapTokens(f, xs)
  {}

  // A template that is valid JSON stays valid whatever the values are, and its parse is the template's
  // own with the units of each value put into its string literals.
  lemma RenderThenRead(p: Pattern, t: string, ctx: Context)
    requires Read(t).Some? && p.RenderText(t, ctx).Ok?
    ensures Read(p.RenderText(t, ctx).value) == Some(MapJson(p.Filler(ctx), Read(t).value))
  {
    var ts := Lex(t).value;
    ValidHasNoTwoOpens(ts);
    RenderTokens(p, t, ctx);
    ParseMap(p.Filler(ctx), ts);
  }

  // ---------------------------------------------------------------- what the rendered strings say

  lemma {:induction false} SubstIsPieces(p: Pattern, u: seq<Unit>, ctx: Context)
    ensures p.SubstUnits(u, ctx) == AllUnits(p.Pieces(u), ctx)
    decreases |u|
  {
    if u != [] {
      var n := p.MatchAt(View(u));
      if n > 0 {
        SubstIsPieces(p, u[n + 4..], ctx);
      } else {
        SubstIsPieces(p, u[1..], ctx);
        UnitInFront(u[0], p.Pieces(u[1..]), ctx);
      }
    }
  }

  lemma UnitInFront(a: Unit, ps: seq<Piece>, ctx: Context)
    ensures var qs := if ps != [] && ps[0].Lit? then [Lit([a] + ps[0].units)] + ps[1..] else [Lit([a])] + ps;
            AllUnits(qs, ctx) == [a] + AllUnits(ps, ctx)
  {
    if ps != [] && ps[0].Lit? {
      var qs := [Lit([a] + ps[0].units)] + ps[1..];
      assert qs[1..] == ps[1..];
      ConcatAssoc([a], ps[0].units, AllUnits(ps[1..], ctx));
    } else {
      assert ([Lit([a])] + ps)[1..] == ps;
    }
  }

  // The pieces of a rendered literal decode one by one exactly when there is no seam; otherwise some
  // characters are lost.
  lemma {:induction false} PiecesDecode(ps: seq<Piece>, ctx: Context)
    ensures Seamless(ps, ctx) ==> Decode(AllUnits(ps, ctx)) == Fill(ps, ctx)
    ensures !Seamless(ps, ctx) ==> |Decode(AllUnits(ps, ctx))| < |Fill(ps, ctx)|
    decreases |ps|
  {
    if ps != [] {
      PiecesDecode(ps[1..], ctx);
      DecodeConcat(PieceUnits(ps[0], ctx), AllUnits(ps[1..], ctx));
      if ps[0].Hole? { DecodeUnits(ValueOf(ps[0].key, ctx)); }
    }
  }

  // Decoding a filled string literal gives the literal parts decoded and the values as they are, if and only
  // if there is no seam: a value's quotes, backslashes, control characters or braces change nothing.
  lemma FilledStringMeans(p: Pattern, u: seq<Unit>, ctx: Context)
    ensures Decode(p.SubstUnits(u, ctx)) == Fill(p.Pieces(u), ctx) <==> Seamless(p.Pieces(u), ctx)
  {
    SubstIsPieces(p, u, ctx);
    PiecesDecode(p.Pieces(u), ctx);
  }

  function Filled(p: Pattern, ctx: Context): seq<Unit> -> PyStr {
    u => Fill(p.Pieces(u), ctx)
  }

  ghost function SeamlessLiteral(p: Pattern, ctx: Context): seq<Unit> -> bool {
    u => Seamless(p.Pieces(u), ctx)
  }

  // Substituting and then parsing equals parsing and then substituting, if and only if no string literal of
  // the template has a seam in this context.
  lemma RenderMeaning(p: Pattern, t: string, ctx: Context)
    requires Read(t).Some? && p.RenderText(t, ctx).Ok?
    ensures Loads(p.RenderText(t, ctx).value) == Some(MapJson(Filled(p, ctx), Read(t).value))
       <==> Everywhere(SeamlessLiteral(p, ctx), Read(t).value)
  {
    RenderThenRead(p, t, ctx);
    var f := p.Filler(ctx);
    var decoded: seq<Unit> -> PyStr := u => Decode(f(u));
    MapCompose(f, Decode, decoded, Read(t).value);
    forall u ensures SeamlessLiteral(p, ctx)(u) <==> decoded(u) == Filled(p, ctx)(u) {
      FilledStringMeans(p, u, ctx);
    }
    MapAgrees(decoded, Filled(p, ctx), SeamlessLiteral(p, ctx), Read(t).value);
  }

  ghost predicate TextValues(ctx: Context) {
    forall k :: IsScalar(ValueOf(k, ctx))
  }

  // No literal piece ends in the escape of the first half of an astral character.
  predicate WholePieces(ps: seq<Piece>) {
    forall i :: 0 <= i < |ps| && ps[i].Lit? && ps[i].units != [] ==>
      !(ps[i].units[|ps[i].units| - 1].Esc? && IsHigh(ps[i].units[|ps[i].units| - 1].code))
  }

  lemma EndsWhole(q: Piece, ctx: Context)
    requires TextValues(ctx) && WholePieces([q])
    ensures forall b: seq<Unit> :: !Seam(PieceUnits(q, ctx), b)
  {
    assert [q][0] == q;
    if q.Hole? { ScalarDoesNotJoin(ValueOf(q.key, ctx)); }
  }

  // There is no seam when the values are Unicode text and no placeholder follows half an escaped character.
  lemma {:induction false} TextIsSeamless(ps: seq<Piece>, ctx: Context)
    requires TextValues(ctx) && WholePieces(ps)
    ensures Seamless(ps, ctx)
    decreases |ps|
  {
    if ps != [] {
      assert forall i :: 0 <= i < |ps[1..]| ==> ps[1..][i] == ps[i + 1];
      TextIsSeamless(ps[1..], ctx);
      if ps[0].Hole? { ScalarDoesNotJoin(ValueOf(ps[0].key, ctx)); }
      EndsWhole(ps[0], ctx);
    }
  }

  function WholeLiteral(p: Pattern): seq<Unit> -> bool {
    u => WholePieces(p.Pieces(u))
  }

  // So for values that are Unicode text, in a template in which no placeholder follows half an escaped character,
  // substituting and then parsing equals parsing and then substituting.
  lemma RenderMeaningOfText(p: Pattern, t: string, ctx: Context)
    requires Read(t).Some? && p.RenderText(t, ctx).Ok?
    requires TextValues(ctx) && Everywhere(WholeLiteral(p), Read(t).value)
    ensures Loads(p.RenderText(t, ctx).value) == Some(MapJson(Filled(p, ctx), Read(t).value))
  {
    forall u | WholeLiteral(p)(u) ensures SeamlessLiteral(p, ctx)(u) { TextIsSeamless(p.Pieces(u), ctx); }
    EverywhereImplies(WholeLiteral(p), SeamlessLiteral(p, ctx), Read(t).value);
    RenderMeaning(p, t, ctx);
  }
}
