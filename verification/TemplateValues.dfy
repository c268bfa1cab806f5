/**
 What a placeholder is replaced by: the value that the context has under its own key, and nothing else of the
 context (app/connector_executor.py:77-100).
 */
module TemplateValues {
  import opened Common
  import opened Json
  import opened JsonStrings
  import opened JsonStructure
  import opened Template
  import opened TemplateProofs

  // ---------------------------------------------------------------- a template that is one placeholder

  function HoleText(key: string): string {
    "{{" + (key + "}}")
  }

  function Quote(body: string): string {
    "\"" + (body + "\"")
  }

  predicate IsKey(key: string) {
    key != "" && forall i :: 0 <= i < |key| ==> 'a' <= key[i] <= 'z' || key[i] == '_'
  }

  lemma HoleMatches(p: Pattern, key: string, rest: string)
    requires IsKey(key)
    ensures var t := HoleText(key) + rest;
            p.MatchAt(t) == |key| && t[2..|key| + 2] == key && t[|key| + 4..] == rest
  {
    var t, y := HoleText(key) + rest, "}}" + rest;
    assert t[2..] == key + y;
    WordRunStops(p, key, y);
    assert t[|key| + 2] == y[0] && t[|key| + 3] == y[1];
  }

  lemma HoleRenders(p: Pattern, key: string, rest: string, ctx: Context, v: PyStr)
    requires IsKey(key) && Chosen(key, ctx) == Ok(v) && p.RenderText(rest, ctx).Ok?
    ensures p.RenderText(HoleText(key) + rest, ctx) == Ok(Escape(v) + p.RenderText(rest, ctx).value)
  {
    HoleMatches(p, key, rest);
  }

  lemma QuoteRenders(p: Pattern, rest: string, ctx: Context)
    requires p.RenderText(rest, ctx).Ok?
    ensures p.RenderText("\"" + rest, ctx) == Ok("\"" + p.RenderText(rest, ctx).value)
  {
    assert ("\"" + rest)[1..] == rest;
  }

  lemma QuoteAlone(p: Pattern, ctx: Context)
    ensures p.RenderText("\"", ctx) == Ok("\"")
  {
    assert p.RenderText("", ctx) == Ok("") && "\"" + "" == "\"";
    QuoteRenders(p, "", ctx);
  }

  lemma ReadString(t: string, u: seq<Unit>)
    requires t != [] && t[0] == '"' && StrBody(t[1..]) == Some(Inside(u, ""))
    ensures Read(t) == Some(JStr(u))
  {
    var ts: seq<Token<seq<Unit>>> := [Quoted(u)];
    assert Lex(t) == Cons(Quoted(u), Lex(""));
    assert [Quoted(u)] + [] == ts && ts[1..] == [];
  }

  lemma NamesAreKeys(k: Key)
    ensures IsKey(Name(k))
  {
    match k
    case ClientId | FromEmail | Subject | Body => AddressNames(Name(k));
    case CleanedBody | Intent | Sentiment | Priority => TriageNames(Name(k));
    case TicketId | OrderId | PaymentId | ReferenceId => ReferenceNames(Name(k));
    case CustomerName | HistorySummary | IssueDescription | ConversationHistory => HistoryNames(Name(k));
  }

  lemma AddressNames(s: string)
    requires s == "client_id" || s == "from_email" || s == "subject" || s == "body"
    ensures IsKey(s)
  {}

  lemma TriageNames(s: string)
    requires s == "cleaned_body" || s == "intent" || s == "sentiment" || s == "priority"
    ensures IsKey(s)
  {}

  lemma ReferenceNames(s: string)
    requires s == "ticket_id" || s == "order_id" || s == "payment_id" || s == "reference_id"
    ensures IsKey(s)
  {}

  lemma HistoryNames(s: string)
    requires s == "customer_name" || s == "history_summary" || s == "issue_description" || s == "conversation_history"
    ensures IsKey(s)
  {}

  // The template "{{k}}" for a key of the schema.
  function OneHole(k: Key): string {
    Quote(HoleText(Name(k)))
  }

  lemma OneHoleRenders(p: Pattern, key: string, ctx: Context, v: PyStr)
    requires IsKey(key) && Chosen(key, ctx) == Ok(v)
    ensures p.RenderText(Quote(HoleText(key)), ctx) == Ok(Quote(Escape(v)))
  {
    QuoteAlone(p, ctx);
    HoleRenders(p, key, "\"", ctx, v);
    QuoteRenders(p, HoleText(key) + "\"", ctx);
  }

  lemma QuotedReads(v: PyStr)
    ensures Loads(Quote(Escape(v))) == Some(JStr(Decode(UnitsOf(v))))
  {
    assert Quote(Escape(v))[1..] == Escape(v) + "\"";
    assert StrBody("\"") == Some(Inside([], ""));
    EscapeReads(v, "\"");
    assert UnitsOf(v) + [] == UnitsOf(v);
    ReadString(Quote(Escape(v)), UnitsOf(v));
  }

  // A placeholder of the schema is replaced by the value of its own key: rendered and parsed, the template "{{k}}"
  // is that value, whatever else the context holds. A subject that says nothing is the exception.
  lemma HoleHoldsItsValue(p: Pattern, ctx: Context, k: Key, v: PyStr)
    requires k in ctx && ctx[k] == Some(v) && (k == Subject ==> !IsNoSubject(v))
    ensures p.RenderText(OneHole(k), ctx).Ok?
    ensures NoSplitPair(v) ==> Loads(p.RenderText(OneHole(k), ctx).value) == Some(JStr(v))
    ensures Loads(p.RenderText(OneHole(k), ctx).value).Some?
  {
    NamesAreKeys(k);
    KeyIsNamed(k);
    OneHoleRenders(p, Name(k), ctx, v);
    QuotedReads(v);
    DecodeUnits(v);
  }

  // In its place stands the head of the body's first line, or a standing subject.
  lemma EmptySubjectIsReplaced(p: Pattern, ctx: Context, v: PyStr, body: PyStr)
    requires Subject in ctx && ctx[Subject] == Some(v) && IsNoSubject(v)
    requires Body in ctx && ctx[Body] == Some(body) && NoSplitPair(SubjectFromBody(body))
    ensures p.RenderText(OneHole(Subject), ctx).Ok?
    ensures Loads(p.RenderText(OneHole(Subject), ctx).value) == Some(JStr(SubjectFromBody(body)))
  {
    NamesAreKeys(Subject);
    KeyIsNamed(Subject);
    OneHoleRenders(p, Name(Subject), ctx, SubjectFromBody(body));
    QuotedReads(SubjectFromBody(body));
    DecodeUnits(SubjectFromBody(body));
  }

  // ---------------------------------------------------------------- in any template

  // Two contexts say the same about a key that a template names.
  predicate SameValue(ctx: Context, other: Context, k: Key) {
    (k in ctx <==> k in other) && (k in ctx ==> ctx[k] == other[k])
  }

  // And the body counts where the subject says nothing.
  predicate SameFor(ctx: Context, other: Context, name: string) {
    var key := KeyNamed(name);
    key.Some? ==>
      && SameValue(ctx, other, key.value)
      && (key.value == Subject && Subject in ctx && ctx[Subject].Some? && IsNoSubject(ctx[Subject].value) ==>
            SameValue(ctx, other, Body))
  }

  lemma SameChoice(name: string, ctx: Context, other: Context)
    requires SameFor(ctx, other, name)
    ensures Chosen(name, ctx) == Chosen(name, other)
  {}

  // A template depends on the keys that it names and on no other.
  lemma {:induction false} OnlyNamedKeysMatter(p: Pattern, t: string, ctx: Context, other: Context)
    requires forall name :: name in p.Find(t) ==> SameFor(ctx, other, name)
    ensures p.RenderText(t, ctx) == p.RenderText(t, other)
    decreases |t|
  {
    if t != [] {
      var n := p.MatchAt(t);
      if n > 0 {
        assert t[2..n + 2] in p.Find(t);
        SameChoice(t[2..n + 2], ctx, other);
        OnlyNamedKeysMatter(p, t[n + 4..], ctx, other);
      } else {
        OnlyNamedKeysMatter(p, t[1..], ctx, other);
      }
    }
  }

  lemma CharacterRenders(p: Pattern, c: char, rest: string, ctx: Context)
    requires c != '{' && p.RenderText(rest, ctx).Ok?
    ensures p.RenderText([c] + rest, ctx) == Ok([c] + p.RenderText(rest, ctx).value)
  {
    assert ([c] + rest)[1..] == rest;
  }

  lemma {:induction false} TextRenders(p: Pattern, text: string, tail: string, ctx: Context)
    requires '{' !in text && p.RenderText(tail, ctx).Ok?
    ensures p.RenderText(text + tail, ctx) == Ok(text + p.RenderText(tail, ctx).value)
    decreases |text|
  {
    if text == "" {
      assert text + tail == tail && "" + p.RenderText(tail, ctx).value == p.RenderText(tail, ctx).value;
    } else {
      TextRenders(p, text[1..], tail, ctx);
      CharacterRenders(p, text[0], text[1..] + tail, ctx);
      FirstAndRest(text, tail);
      FirstAndRest(text, p.RenderText(tail, ctx).value);
    }
  }

  lemma FirstAndRest(text: string, tail: string)
    requires text != ""
    ensures [text[0]] + (text[1..] + tail) == text + tail
  {}

  // Text without an opening brace is copied, and the placeholder behind it is replaced by its value, escaped.
  lemma TextAndHole(p: Pattern, text: string, k: Key, rest: string, ctx: Context, v: PyStr)
    requires '{' !in text && k in ctx && ctx[k] == Some(v) && (k == Subject ==> !IsNoSubject(v))
    requires p.RenderText(rest, ctx).Ok?
    ensures p.RenderText(text + (HoleText(Name(k)) + rest), ctx)
            == Ok(text + (Escape(v) + p.RenderText(rest, ctx).value))
  {
    HoleThenRest(p, k, rest, ctx, v);
    TextRenders(p, text, HoleText(Name(k)) + rest, ctx);
  }

  lemma HoleThenRest(p: Pattern, k: Key, rest: string, ctx: Context, v: PyStr)
    requires k in ctx && ctx[k] == Some(v) && (k == Subject ==> !IsNoSubject(v)) && p.RenderText(rest, ctx).Ok?
    ensures p.RenderText(HoleText(Name(k)) + rest, ctx) == Ok(Escape(v) + p.RenderText(rest, ctx).value)
  {
    NamesAreKeys(k);
    KeyIsNamed(k);
    HoleRenders(p, Name(k), rest, ctx, v);
  }

  // ---------------------------------------------------------------- the subject taken from a body

  predicate IsLine(s: PyStr) {
    s != [] && !IsSpace(s[0]) && !IsSpace(s[|s| - 1]) && forall c :: c in s ==> !IsBreak(c)
  }

  lemma {:induction false} CollapseLine(s: PyStr)
    requires forall c :: c in s ==> !IsBreak(c)
    ensures Collapse(s) == s
  {
    if s != [] {
      CollapseLine(s[1..]);
      assert s[0] in s && [s[0]] + s[1..] == s;
    }
  }

  lemma {:induction false} FirstLineOf(line: PyStr, rest: PyStr)
    requires forall c :: c in line ==> !IsBreak(c)
    requires rest == [] || rest[0] == 0x0A
    ensures FirstLine(line + rest) == line
  {
    if line == [] {
      assert line + rest == rest;
    } else {
      assert (line + rest)[1..] == line[1..] + rest && line[0] in line;
      FirstLineOf(line[1..], rest);
    }
  }

  lemma {:induction false} RStripKeepsLine(line: PyStr, rest: PyStr) returns (more: PyStr)
    requires IsLine(line) && (rest == [] || rest[0] == 0x0A)
    ensures RStrip(line + rest, IsSpace) == line + more && more <= rest
    decreases |rest|
  {
    var s := line + rest;
    if rest != [] && IsSpace(rest[|rest| - 1]) {
      assert s[..|s| - 1] == line + rest[..|rest| - 1];
      more := RStripKeepsLine(line, rest[..|rest| - 1]);
    } else {
      more := rest;
    }
  }

  lemma LineOfBody(line: PyStr, rest: PyStr)
    requires IsLine(line) && (rest == [] || rest[0] == 0x0A)
    ensures FirstLine(Strip(line + rest, IsSpace)) == line
  {
    assert LStrip(line + rest, IsSpace) == line + rest;
    var more := RStripKeepsLine(line, rest);
    FirstLineOf(line, more);
  }

  // The first line of a body is taken as it is when it has 3 to 60 characters, and otherwise cut, or replaced.
  lemma SubjectIsTheFirstLine(line: PyStr, rest: PyStr)
    requires IsLine(line) && (rest == [] || rest[0] == 0x0A)
    ensures SubjectFromBody(line + rest) ==
              if |line| < 3 then Codes("Support Request")
              else if |line| <= 60 then line
              else if |Strip(line[..60], IsSpace)| >= 3 then Strip(line[..60], IsSpace)
              else Codes("Support Request")
  {
    LineOfBody(line, rest);
    StripFixed(line, IsSpace);
    CollapseLine(line);
  }

  lemma {:induction false} BlankStripsToNothing(s: PyStr)
    requires forall c :: c in s ==> IsSpace(c)
    ensures LStrip(s, IsSpace) == []
  {
    if s != [] {
      assert s[0] in s;
      BlankStripsToNothing(s[1..]);
    }
  }

  lemma BlankBodyGivesTheStandingSubject(body: PyStr)
    requires forall c :: c in body ==> IsSpace(c)
    ensures SubjectFromBody(body) == Codes("Support Request")
  {
    BlankStripsToNothing(body);
  }
}
