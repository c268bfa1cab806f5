/**
 Connector templates: the {{key}} pattern, the approval-time check of a template's keys and the
 run-time rendering of its text (app/connector_executor.py, app/connector_config/validation.py).
 */
module Template {
  import opened Common
  import opened Json
  import opened JsonStrings
  import opened JsonStructure

  // The keys of the context_data schema.
  datatype Key =
    | ClientId | FromEmail | Subject | Body
    | CleanedBody | TicketId | OrderId | PaymentId
    | ReferenceId | Intent | Sentiment | Priority
    | CustomerName | HistorySummary | IssueDescription | ConversationHistory

  function Name(k: Key): string {
    match k
    case ClientId => "client_id"
    case FromEmail => "from_email"
    case Subject => "subject"
    case Body => "body"
    case CleanedBody => "cleaned_body"
    case TicketId => "ticket_id"
    case OrderId => "order_id"
    case PaymentId => "payment_id"
    case ReferenceId => "reference_id"
    case Intent => "intent"
    case Sentiment => "sentiment"
    case Priority => "priority"
    case CustomerName => "customer_name"
    case HistorySummary => "history_summary"
    case IssueDescription => "issue_description"
    case ConversationHistory => "conversation_history"
  }

  const KEYS: seq<Key> := [
    ClientId, FromEmail, Subject, Body, CleanedBody, TicketId, OrderId, PaymentId, ReferenceId, Intent,
    Sentiment, Priority, CustomerName, HistorySummary, IssueDescription, ConversationHistory
  ]

  function KeyAmong(s: string, keys: seq<Key>): (r: Option<Key>)
    ensures r.Some? ==> Name(r.value) == s
    ensures r.None? ==> forall k :: k in keys ==> Name(k) != s
  {
    if keys == [] then None else if Name(keys[0]) == s then Some(keys[0]) else KeyAmong(s, keys[1..])
  }

  // The key that a name in a template stands for, if the schema has it.
  function KeyNamed(s: string): Option<Key> {
    KeyAmong(s, KEYS)
  }

  lemma NamesAreDistinct(j: Key, k: Key)
    requires Name(j) == Name(k)
    ensures j == k
  {
    assert |Name(j)| == |Name(k)| && Name(j)[0] == Name(k)[0];
  }

  // Every key is found under its own name.
  lemma KeyIsNamed(k: Key)
    ensures KeyNamed(Name(k)) == Some(k)
  {
    var i := match k
      case ClientId => 0 case FromEmail => 1 case Subject => 2 case Body => 3
      case CleanedBody => 4 case TicketId => 5 case OrderId => 6 case PaymentId => 7
      case ReferenceId => 8 case Intent => 9 case Sentiment => 10 case Priority => 11
      case CustomerName => 12 case HistorySummary => 13 case IssueDescription => 14 case ConversationHistory => 15;
    assert KEYS[i] == k;
    NamesAreDistinct(KeyNamed(Name(k)).value, k);
  }

  type Context = map<Key, Option<PyStr>>

  datatype RenderError = UnknownKey(key: string) | NoValue(key: string) | NotJson

  // ---------------------------------------------------------------- the value put in for a key

  function Lower(c: CodePoint): CodePoint {
    if 'A' as int <= c <= 'Z' as int then c + 32 else c
  }

  // val.strip() is empty, or spells one of the four ways mail programs write "no subject".
  predicate IsNoSubject(val: PyStr) {
    var s := Strip(val, IsSpace);
    s == [] || IsMarker(s)
  }

  predicate IsMarker(s: PyStr) {
    var l := seq(|s|, i requires 0 <= i < |s| => Lower(s[i]));
    l == Codes("(no subject)") || l == Codes("no subject") || l == Codes("none") || l == Codes("null")
  }

  function FirstLine(s: PyStr): PyStr {
    if s == [] || s[0] == 0x0A then [] else [s[0]] + FirstLine(s[1..])
  }

  predicate IsBreak(c: CodePoint) {
    c == 0x0D || c == 0x0A || c == 0x09
  }

  // Runs of line breaks and tabs become one blank.
  function Collapse(s: PyStr): PyStr
    decreases |s|
  {
    if s == [] then []
    else if IsBreak(s[0]) then [0x20] + Collapse(LStrip(s[1..], IsBreak))
    else [s[0]] + Collapse(s[1..])
  }

  // The head of the first line of a body that is not blank, on one line and of at most 60 characters.
  function FirstLineHead(body: PyStr): (r: PyStr)
    ensures |r| <= 60 && (r == [] || (!IsSpace(r[0]) && !IsSpace(r[|r| - 1])))
  {
    var line := Strip(FirstLine(Strip(body, IsSpace)), IsSpace);
    var flat := Collapse(line);
    Strip(if |flat| > 60 then flat[..60] else flat, IsSpace)
  }

  function SubjectFromBody(body: PyStr): (r: PyStr)
    ensures 3 <= |r| <= 60
    ensures !IsSpace(r[0]) && !IsSpace(r[|r| - 1])
  {
    var clean := FirstLineHead(body);
    if |clean| >= 3 then clean else
    var s := "Support Request";
    assert Codes(s)[0] == s[0] as int;
    assert Codes(s)[|s|-1] == s[|s|-1] as int;
    Codes(s)
  }

  function Chosen(name: string, ctx: Context): Result<PyStr, RenderError> {
    var key := KeyNamed(name);
    if key.None? then Err(UnknownKey(name))
    else if key.value !in ctx || ctx[key.value].None? then Err(NoValue(name))
    else
      var val := ctx[key.value].value;
      if key.value == Subject && IsNoSubject(val)
      then Ok(SubjectFromBody(if Body in ctx && ctx[Body].Some? then ctx[Body].value else []))
      else Ok(val)
  }

  function ValueOf(key: string, ctx: Context): PyStr {
    if Chosen(key, ctx).Ok? then Chosen(key, ctx).value else []
  }

  // A piece of a template string: literal units, or a placeholder.
  datatype Piece = Lit(units: seq<Unit>) | Hole(key: string)

  // What a literal's units look like in the text, as far as the pattern can tell.
  function View(u: seq<Unit>): (v: string)
    ensures |v| == |u|
  {
    seq(|u|, i requires 0 <= i < |u| => if u[i].Raw? then u[i].c else '\\')
  }

  function Raws(s: string): (u: seq<Unit>)
    ensures |u| == |s|
  {
    seq(|s|, i requires 0 <= i < |s| => Raw(s[i]))
  }

  // The pattern \{\{(\w+)\}\}; wide holds the characters beyond ASCII that \w matches as well.
  datatype Pattern = Pattern(wide: set<char>)
  {
    predicate IsWord(c: char) {
      'a' <= c <= 'z' || 'A' <= c <= 'Z' || '0' <= c <= '9' || c == '_' || (c as int >= 0x80 && c in wide)
    }

    function WordRun(t: string): (n: nat)
      ensures n <= |t|
      ensures forall k :: 0 <= k < n ==> IsWord(t[k])
      ensures n < |t| ==> !IsWord(t[n])
    {
      if t == [] || !IsWord(t[0]) then 0 else 1 + WordRun(t[1..])
    }

    // The length of the key when the pattern matches at the head of t, else 0.
    function MatchAt(t: string): (n: nat)
      ensures n > 0 ==> n + 4 <= |t|
    {
      if |t| < 2 || t[0] != '{' || t[1] != '{' then 0 else
      var n := WordRun(t[2..]);
      if |t| >= n + 4 && t[n + 2] == '}' && t[n + 3] == '}' then n else 0
    }

    // _PLACEHOLDER_RE.findall, as a set: matches from the left, none overlapping.
    function Find(t: string): set<string>
      decreases |t|
    {
      if t == [] then {} else
      var n := MatchAt(t);
      if n > 0 then {t[2..n + 2]} + Find(t[n + 4..]) else Find(t[1..])
    }

    // _validate_template_placeholders
    predicate KeysKnown(t: Option<string>) {
      t.None? || forall k :: k in Find(t.value) ==> KeyNamed(k).Some?
    }

    // _PLACEHOLDER_RE.sub(_replace, template)
    function RenderText(t: string, ctx: Context): Result<string, RenderError>
      decreases |t|
    {
      if t == [] then Ok("") else
      var n := MatchAt(t);
      if n > 0 then
        var v :- Chosen(t[2..n + 2], ctx);
        var rest :- RenderText(t[n + 4..], ctx);
        Ok(Escape(v) + rest)
      else
        var rest :- RenderText(t[1..], ctx);
        Ok([t[0]] + rest)
    }

    // The same substitution done on a string literal that has been read.
    function SubstUnits(u: seq<Unit>, ctx: Context): seq<Unit>
      decreases |u|
    {
      if u == [] then [] else
      var n := MatchAt(View(u));
      if n > 0 then UnitsOf(ValueOf(View(u)[2..n + 2], ctx)) + SubstUnits(u[n + 4..], ctx)
      else [u[0]] + SubstUnits(u[1..], ctx)
    }

    function Filler(ctx: Context): seq<Unit> -> seq<Unit> {
      u => SubstUnits(u, ctx)
    }

    // A template string taken apart: maximal literals between the placeholders.
    function Pieces(u: seq<Unit>): (ps: seq<Piece>)
      decreases |u|
    {
      if u == [] then [] else
      var n := MatchAt(View(u));
      if n > 0 then [Hole(View(u)[2..n + 2])] + Pieces(u[n + 4..]) else
      var ps := Pieces(u[1..]);
      if ps != [] && ps[0].Lit? then [Lit([u[0]] + ps[0].units)] + ps[1..] else [Lit([u[0]])] + ps
    }
  }

  // json.loads
  function Loads(t: string): Option<Json<PyStr>> {
    var j := Read(t);
    if j.None? then None else Some(MapJson(Decode, j.value))
  }

  // _render_template: an absent or empty template renders to nothing.
  function Render(p: Pattern, t: Option<string>, ctx: Context): Result<Option<Json<PyStr>>, RenderError> {
    if t.None? || t.value == "" then Ok(None) else
    var text :- p.RenderText(t.value, ctx);
    var j := Loads(text);
    if j.None? then Err(NotJson) else Ok(Some(j.value))
  }

  // What a template string says: its literals decoded, the chosen values in their places.
  function Fill(ps: seq<Piece>, ctx: Context): PyStr {
    if ps == [] then [] else PieceText(ps[0], ctx) + Fill(ps[1..], ctx)
  }

  function PieceText(q: Piece, ctx: Context): PyStr {
    match q case Lit(u) => Decode(u) case Hole(k) => ValueOf(k, ctx)
  }

  // What stands in the rendered literal for a piece.
  function PieceUnits(q: Piece, ctx: Context): seq<Unit> {
    match q case Lit(u) => u case Hole(k) => UnitsOf(ValueOf(k, ctx))
  }

  function AllUnits(ps: seq<Piece>, ctx: Context): seq<Unit> {
    if ps == [] then [] else PieceUnits(ps[0], ctx) + AllUnits(ps[1..], ctx)
  }

  // No value used is written with the two halves of an astral character as separate code points, and no piece
  // ends in the first half of one whose second half begins what follows it.
  ghost predicate Seamless(ps: seq<Piece>, ctx: Context) {
    ps == [] ||
    (&& (ps[0].Hole? ==> NoSplitPair(ValueOf(ps[0].key, ctx)))
     && !Seam(PieceUnits(ps[0], ctx), AllUnits(ps[1..], ctx))
     && Seamless(ps[1..], ctx))
  }
}
