/**
 The context an email gives to a connector's templates, and what the approval-time checks promise about
 rendering in it (app/context_data.py, app/connector_executor.py).
 */
module ConnectorContext {
  import opened Common
  import opened Json
  import opened Template
  import opened JsonStrings
  import opened TemplateProofs
  import opened TemplateValues

  const EXPENSIVE_KEYS: set<Key> := {HistorySummary, IssueDescription}

  const REFERENCE_KEYS: set<Key> := {TicketId, OrderId, PaymentId, ReferenceId}

  predicate IsCheap(k: Key) {
    k !in EXPENSIVE_KEYS
  }

  // What build_context_data_base is called with. The customer's name and the formatted thread are
  // computed by functions outside this model.
  datatype Email = Email(
    clientId: PyStr, fromEmail: PyStr, subject: PyStr, body: Option<PyStr>, cleanedBody: Option<PyStr>,
    ticketId: Option<PyStr>, orderId: Option<PyStr>, paymentId: Option<PyStr>, referenceId: Option<PyStr>,
    intent: PyStr, sentiment: PyStr, priority: PyStr, customerName: PyStr, thread: PyStr)

  function OrStr(a: PyStr, b: PyStr): PyStr {
    if a != [] then a else b
  }

  // normalize_subject
  function NormalizeSubject(raw: PyStr, body: PyStr): PyStr {
    if IsNoSubject(raw) then SubjectFromBody(body) else Strip(raw, IsSpace)
  }

  // What the base context holds under a cheap key.
  function BaseValue(e: Email, k: Key): Option<PyStr>
    requires IsCheap(k)
  {
    var bodyStr := if e.body.Some? then e.body.value else [];
    var cleanedStr := if e.cleanedBody.Some? then e.cleanedBody.value else [];
    var refId := Or(e.referenceId, Or(e.orderId, Or(e.paymentId, e.ticketId)));
    var ordId := Or(e.orderId, Or(refId, e.ticketId));
    match k
    case ClientId => Some(e.clientId)
    case FromEmail => Some(e.fromEmail)
    case Subject => Some(NormalizeSubject(e.subject, OrStr(cleanedStr, bodyStr)))
    case Body => Some(bodyStr)
    case CleanedBody => Some(if e.cleanedBody.Some? then cleanedStr else bodyStr)
    case TicketId => Or(e.ticketId, Or(refId, ordId))
    case OrderId => ordId
    case PaymentId => Or(e.paymentId, Or(refId, e.ticketId))
    case ReferenceId => refId
    case Intent => Some(OrStr(e.intent, Codes("general_query")))
    case Sentiment => Some(OrStr(e.sentiment, Codes("Neutral")))
    case Priority => Some(OrStr(e.priority, Codes("Medium")))
    case CustomerName => Some(if e.fromEmail != [] then e.customerName else Codes("Customer"))
    case ConversationHistory => Some(e.thread)
  }

  // build_context_data_base
  function BuildBase(e: Email): Context {
    map k: Key | IsCheap(k) :: BaseValue(e, k)
  }

  // The email names no ticket, order, payment or reference at all.
  predicate NoIds(e: Email) {
    !Truthy(e.referenceId) && !Truthy(e.orderId) && !Truthy(e.paymentId) && e.ticketId.None?
  }

  // The cheap keys are always there; a reference key is None exactly when the email named nothing, and
  // a reference that was given is kept under its own key.
  lemma BaseContext(e: Email)
    ensures forall k :: k in BuildBase(e) <==> IsCheap(k)
    ensures forall k :: IsCheap(k) && k !in REFERENCE_KEYS ==> BuildBase(e)[k].Some?
    ensures forall k :: k in REFERENCE_KEYS ==> (BuildBase(e)[k].None? <==> NoIds(e))
    ensures Truthy(e.ticketId) ==> BuildBase(e)[TicketId] == e.ticketId
    ensures Truthy(e.orderId) ==> BuildBase(e)[OrderId] == e.orderId
    ensures Truthy(e.paymentId) ==> BuildBase(e)[PaymentId] == e.paymentId
    ensures Truthy(e.referenceId) ==> BuildBase(e)[ReferenceId] == e.referenceId
  {}

  function Text(a: Option<PyStr>): PyStr {
    if a.Some? then a.value else []
  }

  // The reference that stands in for those that the email did not give.
  function FirstReference(e: Email): Option<PyStr> {
    if Truthy(e.referenceId) then e.referenceId
    else if Truthy(e.orderId) then e.orderId
    else if Truthy(e.paymentId) then e.paymentId
    else e.ticketId
  }

  // What the keys of the message itself say, the subject apart.
  lemma BaseSays(e: Email)
    ensures var b := BuildBase(e);
            && b[ClientId] == Some(e.clientId) && b[FromEmail] == Some(e.fromEmail) && b[Body] == Some(Text(e.body))
            && (e.cleanedBody.Some? ==> b[CleanedBody] == e.cleanedBody)
            && (e.cleanedBody.None? ==> b[CleanedBody] == Some(Text(e.body)))
            && b[ConversationHistory] == Some(e.thread)
            && (e.fromEmail != [] ==> b[CustomerName] == Some(e.customerName))
            && (e.fromEmail == [] ==> b[CustomerName] == Some(Codes("Customer")))
  {}

  lemma TriageOfBase(e: Email)
    ensures var b := BuildBase(e);
            && (e.intent != [] ==> b[Intent] == Some(e.intent))
            && (e.sentiment != [] ==> b[Sentiment] == Some(e.sentiment))
            && (e.priority != [] ==> b[Priority] == Some(e.priority))
            && (e.intent == [] ==> b[Intent] == Some(Codes("general_query")))
            && (e.sentiment == [] ==> b[Sentiment] == Some(Codes("Neutral")))
            && (e.priority == [] ==> b[Priority] == Some(Codes("Medium")))
  {}

  // A reference that was not given is the first one that was.
  lemma ReferencesOfBase(e: Email)
    ensures var b, first := BuildBase(e), FirstReference(e);
            && b[ReferenceId] == first
            && (!Truthy(e.ticketId) ==> b[TicketId] == first)
            && (!Truthy(e.orderId) ==> b[OrderId] == first)
            && (!Truthy(e.paymentId) ==> b[PaymentId] == first)
  {}

  // A subject that says something is kept up to blanks around it; for any other the cleaned body is asked first.
  lemma SubjectOfBase(e: Email)
    ensures !IsNoSubject(e.subject) ==> BuildBase(e)[Subject] == Some(Strip(e.subject, IsSpace))
    ensures IsNoSubject(e.subject) ==>
              BuildBase(e)[Subject] ==
                Some(SubjectFromBody(if Truthy(e.cleanedBody) then e.cleanedBody.value else Text(e.body)))
  {}

  // The subject of a base context is never empty, and it is a "no subject" marker exactly when the subject
  // given says nothing and the body's own first line begins with nothing but such a marker.
  lemma SubjectIsMeaningful(raw: PyStr, body: PyStr)
    ensures NormalizeSubject(raw, body) != []
    ensures IsNoSubject(NormalizeSubject(raw, body)) <==> IsNoSubject(raw) && IsMarker(FirstLineHead(body))
  {
    StripTwice(raw);
    StripFixed(SubjectFromBody(body), IsSpace);
    SupportRequestIsNoMarker();
    if IsMarker(FirstLineHead(body)) { MarkersAreLong(FirstLineHead(body)); }
  }

  lemma MarkersAreLong(s: PyStr)
    requires IsMarker(s)
    ensures |s| >= 4
  {}

  lemma SupportRequestIsNoMarker()
    ensures !IsMarker(Codes("Support Request"))
  {
    assert |Codes("Support Request")| == 15;
  }

  lemma StripTwice(s: PyStr)
    ensures Strip(Strip(s, IsSpace), IsSpace) == Strip(s, IsSpace)
  {
    StripFixed(Strip(s, IsSpace), IsSpace);
  }

  // ---------------------------------------------------------------- the executor

  datatype Config = Config(request: Option<string>, headers: Option<string>)

  // The answers of the two language model calls.
  datatype Answers = Answers(summary: PyStr, issue: PyStr)

  // resolve_expensive_keys
  function ResolveExpensive(needed: set<Key>, a: Answers): Context {
    map k | k in needed && k in EXPENSIVE_KEYS :: Some(if k == HistorySummary then a.summary else a.issue)
  }

  function FindIn(p: Pattern, t: Option<string>): set<string> {
    if t.None? then {} else p.Find(t.value)
  }

  function Needed(p: Pattern, c: Config): set<string> {
    FindIn(p, c.request) + FindIn(p, c.headers)
  }

  // The known keys execute_connector asks resolve_expensive_keys for: used, and not in the context yet.
  function ExpensiveNeeded(p: Pattern, c: Config, base: Context): set<Key> {
    set name | name in Needed(p, c) && KeyNamed(name).Some? && KeyNamed(name).value !in base
      :: KeyNamed(name).value
  }

  predicate Uses(p: Pattern, c: Config, k: Key) {
    Name(k) in Needed(p, c)
  }

  function FullContext(p: Pattern, c: Config, base: Context, a: Answers, thread: PyStr): Context {
    var full := base + ResolveExpensive(ExpensiveNeeded(p, c, base), a);
    if ConversationHistory in full && Truthy(full[ConversationHistory]) then full
    else full[ConversationHistory := Some(thread)]
  }

  // The first half of execute_connector: the rendered body and headers.
  function RenderConnector(p: Pattern, c: Config, base: Context, a: Answers, thread: PyStr)
    : Result<(Option<Json<PyStr>>, Option<Json<PyStr>>), RenderError>
  {
    var full := FullContext(p, c, base, a, thread);
    var body :- Render(p, c.request, full);
    var headers :- Render(p, c.headers, full);
    Ok((body, headers))
  }

  lemma ExpensiveNeededExactly(p: Pattern, c: Config, base: Context, k: Key)
    ensures k in ExpensiveNeeded(p, c, base) <==> k !in base && Uses(p, c, k)
  {
    KeyIsNamed(k);
    if k in ExpensiveNeeded(p, c, base) {
      var name :| name in Needed(p, c) && KeyNamed(name) == Some(k);
      assert name == Name(k);
    }
  }

  // How the full context comes from a base that has exactly the cheap keys.
  lemma FullContextShape(p: Pattern, c: Config, base: Context, a: Answers, thread: PyStr, k: Key)
    requires forall j: Key :: j in base <==> IsCheap(j)
    ensures var full := FullContext(p, c, base, a, thread);
            && (k in full <==> k in base || Uses(p, c, k))
            && (k in base && k != ConversationHistory ==> full[k] == base[k])
            && (k in full && (k !in base || k == ConversationHistory) ==> full[k].Some?)
  {
    ExpensiveNeededExactly(p, c, base, k);
  }

  // With a base context the expensive keys computed are exactly the ones the templates refer to, and
  // nothing else of the base context changes.
  lemma ExpensiveExactlyWhenReferenced(p: Pattern, c: Config, e: Email, a: Answers, thread: PyStr)
    ensures forall k :: k in ExpensiveNeeded(p, c, BuildBase(e)) <==> k in EXPENSIVE_KEYS && Uses(p, c, k)
    ensures var full := FullContext(p, c, BuildBase(e), a, thread);
            && (forall k :: k in full <==> IsCheap(k) || Uses(p, c, k))
            && (forall k :: IsCheap(k) && k != ConversationHistory ==> full[k] == BuildBase(e)[k])
            && (forall k :: k in full && (!IsCheap(k) || k == ConversationHistory) ==> full[k].Some?)
  {
    var base := BuildBase(e);
    assert forall j: Key :: j in base <==> IsCheap(j);
    forall k ensures k in ExpensiveNeeded(p, c, base) <==> k in EXPENSIVE_KEYS && Uses(p, c, k) {
      ExpensiveNeededExactly(p, c, base, k);
    }
    var full := FullContext(p, c, base, a, thread);
    forall k: Key
      ensures k in full <==> IsCheap(k) || Uses(p, c, k)
      ensures IsCheap(k) && k != ConversationHistory ==> full[k] == base[k]
      ensures k in full && (!IsCheap(k) || k == ConversationHistory) ==> full[k].Some?
    {
      FullContextShape(p, c, base, a, thread, k);
    }
  }

  // The values of the keys that are computed only on demand, and of the conversation.
  lemma ExpensiveSays(p: Pattern, c: Config, e: Email, a: Answers, thread: PyStr)
    ensures var full := FullContext(p, c, BuildBase(e), a, thread);
            && (Uses(p, c, HistorySummary) ==> HistorySummary in full && full[HistorySummary] == Some(a.summary))
            && (Uses(p, c, IssueDescription) ==> IssueDescription in full && full[IssueDescription] == Some(a.issue))
  {
    ExpensiveNeededExactly(p, c, BuildBase(e), HistorySummary);
    ExpensiveNeededExactly(p, c, BuildBase(e), IssueDescription);
  }

  lemma ConversationSays(p: Pattern, c: Config, e: Email, a: Answers, thread: PyStr)
    ensures var full := FullContext(p, c, BuildBase(e), a, thread);
            && ConversationHistory in full
            && full[ConversationHistory] == Some(if e.thread != [] then e.thread else thread)
  {
    assert BuildBase(e)[ConversationHistory] == Some(e.thread);
    ExpensiveNeededExactly(p, c, BuildBase(e), ConversationHistory);
  }

  // What reaches the CRM: a request that is one placeholder, for a key that the full context has a value for, is sent
  // as that value, and no headers are sent.
  lemma ConnectorSendsTheValue(p: Pattern, e: Email, a: Answers, thread: PyStr, k: Key, v: PyStr)
    requires var full := FullContext(p, Config(Some(OneHole(k)), None), BuildBase(e), a, thread);
             k in full && full[k] == Some(v)
    requires NoSplitPair(v) && (k == Subject ==> !IsNoSubject(v))
    ensures RenderConnector(p, Config(Some(OneHole(k)), None), BuildBase(e), a, thread) == Ok((Some(JStr(v)), None))
  {
    HoleHoldsItsValue(p, FullContext(p, Config(Some(OneHole(k)), None), BuildBase(e), a, thread), k, v);
  }

  // A template column: absent, empty, or valid JSON, as a JSON column guarantees.
  predicate IsJsonColumn(t: Option<string>) {
    t.None? || t.value == "" || Read(t.value).Some?
  }

  // Such a template renders exactly when all its keys are known and have values.
  lemma RenderColumn(p: Pattern, t: Option<string>, ctx: Context)
    requires IsJsonColumn(t)
    ensures Render(p, t, ctx).Ok? <==> forall k :: k in FindIn(p, t) ==> Chosen(k, ctx).Ok?
    ensures Render(p, t, ctx).Err? ==> Render(p, t, ctx).error != NotJson
  {
    if t.Some? && t.value != "" {
      RenderSucceeds(p, t.value, ctx);
      if p.RenderText(t.value, ctx).Ok? {
        RenderThenRead(p, t.value, ctx);
      }
    }
  }

  lemma ChosenFails(name: string, ctx: Context)
    requires KeyNamed(name).Some?
    ensures Chosen(name, ctx).Err? <==> KeyNamed(name).value !in ctx || ctx[KeyNamed(name).value].None?
  {}

  // In the full context a known key that a template uses has no value only when it is a reference key
  // and the email named nothing.
  lemma KeyInFullContext(p: Pattern, c: Config, e: Email, a: Answers, thread: PyStr, name: string)
    requires name in Needed(p, c) && KeyNamed(name).Some?
    ensures Chosen(name, FullContext(p, c, BuildBase(e), a, thread)).Err?
            <==> KeyNamed(name).value in REFERENCE_KEYS && NoIds(e)
  {
    var base, k := BuildBase(e), KeyNamed(name).value;
    BaseContext(e);
    assert Uses(p, c, k);
    FullContextShape(p, c, base, a, thread, k);
    assert k in REFERENCE_KEYS ==> IsCheap(k) && k != ConversationHistory;
    ChosenFails(name, FullContext(p, c, base, a, thread));
  }

  // A configuration whose templates passed the approval-time check renders for every email, except when
  // a template uses a reference key and the email names nothing to refer to.
  lemma ApprovedConfigRenders(p: Pattern, c: Config, e: Email, a: Answers, thread: PyStr)
    requires IsJsonColumn(c.request) && IsJsonColumn(c.headers)
    requires p.KeysKnown(c.request) && p.KeysKnown(c.headers)
    ensures RenderConnector(p, c, BuildBase(e), a, thread).Ok?
            <==> !(NoIds(e) && exists k :: k in REFERENCE_KEYS && Uses(p, c, k))
  {
    var full := FullContext(p, c, BuildBase(e), a, thread);
    RenderColumn(p, c.request, full);
    RenderColumn(p, c.headers, full);
    assert RenderConnector(p, c, BuildBase(e), a, thread).Ok?
        <==> forall name :: name in Needed(p, c) ==> Chosen(name, full).Ok?;
    forall name | name in Needed(p, c)
      ensures KeyNamed(name).Some?
      ensures Chosen(name, full).Err? <==> KeyNamed(name).value in REFERENCE_KEYS && NoIds(e)
    {
      KeyInFullContext(p, c, e, a, thread, name);
    }
    if k :| NoIds(e) && k in REFERENCE_KEYS && Uses(p, c, k) {
      KeyIsNamed(k);
      assert Chosen(Name(k), full).Err?;
    }
  }

  // The check at approval time and the renderer agree on what an unknown key is: rendering reports one
  // only for a template that the check refuses, and never goes through for such a template.
  lemma ValidatorAgreesWithRenderer(p: Pattern, t: string, ctx: Context)
    ensures p.RenderText(t, ctx).Err? && p.RenderText(t, ctx).error.UnknownKey? ==> !p.KeysKnown(Some(t))
    ensures p.RenderText(t, ctx).Ok? ==> p.KeysKnown(Some(t))
    ensures p.KeysKnown(Some(t)) && (forall k :: k in ctx && ctx[k].Some?) ==> p.RenderText(t, ctx).Ok?
  {
    RenderSucceeds(p, t, ctx);
  }
}
