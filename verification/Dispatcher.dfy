/** Tickets and replies through the outbox, and what retries of one email add up to (app/pipeline/dispatcher.py). */
module Dispatcher {
  import opened Common
  import opened Outbox

  // The parts of an email that the keys are made of. subject is the effective subject.
  datatype Email = Email(client: PyStr, messageId: Ref, mailId: Ref, fromEmail: PyStr, subject: PyStr)

  const REPLY := Codes("smtp_send_reply")
  const TICKET := Codes("crm_ticket_create")

  function Composite(client: PyStr, fromEmail: PyStr, subject: PyStr): PyStr {
    client + [COLON] + fromEmail + [COLON] + subject
  }

  function OutSubject(h: Host, subject: PyStr): PyStr {
    var clean := Trim(subject);
    if Codes("re:") <= h.lower(clean) then clean else Codes("Re: ") + clean
  }

  // Neither seed is ever empty, so the fallback digest of the outbox is not reached from here.
  function TicketKey(h: Host, e: Email): Key {
    var composite := Composite(e.client, e.fromEmail, e.subject);
    ComputeKey(h, e.client, Or(e.messageId, Or(e.mailId, Some(composite))).value, TICKET)
  }

  function ReplyKey(h: Host, client: PyStr, fromEmail: PyStr, subject: PyStr, messageId: Ref): Key {
    ComputeKey(h, client, Or(messageId, Some(Composite(client, fromEmail, OutSubject(h, subject)))).value, REPLY)
  }

  function TicketReplyKey(h: Host, e: Email, ticket: PyStr): Key {
    ReplyKey(h, e.client, e.fromEmail, Codes("Ticket Update: ") + ticket, e.messageId)
  }

  // What the connector and the mail server do in one call. Both report failure by a value, not by raising.
  datatype Crm = CrmReturns(ticketId: Ref, refrenceNo: Ref, messageId: Ref) | CrmRaises | CrmStops
  datatype Smtp = SmtpReturns(ok: bool) | SmtpRaises | SmtpStops

  // generated tells how the reply generator ends: with a reply, with an exception, or not at all.
  datatype Call = Call(auto: bool, crm: Crm, smtp: Smtp, recorded: bool, generated: Write,
                       ticketBegin: Write, ticketComplete: Write, ticketFail: Write,
                       replyBegin: Write, replyComplete: Write, replyFail: Write)

  function TicketWorld(c: Call): World {
    var action := match c.crm
      case CrmReturns(t, r, m) => Returns(t, Dict(t, r, m))
      case CrmRaises => Raises
      case CrmStops => Stops;
    World(c.ticketBegin, action, c.ticketComplete, c.ticketFail)
  }

  function ReplyWorld(c: Call): World {
    var action := match c.smtp
      case SmtpReturns(ok) => Returns(None, Plain(ok))
      case SmtpRaises => Raises
      case SmtpStops => Stops;
    World(c.replyBegin, action, c.replyComplete, c.replyFail)
  }

  datatype Outcome = TicketFailed | Handled(ticket: PyStr, sent: bool) | Broken(died: bool)

  // The ticket id a call goes on with, if there is one.
  function TicketOf(a: Answer): Ref {
    match a
    case AlreadyCompleted(ref) => if Truthy(ref) then ref else None
    case Executed(ref, v) => if Truthy(ref) then ref else if v.Dict? && Truthy(v.ticketId) then v.ticketId else None
    case _ => None
  }

  // ---------------------------------------------------------------- one call

  // Everything a call can leave behind. tickets and replies count normal returns of the two actions,
  // ticketsLost and repliesLost those whose completion did not commit, mailed the replies that the mail server
  // took, ids the tickets that were reported.
  datatype Totals = Totals(log: Log, records: seq<PyStr>, tickets: nat, ticketsLost: nat,
                           replies: nat, repliesLost: nat, mailed: nat, ids: set<PyStr>)

  function Recorded(records: seq<PyStr>, ticket: PyStr, ok: bool): seq<PyStr> {
    if ok && ticket !in records then records + [ticket] else records
  }

  function Reported(t: Totals, id: PyStr, ok: bool): Totals {
    t.(records := Recorded(t.records, id, ok), ids := t.ids + {id})
  }

  function AfterTicket(h: Host, t: Totals, e: Email, c: Call): Totals {
    var key, w := TicketKey(h, e), TicketWorld(c);
    var ran := Ran(t.log, key, w);
    t.(log := AfterAttempt(t.log, key, w),
       tickets := t.tickets + (if ran then 1 else 0),
       ticketsLost := t.ticketsLost + (if ran && w.complete != Commits then 1 else 0))
  }

  function AfterReply(h: Host, t: Totals, e: Email, c: Call, ticket: PyStr): Totals {
    var key, w := TicketReplyKey(h, e, ticket), ReplyWorld(c);
    var ran := Ran(t.log, key, w);
    t.(log := AfterAttempt(t.log, key, w),
       replies := t.replies + (if ran then 1 else 0),
       repliesLost := t.repliesLost + (if ran && w.complete != Commits then 1 else 0),
       mailed := t.mailed + (if ran && c.smtp == SmtpReturns(true) then 1 else 0))
  }

  function TicketAnswer(h: Host, log: Log, e: Email, c: Call): Answer {
    AnswerOf(log, TicketKey(h, e), TicketWorld(c))
  }

  function AfterCall(h: Host, t: Totals, e: Email, c: Call): Totals {
    var a, t1 := TicketAnswer(h, t.log, e, c), AfterTicket(h, t, e, c);
    if TicketOf(a) == None then t1 else
    var ticket := TicketOf(a).value;
    var t2 := Reported(t1, ticket, c.recorded);
    if c.auto && c.generated == Commits then AfterReply(h, t2, e, c, ticket) else t2
  }

  function OutcomeOf(h: Host, t: Totals, e: Email, c: Call): Outcome {
    var a := TicketAnswer(h, t.log, e, c);
    if a.Died? || a.Threw? then Broken(a.Died?)
    else if TicketOf(a) == None then TicketFailed
    else if c.generated != Commits then Broken(c.generated == Dies)
    else if !c.auto then Handled(TicketOf(a).value, false)
    else
      var reply := AnswerOf(AfterTicket(h, t, e, c).log, TicketReplyKey(h, e, TicketOf(a).value), ReplyWorld(c));
      if reply.Died? || reply.Threw? then Broken(reply.Died?) else Handled(TicketOf(a).value, true)
  }

  class Desk {
    const table: Table
    var records: seq<PyStr>
    var draftsAsked: nat

    constructor (table: Table)
      ensures this.table == table && records == [] && draftsAsked == 0
    {
      this.table, records, draftsAsked := table, [], 0;
    }

    // dispatch_or_draft_reply; it answers "sent" whatever the mail server said, as long as it gets that far.
    method DispatchOrDraft(h: Host, client: PyStr, fromEmail: PyStr, subject: PyStr, messageId: Ref, auto: bool,
                           w: World)
      returns (answer: Option<Answer>)
      modifies this`draftsAsked, table
      ensures var key := ReplyKey(h, client, fromEmail, subject, messageId);
              auto ==> && draftsAsked == old(draftsAsked)
                       && table.log == AfterAttempt(old(table.log), key, w)
                       && answer == Some(AnswerOf(old(table.log), key, w))
      ensures !auto ==> draftsAsked == old(draftsAsked) + 1 && table.log == old(table.log) && answer == None
    {
      if !auto {
        draftsAsked := draftsAsked + 1;
        return None;
      }
      var seed := if messageId.Some? && messageId.value != [] then messageId.value
                  else Composite(client, fromEmail, OutSubject(h, subject));
      var a, ran := table.Execute(ComputeKey(h, client, seed, REPLY), w);
      return Some(a);
    }

    // The first half: the ticket that a call goes on with, if it gets one.
    method CreateTicket(h: Host, e: Email, c: Call) returns (a: Answer, ticket: Ref)
      modifies table
      ensures table.log == AfterAttempt(old(table.log), TicketKey(h, e), TicketWorld(c))
      ensures a == TicketAnswer(h, old(table.log), e, c) && ticket == TicketOf(a)
    {
      var ran;
      a, ran := table.Execute(TicketKey(h, e), TicketWorld(c));
      if a.Died? || a.Threw? || a.Error? { return a, None; }
      ticket := a.ref;
      if !Truthy(ticket) && a.Executed? && a.value.Dict? { ticket := a.value.ticketId; }
      if !Truthy(ticket) { ticket := None; }
    }

    method CreateTicketAndReply(h: Host, e: Email, c: Call) returns (outcome: Outcome)
      modifies this, table
      ensures var before := Totals(old(table.log), old(records), 0, 0, 0, 0, 0, {});
              var after := AfterCall(h, before, e, c);
              && outcome == OutcomeOf(h, before, e, c)
              && table.log == after.log && records == after.records
      ensures draftsAsked == old(draftsAsked) + if outcome.Handled? && !outcome.sent then 1 else 0
    {
      var a, ticket := CreateTicket(h, e, c);
      if a.Died? || a.Threw? { return Broken(a.Died?); }
      if ticket == None { return TicketFailed; }
      if c.recorded && ticket.value !in records { records := records + [ticket.value]; }
      if c.generated != Commits { return Broken(c.generated == Dies); }
      var subject := Codes("Ticket Update: ") + ticket.value;
      var reply := DispatchOrDraft(h, e.client, e.fromEmail, subject, e.messageId, c.auto, ReplyWorld(c));
      if reply.Some? && (reply.value.Died? || reply.value.Threw?) { return Broken(reply.value.Died?); }
      return Handled(ticket.value, reply.Some?);
    }
  }

  // ---------------------------------------------------------------- retries of one email

  datatype Event = Retry(call: Call) | Sweep(keys: set<Key>)

  function AfterEvent(h: Host, t: Totals, e: Email, ev: Event): Totals {
    match ev
    case Retry(c) => AfterCall(h, t, e, c)
    case Sweep(keys) => t.(log := Swept(t.log, keys))
  }

  function AfterEvents(h: Host, t: Totals, e: Email, evs: seq<Event>): Totals
    decreases |evs|
  {
    if evs == [] then t else AfterEvents(h, AfterEvent(h, t, e, evs[0]), e, evs[1..])
  }

  // The two action types are lower case already.
  predicate KeepsActionTypes(h: Host) {
    h.lower(REPLY) == REPLY && h.lower(TICKET) == TICKET
  }

  lemma ActionTypesFold(h: Host)
    requires KeepsActionTypes(h)
    ensures Folded(h, REPLY) == REPLY && Folded(h, TICKET) == TICKET
  {
    assert "smtp_send_reply"[0] == 's' && "smtp_send_reply"[14] == 'y';
    assert "crm_ticket_create"[0] == 'c' && "crm_ticket_create"[16] == 'e';
  }

  // Whatever the emails and the clients, no ticket key is ever a reply key.
  lemma TicketAndReplyKeysDiffer(h: Host, e: Email, client: PyStr, fromEmail: PyStr, subject: PyStr, messageId: Ref)
    requires KeepsActionTypes(h)
    ensures TicketKey(h, e) != ReplyKey(h, client, fromEmail, subject, messageId)
  {
    ActionTypesFold(h);
    assert "smtp_send_reply"[14] == 'y' && "crm_ticket_create"[16] == 'e';
    LastCharacterSeparates(h,
      e.client, Or(e.messageId, Or(e.mailId, Some(Composite(e.client, e.fromEmail, e.subject)))).value, TICKET,
      client, Or(messageId, Some(Composite(client, fromEmail, OutSubject(h, subject)))).value, REPLY);
  }

  // An attempt completes its own row when its action returns and the completion commits, and no other row;
  // a completed row stays as it is.
  lemma AttemptCompletes(log: Log, key: Key, w: World, x: Key)
    ensures var log' := AfterAttempt(log, key, w);
            && (IsCompleted(log', x) <==>
                  IsCompleted(log, x) || (x == key && Ran(log, key, w) && w.complete == Commits))
            && (IsCompleted(log, x) ==> log'[x] == log[x])
            && (x == key && Ran(log, key, w) && w.complete == Commits ==>
                  log'[x].ref == ExternalRef(w.action.extracted, w.action.value))
  {}

  function One(b: bool): nat {
    if b then 1 else 0
  }

  // before is what ticket_record held at the start, key the ticket key and reply the reply key.
  ghost predicate Inv(t: Totals, before: seq<PyStr>, key: Key, reply: Key) {
    && t.tickets == t.ticketsLost + One(IsCompleted(t.log, key))
    && t.replies == t.repliesLost + One(IsCompleted(t.log, reply))
    && (t.ticketsLost == 0 ==> && (forall id :: id in t.ids ==> TheTicket(t, key, id))
                               && (t.records == before || OneMore(t, before, key)))
  }

  predicate TheTicket(t: Totals, key: Key, id: PyStr) {
    IsCompleted(t.log, key) && Truthy(t.log[key].ref) && t.log[key].ref.value == id
  }

  predicate OneMore(t: Totals, before: seq<PyStr>, key: Key) {
    IsCompleted(t.log, key) && Truthy(t.log[key].ref) && t.records == before + [t.log[key].ref.value]
  }

  lemma TicketStepKeeps(h: Host, t: Totals, e: Email, c: Call, before: seq<PyStr>, reply: Key)
    requires Inv(t, before, TicketKey(h, e), reply) && reply != TicketKey(h, e)
    ensures var t' := AfterTicket(h, t, e, c);
            && Inv(t', before, TicketKey(h, e), reply)
            && var id := TicketOf(TicketAnswer(h, t.log, e, c)); id.Some? ==> TheTicket(t', TicketKey(h, e), id.value)
  {
    AttemptCompletes(t.log, TicketKey(h, e), TicketWorld(c), TicketKey(h, e));
    AttemptCompletes(t.log, TicketKey(h, e), TicketWorld(c), reply);
  }

  lemma ReplyStepKeeps(h: Host, t: Totals, e: Email, c: Call, ticket: PyStr, before: seq<PyStr>, key: Key)
    requires Inv(t, before, key, TicketReplyKey(h, e, ticket)) && key != TicketReplyKey(h, e, ticket)
    ensures Inv(AfterReply(h, t, e, c, ticket), before, key, TicketReplyKey(h, e, ticket))
  {
    AttemptCompletes(t.log, TicketReplyKey(h, e, ticket), ReplyWorld(c), key);
    AttemptCompletes(t.log, TicketReplyKey(h, e, ticket), ReplyWorld(c), TicketReplyKey(h, e, ticket));
  }

  lemma ReportKeeps(t: Totals, id: PyStr, ok: bool, before: seq<PyStr>, key: Key, reply: Key)
    requires Inv(t, before, key, reply) && TheTicket(t, key, id)
    ensures Inv(Reported(t, id, ok), before, key, reply)
  {
    forall x | x in t.ids + {id} && t.ticketsLost == 0 ensures TheTicket(Reported(t, id, ok), key, x) {
      assert x in t.ids ==> TheTicket(t, key, x);
    }
  }

  lemma CallKeeps(h: Host, t: Totals, e: Email, c: Call, before: seq<PyStr>, reply: Key)
    requires KeepsActionTypes(h) && Truthy(e.messageId) && reply == TicketReplyKey(h, e, [])
    requires Inv(t, before, TicketKey(h, e), reply)
    ensures Inv(AfterCall(h, t, e, c), before, TicketKey(h, e), reply)
  {
    TicketAndReplyKeysDiffer(h, e, e.client, e.fromEmail, Codes("Ticket Update: ") + [], e.messageId);
    TicketStepKeeps(h, t, e, c, before, reply);
    var t1, ticket := AfterTicket(h, t, e, c), TicketOf(TicketAnswer(h, t.log, e, c));
    if ticket.Some? {
      ReportKeeps(t1, ticket.value, c.recorded, before, TicketKey(h, e), reply);
      if c.auto && c.generated == Commits {
        ReplyStepKeeps(h, Reported(t1, ticket.value, c.recorded), e, c, ticket.value, before, TicketKey(h, e));
      }
    }
  }

  lemma {:induction false} EventsKeep(h: Host, t: Totals, e: Email, evs: seq<Event>, before: seq<PyStr>, reply: Key)
    requires KeepsActionTypes(h) && Truthy(e.messageId) && reply == TicketReplyKey(h, e, [])
    requires Inv(t, before, TicketKey(h, e), reply)
    ensures Inv(AfterEvents(h, t, e, evs), before, TicketKey(h, e), reply)
    decreases |evs|
  {
    if evs != [] {
      if evs[0].Retry? { CallKeeps(h, t, e, evs[0].call, before, reply); }
      EventsKeep(h, AfterEvent(h, t, e, evs[0]), e, evs[1..], before, reply);
    }
  }

  // However often an email with a message id is handled again, one call after another with crashes and sweeps
  // in between: the ticket call returns at most once, and so does the call that mails the reply, up to one
  // repeat for each completion that was lost. When no completion of the ticket was lost, every reply speaks
  // of one and the same ticket, and ticket_record gains at most one row.
  lemma AtMostOneTicketAndReply(h: Host, log: Log, records: seq<PyStr>, e: Email, evs: seq<Event>)
    requires KeepsActionTypes(h) && Truthy(e.messageId)
    requires !IsCompleted(log, TicketKey(h, e)) && !IsCompleted(log, TicketReplyKey(h, e, []))
    ensures var t := AfterEvents(h, Totals(log, records, 0, 0, 0, 0, 0, {}), e, evs);
            && t.ticketsLost <= t.tickets <= t.ticketsLost + 1
            && t.repliesLost <= t.replies <= t.repliesLost + 1
            && (t.ticketsLost == 0 ==> |t.ids| <= 1 && |t.records| <= |records| + 1 && records <= t.records)
  {
    var t := AfterEvents(h, Totals(log, records, 0, 0, 0, 0, 0, {}), e, evs);
    EventsKeep(h, Totals(log, records, 0, 0, 0, 0, 0, {}), e, evs, records, TicketReplyKey(h, e, []));
    if t.ticketsLost == 0 && t.ids != {} {
      var id :| id in t.ids;
      assert t.ids == {id} by {
        forall x | x in t.ids ensures x == id {
          assert TheTicket(t, TicketKey(h, e), x) && TheTicket(t, TicketKey(h, e), id);
        }
      }
    }
  }

  // ---------------------------------------------------------------- which emails share a ticket or a reply

  // The id of an email: its message id, or else its mail id.
  function IdOf(e: Email): Ref {
    if Truthy(e.messageId) then e.messageId else e.mailId
  }

  lemma ActionsHaveNoColon(h: Host)
    requires KeepsActionTypes(h)
    ensures COLON !in Folded(h, TICKET) && COLON !in Folded(h, REPLY)
  {
    ActionTypesFold(h);
    NoColon("crm_ticket_create");
    NoColon("smtp_send_reply");
  }

  lemma NoColon(s: string)
    requires forall i :: 0 <= i < |s| ==> s[i] as int < 0x80 && s[i] != ':'
    ensures COLON !in Codes(s)
  {
    forall i | 0 <= i < |Codes(s)| ensures Codes(s)[i] != COLON { assert Codes(s)[i] == s[i] as int; }
  }

  // Two emails that have ids share a ticket exactly when their clients fold alike and their ids are the same, up to
  // blanks around them. Sender and subject do not count.
  lemma TicketsAreSharedExactly(h: Host, e: Email, f: Email)
    requires KeepsActionTypes(h) && COLON !in Folded(h, e.client) && COLON !in Folded(h, f.client)
    requires Truthy(IdOf(e)) && Truthy(IdOf(f))
    ensures TicketKey(h, e) == TicketKey(h, f)
       <==> Folded(h, e.client) == Folded(h, f.client) && Trim(IdOf(e).value) == Trim(IdOf(f).value)
  {
    ActionsHaveNoColon(h);
    KeysAgree(h, e.client, IdOf(e).value, TICKET, f.client, IdOf(f).value, TICKET);
  }

  // And two replies share a mail exactly when they answer the same message of the same client.
  lemma RepliesAreSharedExactly(h: Host, e: Email, f: Email, t1: PyStr, t2: PyStr)
    requires KeepsActionTypes(h) && COLON !in Folded(h, e.client) && COLON !in Folded(h, f.client)
    requires Truthy(e.messageId) && Truthy(f.messageId)
    ensures TicketReplyKey(h, e, t1) == TicketReplyKey(h, f, t2)
       <==> Folded(h, e.client) == Folded(h, f.client) && Trim(e.messageId.value) == Trim(f.messageId.value)
  {
    ActionsHaveNoColon(h);
    KeysAgree(h, e.client, e.messageId.value, REPLY, f.client, f.messageId.value, REPLY);
  }

  // The subject of a reply is the one given, without blanks around it, and marked as a reply unless it is already.
  lemma ReplySubject(h: Host, subject: PyStr)
    ensures Codes("re:") <= h.lower(Trim(subject)) ==> OutSubject(h, subject) == Trim(subject)
    ensures !(Codes("re:") <= h.lower(Trim(subject))) ==> OutSubject(h, subject) == Codes("Re: ") + Trim(subject)
  {}

  // Everything goes well.
  predicate GoesWell(c: Call, id: PyStr) {
    && c.auto && c.generated == Commits && c.recorded
    && c.crm.CrmReturns? && c.crm.ticketId == Some(id) && c.smtp == SmtpReturns(true)
    && c.ticketBegin == c.ticketComplete == c.replyBegin == c.replyComplete == Commits
  }

  // A new email then gets the ticket that the CRM gave, one record of it, and one reply, and the two keys are booked.
  lemma NewEmailIsHandled(h: Host, t: Totals, e: Email, c: Call, id: PyStr)
    requires KeepsActionTypes(h) && id != [] && GoesWell(c, id)
    requires !IsCompleted(t.log, TicketKey(h, e)) && !IsCompleted(t.log, TicketReplyKey(h, e, id))
    ensures OutcomeOf(h, t, e, c) == Handled(id, true)
    ensures var t' := AfterCall(h, t, e, c);
            && t'.tickets == t.tickets + 1 && t'.replies == t.replies + 1 && t'.mailed == t.mailed + 1
            && t'.ticketsLost == t.ticketsLost && t'.repliesLost == t.repliesLost && t'.ids == t.ids + {id}
            && t'.records == (if id in t.records then t.records else t.records + [id])
  {
    TicketHalfGoesWell(h, t, e, c, id);
    TicketLeavesReplies(h, t, e, c, id);
    ReportedAsSent(h, t, e, c, id);
  }

  lemma TicketHalfGoesWell(h: Host, t: Totals, e: Email, c: Call, id: PyStr)
    requires id != [] && GoesWell(c, id) && !IsCompleted(t.log, TicketKey(h, e))
    ensures TicketAnswer(h, t.log, e, c) == Executed(Some(id), TicketWorld(c).action.value)
    ensures Replies(h, t, e, c, id)
  {}

  // ---------------------------------------------------------------- failures that count as done

  // A completed row with no usable reference: every later handling of the email fails without another ticket call.
  lemma {:induction false} EmptyTicketIsFinal(h: Host, t: Totals, e: Email, evs: seq<Event>, c: Call)
    requires IsCompleted(t.log, TicketKey(h, e)) && !Truthy(t.log[TicketKey(h, e)].ref)
    ensures var t' := AfterEvents(h, t, e, evs);
            && t'.tickets == t.tickets && t'.replies == t.replies && t'.ids == t.ids && t'.records == t.records
            && IsCompleted(t'.log, TicketKey(h, e))
            && (OutcomeOf(h, t', e, c) == TicketFailed || (c.ticketBegin != Commits && OutcomeOf(h, t', e, c).Broken?))
    decreases |evs|
  {
    if evs != [] {
      var w := TicketWorld(if evs[0].Retry? then evs[0].call else c);
      AttemptCompletes(t.log, TicketKey(h, e), w, TicketKey(h, e));
      EmptyTicketIsFinal(h, AfterEvent(h, t, e, evs[0]), e, evs[1..], c);
    }
  }

  // What the CRM returned gives no usable ticket id.
  predicate GivesNoTicket(crm: Crm) {
    crm.CrmReturns? && !Truthy(ExternalRef(crm.ticketId, Dict(crm.ticketId, crm.refrenceNo, crm.messageId)))
  }

  // run_ticket_create reports a failure by returning no ticket id. The outbox books that as completed, so one
  // failure of the CRM is for good: no later retry of the email calls it again or replies.
  lemma FailedTicketIsNeverRetried(h: Host, t: Totals, e: Email, c: Call, evs: seq<Event>, later: Call)
    requires !IsCompleted(t.log, TicketKey(h, e))
    requires c.ticketBegin == c.ticketComplete == Commits && GivesNoTicket(c.crm)
    ensures var t' := AfterEvents(h, AfterCall(h, t, e, c), e, evs);
            && OutcomeOf(h, t, e, c) == TicketFailed
            && t'.tickets == t.tickets + 1 && t'.replies == t.replies && t'.ids == t.ids
            && (later.ticketBegin == Commits ==> OutcomeOf(h, t', e, later) == TicketFailed)
  {
    AttemptCompletes(t.log, TicketKey(h, e), TicketWorld(c), TicketKey(h, e));
    EmptyTicketIsFinal(h, AfterCall(h, t, e, c), e, evs, later);
  }

  predicate Books(c: Call) {
    c.ticketBegin == Commits && c.crm.CrmReturns? && c.ticketComplete == Commits
  }

  lemma BookedExactly(h: Host, t: Totals, e: Email, c: Call)
    requires KeepsActionTypes(h) && !IsCompleted(t.log, TicketKey(h, e))
    ensures IsCompleted(AfterCall(h, t, e, c).log, TicketKey(h, e)) <==> Books(c)
  {
    var key, t1 := TicketKey(h, e), AfterTicket(h, t, e, c);
    AttemptCompletes(t.log, key, TicketWorld(c), key);
    var ticket := TicketOf(TicketAnswer(h, t.log, e, c));
    if ticket.Some? {
      TicketAndReplyKeysDiffer(h, e, e.client, e.fromEmail, Codes("Ticket Update: ") + ticket.value, e.messageId);
      AttemptCompletes(t1.log, TicketReplyKey(h, e, ticket.value), ReplyWorld(c), key);
    }
  }

  lemma CallCountsOnce(h: Host, t: Totals, e: Email, c: Call)
    requires c.ticketBegin == Commits && c.crm.CrmReturns?
    ensures AfterCall(h, t, e, c).tickets == t.tickets + if IsCompleted(t.log, TicketKey(h, e)) then 0 else 1
  {}

  // A handling that starts on a ticket that is not booked leaves it open exactly when its call of the CRM did
  // not return or the completion did not commit. Then, and only then, the next handling that gets to it calls
  // the CRM again, even after a sweep.
  lemma RetriedExactlyWhenNotBooked(h: Host, t: Totals, e: Email, c: Call, keys: set<Key>, later: Call)
    requires KeepsActionTypes(h) && !IsCompleted(t.log, TicketKey(h, e))
    ensures var t' := AfterEvent(h, AfterCall(h, t, e, c), e, Sweep(keys));
            && (IsCompleted(t'.log, TicketKey(h, e)) <==> Books(c))
            && (later.ticketBegin == Commits && later.crm.CrmReturns? ==>
                  AfterCall(h, t', e, later).tickets == t'.tickets + if Books(c) then 0 else 1)
  {
    BookedExactly(h, t, e, c);
    if later.ticketBegin == Commits && later.crm.CrmReturns? {
      CallCountsOnce(h, AfterEvent(h, AfterCall(h, t, e, c), e, Sweep(keys)), e, later);
    }
  }

  // ---------------------------------------------------------------- what "sent" means

  // The call gets to the reply for this ticket, in the mode that mails it.
  predicate Replies(h: Host, t: Totals, e: Email, c: Call, ticket: PyStr) {
    c.auto && c.generated == Commits && TicketOf(TicketAnswer(h, t.log, e, c)) == Some(ticket)
  }

  // The process lives through the reply, as far as this reply is still to be mailed.
  predicate Survives(c: Call) {
    match c.smtp
    case SmtpStops => false
    case SmtpRaises => c.replyFail != Dies
    case SmtpReturns(_) => c.replyComplete == Commits || (c.replyComplete == Fails && c.replyFail != Dies)
  }

  predicate BooksReply(c: Call) {
    c.replyBegin == Commits && c.smtp.SmtpReturns? && c.replyComplete == Commits
  }

  // The ticket half of a call leaves the rows of replies as they are.
  lemma TicketLeavesReplies(h: Host, t: Totals, e: Email, c: Call, ticket: PyStr)
    requires KeepsActionTypes(h)
    ensures IsCompleted(AfterTicket(h, t, e, c).log, TicketReplyKey(h, e, ticket))
       <==> IsCompleted(t.log, TicketReplyKey(h, e, ticket))
  {
    TicketAndReplyKeysDiffer(h, e, e.client, e.fromEmail, Codes("Ticket Update: ") + ticket, e.messageId);
    AttemptCompletes(t.log, TicketKey(h, e), TicketWorld(c), TicketReplyKey(h, e, ticket));
  }

  // What the report is worth. A handling that gets to a reply which is not booked yet reports it as sent exactly
  // when the first transaction commits and the process lives; it delivers the mail exactly when the first
  // transaction commits and the mail server takes it. So a reported reply was delivered if and only if the mail
  // server took it: one that it refused, or that raised on the way, is reported as sent as well. A reply that
  // is booked already is reported as sent without another mail.
  lemma ReportedAsSent(h: Host, t: Totals, e: Email, c: Call, ticket: PyStr)
    requires KeepsActionTypes(h) && Replies(h, t, e, c, ticket)
    ensures var booked := IsCompleted(t.log, TicketReplyKey(h, e, ticket));
            && (OutcomeOf(h, t, e, c) == Handled(ticket, true) <==> c.replyBegin == Commits && (booked || Survives(c)))
            && (AfterCall(h, t, e, c).mailed == t.mailed + 1 <==>
                  !booked && c.replyBegin == Commits && c.smtp == SmtpReturns(true))
            && t.mailed <= AfterCall(h, t, e, c).mailed <= t.mailed + 1
            && (OutcomeOf(h, t, e, c) == Handled(ticket, true) && !booked ==>
                  (AfterCall(h, t, e, c).mailed == t.mailed + 1 <==> c.smtp == SmtpReturns(true)))
  {
    ReportedExactly(h, t, e, c, ticket);
    MailedExactly(h, t, e, c, ticket);
  }

  lemma ReportedExactly(h: Host, t: Totals, e: Email, c: Call, ticket: PyStr)
    requires KeepsActionTypes(h) && Replies(h, t, e, c, ticket)
    ensures OutcomeOf(h, t, e, c) == Handled(ticket, true)
       <==> c.replyBegin == Commits && (IsCompleted(t.log, TicketReplyKey(h, e, ticket)) || Survives(c))
  {
    TicketLeavesReplies(h, t, e, c, ticket);
    AnswerLives(AfterTicket(h, t, e, c).log, TicketReplyKey(h, e, ticket), c);
  }

  lemma AnswerLives(log: Log, key: Key, c: Call)
    ensures var a := AnswerOf(log, key, ReplyWorld(c));
            !a.Died? && !a.Threw? <==> c.replyBegin == Commits && (IsCompleted(log, key) || Survives(c))
  {}

  lemma MailedExactly(h: Host, t: Totals, e: Email, c: Call, ticket: PyStr)
    requires KeepsActionTypes(h) && Replies(h, t, e, c, ticket)
    ensures AfterCall(h, t, e, c).mailed
            == t.mailed + One(!IsCompleted(t.log, TicketReplyKey(h, e, ticket))
                              && c.replyBegin == Commits && c.smtp == SmtpReturns(true))
  {
    TicketLeavesReplies(h, t, e, c, ticket);
  }

  // A handling that reports a reply for this ticket as sent did get to it.
  lemma ReportGetsThere(h: Host, t: Totals, e: Email, c: Call, ticket: PyStr)
    requires OutcomeOf(h, t, e, c) == Handled(ticket, true)
    ensures Replies(h, t, e, c, ticket)
  {}

  lemma ReplyBookedExactly(h: Host, t: Totals, e: Email, c: Call, ticket: PyStr)
    requires KeepsActionTypes(h) && Replies(h, t, e, c, ticket)
    ensures IsCompleted(AfterCall(h, t, e, c).log, TicketReplyKey(h, e, ticket))
       <==> IsCompleted(t.log, TicketReplyKey(h, e, ticket)) || BooksReply(c)
  {
    var key := TicketReplyKey(h, e, ticket);
    TicketLeavesReplies(h, t, e, c, ticket);
    AttemptCompletes(AfterTicket(h, t, e, c).log, key, ReplyWorld(c), key);
  }

  // The counterpart of RetriedExactlyWhenNotBooked: the next handling that gets to the reply sends it once more
  // exactly when this send raised, died or lost its completion, even after a sweep.
  lemma ResentExactlyWhenNotBooked(h: Host, t: Totals, e: Email, c: Call, keys: set<Key>, later: Call, ticket: PyStr)
    requires KeepsActionTypes(h) && Replies(h, t, e, c, ticket)
    requires !IsCompleted(t.log, TicketReplyKey(h, e, ticket))
    requires Replies(h, AfterEvent(h, AfterCall(h, t, e, c), e, Sweep(keys)), e, later, ticket)
    ensures var t' := AfterEvent(h, AfterCall(h, t, e, c), e, Sweep(keys));
            && (IsCompleted(t'.log, TicketReplyKey(h, e, ticket)) <==> BooksReply(c))
            && (later.replyBegin == Commits && later.smtp == SmtpReturns(true) ==>
                  AfterCall(h, t', e, later).mailed == t'.mailed + if BooksReply(c) then 0 else 1)
  {
    ReplyBookedExactly(h, t, e, c, ticket);
    SweepLeavesCompleted(AfterCall(h, t, e, c).log, keys, TicketReplyKey(h, e, ticket));
    MailedExactly(h, AfterEvent(h, AfterCall(h, t, e, c), e, Sweep(keys)), e, later, ticket);
  }

  lemma SweepLeavesCompleted(log: Log, keys: set<Key>, key: Key)
    ensures IsCompleted(Swept(log, keys), key) <==> IsCompleted(log, key)
  {}

  // With a message id all replies to an email share one key, whatever the ticket.
  lemma OneReplyKey(h: Host, e: Email, a: PyStr, b: PyStr)
    requires Truthy(e.messageId)
    ensures TicketReplyKey(h, e, a) == TicketReplyKey(h, e, b)
  {}

  lemma {:induction false} BookedReplyIsFinal(h: Host, t: Totals, e: Email, evs: seq<Event>)
    requires KeepsActionTypes(h) && Truthy(e.messageId) && IsCompleted(t.log, TicketReplyKey(h, e, []))
    ensures var t' := AfterEvents(h, t, e, evs);
            t'.mailed == t.mailed && t'.replies == t.replies && IsCompleted(t'.log, TicketReplyKey(h, e, []))
    decreases |evs|
  {
    if evs != [] {
      if evs[0].Retry? { BookedReplyStays(h, t, e, evs[0].call); }
      BookedReplyIsFinal(h, AfterEvent(h, t, e, evs[0]), e, evs[1..]);
    }
  }

  lemma BookedReplyStays(h: Host, t: Totals, e: Email, c: Call)
    requires KeepsActionTypes(h) && Truthy(e.messageId) && IsCompleted(t.log, TicketReplyKey(h, e, []))
    ensures var t' := AfterCall(h, t, e, c);
            t'.mailed == t.mailed && t'.replies == t.replies && IsCompleted(t'.log, TicketReplyKey(h, e, []))
  {
    TicketLeavesReplies(h, t, e, c, []);
    var ticket := TicketOf(TicketAnswer(h, t.log, e, c));
    if ticket.Some? {
      OneReplyKey(h, e, ticket.value, []);
      AttemptCompletes(AfterTicket(h, t, e, c).log, TicketReplyKey(h, e, []), ReplyWorld(c), TicketReplyKey(h, e, []));
    }
  }

  // send_email reports a failure by returning False. That is booked as completed and reported as sent: the
  // customer got nothing, no handling ever mails again, and each that gets to the reply reports it as sent.
  lemma FailedSendIsNeverRetried(h: Host, t: Totals, e: Email, c: Call, ticket: PyStr, evs: seq<Event>, later: Call)
    requires KeepsActionTypes(h) && Truthy(e.messageId) && Replies(h, t, e, c, ticket)
    requires !IsCompleted(t.log, TicketReplyKey(h, e, ticket)) && BooksReply(c) && c.smtp == SmtpReturns(false)
    ensures var t' := AfterEvents(h, AfterCall(h, t, e, c), e, evs);
            && OutcomeOf(h, t, e, c) == Handled(ticket, true)
            && t'.mailed == t.mailed
            && forall again :: Replies(h, t', e, later, again) && later.replyBegin == Commits ==>
                 OutcomeOf(h, t', e, later) == Handled(again, true)
  {
    ReportedAsSent(h, t, e, c, ticket);
    ReplyBookedExactly(h, t, e, c, ticket);
    OneReplyKey(h, e, ticket, []);
    BookedReplyIsFinal(h, AfterCall(h, t, e, c), e, evs);
    var t' := AfterEvents(h, AfterCall(h, t, e, c), e, evs);
    forall again | Replies(h, t', e, later, again) && later.replyBegin == Commits
      ensures OutcomeOf(h, t', e, later) == Handled(again, true)
    {
      OneReplyKey(h, e, again, []);
      ReportedAsSent(h, t', e, later, again);
    }
  }

  // Without any id the key falls back to client, sender and subject, so two emails that share those share the
  // ticket: the second never gets its own.
  lemma NoIdsShareTheTicket(h: Host, e: Email, f: Email)
    requires !Truthy(e.messageId) && !Truthy(e.mailId) && !Truthy(f.messageId) && !Truthy(f.mailId)
    requires e.client == f.client && e.fromEmail == f.fromEmail && e.subject == f.subject
    ensures TicketKey(h, e) == TicketKey(h, f)
  {}
}
