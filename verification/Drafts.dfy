/** Draft replies and the functions that send, edit and discard them one call at a time (app/draft_service.py). */
module Drafts {
  import opened Common

  datatype Status = Pending | Sending | Sent | Discarded

  datatype Draft = Draft(client: string, fromEmail: string, toEmail: string, subject: string, reply: string,
                         messageId: Option<string>, inReplyTo: Option<string>,
                         status: Status, reviewedBy: Option<string>, reason: Option<string>)

  type Table = map<int, Draft>

  datatype Mail = Mail(client: string, recipient: string, subject: string, body: string, inReplyTo: Option<string>)

  // What send_single_draft hands to send_email. The recipient is the customer the draft answers.
  function MailOf(d: Draft): Mail {
    Mail(d.client, d.fromEmail,
         if "Re:" <= d.subject then d.subject else "Re: " + d.subject,
         d.reply,
         if d.messageId.Some? && d.messageId.value != "" then d.messageId else d.inReplyTo)
  }

  // WHERE id = id AND status = 'pending', with the ownership filter unless it is disabled.
  predicate IsPending(t: Table, id: int, owner: Option<string>) {
    id in t && t[id].status == Pending && (owner.Some? ==> t[id].client == owner.value)
  }

  function SetStatus(t: Table, id: int, status: Status): Table
    requires id in t
  {
    t[id := t[id].(status := status)]
  }

  function MarkSent(t: Table, id: int, reviewer: Option<string>): Table
    requires id in t
  {
    t[id := t[id].(status := Sent, reviewedBy := reviewer)]
  }

  // The fields of update_draft that were given.
  datatype Edit = Edit(subject: Option<string>, reply: Option<string>, toEmail: Option<string>,
                       reviewer: Option<string>)

  function Given<T>(a: Option<T>, b: T): T {
    if a.Some? then a.value else b
  }

  function Edited(d: Draft, e: Edit): Draft {
    d.(subject := Given(e.subject, d.subject), reply := Given(e.reply, d.reply), toEmail := Given(e.toEmail, d.toEmail),
       reviewedBy := if e.reviewer.Some? then e.reviewer else d.reviewedBy)
  }

  function Update(t: Table, id: int, owner: Option<string>, e: Edit): Table {
    if e == Edit(None, None, None, None) || !IsPending(t, id, owner) then t else t[id := Edited(t[id], e)]
  }

  function Discard(t: Table, id: int, owner: Option<string>, reason: Option<string>, reviewer: Option<string>): Table {
    var given := if reason.Some? && reason.value != "" then reason.value else "Manually discarded";
    if !IsPending(t, id, owner) then t
    else t[id := t[id].(status := Discarded, reason := Some(given), reviewedBy := reviewer)]
  }

  // An edit of the recipient, alone or with others, is stored but never reaches a mail.
  lemma RecipientEditIsIgnored(d: Draft, e: Edit)
    ensures MailOf(Edited(d, e)) == MailOf(Edited(d, e.(toEmail := None)))
    ensures MailOf(Edited(d, e)).recipient == d.fromEmail
  {}

  predicate Ends(s: string, end: string) {
    |end| <= |s| && s[|s| - |end|..] == end
  }

  // What the customer gets: the reply as it stands, under the subject of the draft, which is marked as a reply
  // exactly once, and as an answer to the email that the draft names.
  lemma MailSays(d: Draft)
    ensures var m := MailOf(d);
            && m.client == d.client && m.recipient == d.fromEmail && m.body == d.reply
            && "Re:" <= m.subject && Ends(m.subject, d.subject)
            && (if "Re:" <= d.subject then m.subject == d.subject else |m.subject| == |d.subject| + 4)
            && (d.messageId.Some? && d.messageId.value != "" ==> m.inReplyTo == d.messageId)
            && (d.messageId.None? || d.messageId.value == "" ==> m.inReplyTo == d.inReplyTo)
  {
    assert ("Re: " + d.subject)[..3] == "Re:";
  }

  // An edit of the reply changes the body of the mail and nothing else of it.
  lemma ReplyEditChangesTheBody(d: Draft, r: string, reviewer: Option<string>)
    ensures MailOf(Edited(d, Edit(None, Some(r), None, reviewer))) == MailOf(d).(body := r)
  {}

  // An edit stores what it was given and leaves the rest; it reaches a pending draft of the owner and no other row.
  lemma EditStores(t: Table, id: int, owner: Option<string>, e: Edit)
    ensures Update(t, id, owner, e).Keys == t.Keys
    ensures forall i :: i in t && i != id ==> Update(t, id, owner, e)[i] == t[i]
    ensures id in t && (t[id].status != Pending || (owner.Some? && t[id].client != owner.value)) ==>
              Update(t, id, owner, e)[id] == t[id]
    ensures id in t && t[id].status == Pending && (owner.Some? ==> t[id].client == owner.value) ==>
              var d, d' := t[id], Update(t, id, owner, e)[id];
              && d'.subject == (if e.subject.Some? then e.subject.value else d.subject)
              && d'.reply == (if e.reply.Some? then e.reply.value else d.reply)
              && d'.toEmail == (if e.toEmail.Some? then e.toEmail.value else d.toEmail)
              && d'.reviewedBy == (if e.reviewer.Some? then e.reviewer else d.reviewedBy)
              && d' == d.(subject := d'.subject, reply := d'.reply, toEmail := d'.toEmail, reviewedBy := d'.reviewedBy)
  {}

  // A discard ends a pending draft of the owner, with the reason given or a standing one, and no other row.
  lemma DiscardEnds(t: Table, id: int, owner: Option<string>, reason: Option<string>, reviewer: Option<string>)
    ensures var t' := Discard(t, id, owner, reason, reviewer);
            if id in t && t[id].status == Pending && (owner.Some? ==> t[id].client == owner.value)
            then && t' == t[id := t'[id]]
                 && t'[id] == t[id].(status := Discarded, reason := t'[id].reason, reviewedBy := reviewer)
                 && t'[id].reason == (if reason.Some? && reason.value != "" then reason else Some("Manually discarded"))
            else t' == t
  {}

  // ---------------------------------------------------------------- sending without other actors

  datatype Smtp = Accepted | Rejected | Raised

  // How the database answers in one call: everything commits; the lock does not; the draft cannot be loaded; the
  // write after the answer of the mail server does not commit; nor does the one in the except branch.
  datatype Db = Works | LockFails | LoadFails | WriteFails | RecoverFails

  // One entry of a batch, with what the mail server and the database will say if they are asked.
  datatype Call = Call(id: int, smtp: Smtp, db: Db)

  datatype Delivery = Delivery(id: int, mail: Mail)

  // What send_single_draft tells its caller; Threw is an exception. The text of an exception is left out.
  datatype Answer = SentTo(id: int, recipient: string) | NotPending(id: int) | Refused | Failed | Threw

  function AnswerOf(t: Table, owner: Option<string>, c: Call): Answer {
    if c.db == LockFails then Threw
    else if !IsPending(t, c.id, owner) then NotPending(c.id)
    else if c.db == LoadFails || c.db == RecoverFails then Threw
    else match c.smtp
      case Accepted => if c.db == Works then SentTo(c.id, t[c.id].fromEmail) else Failed
      case Rejected => if c.db == Works then Refused else Failed
      case Raised => Failed
  }

  // The mail server takes a mail in this call.
  predicate Mails(t: Table, owner: Option<string>, c: Call) {
    IsPending(t, c.id, owner) && c.db != LockFails && c.db != LoadFails && c.smtp == Accepted
  }

  function AfterCall(t: Table, owner: Option<string>, reviewer: Option<string>, c: Call): Table {
    if c.db == LockFails || !IsPending(t, c.id, owner) then t
    else if c.db == LoadFails || c.db == RecoverFails then SetStatus(t, c.id, Sending)
    else if c.db == Works && c.smtp == Accepted then MarkSent(t, c.id, reviewer)
    else t
  }

  // A call of the owner on a pending draft, with a database that works: the mail server is asked, and the draft is
  // sent if it accepts and pending as before if not. Any other draft is left alone.
  lemma SendsWhenAllGoesWell(t: Table, owner: Option<string>, reviewer: Option<string>, c: Call)
    requires c.db == Works
    ensures var mine := c.id in t && t[c.id].status == Pending && (owner.Some? ==> t[c.id].client == owner.value);
            && (Mails(t, owner, c) <==> mine && c.smtp == Accepted)
            && AfterCall(t, owner, reviewer, c) ==
                 (if mine && c.smtp == Accepted then t[c.id := t[c.id].(status := Sent, reviewedBy := reviewer)] else t)
            && AnswerOf(t, owner, c) ==
                 (if !mine then NotPending(c.id)
                  else if c.smtp == Accepted then SentTo(c.id, t[c.id].fromEmail)
                  else if c.smtp == Rejected then Refused else Failed)
  {}

  // The drafts that went from pending to sent, and to sending.
  function Moved(before: Table, after: Table, status: Status): set<int> {
    set id | id in before && id in after && before[id].status == Pending && after[id].status == status
  }

  class Store {
    var drafts: Table
    var outbox: seq<Delivery>

    constructor (drafts: Table)
      ensures this.drafts == drafts && outbox == []
    {
      this.drafts, outbox := drafts, [];
    }

    // One call of send_single_draft with nobody else at work.
    method SendSingle(c: Call, owner: Option<string>, reviewer: Option<string>) returns (answer: Answer)
      modifies this
      ensures answer == AnswerOf(old(drafts), owner, c)
      ensures drafts == AfterCall(old(drafts), owner, reviewer, c)
      ensures outbox == old(outbox) +
                        if Mails(old(drafts), owner, c) then [Delivery(c.id, MailOf(old(drafts)[c.id]))] else []
    {
      if c.db == LockFails { return Threw; }
      if !IsPending(drafts, c.id, owner) { return NotPending(c.id); }
      drafts := SetStatus(drafts, c.id, Sending);
      if c.db == LoadFails { return Threw; }
      var mail := MailOf(drafts[c.id]);
      if c.smtp == Accepted {
        outbox := outbox + [Delivery(c.id, mail)];
        if c.db == Works {
          drafts := MarkSent(drafts, c.id, reviewer);
          return SentTo(c.id, mail.recipient);
        }
      } else if c.smtp == Rejected && c.db == Works {
        drafts := SetStatus(drafts, c.id, Pending);
        assert drafts == old(drafts);
        return Refused;
      }
      if c.db == RecoverFails { return Threw; }
      drafts := SetStatus(drafts, c.id, Pending);
      assert drafts == old(drafts);
      return Failed;
    }

    // One round of the loop below, after log was in the outbox and the batch came to p.
    method SendNext(c: Call, owner: Option<string>, reviewer: Option<string>, ghost p: Progress,
                    ghost log: seq<Delivery>)
      returns (answer: Answer)
      requires !p.stopped && drafts == p.drafts && outbox == log + p.mails
      modifies this
      ensures var p' := Next(p, owner, reviewer, c);
              && drafts == p'.drafts && outbox == log + p'.mails && p'.stopped == (answer == Threw)
              && p'.answers == if answer == Threw then p.answers else p.answers + [answer]
    {
      answer := SendSingle(c, owner, reviewer);
      NextMails(log, p, owner, reviewer, c);
    }

    // batch_send_drafts; an exception ends the loop and leaves no summary.
    method BatchSend(calls: seq<Call>, owner: Option<string>, reviewer: Option<string>)
      returns (summary: Option<Summary>)
      modifies this
      ensures var p := Batch(old(drafts), owner, reviewer, calls, |calls|);
              && drafts == p.drafts && outbox == old(outbox) + p.mails
              && (summary.None? <==> p.stopped)
              && (summary.Some? ==> summary.value.results == p.answers && summary.value.total == |calls| == |p.answers|)
      ensures summary.Some? ==>
                && summary.value.sent == |Moved(old(drafts), drafts, Sent)|
                && summary.value.sent + summary.value.failed == summary.value.total
    {
      var sent, failed, results := 0, 0, [];
      ghost var p := Batch(drafts, owner, reviewer, calls, 0);
      for n := 0 to |calls|
        invariant p == Batch(old(drafts), owner, reviewer, calls, n) && !p.stopped
        invariant drafts == p.drafts && outbox == old(outbox) + p.mails && results == p.answers
        invariant |results| == n && sent + failed == n && sent == SentIn(results)
      {
        var answer := SendNext(calls[n], owner, reviewer, p, old(outbox));
        p := Next(p, owner, reviewer, calls[n]);
        if answer == Threw {
          StoppedStays(old(drafts), owner, reviewer, calls, n + 1, |calls|);
          return None;
        }
        SentInMore(results, answer);
        if answer.SentTo? { sent := sent + 1; } else { failed := failed + 1; }
        results := results + [answer];
      }
      SentAreMoved(old(drafts), owner, reviewer, calls, |calls|);
      return Some(Summary(|calls|, sent, failed, results));
    }
  }

  datatype Summary = Summary(total: nat, sent: nat, failed: nat, results: seq<Answer>)

  // ---------------------------------------------------------------- what a batch adds up to

  // The drafts, the mails and the answers after so many entries; stopped when an entry threw.
  datatype Progress = Progress(drafts: Table, mails: seq<Delivery>, answers: seq<Answer>, stopped: bool)

  function Next(p: Progress, owner: Option<string>, reviewer: Option<string>, c: Call): Progress {
    if p.stopped then p else
    var answer := AnswerOf(p.drafts, owner, c);
    var mail := if Mails(p.drafts, owner, c) then [Delivery(c.id, MailOf(p.drafts[c.id]))] else [];
    Progress(AfterCall(p.drafts, owner, reviewer, c), p.mails + mail,
             if answer == Threw then p.answers else p.answers + [answer], answer == Threw)
  }

  function Batch(t: Table, owner: Option<string>, reviewer: Option<string>, calls: seq<Call>, n: nat): Progress
    requires n <= |calls|
  {
    if n == 0 then Progress(t, [], [], false)
    else Next(Batch(t, owner, reviewer, calls, n - 1), owner, reviewer, calls[n - 1])
  }

  lemma {:induction false} StoppedStays(t: Table, owner: Option<string>, reviewer: Option<string>, calls: seq<Call>,
                                        n: nat, m: nat)
    requires n <= m <= |calls| && Batch(t, owner, reviewer, calls, n).stopped
    ensures Batch(t, owner, reviewer, calls, m) == Batch(t, owner, reviewer, calls, n)
    decreases m
  {
    if n < m { StoppedStays(t, owner, reviewer, calls, n, m - 1); }
  }

  function SentIn(answers: seq<Answer>): nat {
    if answers == [] then 0 else SentIn(answers[..|answers| - 1]) + One(answers[|answers| - 1].SentTo?)
  }

  // A draft is as it was, or was pending and is now sent, or was pending and is stuck in sending.
  predicate Traced(t: Table, after: Table, reviewer: Option<string>, id: int)
    requires id in t && id in after
  {
    || after[id] == t[id]
    || (t[id].status == Pending && after[id] == t[id].(status := Sent, reviewedBy := reviewer))
    || (t[id].status == Pending && after[id] == t[id].(status := Sending))
  }

  function One(b: bool): nat {
    if b then 1 else 0
  }

  // How many of these mails belong to a draft.
  function MailsFor(log: seq<Delivery>, id: int): nat {
    if log == [] then 0 else MailsFor(log[..|log| - 1], id) + if log[|log| - 1].id == id then 1 else 0
  }

  // The entry is one of this draft whose mail is taken and whose mark-sent write does not commit.
  predicate Loses(p: Progress, owner: Option<string>, c: Call, id: int) {
    c.id == id && !p.stopped && Mails(p.drafts, owner, c) && c.db != Works
  }

  function Lost(t: Table, owner: Option<string>, reviewer: Option<string>, calls: seq<Call>, n: nat, id: int): nat
    requires n <= |calls|
  {
    if n == 0 then 0 else
    Lost(t, owner, reviewer, calls, n - 1, id)
      + One(Loses(Batch(t, owner, reviewer, calls, n - 1), owner, calls[n - 1], id))
  }

  ghost predicate Accounts(t: Table, reviewer: Option<string>, p: Progress) {
    && p.drafts.Keys == t.Keys
    && (forall id :: id in t ==> Traced(t, p.drafts, reviewer, id))
    && (!p.stopped ==> Moved(t, p.drafts, Sending) == {})
    && (forall a, b :: a in Moved(t, p.drafts, Sending) && b in Moved(t, p.drafts, Sending) ==> a == b)
    && (forall d :: d in p.mails ==> d.id in t && t[d.id].status == Pending && d.mail == MailOf(t[d.id]))
  }

  lemma CallTraces(t: Table, now: Table, owner: Option<string>, reviewer: Option<string>, c: Call)
    requires now.Keys == t.Keys && (forall id :: id in t ==> Traced(t, now, reviewer, id))
    ensures var after := AfterCall(now, owner, reviewer, c);
            after.Keys == t.Keys && forall id :: id in t ==> Traced(t, after, reviewer, id)
  {}

  lemma CallMoves(t: Table, now: Table, owner: Option<string>, reviewer: Option<string>, c: Call)
    requires now.Keys == t.Keys && (forall id :: id in t ==> Traced(t, now, reviewer, id))
    ensures var after, marked, stuck := AfterCall(now, owner, reviewer, c), AnswerOf(now, owner, c).SentTo?,
              c.db != LockFails && IsPending(now, c.id, owner) && (c.db == LoadFails || c.db == RecoverFails);
            && Moved(t, after, Sent) == Moved(t, now, Sent) + (if marked then {c.id} else {})
            && Moved(t, after, Sending) == Moved(t, now, Sending) + (if stuck then {c.id} else {})
            && (marked ==> c.id !in Moved(t, now, Sent))
  {
    assert IsPending(now, c.id, owner) ==> Traced(t, now, reviewer, c.id) && now[c.id] == t[c.id];
  }

  lemma SentOneMore(t: Table, now: Table, owner: Option<string>, reviewer: Option<string>, c: Call)
    requires now.Keys == t.Keys && (forall id :: id in t ==> Traced(t, now, reviewer, id))
    ensures |Moved(t, AfterCall(now, owner, reviewer, c), Sent)|
            == |Moved(t, now, Sent)| + if AnswerOf(now, owner, c).SentTo? then 1 else 0
  {
    CallMoves(t, now, owner, reviewer, c);
  }

  lemma NextAccounts(t: Table, p: Progress, owner: Option<string>, reviewer: Option<string>, c: Call)
    requires Accounts(t, reviewer, p)
    ensures Accounts(t, reviewer, Next(p, owner, reviewer, c))
  {
    if !p.stopped {
      CallTraces(t, p.drafts, owner, reviewer, c);
      CallMoves(t, p.drafts, owner, reviewer, c);
      if Mails(p.drafts, owner, c) { assert Traced(t, p.drafts, reviewer, c.id) && p.drafts[c.id] == t[c.id]; }
    }
  }

  // Whatever the list, duplicates and faults included: each draft is untouched, or was pending and is sent, or was
  // pending and is stuck in sending; only one can be stuck, and only when an exception ended the batch; and every
  // mail was made from a pending draft as it stood before the batch.
  lemma {:induction false} BatchAccounts(t: Table, owner: Option<string>, reviewer: Option<string>, calls: seq<Call>,
                                         n: nat)
    requires n <= |calls|
    ensures Accounts(t, reviewer, Batch(t, owner, reviewer, calls, n))
  {
    if n > 0 {
      BatchAccounts(t, owner, reviewer, calls, n - 1);
      NextAccounts(t, Batch(t, owner, reviewer, calls, n - 1), owner, reviewer, calls[n - 1]);
    }
  }

  lemma SentInMore(answers: seq<Answer>, a: Answer)
    ensures SentIn(answers + [a]) == SentIn(answers) + One(a.SentTo?)
  {
    assert (answers + [a])[..|answers|] == answers;
  }

  lemma NextMails(log: seq<Delivery>, p: Progress, owner: Option<string>, reviewer: Option<string>, c: Call)
    requires !p.stopped
    ensures log + Next(p, owner, reviewer, c).mails ==
              log + p.mails + if Mails(p.drafts, owner, c) then [Delivery(c.id, MailOf(p.drafts[c.id]))] else []
  {}

  // The answers that report a success are as many as the drafts that became sent.
  lemma {:induction false} SentAreMoved(t: Table, owner: Option<string>, reviewer: Option<string>, calls: seq<Call>,
                                        n: nat)
    requires n <= |calls|
    ensures var p := Batch(t, owner, reviewer, calls, n); SentIn(p.answers) == |Moved(t, p.drafts, Sent)|
  {
    if n == 0 {
      assert Moved(t, t, Sent) == {};
    } else {
      SentAreMoved(t, owner, reviewer, calls, n - 1);
      BatchAccounts(t, owner, reviewer, calls, n - 1);
      NextSent(t, Batch(t, owner, reviewer, calls, n - 1), owner, reviewer, calls[n - 1]);
    }
  }

  lemma NextSent(t: Table, p: Progress, owner: Option<string>, reviewer: Option<string>, c: Call)
    requires Accounts(t, reviewer, p) && SentIn(p.answers) == |Moved(t, p.drafts, Sent)|
    ensures var p' := Next(p, owner, reviewer, c); SentIn(p'.answers) == |Moved(t, p'.drafts, Sent)|
  {
    if !p.stopped {
      SentOneMore(t, p.drafts, owner, reviewer, c);
      SentInMore(p.answers, AnswerOf(p.drafts, owner, c));
    }
  }

  lemma MailsAppend(log: seq<Delivery>, d: Delivery, id: int)
    ensures MailsFor(log + [d], id) == MailsFor(log, id) + if d.id == id then 1 else 0
  {
    assert (log + [d])[..|log|] == log;
  }

  lemma NextAddsUp(t: Table, p: Progress, owner: Option<string>, reviewer: Option<string>, c: Call, id: int)
    requires Accounts(t, reviewer, p)
    ensures var p' := Next(p, owner, reviewer, c);
            MailsFor(p'.mails, id) - One(id in Moved(t, p'.drafts, Sent))
            == MailsFor(p.mails, id) - One(id in Moved(t, p.drafts, Sent)) + One(Loses(p, owner, c, id))
  {
    if !p.stopped {
      CallMoves(t, p.drafts, owner, reviewer, c);
      if Mails(p.drafts, owner, c) {
        MailsAppend(p.mails, Delivery(c.id, MailOf(p.drafts[c.id])), id);
      } else {
        assert p.mails + [] == p.mails;
      }
    }
  }

  // The mails of a draft: one if the batch sent it, and one for each mark-sent write that was lost.
  lemma {:induction false} MailsAddUp(t: Table, owner: Option<string>, reviewer: Option<string>, calls: seq<Call>,
                                      n: nat, id: int)
    requires n <= |calls|
    ensures var p := Batch(t, owner, reviewer, calls, n);
            MailsFor(p.mails, id) == Lost(t, owner, reviewer, calls, n, id)
                                     + One(id in Moved(t, p.drafts, Sent))
  {
    if n > 0 {
      MailsAddUp(t, owner, reviewer, calls, n - 1, id);
      BatchAccounts(t, owner, reviewer, calls, n - 1);
      NextAddsUp(t, Batch(t, owner, reviewer, calls, n - 1), owner, reviewer, calls[n - 1], id);
    }
  }

  // The mail server takes a mail in the i-th entry.
  predicate Sends(t: Table, owner: Option<string>, reviewer: Option<string>, calls: seq<Call>, i: nat)
    requires i < |calls|
  {
    var p := Batch(t, owner, reviewer, calls, i);
    !p.stopped && Mails(p.drafts, owner, calls[i])
  }

  // And its draft becomes sent.
  predicate Marks(t: Table, owner: Option<string>, reviewer: Option<string>, calls: seq<Call>, i: nat)
    requires i < |calls|
  {
    Sends(t, owner, reviewer, calls, i) && calls[i].db == Works
  }

  lemma {:induction false} SentEarlier(t: Table, owner: Option<string>, reviewer: Option<string>, calls: seq<Call>,
                                       n: nat, id: int)
    requires n <= |calls| && !Batch(t, owner, reviewer, calls, n).stopped
    ensures var now := Batch(t, owner, reviewer, calls, n).drafts;
            if exists j :: 0 <= j < n && calls[j].id == id && Marks(t, owner, reviewer, calls, j)
            then id in now && now[id].status == Sent
            else (id in now <==> id in t) && (id in t ==> now[id] == t[id])
  {
    if n > 0 {
      SentEarlier(t, owner, reviewer, calls, n - 1, id);
      if calls[n - 1].id == id && Marks(t, owner, reviewer, calls, n - 1) {
        assert calls[n - 1].id == id;
      }
    }
  }

  // The mail server takes a mail in an entry exactly when no exception came before it, its draft was pending before
  // the batch, the database lets the lock and the load through, its mail is accepted, and no earlier entry sent the
  // same draft.
  lemma {:induction false} SendsExactly(t: Table, owner: Option<string>, reviewer: Option<string>, calls: seq<Call>,
                                        i: nat)
    requires i < |calls|
    ensures Sends(t, owner, reviewer, calls, i) <==>
              && !Batch(t, owner, reviewer, calls, i).stopped && Mails(t, owner, calls[i])
              && forall j :: 0 <= j < i && calls[j].id == calls[i].id ==> !Marks(t, owner, reviewer, calls, j)
  {
    if !Batch(t, owner, reviewer, calls, i).stopped { SentEarlier(t, owner, reviewer, calls, i, calls[i].id); }
  }
}
