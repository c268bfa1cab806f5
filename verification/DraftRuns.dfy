/**
 Runs of the draft outbox in which senders, discarders and editors interleave (app/draft_service.py:291-424).
 A sender takes the lock by a compare-and-set and then writes without looking; every step of it is one
 committed statement or one answer of the mail server, and it may stop for good between any two of them.
 */
module DraftRuns {
  import opened Common
  import opened Drafts

  // Where a call of send_single_draft is. Stopped is a call that died holding the lock, with or without a
  // mail accepted; Over is a call that has returned.
  datatype Phase =
    | Locked
    | Loaded(mail: Mail)
    | MailAccepted(mail: Mail)
    | MailRejected
    | Recovering
    | Stopped(accepted: bool)
    | Over

  datatype Sender = Sender(draft: int, phase: Phase)

  // accepted and unmarked count, for each draft, the calls of send_email that returned True and the writes of
  // 'sent' that did not commit; lastMail is the mail accepted last.
  datatype State = State(drafts: Table, next: int, senders: map<nat, Sender>,
                         accepted: multiset<int>, unmarked: multiset<int>, lastMail: map<int, Mail>)

  datatype Label =
    | Create(draft: Draft)
    | Lock(k: nat, id: int, owner: Option<string>)
    | Load(k: nat)
    | Send(k: nat, smtp: Smtp)
    | WriteSent(k: nat, reviewer: Option<string>, commits: bool)
    | WriteBack(k: nat, commits: bool)
    | Recover(k: nat, commits: bool)
    | Stop(k: nat)
    | Edit(id: int, owner: Option<string>, edit: Drafts.Edit)
    | Discard(id: int, owner: Option<string>, reason: Option<string>, reviewer: Option<string>)

  predicate Owns(s: Sender) {
    !s.phase.Over?
  }

  function SetPhase(s: State, k: nat, phase: Phase): State
    requires k in s.senders
  {
    s.(senders := s.senders[k := s.senders[k].(phase := phase)])
  }

  // An unconditional UPDATE ... WHERE id = id: the status that is there is not looked at.
  function WriteRow(s: State, id: int, status: Status, reviewer: Option<Option<string>>): State {
    if id !in s.drafts then s else
    var d := s.drafts[id];
    s.(drafts := s.drafts[id := d.(status := status, reviewedBy := Given(reviewer, d.reviewedBy))])
  }

  function StepSender(s: State, l: Label): State
    requires (l.Load? || l.Send? || l.WriteSent? || l.WriteBack? || l.Recover? || l.Stop?) && l.k in s.senders
  {
    var k, id, phase := l.k, s.senders[l.k].draft, s.senders[l.k].phase;
    if l.Load? && phase.Locked? then
      if id in s.drafts then SetPhase(s, k, Loaded(MailOf(s.drafts[id]))) else SetPhase(s, k, Over)
    else if l.Send? && phase.Loaded? then
      match l.smtp
      case Accepted =>
        SetPhase(s, k, MailAccepted(phase.mail))
          .(accepted := s.accepted + multiset{id}, lastMail := s.lastMail[id := phase.mail])
      case Rejected => SetPhase(s, k, MailRejected)
      case Raised => SetPhase(s, k, Recovering)
    else if l.WriteSent? && phase.MailAccepted? then
      if l.commits then WriteRow(SetPhase(s, k, Over), id, Sent, Some(l.reviewer))
      else SetPhase(s, k, Recovering).(unmarked := s.unmarked + multiset{id})
    else if l.WriteBack? && phase.MailRejected? then
      if l.commits then WriteRow(SetPhase(s, k, Over), id, Pending, None) else SetPhase(s, k, Recovering)
    else if l.Recover? && phase.Recovering? then
      if l.commits then WriteRow(SetPhase(s, k, Over), id, Pending, None) else SetPhase(s, k, Stopped(false))
    else if l.Stop? && Owns(s.senders[k]) then
      SetPhase(s, k, Stopped(phase.MailAccepted? || (phase.Stopped? && phase.accepted)))
    else s
  }

  function Apply(s: State, l: Label): State {
    match l
    case Create(d) => s.(drafts := s.drafts[s.next := d.(status := Pending)], next := s.next + 1)
    case Lock(k, id, owner) =>
      if k !in s.senders && IsPending(s.drafts, id, owner)
      then s.(drafts := SetStatus(s.drafts, id, Sending), senders := s.senders[k := Sender(id, Locked)])
      else s
    case Edit(id, owner, edit) => s.(drafts := Update(s.drafts, id, owner, edit))
    case Discard(id, owner, reason, reviewer) => s.(drafts := Drafts.Discard(s.drafts, id, owner, reason, reviewer))
    case _ => if l.k in s.senders then StepSender(s, l) else s
  }

  function Run(s: State, ls: seq<Label>): State
    decreases |ls|
  {
    if ls == [] then s else Run(Apply(s, ls[0]), ls[1..])
  }

  function Init(): State {
    State(map[], 1, map[], multiset{}, multiset{}, map[])
  }

  // ---------------------------------------------------------------- the ownership invariant

  predicate OwnsDraft(s: State, k: nat, id: int) {
    k in s.senders && Owns(s.senders[k]) && s.senders[k].draft == id
  }

  // A mail for this draft was accepted and its 'sent' is still to be written, or never will be.
  predicate MailedBy(s: State, k: nat, id: int) {
    OwnsDraft(s, k, id) &&
    var phase := s.senders[k].phase;
    phase.MailAccepted? || (phase.Stopped? && phase.accepted)
  }

  ghost predicate HeldMail(s: State, id: int) {
    exists k :: MailedBy(s, k, id)
  }

  // What a sender remembers agrees with the row it owns, which nobody else can touch.
  predicate Knows(s: State, k: nat)
    requires k in s.senders
  {
    var id, phase := s.senders[k].draft, s.senders[k].phase;
    Owns(s.senders[k]) ==>
      && id in s.drafts && s.drafts[id].status == Sending
      && (phase.Loaded? || phase.MailAccepted? ==> phase.mail == MailOf(s.drafts[id]))
      && (phase.MailAccepted? ==> id in s.lastMail && s.lastMail[id] == phase.mail)
  }

  ghost predicate Owned(s: State) {
    && (forall k :: k in s.senders ==> Knows(s, k))
    && (forall j, k, id :: OwnsDraft(s, j, id) && OwnsDraft(s, k, id) ==> j == k)
    && (forall id :: id in s.drafts && s.drafts[id].status == Sending ==> exists k :: OwnsDraft(s, k, id))
  }

  // Every accepted mail of a draft is accounted for: by a write of 'sent' that was lost, or by the one
  // sender that still holds the draft, or by the draft being sent.
  ghost predicate Balanced(s: State, id: int) {
    s.accepted[id] == s.unmarked[id] +
                      if HeldMail(s, id) || (id in s.drafts && s.drafts[id].status == Sent) then 1 else 0
  }

  ghost predicate Inv(s: State) {
    && Owned(s)
    && (forall id :: id in s.drafts ==> id < s.next)
    && (forall id :: id >= s.next ==> s.accepted[id] == s.unmarked[id] == 0)
    && (forall id :: Balanced(s, id))
    && (forall id :: id in s.drafts && s.drafts[id].status == Sent ==>
          id in s.lastMail && s.lastMail[id] == MailOf(s.drafts[id]))
  }

  // ---------------------------------------------------------------- every step keeps it

  // A step of sender k touches nothing but k itself and the records of the draft that k owns.
  ghost predicate Local(s: State, s': State, k: nat, id: int) {
    && OwnsDraft(s, k, id) && k in s'.senders && s'.senders[k].draft == id
    && s'.senders == s.senders[k := s'.senders[k]]
    && id in s.drafts && id in s'.drafts && s'.drafts == s.drafts[id := s'.drafts[id]]
    && s'.next == s.next
    && (forall i :: i != id ==> s'.accepted[i] == s.accepted[i] && s'.unmarked[i] == s.unmarked[i])
    && (forall i :: i != id ==> (i in s.lastMail <==> i in s'.lastMail))
    && (forall i :: i != id && i in s.lastMail ==> s'.lastMail[i] == s.lastMail[i])
  }

  lemma OwnersElsewhere(s: State, s': State, k: nat, id: int)
    requires Local(s, s', k, id)
    ensures forall j, i :: j != k || i != id ==> (OwnsDraft(s', j, i) <==> OwnsDraft(s, j, i) && j != k)
    ensures forall j, i :: i != id ==> (MailedBy(s', j, i) <==> MailedBy(s, j, i))
  {}

  lemma LocalOwned(s: State, s': State, k: nat, id: int)
    requires Owned(s) && Local(s, s', k, id) && Knows(s', k)
    requires !Owns(s'.senders[k]) ==> s'.drafts[id].status != Sending
    ensures Owned(s')
  {
    OwnersElsewhere(s, s', k, id);
    forall j | j in s'.senders ensures Knows(s', j) {
      assert j != k ==> !OwnsDraft(s, j, id);
      if j != k { assert Knows(s, j); }
    }
    forall j, l, i | OwnsDraft(s', j, i) && OwnsDraft(s', l, i) ensures j == l {
      if i == id {
        assert OwnsDraft(s, k, id);
      } else {
        assert OwnsDraft(s, j, i) && OwnsDraft(s, l, i);
      }
    }
    forall i | i in s'.drafts && s'.drafts[i].status == Sending ensures exists j :: OwnsDraft(s', j, i) {
      if i == id {
        assert OwnsDraft(s', k, id);
      } else {
        var j :| OwnsDraft(s, j, i);
        assert OwnsDraft(s', j, i);
      }
    }
  }

  lemma LocalKeeps(s: State, s': State, k: nat, id: int)
    requires Inv(s) && Local(s, s', k, id) && Knows(s', k)
    requires !Owns(s'.senders[k]) ==> s'.drafts[id].status != Sending
    requires s'.accepted[id] == s'.unmarked[id] + if MailedBy(s', k, id) || s'.drafts[id].status == Sent then 1 else 0
    requires s'.drafts[id].status == Sent ==> id in s'.lastMail && s'.lastMail[id] == MailOf(s'.drafts[id])
    ensures Inv(s')
  {
    LocalOwned(s, s', k, id);
    OwnersElsewhere(s, s', k, id);
    forall i ensures Balanced(s', i) {
      assert Balanced(s, i);
      if i == id {
        assert HeldMail(s', id) ==> MailedBy(s', k, id) by {
          if j :| MailedBy(s', j, id) {
            assert OwnsDraft(s, j, id) || j == k;
          }
        }
      } else {
        assert HeldMail(s', i) <==> HeldMail(s, i);
      }
    }
  }

  // What the balance says of a draft while a sender owns it.
  lemma OwnerBalance(s: State, k: nat, id: int)
    requires Inv(s) && OwnsDraft(s, k, id)
    ensures s.accepted[id] == s.unmarked[id] + if MailedBy(s, k, id) then 1 else 0
  {
    assert Knows(s, k) && Balanced(s, id);
    if j :| MailedBy(s, j, id) { assert OwnsDraft(s, j, id) && j == k; }
  }

  predicate IsSenderStep(l: Label) {
    l.Load? || l.Send? || l.WriteSent? || l.WriteBack? || l.Recover? || l.Stop?
  }

  lemma SenderStepIsLocal(s: State, l: Label)
    requires IsSenderStep(l) && l.k in s.senders && Knows(s, l.k) && StepSender(s, l) != s
    ensures Local(s, StepSender(s, l), l.k, s.senders[l.k].draft)
  {}

  lemma SenderStepLocal(s: State, l: Label)
    requires IsSenderStep(l) && l.k in s.senders && Knows(s, l.k) && StepSender(s, l) != s
    ensures Local(s, StepSender(s, l), l.k, s.senders[l.k].draft)
    ensures Knows(StepSender(s, l), l.k)
    ensures var s', id := StepSender(s, l), s.senders[l.k].draft;
            && (!Owns(s'.senders[l.k]) ==> s'.drafts[id].status != Sending)
            && (s'.drafts[id].status == Sent ==> id in s'.lastMail && s'.lastMail[id] == MailOf(s'.drafts[id]))
  {
    SenderStepIsLocal(s, l);
  }

  lemma SenderStepBalance(s: State, l: Label)
    requires IsSenderStep(l) && l.k in s.senders && Knows(s, l.k) && StepSender(s, l) != s
    requires var id := s.senders[l.k].draft; s.accepted[id] == s.unmarked[id] + if MailedBy(s, l.k, id) then 1 else 0
    ensures var s', id := StepSender(s, l), s.senders[l.k].draft;
            s'.accepted[id] == s'.unmarked[id] + if MailedBy(s', l.k, id) || s'.drafts[id].status == Sent then 1 else 0
  {}

  lemma SenderStepKeeps(s: State, l: Label)
    requires Inv(s) && IsSenderStep(l) && l.k in s.senders
    ensures Inv(StepSender(s, l))
  {
    if StepSender(s, l) != s {
      var id := s.senders[l.k].draft;
      SenderStepLocal(s, l);
      OwnerBalance(s, l.k, id);
      SenderStepBalance(s, l);
      LocalKeeps(s, StepSender(s, l), l.k, id);
    }
  }

  // ---------------------------------------------------------------- the other actors

  lemma CreateKeeps(s: State, d: Draft)
    requires Inv(s)
    ensures Inv(Apply(s, Create(d)))
  {
    var s' := Apply(s, Create(d));
    forall k | k in s'.senders ensures Knows(s', k) {
      assert Knows(s, k);
    }
    forall i | i in s'.drafts && s'.drafts[i].status == Sending ensures exists k :: OwnsDraft(s', k, i) {
      var k :| OwnsDraft(s, k, i);
      assert OwnsDraft(s', k, i);
    }
    SameSenders(s, s');
    forall k ensures !MailedBy(s, k, s.next) {
      assert k in s.senders ==> Knows(s, k);
    }
    forall i ensures Balanced(s', i) {
      assert Balanced(s, i);
    }
  }

  lemma SameSenders(s: State, s': State)
    requires s'.senders == s.senders
    ensures forall k, i :: OwnsDraft(s', k, i) <==> OwnsDraft(s, k, i)
    ensures forall i :: HeldMail(s', i) <==> HeldMail(s, i)
  {
    forall k, i ensures MailedBy(s', k, i) <==> MailedBy(s, k, i) {}
  }

  // An editor or a discarder changes a pending row only, and nobody owns a pending row.
  lemma PendingRowKeeps(s: State, id: int, d: Draft)
    requires Inv(s) && id in s.drafts && s.drafts[id].status == Pending
    requires d.status == Pending || d.status == Discarded
    ensures Inv(s.(drafts := s.drafts[id := d]))
  {
    var s' := s.(drafts := s.drafts[id := d]);
    forall k | k in s'.senders ensures Knows(s', k) {
      assert Knows(s, k);
    }
    SameSenders(s, s');
    forall i | i in s'.drafts && s'.drafts[i].status == Sending ensures exists k :: OwnsDraft(s', k, i) {
      assert i in s.drafts && s.drafts[i].status == Sending;
    }
    forall i ensures Balanced(s', i) {
      assert Balanced(s, i);
    }
  }

  lemma LockKeeps(s: State, k: nat, id: int, owner: Option<string>)
    requires Inv(s)
    ensures Inv(Apply(s, Lock(k, id, owner)))
  {
    if k !in s.senders && IsPending(s.drafts, id, owner) {
      var s' := Apply(s, Lock(k, id, owner));
      forall j, i ensures OwnsDraft(s', j, i) <==> OwnsDraft(s, j, i) || (j == k && i == id) {}
      forall j, i ensures MailedBy(s', j, i) <==> MailedBy(s, j, i) {}
      forall j | j in s'.senders ensures Knows(s', j) {
        if j != k { assert Knows(s, j); }
      }
      forall j, l, i | OwnsDraft(s', j, i) && OwnsDraft(s', l, i) ensures j == l {
        if j != k { assert Knows(s, j); }
        if l != k { assert Knows(s, l); }
      }
      forall i | i in s'.drafts && s'.drafts[i].status == Sending ensures exists j :: OwnsDraft(s', j, i) {
        if i == id {
          assert OwnsDraft(s', k, i);
        } else {
          var j :| OwnsDraft(s, j, i);
          assert OwnsDraft(s', j, i);
        }
      }
      forall i ensures Balanced(s', i) {
        assert Balanced(s, i);
        assert HeldMail(s', i) <==> HeldMail(s, i);
      }
    }
  }

  lemma StepKeeps(s: State, l: Label)
    requires Inv(s)
    ensures Inv(Apply(s, l))
  {
    match l
    case Create(d) => CreateKeeps(s, d);
    case Lock(k, id, owner) => LockKeeps(s, k, id, owner);
    case Edit(id, owner, edit) =>
      if Apply(s, l) != s { PendingRowKeeps(s, id, Edited(s.drafts[id], edit)); }
    case Discard(id, owner, reason, reviewer) =>
      if Apply(s, l) != s { PendingRowKeeps(s, id, Apply(s, l).drafts[id]); }
    case _ =>
      if l.k in s.senders { SenderStepKeeps(s, l); }
  }

  lemma InitInv()
    ensures Inv(Init())
  {}

  lemma {:induction false} RunKeeps(s: State, ls: seq<Label>)
    requires Inv(s)
    ensures Inv(Run(s, ls))
    decreases |ls|
  {
    if ls != [] {
      StepKeeps(s, ls[0]);
      RunKeeps(Apply(s, ls[0]), ls[1..]);
    }
  }

  // ---------------------------------------------------------------- what holds in every run

  // A draft is in sending exactly when one sender owns it, alive or dead, and never two.
  lemma SendingMeansOneOwner(ls: seq<Label>, id: int)
    ensures var s := Run(Init(), ls);
            && (id in s.drafts && s.drafts[id].status == Sending <==> exists k :: OwnsDraft(s, k, id))
            && forall j, k :: OwnsDraft(s, j, id) && OwnsDraft(s, k, id) ==> j == k
  {
    InitInv();
    RunKeeps(Init(), ls);
    var s := Run(Init(), ls);
    if k :| OwnsDraft(s, k, id) { assert Knows(s, k); }
  }

  // So the writes that look at no status only ever overwrite sending.
  lemma UnconditionalWritesHitSending(ls: seq<Label>, l: Label)
    requires l.WriteSent? || l.WriteBack? || l.Recover?
    requires var s := Run(Init(), ls); l.k in s.senders && Apply(s, l).drafts != s.drafts
    ensures var s := Run(Init(), ls); var id := s.senders[l.k].draft;
            && id in s.drafts && s.drafts[id].status == Sending
            && Apply(s, l).drafts == s.drafts[id := Apply(s, l).drafts[id]]
  {
    InitInv();
    RunKeeps(Init(), ls);
    assert Knows(Run(Init(), ls), l.k);
    SenderStepLocal(Run(Init(), ls), l);
  }

  // One step: sent and discarded rows are final, an owned row keeps its content, and no row disappears.
  ghost predicate Forward(s: State, s': State) {
    && s.drafts.Keys <= s'.drafts.Keys
    && (forall id :: id in s.drafts && (s.drafts[id].status == Sent || s.drafts[id].status == Discarded) ==>
          s'.drafts[id] == s.drafts[id])
    && (forall id :: id in s.drafts && s.drafts[id].status == Sending ==>
          s'.drafts[id].(status := Sending, reviewedBy := s.drafts[id].reviewedBy) == s.drafts[id])
  }

  lemma SenderStepForward(s: State, l: Label)
    requires IsSenderStep(l) && l.k in s.senders && Knows(s, l.k)
    ensures Forward(s, StepSender(s, l))
  {
    if StepSender(s, l) != s { SenderStepLocal(s, l); }
  }

  lemma StepForward(s: State, l: Label)
    requires Inv(s)
    ensures Forward(s, Apply(s, l))
  {
    if IsSenderStep(l) && l.k in s.senders { SenderStepForward(s, l); }
  }

  // In any run, while a draft is owned nobody edits it: one more step leaves its content as it was.
  lemma OwnedContentIsFrozen(ls: seq<Label>, l: Label, k: nat, id: int)
    requires OwnsDraft(Run(Init(), ls), k, id)
    ensures var s := Run(Init(), ls); var s' := Apply(s, l);
            && id in s.drafts && id in s'.drafts
            && s'.drafts[id].(status := Sending, reviewedBy := s.drafts[id].reviewedBy) == s.drafts[id]
            && MailOf(s'.drafts[id]) == MailOf(s.drafts[id])
  {
    InitInv();
    RunKeeps(Init(), ls);
    assert Knows(Run(Init(), ls), k);
    StepForward(Run(Init(), ls), l);
  }

  lemma {:induction false} FinalStays(s: State, ls: seq<Label>, id: int)
    requires Inv(s) && id in s.drafts && (s.drafts[id].status == Sent || s.drafts[id].status == Discarded)
    ensures id in Run(s, ls).drafts && Run(s, ls).drafts[id] == s.drafts[id]
    decreases |ls|
  {
    if ls != [] {
      StepKeeps(s, ls[0]);
      StepForward(s, ls[0]);
      FinalStays(Apply(s, ls[0]), ls[1..], id);
    }
  }

  lemma {:induction false} RunSplit(s: State, a: seq<Label>, b: seq<Label>)
    ensures Run(s, a + b) == Run(Run(s, a), b)
    decreases |a|
  {
    if a == [] {
      assert a + b == b;
    } else {
      assert (a + b)[1..] == a[1..] + b;
      RunSplit(Apply(s, a[0]), a[1..], b);
    }
  }

  // In any run, once a draft is sent or discarded its row is never written again.
  lemma SentAndDiscardedAreFinal(a: seq<Label>, b: seq<Label>, id: int)
    requires var s := Run(Init(), a);
             id in s.drafts && (s.drafts[id].status == Sent || s.drafts[id].status == Discarded)
    ensures id in Run(Init(), a + b).drafts && Run(Init(), a + b).drafts[id] == Run(Init(), a).drafts[id]
  {
    InitInv();
    RunKeeps(Init(), a);
    RunSplit(Init(), a, b);
    FinalStays(Run(Init(), a), b, id);
  }

  // The mail server accepts at most one mail of a draft more than there were lost writes of 'sent' for it,
  // so at most one when none was lost; a sent draft shows exactly the content of the last accepted mail.
  lemma AcceptedMailsAccountedFor(ls: seq<Label>, id: int)
    ensures var s := Run(Init(), ls);
            && s.unmarked[id] <= s.accepted[id] <= s.unmarked[id] + 1
            && (id in s.drafts && s.drafts[id].status == Sent ==>
                  s.accepted[id] == s.unmarked[id] + 1 && id in s.lastMail && s.lastMail[id] == MailOf(s.drafts[id]))
            && (id in s.drafts && (s.drafts[id].status == Pending || s.drafts[id].status == Discarded) ==>
                  s.accepted[id] == s.unmarked[id])
  {
    InitInv();
    RunKeeps(Init(), ls);
    var s := Run(Init(), ls);
    assert Balanced(s, id);
    if k :| MailedBy(s, k, id) { assert Knows(s, k); }
  }

  // A lost write of 'sent' does reopen the draft: it is pending again although its mail was accepted, and
  // the next sender that gets through mails the very same content a second time.
  lemma LostWriteSendsTwice(ls: seq<Label>, k: nat, j: nat)
    requires var s := Run(Init(), ls);
             k in s.senders && s.senders[k].phase.MailAccepted? && j !in s.senders
    ensures var s := Run(Init(), ls); var id := s.senders[k].draft;
            var back := Apply(Apply(s, WriteSent(k, None, false)), Recover(k, true));
            var again := Apply(Apply(Apply(back, Lock(j, id, None)), Load(j)), Send(j, Accepted));
            && s.accepted[id] >= 1
            && id in back.drafts && back.drafts[id].status == Pending
            && again.accepted[id] == s.accepted[id] + 1
            && id in s.lastMail && again.lastMail[id] == s.lastMail[id]
  {
    InitInv();
    RunKeeps(Init(), ls);
    var s := Run(Init(), ls);
    var id := s.senders[k].draft;
    assert MailedBy(s, k, id) && Knows(s, k) && Balanced(s, id);
  }

  // What the steps write: a new draft is pending with the content given, and a sender that gets that far writes its own
  // draft to sent, or back to pending, and is done.
  lemma StepsTakeEffect(s: State, d: Draft, k: nat, reviewer: Option<string>)
    ensures Apply(s, Create(d)) == s.(drafts := s.drafts[s.next := d.(status := Pending)], next := s.next + 1)
    ensures k in s.senders && s.senders[k].draft in s.drafts ==>
              var id, phase := s.senders[k].draft, s.senders[k].phase;
              && (phase.MailAccepted? ==>
                    var s' := Apply(s, WriteSent(k, reviewer, true));
                    && s'.drafts == s.drafts[id := s.drafts[id].(status := Sent, reviewedBy := reviewer)]
                    && s'.senders[k].phase == Over)
              && (phase.MailRejected? ==>
                    var s' := Apply(s, WriteBack(k, true));
                    && s'.drafts == s.drafts[id := s.drafts[id].(status := Pending)] && s'.senders[k].phase == Over)
              && (phase.Recovering? ==>
                    var s' := Apply(s, Recover(k, true));
                    && s'.drafts == s.drafts[id := s.drafts[id].(status := Pending)] && s'.senders[k].phase == Over)
  {}

  // The state after an editor wrote both texts of a draft and a sender locked it.
  function EditedAndLocked(s: State, k: nat, id: int, owner: Option<string>, x: string, r: string): State {
    Apply(Apply(s, Label.Edit(id, owner, Drafts.Edit(Some(x), Some(r), None, None))), Lock(k, id, owner))
  }

  // What an editor wrote is what the customer gets: a pending draft that is edited, locked, loaded and accepted in
  // this order, in any state, leaves a mail with the new reply under the new subject, to the customer it answers.
  lemma EditedThenMailed(s: State, k: nat, id: int, owner: Option<string>, x: string, r: string)
    requires k !in s.senders && id in s.drafts && s.drafts[id].status == Pending
    requires owner.Some? ==> s.drafts[id].client == owner.value
    ensures var d, s' := s.drafts[id], Apply(Apply(EditedAndLocked(s, k, id, owner, x, r), Load(k)), Send(k, Accepted));
            && s'.accepted[id] == s.accepted[id] + 1 && id in s'.lastMail
            && var m := s'.lastMail[id];
               && m.body == r && "Re:" <= m.subject && Ends(m.subject, x) && ("Re:" <= x ==> m.subject == x)
               && m.client == d.client && m.recipient == d.fromEmail
               && m.inReplyTo == if d.messageId.Some? && d.messageId.value != "" then d.messageId else d.inReplyTo
  {
    LockedAsEdited(s, k, id, owner, x, r);
    LoadThenSend(EditedAndLocked(s, k, id, owner, x, r), k, id);
    MailSays(EditedAndLocked(s, k, id, owner, x, r).drafts[id]);
  }

  lemma LockedAsEdited(s: State, k: nat, id: int, owner: Option<string>, x: string, r: string)
    requires k !in s.senders && id in s.drafts && s.drafts[id].status == Pending
    requires owner.Some? ==> s.drafts[id].client == owner.value
    ensures var s' := EditedAndLocked(s, k, id, owner, x, r);
            && k in s'.senders && s'.senders[k] == Sender(id, Locked) && s'.accepted == s.accepted
            && id in s'.drafts && s'.drafts[id] == s.drafts[id].(subject := x, reply := r, status := Sending)
  {}

  lemma LoadThenSend(s: State, k: nat, id: int)
    requires k in s.senders && s.senders[k] == Sender(id, Locked) && id in s.drafts
    ensures var s' := Apply(Apply(s, Load(k)), Send(k, Accepted));
            s'.accepted[id] == s.accepted[id] + 1 && id in s'.lastMail && s'.lastMail[id] == MailOf(s.drafts[id])
  {}

  // ---------------------------------------------------------------- recipients

  function WithoutRecipient(l: Label): Label {
    match l
    case Edit(id, owner, edit) => Label.Edit(id, owner, edit.(toEmail := None))
    case _ => l
  }

  function WithoutRecipients(ls: seq<Label>): (r: seq<Label>)
    ensures |r| == |ls| && forall i :: 0 <= i < |ls| ==> r[i] == WithoutRecipient(ls[i])
  {
    seq(|ls|, i requires 0 <= i < |ls| => WithoutRecipient(ls[i]))
  }

  predicate SameButRecipient(a: Draft, b: Draft) {
    a == b.(toEmail := a.toEmail)
  }

  ghost predicate SameButRecipients(s: State, s': State) {
    && s' == s.(drafts := s'.drafts) && s'.drafts.Keys == s.drafts.Keys
    && forall id :: id in s.drafts ==> SameButRecipient(s.drafts[id], s'.drafts[id])
  }

  lemma SameStep(s: State, s': State, l: Label)
    requires SameButRecipients(s, s')
    ensures SameButRecipients(Apply(s, l), Apply(s', WithoutRecipient(l)))
  {
    if IsSenderStep(l) && l.k in s.senders { SameSenderStep(s, s', l); }
  }

  lemma SameWrite(s: State, s': State, id: int, status: Status, reviewer: Option<Option<string>>)
    requires SameButRecipients(s, s')
    ensures SameButRecipients(WriteRow(s, id, status, reviewer), WriteRow(s', id, status, reviewer))
  {}

  lemma SamePhase(s: State, s': State, k: nat, phase: Phase)
    requires SameButRecipients(s, s') && k in s.senders
    ensures SameButRecipients(SetPhase(s, k, phase), SetPhase(s', k, phase))
  {}

  lemma SameOver(s: State, s': State, k: nat, status: Status, reviewer: Option<Option<string>>)
    requires SameButRecipients(s, s') && k in s.senders
    ensures var id := s.senders[k].draft;
            SameButRecipients(WriteRow(SetPhase(s, k, Over), id, status, reviewer),
                              WriteRow(SetPhase(s', k, Over), id, status, reviewer))
  {
    SamePhase(s, s', k, Over);
    SameWrite(SetPhase(s, k, Over), SetPhase(s', k, Over), s.senders[k].draft, status, reviewer);
  }

  lemma SameWriteSent(s: State, s': State, l: Label)
    requires SameButRecipients(s, s') && l.WriteSent? && l.k in s.senders
    ensures SameButRecipients(StepSender(s, l), StepSender(s', l))
  {
    SameOver(s, s', l.k, Sent, Some(l.reviewer));
    SamePhase(s, s', l.k, Recovering);
  }

  lemma SameWriteBack(s: State, s': State, l: Label)
    requires SameButRecipients(s, s') && (l.WriteBack? || l.Recover?) && l.k in s.senders
    ensures SameButRecipients(StepSender(s, l), StepSender(s', l))
  {
    SameOver(s, s', l.k, Pending, None);
    SamePhase(s, s', l.k, Recovering);
    SamePhase(s, s', l.k, Stopped(false));
  }

  lemma SameSenderStep(s: State, s': State, l: Label)
    requires SameButRecipients(s, s') && IsSenderStep(l) && l.k in s.senders
    ensures SameButRecipients(StepSender(s, l), StepSender(s', l))
  {
    if l.WriteSent? {
      SameWriteSent(s, s', l);
    } else if l.WriteBack? || l.Recover? {
      SameWriteBack(s, s', l);
    } else {
      var id := s.senders[l.k].draft;
      assert id in s.drafts ==> SameButRecipient(s.drafts[id], s'.drafts[id]);
    }
  }

  lemma {:induction false} SameRun(s: State, s': State, ls: seq<Label>)
    requires SameButRecipients(s, s')
    ensures SameButRecipients(Run(s, ls), Run(s', WithoutRecipients(ls)))
    decreases |ls|
  {
    if ls != [] {
      SameStep(s, s', ls[0]);
      assert WithoutRecipients(ls)[1..] == WithoutRecipients(ls[1..]);
      SameRun(Apply(s, ls[0]), Apply(s', WithoutRecipient(ls[0])), ls[1..]);
    }
  }

  // Over any run: with all edits of recipients taken out of it, the same mails are sent, to the same people.
  lemma RecipientEditsNeverMail(ls: seq<Label>)
    ensures var s, s' := Run(Init(), ls), Run(Init(), WithoutRecipients(ls));
            && s'.lastMail == s.lastMail && s'.accepted == s.accepted && s'.senders == s.senders
            && s'.drafts.Keys == s.drafts.Keys
            && forall id :: id in s.drafts ==> MailOf(s'.drafts[id]) == MailOf(s.drafts[id])
  {
    SameRun(Init(), Init(), ls);
    var s, s' := Run(Init(), ls), Run(Init(), WithoutRecipients(ls));
    forall id | id in s.drafts ensures MailOf(s'.drafts[id]) == MailOf(s.drafts[id]) {
      assert SameButRecipient(s.drafts[id], s'.drafts[id]);
    }
  }
}
