/**
 Commits in doubt: a commit that takes effect and is still reported as failed, so that its sender goes on as if
 it had not (app/draft_service.py:371-400). Only the writes inside the try block matter. A lock in doubt is a sender
 that stops at once, and a recovery in doubt is one that commits, because nothing follows either of them.
 */
module DraftDoubt {
  import opened Common
  import opened Drafts
  import opened DraftRuns

  datatype Event = Plain(step: Label) | SentInDoubt(k: nat, reviewer: Option<string>) | BackInDoubt(k: nat)

  function After(s: State, ev: Event): State {
    match ev
    case Plain(l) => DraftRuns.Apply(s, l)
    case SentInDoubt(k, reviewer) =>
      if k in s.senders && s.senders[k].phase.MailAccepted?
      then WriteRow(SetPhase(s, k, Recovering), s.senders[k].draft, Sent, Some(reviewer)) else s
    case BackInDoubt(k) =>
      if k in s.senders && s.senders[k].phase.MailRejected?
      then WriteRow(SetPhase(s, k, Recovering), s.senders[k].draft, Pending, None) else s
  }

  function AfterAll(s: State, evs: seq<Event>): State
    decreases |evs|
  {
    if evs == [] then s else AfterAll(After(s, evs[0]), evs[1..])
  }

  // A sender of this draft that is still on its way.
  predicate Active(s: State, k: nat, id: int) {
    k in s.senders && s.senders[k].draft == id && !s.senders[k].phase.Over? && !s.senders[k].phase.Stopped?
  }

  predicate IsFinal(s: State, id: int) {
    id in s.drafts && (s.drafts[id].status == Sent || s.drafts[id].status == Discarded)
  }

  ghost predicate Quiet(s: State, id: int) {
    id < s.next && IsFinal(s, id) && forall k :: !Active(s, k, id)
  }

  lemma SenderStepKeepsQuiet(s: State, l: Label, id: int)
    requires Quiet(s, id) && IsSenderStep(l) && l.k in s.senders
    ensures Quiet(StepSender(s, l), id) && StepSender(s, l).drafts[id] == s.drafts[id]
  {
    var s' := StepSender(s, l);
    assert !Active(s, l.k, id);
    forall k ensures !Active(s', k, id) {
      assert !Active(s, k, id);
    }
  }

  lemma EventKeepsQuiet(s: State, ev: Event, id: int)
    requires Quiet(s, id)
    ensures Quiet(After(s, ev), id) && After(s, ev).drafts[id] == s.drafts[id]
  {
    if ev.Plain? && IsSenderStep(ev.step) {
      if ev.step.k in s.senders { SenderStepKeepsQuiet(s, ev.step, id); }
    } else {
      if !ev.Plain? { assert !Active(s, ev.k, id); }
      forall k ensures !Active(After(s, ev), k, id) {
        assert !Active(s, k, id);
      }
    }
  }

  lemma {:induction false} QuietStays(s: State, evs: seq<Event>, id: int)
    requires Quiet(s, id)
    ensures id in AfterAll(s, evs).drafts && AfterAll(s, evs).drafts[id] == s.drafts[id]
    decreases |evs|
  {
    if evs != [] {
      EventKeepsQuiet(s, evs[0], id);
      QuietStays(After(s, evs[0]), evs[1..], id);
    }
  }

  // The next step of a sender on its shortest way to writing pending back.
  function Next(phase: Phase, k: nat): Label
    requires !phase.Over? && !phase.Stopped?
  {
    match phase
    case Locked => Load(k)
    case Loaded(_) => Send(k, Rejected)
    case MailAccepted(_) => WriteSent(k, None, false)
    case MailRejected => WriteBack(k, true)
    case Recovering => Recover(k, true)
  }

  function Left(phase: Phase): nat {
    match phase
    case Locked => 3
    case Loaded(_) => 2
    case MailAccepted(_) => 2
    case _ => 1
  }

  lemma {:induction false} ActiveReopens(s: State, k: nat, id: int) returns (evs: seq<Event>)
    requires Active(s, k, id) && id in s.drafts
    ensures id in AfterAll(s, evs).drafts && AfterAll(s, evs).drafts[id].status == Pending
    decreases Left(s.senders[k].phase)
  {
    var step := Plain(Next(s.senders[k].phase, k));
    var s' := After(s, step);
    if Active(s', k, id) {
      var rest := ActiveReopens(s', k, id);
      evs := [step] + rest;
      assert evs[1..] == rest;
    } else {
      evs := [step];
      assert evs[1..] == [] && AfterAll(s', []) == s';
    }
  }

  ghost predicate StaysForever(s: State, id: int)
    requires id in s.drafts
  {
    forall evs :: id in AfterAll(s, evs).drafts && AfterAll(s, evs).drafts[id] == s.drafts[id]
  }

  // When a sent or discarded row is final, commits in doubt included: exactly when no sender of the draft is on
  // its way.
  lemma FinalExactly(s: State, id: int)
    requires id < s.next && IsFinal(s, id)
    ensures StaysForever(s, id) <==> forall k :: !Active(s, k, id)
  {
    if k :| Active(s, k, id) {
      var evs := ActiveReopens(s, k, id);
      assert AfterAll(s, evs).drafts[id].status == Pending;
    } else {
      forall evs ensures id in AfterAll(s, evs).drafts && AfterAll(s, evs).drafts[id] == s.drafts[id] {
        QuietStays(s, evs, id);
      }
    }
  }

  lemma {:induction false} IdsAreBelowNext(s: State, evs: seq<Event>)
    requires forall id :: id in s.drafts ==> id < s.next
    ensures forall id :: id in AfterAll(s, evs).drafts ==> id < AfterAll(s, evs).next
    decreases |evs|
  {
    if evs != [] { IdsAreBelowNext(After(s, evs[0]), evs[1..]); }
  }

  // In any run with commits in doubt, that decides it for every row.
  lemma FinalInEveryRun(evs: seq<Event>, id: int)
    requires IsFinal(AfterAll(Init(), evs), id)
    ensures var s := AfterAll(Init(), evs); StaysForever(s, id) <==> forall k :: !Active(s, k, id)
  {
    IdsAreBelowNext(Init(), evs);
    FinalExactly(AfterAll(Init(), evs), id);
  }

  // A row that is sent or discarded after a run without them is final even if commits are in doubt later.
  lemma FinalAfterPlainRun(ls: seq<Label>, id: int)
    requires IsFinal(Run(Init(), ls), id)
    ensures StaysForever(Run(Init(), ls), id)
  {
    InitInv();
    RunKeeps(Init(), ls);
    var s := Run(Init(), ls);
    forall k ensures !Active(s, k, id) {
      assert k in s.senders ==> Knows(s, k);
    }
    FinalExactly(s, id);
  }

  // A mark-sent commit in doubt leaves a row that is sent and not final: its sender writes it back to pending,
  // and the next one mails the same content again, although no write was lost.
  lemma DoubtSendsTwice(ls: seq<Label>, k: nat, j: nat)
    requires var s := Run(Init(), ls);
             k in s.senders && s.senders[k].phase.MailAccepted? && j !in s.senders
    ensures var s := Run(Init(), ls); var id := s.senders[k].draft;
            var doubt := After(s, SentInDoubt(k, None));
            var back := DraftRuns.Apply(doubt, Recover(k, true));
            var locked := DraftRuns.Apply(back, Lock(j, id, None));
            var again := DraftRuns.Apply(DraftRuns.Apply(locked, Load(j)), Send(j, Accepted));
            && IsFinal(doubt, id) && !StaysForever(doubt, id)
            && back.drafts[id].status == Pending
            && again.accepted[id] == s.accepted[id] + 1 && again.unmarked == s.unmarked
            && id in s.lastMail && again.lastMail[id] == s.lastMail[id]
  {
    InitInv();
    RunKeeps(Init(), ls);
    var s := Run(Init(), ls);
    var id, doubt := s.senders[k].draft, After(s, SentInDoubt(k, None));
    assert Knows(s, k);
    assert Active(doubt, k, id);
    FinalExactly(doubt, id);
  }

  // A commit in doubt that writes pending back lets a second sender lock the draft while the first is on its way.
  lemma DoubtSharesADraft(ls: seq<Label>, k: nat, j: nat)
    requires var s := Run(Init(), ls);
             k in s.senders && s.senders[k].phase.MailRejected? && j !in s.senders
    ensures var s := Run(Init(), ls); var id := s.senders[k].draft;
            var both := DraftRuns.Apply(After(s, BackInDoubt(k)), Lock(j, id, None));
            && id in both.drafts && both.drafts[id].status == Sending && Active(both, k, id) && Active(both, j, id)
            && DraftRuns.Apply(both, Recover(k, true)).drafts == both.drafts[id := both.drafts[id].(status := Pending)]
  {
    InitInv();
    RunKeeps(Init(), ls);
    assert Knows(Run(Init(), ls), k);
  }
}
