/**
 Runs of the action outbox in which attempts, crashes and the sweeper interleave (app/action_outbox.py:45-131,
 134-170). One step is one committed or rolled back transaction, one end of the external action, or one death.
 */
module OutboxRuns {
  import opened Common
  import opened Outbox

  // Holding: the action has returned and its completion is still to be written. Excepting: in the except branch.
  datatype Phase =
    | Executing
    | Holding(extracted: Ref, value: Value)
    | Excepting
    | Over(answer: Answer)

  datatype Attempt = Attempt(key: Key, phase: Phase)

  // returned counts, for each key, the normal returns of its action, and lost those of them whose completion
  // was never committed.
  datatype State = State(log: Log, attempts: map<nat, Attempt>, returned: multiset<Key>, lost: multiset<Key>)

  datatype Label =
    | Begin(k: nat, key: Key, commits: bool)
    | Return(k: nat, extracted: Ref, value: Value)
    | Raise(k: nat)
    | Complete(k: nat, commits: bool)
    | Fail(k: nat, commits: bool)
    | Die(k: nat)
    | Sweep(keys: set<Key>)

  function Start(s: State, k: nat, key: Key, phase: Phase): State {
    s.(attempts := s.attempts[k := Attempt(key, phase)])
  }

  function SetPhase(s: State, k: nat, phase: Phase): State
    requires k in s.attempts
  {
    s.(attempts := s.attempts[k := s.attempts[k].(phase := phase)])
  }

  function StepAttempt(s: State, l: Label): State
    requires (l.Return? || l.Raise? || l.Complete? || l.Fail? || l.Die?) && l.k in s.attempts
  {
    var k, key, phase := l.k, s.attempts[l.k].key, s.attempts[l.k].phase;
    match l
    case Return(_, extracted, value) =>
      if phase.Executing? then SetPhase(s, k, Holding(extracted, value)).(returned := s.returned + multiset{key}) else s
    case Raise(_) =>
      if phase.Executing? then SetPhase(s, k, Excepting) else s
    case Complete(_, commits) =>
      if !phase.Holding? then s
      else if commits then
        var ref := ExternalRef(phase.extracted, phase.value);
        SetPhase(s, k, Over(Executed(ref, phase.value))).(log := SetCompleted(s.log, key, ref))
      else SetPhase(s, k, Excepting).(lost := s.lost + multiset{key})
    case Fail(_, commits) =>
      if !phase.Excepting? then s
      else SetPhase(s, k, Over(Error)).(log := if commits then SetFailed(s.log, key) else s.log)
    case Die(_) =>
      if phase.Over? then s
      else SetPhase(s, k, Over(Died)).(lost := if phase.Holding? then s.lost + multiset{key} else s.lost)
  }

  function Apply(s: State, l: Label): State {
    match l
    case Begin(k, key, commits) =>
      if k in s.attempts then s
      else if !commits then Start(s, k, key, Over(Threw))
      else if IsCompleted(s.log, key) then Start(s, k, key, Over(AlreadyCompleted(s.log[key].ref)))
      else Start(s, k, key, Executing).(log := Begun(s.log, key))
    case Sweep(keys) => s.(log := Swept(s.log, keys))
    case _ => if l.k in s.attempts then StepAttempt(s, l) else s
  }

  function Run(s: State, ls: seq<Label>): State
    decreases |ls|
  {
    if ls == [] then s else Run(Apply(s, ls[0]), ls[1..])
  }

  function Init(): State {
    State(map[], map[], multiset{}, multiset{})
  }

  // ---------------------------------------------------------------- a call alone is a run

  // The steps of one undisturbed attempt.
  function Steps(k: nat, key: Key, w: World): seq<Label> {
    match w.begin
    case Fails => [Begin(k, key, false)]
    case Dies => []
    case Commits =>
      [Begin(k, key, true)]
      + match w.action
        case Stops => [Die(k)]
        case Raises => [Raise(k)] + FailSteps(k, w.fail)
        case Returns(extracted, value) =>
          [Return(k, extracted, value)]
          + match w.complete
            case Commits => [Complete(k, true)]
            case Fails => [Complete(k, false)] + FailSteps(k, w.fail)
            case Dies => [Die(k)]
  }

  function FailSteps(k: nat, fail: Write): seq<Label> {
    if fail == Dies then [Die(k)] else [Fail(k, fail == Commits)]
  }

  // The call of execute_idempotent_action by one actor is one such sequence of steps.
  lemma AttemptIsARun(s: State, k: nat, key: Key, w: World)
    requires k !in s.attempts
    ensures var s' := Run(s, Steps(k, key, w));
            && s'.log == AfterAttempt(s.log, key, w)
            && s'.returned == s.returned + (if Ran(s.log, key, w) then multiset{key} else multiset{})
            && (w.begin != Dies ==> k in s'.attempts && s'.attempts[k] == Attempt(key, Over(AnswerOf(s.log, key, w))))
  {
    if w.begin == Commits {
      var tail := Steps(k, key, w)[1..];
      var s1 := Apply(s, Begin(k, key, true));
      assert Run(s, Steps(k, key, w)) == Run(s1, tail);
      if IsCompleted(s.log, key) {
        OverIgnores(s1, k, tail);
      } else {
        ActionIsARun(s1, k, key, w);
      }
    }
  }

  // The same after the first transaction, with an attempt that is executing.
  lemma ActionIsARun(s: State, k: nat, key: Key, w: World)
    requires w.begin == Commits && k in s.attempts && s.attempts[k] == Attempt(key, Executing)
    requires key in s.log && s.log[key].status != Completed
    ensures var s' := Run(s, Steps(k, key, w)[1..]);
            && s'.log == AfterAttempt(s.log, key, w)
            && s'.returned == s.returned + (if w.action.Returns? then multiset{key} else multiset{})
            && k in s'.attempts && s'.attempts[k] == Attempt(key, Over(AnswerOf(s.log, key, w)))
  {
    match w.action
    case Stops => OneStep(s, Die(k));
    case Raises => RaiseIsARun(s, k, key, w);
    case Returns(_, _) => ReturnIsARun(s, k, key, w);
  }

  lemma RaiseIsARun(s: State, k: nat, key: Key, w: World)
    requires w.begin == Commits && w.action.Raises? && k in s.attempts && s.attempts[k] == Attempt(key, Executing)
    requires key in s.log && s.log[key].status != Completed
    ensures var s' := Run(s, Steps(k, key, w)[1..]);
            && s'.log == AfterAttempt(s.log, key, w) && s'.returned == s.returned
            && k in s'.attempts && s'.attempts[k] == Attempt(key, Over(AnswerOf(s.log, key, w)))
  {
    var tail := Steps(k, key, w)[1..];
    assert tail == [Raise(k)] + FailSteps(k, w.fail);
    assert tail[1..] == FailSteps(k, w.fail);
    FailureIsARun(Apply(s, Raise(k)), k, key, w.fail);
  }

  lemma ReturnIsARun(s: State, k: nat, key: Key, w: World)
    requires w.begin == Commits && w.action.Returns? && k in s.attempts && s.attempts[k] == Attempt(key, Executing)
    requires key in s.log && s.log[key].status != Completed
    ensures var s' := Run(s, Steps(k, key, w)[1..]);
            && s'.log == AfterAttempt(s.log, key, w) && s'.returned == s.returned + multiset{key}
            && k in s'.attempts && s'.attempts[k] == Attempt(key, Over(AnswerOf(s.log, key, w)))
  {
    var tail, returned := Steps(k, key, w)[1..], Return(k, w.action.extracted, w.action.value);
    var s1 := Apply(s, returned);
    assert Run(s, tail) == Run(s1, tail[1..]);
    if w.complete == Fails {
      assert tail[1..] == [Complete(k, false)] + FailSteps(k, w.fail);
      assert tail[1..][1..] == FailSteps(k, w.fail);
      FailureIsARun(Apply(s1, Complete(k, false)), k, key, w.fail);
    } else {
      var last := if w.complete == Commits then Complete(k, true) else Die(k);
      assert tail[1..] == [last];
      OneStep(s1, last);
    }
  }

  lemma FailureIsARun(s: State, k: nat, key: Key, fail: Write)
    requires k in s.attempts && s.attempts[k] == Attempt(key, Excepting)
    ensures var s' := Run(s, FailSteps(k, fail));
            && s'.log == AfterFailure(s.log, key, fail) && s'.returned == s.returned
            && k in s'.attempts && s'.attempts[k] == Attempt(key, Over(if fail == Dies then Died else Error))
  {
    OneStep(s, FailSteps(k, fail)[0]);
  }

  // An attempt that is over takes no more steps.
  lemma {:induction false} OverIgnores(s: State, k: nat, ls: seq<Label>)
    requires k in s.attempts && s.attempts[k].phase.Over?
    requires forall l :: l in ls ==> IsAttemptStep(l) && l.k == k
    ensures Run(s, ls) == s
    decreases |ls|
  {
    if ls != [] {
      assert ls[0] in ls;
      OverIgnores(s, k, ls[1..]);
    }
  }

  lemma OneStep(s: State, a: Label)
    ensures Run(s, [a]) == Apply(s, a)
  {
    assert [a][1..] == [];
  }

  lemma TwoSteps(s: State, a: Label, b: Label)
    ensures Run(s, [a, b]) == Apply(Apply(s, a), b)
  {
    assert [a, b][1..] == [b];
    OneStep(Apply(s, a), b);
  }

  lemma {:induction false} RunSplit(s: State, a: seq<Label>, b: seq<Label>)
    ensures Run(s, a + b) == Run(Run(s, a), b)
    decreases |a|
  {
    if a == [] {
      assert a + b == b;
    } else {
      assert (a + b)[1..] == a[1..] + b;
      RunSplit(Apply(s, a[0]), a[1..], b);
    }
  }

  // ---------------------------------------------------------------- serial attempts on a key

  predicate IsLive(s: State, k: nat, key: Key) {
    k in s.attempts && s.attempts[k].key == key && !s.attempts[k].phase.Over?
  }

  ghost predicate Idle(s: State, key: Key) {
    forall k :: !IsLive(s, k, key)
  }

  // No attempt on this key begins while another is under way. Other keys are free.
  ghost predicate Serial(s: State, ls: seq<Label>, key: Key)
    decreases |ls|
  {
    ls == [] ||
    ((ls[0].Begin? && ls[0].key == key ==> Idle(s, key)) && Serial(Apply(s, ls[0]), ls[1..], key))
  }

  predicate Holds(s: State, k: nat, key: Key) {
    IsLive(s, k, key) && s.attempts[k].phase.Holding?
  }

  ghost predicate Held(s: State, key: Key) {
    exists k :: Holds(s, k, key)
  }

  ghost predicate Balanced(s: State, key: Key) {
    s.returned[key] == s.lost[key] + if Held(s, key) || IsCompleted(s.log, key) then 1 else 0
  }

  ghost predicate Inv(s: State, key: Key) {
    && (forall j, k :: IsLive(s, j, key) && IsLive(s, k, key) ==> j == k)
    && (forall k :: IsLive(s, k, key) ==> key in s.log && s.log[key].status != Completed)
    && Balanced(s, key)
  }

  // What a step on another key leaves alone.
  ghost predicate SameOn(s: State, s': State, key: Key) {
    && (forall k :: IsLive(s', k, key) <==> IsLive(s, k, key))
    && (forall k :: Holds(s', k, key) <==> Holds(s, k, key))
    && s'.returned[key] == s.returned[key] && s'.lost[key] == s.lost[key]
    && (key in s'.log <==> key in s.log)
    && (key in s.log ==> (s'.log[key].status == Completed <==> s.log[key].status == Completed))
    && (IsCompleted(s.log, key) ==> s'.log[key] == s.log[key])
  }

  lemma SameKeeps(s: State, s': State, key: Key)
    requires Inv(s, key) && SameOn(s, s', key)
    ensures Inv(s', key)
  {}

  lemma BeginKeeps(s: State, l: Label, key: Key)
    requires Inv(s, key) && l.Begin? && (l.key == key ==> Idle(s, key))
    ensures Inv(Apply(s, l), key)
  {
    var s' := Apply(s, l);
    if l.key == key && l.k !in s.attempts && l.commits && !IsCompleted(s.log, key) {
      forall k | IsLive(s', k, key) ensures k == l.k { assert !IsLive(s, k, key); }
      forall k ensures !Holds(s', k, key) && !Holds(s, k, key) { assert !IsLive(s, k, key); }
    } else {
      SameKeeps(s, s', key);
    }
  }

  predicate IsAttemptStep(l: Label) {
    l.Return? || l.Raise? || l.Complete? || l.Fail? || l.Die?
  }

  lemma OtherKeySame(s: State, l: Label, key: Key)
    requires IsAttemptStep(l) && l.k in s.attempts && s.attempts[l.k].key != key
    ensures SameOn(s, StepAttempt(s, l), key)
  {}

  lemma OwnStepKeeps(s: State, l: Label, key: Key)
    requires Inv(s, key) && IsAttemptStep(l) && IsLive(s, l.k, key)
    ensures Inv(StepAttempt(s, l), key)
  {
    var s', k := StepAttempt(s, l), l.k;
    forall j ensures j != k ==> !IsLive(s', j, key) && !IsLive(s, j, key) {
      assert IsLive(s, j, key) ==> j == k;
    }
    assert Held(s, key) <==> Holds(s, k, key);
    assert Held(s', key) <==> Holds(s', k, key);
  }

  lemma StepKeeps(s: State, l: Label, key: Key)
    requires Inv(s, key) && (l.Begin? && l.key == key ==> Idle(s, key))
    ensures Inv(Apply(s, l), key)
  {
    if l.Begin? {
      BeginKeeps(s, l, key);
    } else if l.Sweep? {
      SameKeeps(s, Apply(s, l), key);
    } else if l.k in s.attempts && s.attempts[l.k].key != key {
      OtherKeySame(s, l, key);
      SameKeeps(s, Apply(s, l), key);
    } else if IsLive(s, l.k, key) {
      OwnStepKeeps(s, l, key);
    }
  }

  lemma {:induction false} RunKeeps(s: State, ls: seq<Label>, key: Key)
    requires Inv(s, key) && Serial(s, ls, key)
    ensures Inv(Run(s, ls), key)
    decreases |ls|
  {
    if ls != [] {
      StepKeeps(s, ls[0], key);
      RunKeeps(Apply(s, ls[0]), ls[1..], key);
    }
  }

  lemma InitInv(key: Key)
    ensures Inv(Init(), key)
  {}

  // Over serial attempts every normal return is accounted for: its completion was lost, or it is still to be
  // written, or the row is completed. So the action returns at most once more than completions were lost, and
  // at most once when none was; sweeps at any moment, even during an attempt, change nothing about that.
  lemma ReturnsAccountedFor(ls: seq<Label>, key: Key)
    requires Serial(Init(), ls, key)
    ensures var s := Run(Init(), ls);
            && s.lost[key] <= s.returned[key] <= s.lost[key] + 1
            && (IsCompleted(s.log, key) ==> s.returned[key] == s.lost[key] + 1)
            && (Idle(s, key) && !IsCompleted(s.log, key) ==> s.returned[key] == s.lost[key])
  {
    InitInv(key);
    RunKeeps(Init(), ls, key);
    var s := Run(Init(), ls);
    if Idle(s, key) {
      forall k ensures !Holds(s, k, key) { assert !IsLive(s, k, key); }
    }
  }

  // ---------------------------------------------------------------- completed is final

  lemma CompletedStep(s: State, l: Label, key: Key)
    requires Inv(s, key) && IsCompleted(s.log, key)
    ensures var s' := Apply(s, l);
            && Idle(s, key) && Idle(s', key)
            && Inv(s', key) && key in s'.log && s'.log[key] == s.log[key] && s'.returned[key] == s.returned[key]
  {
    var s' := Apply(s, l);
    forall k ensures !IsLive(s, k, key) && !IsLive(s', k, key) {}
    StepKeeps(s, l, key);
    if IsAttemptStep(l) && l.k in s.attempts {
      if s.attempts[l.k].key != key { OtherKeySame(s, l, key); } else { assert !IsLive(s, l.k, key); }
    }
  }

  lemma {:induction false} CompletedStays(s: State, ls: seq<Label>, key: Key)
    requires Inv(s, key) && IsCompleted(s.log, key)
    ensures var s' := Run(s, ls);
            Inv(s', key) && key in s'.log && s'.log[key] == s.log[key] && s'.returned[key] == s.returned[key]
    decreases |ls|
  {
    if ls != [] {
      CompletedStep(s, ls[0], key);
      CompletedStays(Apply(s, ls[0]), ls[1..], key);
    }
  }

  // Once serial attempts have completed a key, nothing that happens later, serial or not, changes its row or
  // runs its action again; every later attempt that gets an answer is told the first reference.
  lemma LaterAttemptsReuse(a: seq<Label>, b: seq<Label>, key: Key, k: nat)
    requires Serial(Init(), a, key) && IsCompleted(Run(Init(), a).log, key)
    requires k !in Run(Init(), a + b).attempts
    ensures var done, s := Run(Init(), a), Run(Init(), a + b);
            var s' := Apply(s, Begin(k, key, true));
            && s.returned[key] == done.returned[key]
            && s' == Start(s, k, key, Over(AlreadyCompleted(done.log[key].ref)))
  {
    InitInv(key);
    RunKeeps(Init(), a, key);
    RunSplit(Init(), a, b);
    CompletedStays(Run(Init(), a), b, key);
  }

  // ---------------------------------------------------------------- where the promise fails

  // Two attempts that are executing both return and both complete. Each caller is told its own reference and
  // the row keeps the later one.
  lemma BothComplete(s: State, j: nat, k: nat, key: Key, first: Value, second: Value)
    requires j != k && j in s.attempts && s.attempts[j] == Attempt(key, Executing)
    requires k in s.attempts && s.attempts[k] == Attempt(key, Executing) && key in s.log
    ensures var s' := Run(s, [Return(j, None, first), Return(k, None, second), Complete(j, true), Complete(k, true)]);
            && s'.returned[key] == s.returned[key] + 2 && s'.lost == s.lost
            && s'.attempts == s.attempts[j := Attempt(key, Over(Executed(ExternalRef(None, first), first)))]
                                        [k := Attempt(key, Over(Executed(ExternalRef(None, second), second)))]
            && s'.log == s.log[key := Row(Completed, ExternalRef(None, second))]
  {
    var a, b := [Return(j, None, first), Return(k, None, second)], [Complete(j, true), Complete(k, true)];
    RunSplit(s, a, b);
    TwoSteps(s, a[0], a[1]);
    TwoSteps(Run(s, a), b[0], b[1]);
    assert a + b == [a[0], a[1], b[0], b[1]];
  }

  // While a key is not completed nothing holds a second attempt back, so two attempts that overlap both run
  // the action, whatever happened before, and with every write committed.
  lemma OverlapRunsTwice(s: State, j: nat, k: nat, key: Key, first: Value, second: Value)
    requires j !in s.attempts && k !in s.attempts && j != k && !IsCompleted(s.log, key)
    ensures var ls := [Begin(j, key, true), Begin(k, key, true)];
            var ends := [Return(j, None, first), Return(k, None, second), Complete(j, true), Complete(k, true)];
            var s' := Run(Run(s, ls), ends);
            && !Serial(s, ls, key)
            && s'.returned[key] == s.returned[key] + 2 && s'.lost == s.lost
            && key in s'.log && s'.log[key] == Row(Completed, ExternalRef(None, second))
  {
    var ls := [Begin(j, key, true), Begin(k, key, true)];
    var s1 := Apply(s, ls[0]);
    TwoSteps(s, ls[0], ls[1]);
    assert IsLive(s1, j, key) && ls[1..][0] == ls[1];
    BothComplete(Run(s, ls), j, k, key, first, second);
  }

  // Nor does it hold for serial attempts when a completion does not commit: the except branch records a
  // failure, and the next attempt runs the action again.
  lemma LostCompletionRepeats(s: State, j: nat, k: nat, key: Key, v: Value)
    requires Holds(s, j, key) && k !in s.attempts && key in s.log
    ensures var a := [Complete(j, false), Fail(j, true)];
            var failed := Run(s, a);
            var s' := Run(failed, [Begin(k, key, true), Return(k, None, v)]);
            && j in failed.attempts && failed.attempts[j].phase == Over(Error)
            && key in failed.log && failed.log[key].status == Failed
            && s'.returned[key] == s.returned[key] + 1 && s'.lost[key] == s.lost[key] + 1
  {
    TwoSteps(s, Complete(j, false), Fail(j, true));
    TwoSteps(Run(s, [Complete(j, false), Fail(j, true)]), Begin(k, key, true), Return(k, None, v));
  }
}
