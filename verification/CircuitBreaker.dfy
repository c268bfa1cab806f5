/** The circuit breaker of the LLM providers and the calls it guards (llm_circuit_breaker.py, llm_config.py:456-471). */
module CircuitBreaker {
  import opened Common

  type Provider = string

  datatype Settings = Settings(failureThreshold: int, recoveryTimeout: int)

  // ---------------------------------------------------------------- what a history amounts to

  // One call of one of the three methods; each holds the lock from start to end.
  datatype Event = Success(p: Provider) | Failure(p: Provider, now: int) | Ask(p: Provider, now: int)

  // The failures of a provider since its last success or observed reset, and the time of the latest.
  datatype Health = Health(streak: nat, last: int)

  // A threshold below 1 works as 1, since only a failure trips.
  predicate Tripped(s: Settings, h: Health) {
    h.streak > 0 && h.streak >= s.failureThreshold
  }

  predicate Open(s: Settings, h: Health, now: int) {
    Tripped(s, h) && now - h.last < s.recoveryTimeout
  }

  function Next(s: Settings, h: Health, e: Event): Health {
    match e
    case Success(_) => h.(streak := 0)
    case Failure(_, now) => Health(h.streak + 1, now)
    case Ask(_, now) => if Tripped(s, h) && !Open(s, h, now) then h.(streak := 0) else h
  }

  // What the events of p alone make of it.
  function HealthOf(s: Settings, history: seq<Event>, p: Provider): Health {
    if history == [] then Health(0, 0) else
    var n := |history| - 1;
    var h := HealthOf(s, history[..n], p);
    if history[n].p == p then Next(s, h, history[n]) else h
  }

  function Only(history: seq<Event>, p: Provider): (r: seq<Event>)
    ensures forall e :: e in r ==> e.p == p
  {
    if history == [] then [] else
    var n := |history| - 1;
    Only(history[..n], p) + if history[n].p == p then [history[n]] else []
  }

  // Providers do not affect each other: the events of the others might as well not have happened.
  lemma {:induction false} ProvidersAreIndependent(s: Settings, history: seq<Event>, p: Provider)
    ensures HealthOf(s, history, p) == HealthOf(s, Only(history, p), p)
  {
    if history != [] {
      var n := |history| - 1;
      ProvidersAreIndependent(s, history[..n], p);
      if history[n].p == p {
        var r := Only(history, p);
        assert r[..|r| - 1] == Only(history[..n], p) && r[|r| - 1] == history[n];
      } else {
        assert Only(history, p) == Only(history[..n], p);
      }
    }
  }

  // No success and no reset of p from place i on.
  ghost predicate Unbroken(s: Settings, history: seq<Event>, p: Provider, i: nat)
    requires i <= |history|
  {
    forall j :: i <= j < |history| && history[j].p == p ==> !Resets(s, history, j)
  }

  ghost predicate Resets(s: Settings, history: seq<Event>, j: nat)
    requires j < |history|
  {
    var h := HealthOf(s, history[..j], history[j].p);
    history[j].Success? || (history[j].Ask? && Tripped(s, h) && !Open(s, h, history[j].now))
  }

  function Failures(history: seq<Event>, p: Provider, i: nat): (n: nat)
    requires i <= |history|
    decreases |history| - i
  {
    if i == |history| then 0
    else Failures(history, p, i + 1) + if history[i].Failure? && history[i].p == p then 1 else 0
  }

  lemma {:induction false} FailuresGrow(history: seq<Event>, e: Event, p: Provider, i: nat)
    requires i <= |history|
    ensures Failures(history + [e], p, i) == Failures(history, p, i) + if e.Failure? && e.p == p then 1 else 0
    decreases |history| - i
  {
    if i < |history| {
      assert (history + [e])[i] == history[i];
      FailuresGrow(history, e, p, i + 1);
    }
  }

  lemma SameResets(s: Settings, history: seq<Event>, e: Event)
    ensures forall j :: 0 <= j < |history| ==> Resets(s, history + [e], j) == Resets(s, history, j)
  {
    forall j | 0 <= j < |history| ensures Resets(s, history + [e], j) == Resets(s, history, j) {
      assert (history + [e])[..j] == history[..j];
    }
  }

  // The streak is the number of failures of p after its last success or observed reset.
  lemma {:induction false} StreakCounts(s: Settings, history: seq<Event>, p: Provider) returns (i: nat)
    ensures i <= |history| && Unbroken(s, history, p, i)
    ensures i == 0 || (history[i - 1].p == p && Resets(s, history, i - 1))
    ensures HealthOf(s, history, p).streak == Failures(history, p, i)
  {
    if history == [] {
      i := 0;
    } else {
      var n := |history| - 1;
      var before := history[..n];
      if history[n].p == p && Resets(s, history, n) {
        i := |history|;
      } else {
        i := StreakCounts(s, before, p);
        assert history == before + [history[n]];
        FailuresGrow(before, history[n], p, i);
        SameResets(s, before, history[n]);
      }
    }
  }

  function LastFailure(history: seq<Event>, p: Provider): int {
    if history == [] then 0 else
    var n := |history| - 1;
    if history[n].Failure? && history[n].p == p then history[n].now else LastFailure(history[..n], p)
  }

  lemma {:induction false} LastIsLatest(s: Settings, history: seq<Event>, p: Provider)
    ensures HealthOf(s, history, p).last == LastFailure(history, p)
  {
    if history != [] { LastIsLatest(s, history[..|history| - 1], p); }
  }

  // A provider is cut off exactly while as many failures as the threshold, or one where that is below one, stand
  // after its last success or observed reset, and less than the timeout has passed since the latest.
  lemma OpenExactly(s: Settings, history: seq<Event>, p: Provider, now: int) returns (i: nat)
    ensures i <= |history| && Unbroken(s, history, p, i)
    ensures i == 0 || (history[i - 1].p == p && Resets(s, history, i - 1))
    ensures Open(s, HealthOf(s, history, p), now) <==>
              && Failures(history, p, i) >= (if s.failureThreshold > 1 then s.failureThreshold else 1)
              && now - LastFailure(history, p) < s.recoveryTimeout
  {
    i := StreakCounts(s, history, p);
    LastIsLatest(s, history, p);
  }

  // ---------------------------------------------------------------- the object

  ghost predicate SameExcept<T>(p: Provider, before: map<Provider, T>, after: map<Provider, T>) {
    forall q :: q != p ==> (q in after <==> q in before) && (q in after ==> after[q] == before[q])
  }

  class Breaker {
    const settings: Settings
    var failures: map<Provider, nat>
    var lastFailure: map<Provider, int>
    var tripped: map<Provider, bool>
    ghost var history: seq<Event>

    constructor (failureThreshold: int := 5, recoveryTimeout: int := 60)
      ensures settings == Settings(failureThreshold, recoveryTimeout)
      ensures Valid() && history == []
    {
      settings := Settings(failureThreshold, recoveryTimeout);
      failures, lastFailure, tripped, history := map[], map[], map[], [];
    }

    ghost predicate Agrees(p: Provider)
      reads this
    {
      var h := HealthOf(settings, history, p);
      && h.streak == (if p in failures then failures[p] else 0)
      && h.last == (if p in lastFailure then lastFailure[p] else 0)
      && Tripped(settings, h) == (p in tripped && tripped[p])
    }

    ghost predicate Valid()
      reads this
    {
      forall p :: Agrees(p)
    }

    twostate lemma OneProvider(e: Event)
      requires old(Valid()) && history == old(history) + [e] && Agrees(e.p)
      requires SameExcept(e.p, old(failures), failures)
      requires SameExcept(e.p, old(lastFailure), lastFailure)
      requires SameExcept(e.p, old(tripped), tripped)
      ensures Valid()
    {
      assert history[..|history| - 1] == old(history);
      forall p ensures Agrees(p) {
        assert old(Agrees(p));
      }
    }

    method RecordSuccess(provider: Provider)
      requires Valid()
      modifies this
      ensures Valid() && history == old(history) + [Success(provider)]
    {
      failures := failures[provider := 0];
      tripped := tripped[provider := false];
      history := history + [Success(provider)];
      assert old(Agrees(provider)) && history[..|history| - 1] == old(history);
      OneProvider(Success(provider));
    }

    method RecordFailure(provider: Provider, now: int)
      requires Valid()
      modifies this
      ensures Valid() && history == old(history) + [Failure(provider, now)]
    {
      failures := failures[provider := (if provider in failures then failures[provider] else 0) + 1];
      lastFailure := lastFailure[provider := now];
      if failures[provider] >= settings.failureThreshold {
        tripped := tripped[provider := true];
      }
      history := history + [Failure(provider, now)];
      assert old(Agrees(provider)) && history[..|history| - 1] == old(history);
      OneProvider(Failure(provider, now));
    }

    // It answers true exactly when the failures since the last success or observed reset reach the threshold
    // and the latest of them is less than the timeout ago.
    method IsOpen(provider: Provider, now: int) returns (open: bool)
      requires Valid()
      modifies this
      ensures Valid() && history == old(history) + [Ask(provider, now)]
      ensures open <==> Open(settings, HealthOf(settings, old(history), provider), now)
    {
      history := history + [Ask(provider, now)];
      assert old(Agrees(provider)) && history[..|history| - 1] == old(history);
      open := false;
      if provider in tripped && tripped[provider] {
        var elapsed := now - if provider in lastFailure then lastFailure[provider] else 0;
        if elapsed >= settings.recoveryTimeout {
          tripped := tripped[provider := false];
          failures := failures[provider := 0];
        } else {
          open := true;
        }
      }
      OneProvider(Ask(provider, now));
    }

    // The guarded call in telemetry_create, with nobody else calling.
    method GuardedCall(provider: Provider, a: Attempt) returns (ran: bool)
      requires Valid()
      modifies this
      ensures Valid()
      ensures ran <==> Runs(settings, HealthOf(settings, old(history), provider), a)
      ensures HealthOf(settings, history, provider)
              == AfterAttempt(settings, HealthOf(settings, old(history), provider), a)
      ensures forall p :: p != provider ==> HealthOf(settings, history, p) == HealthOf(settings, old(history), p)
    {
      var open := IsOpen(provider, a.asked);
      ghost var asked := history;
      assert asked[..|asked| - 1] == old(history);
      if open || a.outcome.NoClient? { return false; }
      if a.outcome.Answered? {
        RecordSuccess(provider);
      } else {
        RecordFailure(provider, a.finished);
      }
      assert history[..|history| - 1] == asked;
      return true;
    }
  }

  // ---------------------------------------------------------------- one caller after another

  datatype Outcome = NoClient | Answered | Raised

  // A call that asks the breaker at one time and, if it is let through, ends at another.
  datatype Attempt = Attempt(asked: int, outcome: Outcome, finished: int)

  predicate Runs(s: Settings, h: Health, a: Attempt) {
    !Open(s, h, a.asked) && !a.outcome.NoClient?
  }

  function AfterAttempt(s: Settings, h: Health, a: Attempt): Health {
    var asked := Next(s, h, Ask("", a.asked));
    if !Runs(s, h, a) then asked
    else if a.outcome.Answered? then Next(s, asked, Success(""))
    else Next(s, asked, Failure("", a.finished))
  }

  // What one provider has seen: its health, the times of the failures since its last success, and the clock.
  datatype Line = Line(health: Health, failed: seq<int>, clock: int)

  predicate InTime(l: Line, a: Attempt) {
    l.clock <= a.asked <= a.finished
  }

  function Extend(s: Settings, l: Line, a: Attempt): Line {
    var failed :=
      if !Runs(s, l.health, a) then l.failed
      else if a.outcome.Answered? then []
      else l.failed + [a.finished];
    Line(AfterAttempt(s, l.health, a), failed, a.finished)
  }

  function Serve(s: Settings, l: Line, attempts: seq<Attempt>): Line
    decreases |attempts|
  {
    if attempts == [] then l else Serve(s, Extend(s, l, attempts[0]), attempts[1..])
  }

  predicate AllInTime(s: Settings, l: Line, attempts: seq<Attempt>)
    decreases |attempts|
  {
    attempts == [] || (InTime(l, attempts[0]) && AllInTime(s, Extend(s, l, attempts[0]), attempts[1..]))
  }

  function Fresh(): Line {
    Line(Health(0, 0), [], 0)
  }

  function Threshold(s: Settings): nat {
    if s.failureThreshold > 1 then s.failureThreshold else 1
  }

  // During an outage a call fails at once and leaves no trace, so the outage is not extended: as long as the
  // timeout since the failure that tripped has not passed every call fails fast, and the first call after
  // that is let through with the count back at zero.
  lemma {:induction false} OutageLastsTheTimeout(s: Settings, l: Line, attempts: seq<Attempt>, a: Attempt)
    requires Tripped(s, l.health)
    requires forall i :: 0 <= i < |attempts| ==> attempts[i].asked < l.health.last + s.recoveryTimeout
    ensures Serve(s, l, attempts).health == l.health && Serve(s, l, attempts).failed == l.failed
    ensures Open(s, l.health, a.asked) <==> a.asked < l.health.last + s.recoveryTimeout
    ensures a.asked >= l.health.last + s.recoveryTimeout && a.outcome.Raised? ==>
              AfterAttempt(s, Serve(s, l, attempts).health, a) == Health(1, a.finished)
    decreases |attempts|
  {
    if attempts != [] {
      OutageLastsTheTimeout(s, Extend(s, l, attempts[0]), attempts[1..], a);
    }
  }

  // The failures that make up the streak end the list, and between them and the ones before lies a cooldown.
  ghost predicate Spaced(s: Settings, l: Line) {
    var n := |l.failed|;
    && l.health.streak <= n && l.health.streak <= Threshold(s)
    && (n > 0 ==> l.health.last == l.failed[n - 1])
    && Sorted(l.failed) && (n > 0 ==> l.failed[n - 1] <= l.clock)
    && (l.health.streak < n ==>
          var b := n - l.health.streak;
          (if l.health.streak == 0 then l.clock else l.failed[b]) - l.failed[b - 1] >= s.recoveryTimeout)
    && AllApart(l.failed, Threshold(s), s.recoveryTimeout)
  }

  ghost predicate AllApart(f: seq<int>, places: nat, distance: int) {
    forall i :: 0 <= i < |f| - places ==> f[i + places] - f[i] >= distance
  }

  predicate Apart(f: seq<int>, i: nat, j: nat, distance: int) {
    i < |f| && j < |f| ==> f[j] - f[i] >= distance
  }

  // A gap right before place b, which is at most t places from the end, keeps the last two t apart.
  lemma GapSeparates(f: seq<int>, x: int, b: nat, t: nat, distance: int)
    requires Sorted(f + [x]) && AllApart(f, t, distance) && b <= |f| < b + t
    requires b > 0 ==> Apart(f + [x], b - 1, b, distance)
    ensures AllApart(f + [x], t, distance)
  {
    var all := f + [x];
    forall i | 0 <= i < |all| - t ensures all[i + t] - all[i] >= distance {
      if i + t == |f| {
        assert all[i] <= all[b - 1] && all[b] <= all[i + t];
      } else {
        assert f[i + t] - f[i] >= distance;
      }
    }
  }

  // After a call was let through, the streak is below the threshold and has a cooldown before it.
  lemma GapBeforeStreak(s: Settings, l: Line, a: Attempt)
    requires Spaced(s, l) && InTime(l, a) && Runs(s, l.health, a)
    ensures var f, streak := l.failed + [a.finished], Next(s, l.health, Ask("", a.asked)).streak;
            var b := |l.failed| - streak;
            && b >= 0 && streak < Threshold(s) && Sorted(f)
            && (b > 0 ==> Apart(f, b - 1, b, s.recoveryTimeout))
  {}

  lemma RaisedKeeps(s: Settings, l: Line, a: Attempt)
    requires Spaced(s, l) && InTime(l, a) && Runs(s, l.health, a) && a.outcome.Raised?
    ensures Spaced(s, Extend(s, l, a))
  {
    var f := l.failed + [a.finished];
    var streak := Next(s, l.health, Ask("", a.asked)).streak;
    GapBeforeStreak(s, l, a);
    GapSeparates(l.failed, a.finished, |l.failed| - streak, Threshold(s), s.recoveryTimeout);
    assert Extend(s, l, a) == Line(Health(streak + 1, a.finished), f, a.finished);
  }

  lemma {:induction false} ServeKeeps(s: Settings, l: Line, attempts: seq<Attempt>)
    requires Spaced(s, l) && AllInTime(s, l, attempts)
    ensures Spaced(s, Serve(s, l, attempts))
    decreases |attempts|
  {
    if attempts != [] {
      if Runs(s, l.health, attempts[0]) && attempts[0].outcome.Raised? { RaisedKeeps(s, l, attempts[0]); }
      ServeKeeps(s, Extend(s, l, attempts[0]), attempts[1..]);
    }
  }

  // With one caller after another and a clock that never goes back, the breaker trips at exactly the
  // threshold, and of the provider calls that fail in a row any two that are a threshold apart lie at least the
  // timeout apart in time: a broken provider is called at most threshold times in any shorter interval.
  lemma FailuresAreSpaced(s: Settings, attempts: seq<Attempt>, i: nat)
    requires AllInTime(s, Fresh(), attempts)
    ensures var l := Serve(s, Fresh(), attempts);
            && l.health.streak <= Threshold(s)
            && (i + Threshold(s) < |l.failed| ==> l.failed[i + Threshold(s)] - l.failed[i] >= s.recoveryTimeout)
  {
    ServeKeeps(s, Fresh(), attempts);
  }

  // With several callers it is different: a call that was let through before the trip and fails during the
  // outage starts the timeout again.
  lemma LateFailureExtends(s: Settings, history: seq<Event>, p: Provider, late: int, now: int)
    requires Tripped(s, HealthOf(s, history, p))
    ensures Open(s, HealthOf(s, history + [Failure(p, late)], p), now) <==> now - late < s.recoveryTimeout
  {
    assert (history + [Failure(p, late)])[..|history|] == history;
  }
}
