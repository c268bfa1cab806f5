/**
 The fixed-window limit on emails per sender (app/rate_limiter.py:73-106). The request limiter, lines 46-65, counts
 the same way.
 */
module RateLimiter {
  import opened Common
  import Outbox

  // What the store holds for a key, until it expires if it does.
  datatype Counter = Counter(count: nat, expires: Option<int>)

  type Entry = Option<Counter>

  function Get(e: Entry, now: int): Option<nat> {
    if e.Some? && (e.value.expires.Some? ==> now < e.value.expires.value) then Some(e.value.count) else None
  }

  // INCR, and EXPIRE only if nothing was read before.
  function Increment(e: Entry, read: Option<nat>, window: int, now: int): Entry {
    var live := Get(e, now).Some?;
    var count := if live then e.value.count + 1 else 1;
    Some(Counter(count, if read == None then Some(now + window) else if live then e.value.expires else None))
  }

  predicate Refused(read: Option<nat>, limit: int) {
    read.Some? && read.value >= limit
  }

  // One check as one instant.
  function Check(e: Entry, limit: int, window: int, now: int): Entry {
    var read := Get(e, now);
    if Refused(read, limit) then e else Increment(e, read, window, now)
  }

  predicate Allowed(e: Entry, limit: int, now: int) {
    !Refused(Get(e, now), limit)
  }

  function SenderKey(lower: PyStr -> PyStr, client: PyStr, fromEmail: PyStr): PyStr {
    Codes("ratelimit:sender:") + client + [':' as int] + Strip(lower(fromEmail), IsSpace)
  }

  // Two emails are counted together exactly when they are to the same client and from the same address, up to case
  // and blanks around it.
  lemma SendersShareACounter(lower: PyStr -> PyStr, c1: PyStr, f1: PyStr, c2: PyStr, f2: PyStr)
    requires Outbox.COLON !in c1 && Outbox.COLON !in c2
    ensures SenderKey(lower, c1, f1) == SenderKey(lower, c2, f2)
       <==> c1 == c2 && Strip(lower(f1), IsSpace) == Strip(lower(f2), IsSpace)
  {
    var prefix, a, b := Codes("ratelimit:sender:"), Strip(lower(f1), IsSpace), Strip(lower(f2), IsSpace);
    if SenderKey(lower, c1, f1) == SenderKey(lower, c2, f2) {
      KeyHasParts(lower, c1, f1);
      KeyHasParts(lower, c2, f2);
      SamePrefix(prefix, c1 + [Outbox.COLON] + a, c2 + [Outbox.COLON] + b);
      Outbox.CutAtColon(c1, a, c2, b);
    }
  }

  lemma KeyHasParts(lower: PyStr -> PyStr, client: PyStr, fromEmail: PyStr)
    ensures SenderKey(lower, client, fromEmail)
            == Codes("ratelimit:sender:") + (client + [Outbox.COLON] + Strip(lower(fromEmail), IsSpace))
  {
    var p, s := Codes("ratelimit:sender:"), Strip(lower(fromEmail), IsSpace);
    ConcatAssoc(p, client, [Outbox.COLON]);
    ConcatAssoc(p, client + [Outbox.COLON], s);
  }

  lemma SamePrefix(p: PyStr, a: PyStr, b: PyStr)
    ensures p + a == p + b ==> a == b
  {
    assert (p + a)[|p|..] == a && (p + b)[|p|..] == b;
  }

  class Limiter {
    const lower: PyStr -> PyStr
    var entries: map<PyStr, Counter>

    constructor (lower: PyStr -> PyStr)
      ensures this.lower == lower && entries == map[]
    {
      this.lower, entries := lower, map[];
    }

    function EntryOf(key: PyStr): Entry
      reads this
    {
      if key in entries then Some(entries[key]) else None
    }

    // check_sender_rate_limit; up tells whether the store answers.
    method CheckSender(client: PyStr, fromEmail: PyStr, limit: int, window: int, now: int, up: bool)
      returns (allowed: bool, count: nat)
      modifies this
      ensures var key := SenderKey(lower, client, fromEmail);
              var e := old(EntryOf(key));
              if client == [] || fromEmail == [] || !up then allowed && count == 0 && entries == old(entries)
              else
                && allowed == Allowed(e, limit, now)
                && EntryOf(key) == Check(e, limit, window, now)
                && EntryOf(key).Some? && count == EntryOf(key).value.count
                && forall k :: k != key ==> EntryOf(k) == old(EntryOf(k))
    {
      if fromEmail == [] || client == [] || !up { return true, 0; }
      var key := SenderKey(lower, client, fromEmail);
      var current := Get(EntryOf(key), now);
      if current.Some? && current.value >= limit { return false, current.value; }
      entries := entries[key := Increment(EntryOf(key), current, window, now).value];
      return true, entries[key].count;
    }
  }

  // ---------------------------------------------------------------- one sender over time

  // A limit below 1 still lets the first email of a window through.
  function Limit(limit: int): nat {
    if limit > 1 then limit else 1
  }

  // The entry of one sender with the times of the emails let through; first is the place where the current
  // window begins and before that of the window before it.
  datatype Line = Line(entry: Entry, times: seq<int>, first: nat, before: nat)

  function Extend(l: Line, limit: int, window: int, now: int): Line {
    if !Allowed(l.entry, limit, now) then l else
    var starts := Get(l.entry, now) == None;
    Line(Check(l.entry, limit, window, now), l.times + [now],
         if starts then |l.times| else l.first, if starts then l.first else l.before)
  }

  function Serve(limit: int, window: int, nows: seq<int>): Line {
    if nows == [] then Line(None, [], 0, 0) else
    Extend(Serve(limit, window, nows[..|nows| - 1]), limit, window, nows[|nows| - 1])
  }

  ghost predicate Spaced(times: seq<int>, places: nat, window: int) {
    forall i :: 0 <= i < |times| - places ==> times[i + places] >= times[i] + window
  }

  // The entry is the window that began with times[first].
  predicate Current(l: Line, limit: int, window: int) {
    var n, m := |l.times|, Limit(limit);
    && l.before <= l.first < n && n - l.first <= m && l.first - l.before <= m
    && l.entry == Some(Counter(n - l.first, Some(l.times[l.first] + window)))
    && (l.first > 0 ==> l.before < l.first && l.times[l.first] >= l.times[l.before] + window)
  }

  // The current window holds the last of the times, at most the limit of them, and so did the one before; no
  // two emails that are twice the limit less one apart came within one window length.
  ghost predicate Inv(l: Line, limit: int, window: int) {
    && Sorted(l.times)
    && (if l.times == [] then l.entry == None && l.first == 0 else Current(l, limit, window))
    && Spaced(l.times, 2 * Limit(limit) - 1, window)
  }

  lemma AppendKeepsSpaced(times: seq<int>, now: int, m: nat, window: int, first: nat, before: nat)
    requires m > 0 && Sorted(times + [now]) && Spaced(times, 2 * m - 1, window)
    requires before <= first <= |times| && |times| < first + m && first - before <= m
    requires first > 0 ==> before < first && (times + [now])[first] >= (times + [now])[before] + window
    ensures Spaced(times + [now], 2 * m - 1, window)
  {
    var all, k := times + [now], 2 * m - 1;
    forall i | 0 <= i < |all| - k ensures all[i + k] >= all[i] + window {
      if i + k == |times| {
        assert i <= before && all[i] <= all[before] && all[first] <= all[i + k];
      } else {
        assert times[i + k] >= times[i] + window;
      }
    }
  }

  lemma ExtendKeeps(l: Line, limit: int, window: int, now: int)
    requires Inv(l, limit, window) && forall i :: 0 <= i < |l.times| ==> l.times[i] <= now
    ensures Inv(Extend(l, limit, window, now), limit, window)
  {
    var l' := Extend(l, limit, window, now);
    if l' != l {
      assert Current(l', limit, window);
      AppendKeepsSpaced(l.times, now, Limit(limit), window, l'.first, l'.before);
    }
  }

  lemma {:induction false} ServeKeeps(limit: int, window: int, nows: seq<int>)
    requires Sorted(nows)
    ensures Inv(Serve(limit, window, nows), limit, window)
    ensures forall t :: t in Serve(limit, window, nows).times ==> t in nows
  {
    if nows != [] {
      var n := |nows| - 1;
      ServeKeeps(limit, window, nows[..n]);
      var l := Serve(limit, window, nows[..n]);
      forall i | 0 <= i < |l.times| ensures l.times[i] <= nows[n] { assert l.times[i] in nows[..n]; }
      ExtendKeeps(l, limit, window, nows[n]);
    }
  }

  // How many of these times lie in the half-open interval from a to a + window.
  function CountIn(times: seq<int>, a: int, window: int): (n: nat)
    ensures n <= |times|
  {
    if times == [] then 0 else
    CountIn(times[..|times| - 1], a, window) + if a <= times[|times| - 1] < a + window then 1 else 0
  }

  // In a sorted list those in an interval stand together, and the count says how many.
  lemma {:induction false} CountIsAStretch(times: seq<int>, a: int, window: int) returns (lo: nat)
    requires Sorted(times)
    ensures lo + CountIn(times, a, window) <= |times|
    ensures forall i :: 0 <= i < lo ==> times[i] < a
    ensures forall i :: lo <= i < lo + CountIn(times, a, window) ==> a <= times[i] < a + window
    ensures forall i :: lo + CountIn(times, a, window) <= i < |times| ==> times[i] >= a && times[i] >= a + window
  {
    if times == [] {
      lo := 0;
    } else {
      var n := |times| - 1;
      lo := CountIsAStretch(times[..n], a, window);
      var c := CountIn(times[..n], a, window);
      assert forall i :: 0 <= i < n ==> times[..n][i] == times[i] <= times[n];
      if times[n] < a { lo := n + 1; }
    }
  }

  // Whenever the emails come, no half-open interval as long as the window lets through more than twice the
  // limit less one.
  lemma SlidingWindowBound(limit: int, window: int, nows: seq<int>, a: int)
    requires Sorted(nows)
    ensures CountIn(Serve(limit, window, nows).times, a, window) <= 2 * Limit(limit) - 1
  {
    ServeKeeps(limit, window, nows);
    var times, m := Serve(limit, window, nows).times, 2 * Limit(limit) - 1;
    var lo := CountIsAStretch(times, a, window);
    if lo + m < |times| { assert times[lo + m] >= times[lo] + window; }
  }

  // An email is refused exactly when as many as the limit were let through in the window that is open: the
  // fixed window that began with the first of them and has not ended.
  lemma RefusedExactlyWhenFull(limit: int, window: int, nows: seq<int>, now: int)
    requires Sorted(nows) && forall i :: 0 <= i < |nows| ==> nows[i] <= now
    ensures var l := Serve(limit, window, nows);
            var n := |l.times|;
            && n - l.first <= Limit(limit)
            && (!Allowed(l.entry, limit, now) <==>
                  n > 0 && n - l.first >= limit && l.first < n && now < l.times[l.first] + window)
  {
    ServeKeeps(limit, window, nows);
  }

  // ---------------------------------------------------------------- the bound is reached

  function Times(t: int, n: nat): (r: seq<int>)
    ensures |r| == n && forall i :: 0 <= i < n ==> r[i] == t
  {
    seq(n, i => t)
  }

  lemma OneMore(limit: int, window: int, nows: seq<int>, t: int)
    requires var e := Serve(limit, window, nows).entry;
             e.Some? && e.value.expires.Some? && t < e.value.expires.value && e.value.count < limit
    ensures var l, l' := Serve(limit, window, nows), Serve(limit, window, nows + [t]);
            && l'.times == l.times + [t]
            && l'.entry == Some(Counter(l.entry.value.count + 1, l.entry.value.expires))
  {
    assert (nows + [t])[..|nows|] == nows;
  }

  // The limit and n emails, all let through, when none of them is refused.
  lemma {:induction false} ManyAtOnce(limit: int, window: int, nows: seq<int>, t: int, n: nat)
    requires var l := Serve(limit, window, nows);
             && l.entry.Some? && l.entry.value.expires.Some? && t < l.entry.value.expires.value
             && l.entry.value.count + n <= limit
    ensures var l, l' := Serve(limit, window, nows), Serve(limit, window, nows + Times(t, n));
            && l'.times == l.times + Times(t, n)
            && l'.entry == Some(Counter(l.entry.value.count + n, l.entry.value.expires))
  {
    if n == 0 {
      assert nows + Times(t, 0) == nows;
    } else {
      var before := nows + Times(t, n - 1);
      ManyAtOnce(limit, window, nows, t, n - 1);
      assert Times(t, n) == Times(t, n - 1) + [t];
      ConcatAssoc(nows, Times(t, n - 1), [t]);
      OneMore(limit, window, before, t);
      ConcatAssoc(Serve(limit, window, nows).times, Times(t, n - 1), [t]);
    }
  }

  lemma CountSplits(a: seq<int>, b: seq<int>, from: int, window: int)
    ensures CountIn(a + b, from, window) == CountIn(a, from, window) + CountIn(b, from, window)
  {
    if b == [] {
      assert a + b == a;
    } else {
      assert (a + b)[..|a + b| - 1] == a + b[..|b| - 1];
      CountSplits(a, b[..|b| - 1], from, window);
    }
  }

  lemma {:induction false} CountTimes(t: int, n: nat, from: int, window: int)
    requires from <= t < from + window
    ensures CountIn(Times(t, n), from, window) == n
  {
    if n > 0 {
      assert Times(t, n)[..n - 1] == Times(t, n - 1);
      CountTimes(t, n - 1, from, window);
    }
  }

  // One email, the rest of the limit just before the window ends, and a full limit when the next one opens.
  function Burst(limit: int, window: int): (nows: seq<int>)
    requires limit >= 1 && window >= 2
    ensures Sorted(nows)
  {
    [0] + Times(window - 1, limit - 1) + [window] + Times(window, limit - 1)
  }

  // The bound is reached for every limit: twice the limit less one emails within one window length.
  lemma BoundIsReached(limit: int, window: int)
    requires limit >= 1 && window >= 2
    ensures CountIn(Serve(limit, window, Burst(limit, window)).times, window - 1, window) == 2 * limit - 1
  {
    BurstIsServed(limit, window);
    var a, m := [0] + Times(window - 1, limit - 1), window - 1;
    CountSplits(a + [window], Times(window, limit - 1), m, window);
    CountSplits(a, [window], m, window);
    CountSplits([0], Times(window - 1, limit - 1), m, window);
    CountOne(0, m, window);
    CountOne(window, m, window);
    CountTimes(window - 1, limit - 1, m, window);
    CountTimes(window, limit - 1, m, window);
  }

  lemma BurstIsServed(limit: int, window: int)
    requires limit >= 1 && window >= 2
    ensures Serve(limit, window, Burst(limit, window)).times == Burst(limit, window)
  {
    var a := [0] + Times(window - 1, limit - 1);
    FirstWindow(limit, window);
    NextWindow(limit, window, a);
    ManyAtOnce(limit, window, a + [window], window, limit - 1);
  }

  lemma CountOne(t: int, from: int, window: int)
    ensures CountIn([t], from, window) == if from <= t < from + window then 1 else 0
  {
    assert [t][..0] == [];
  }

  lemma NextWindow(limit: int, window: int, a: seq<int>)
    requires limit >= 1 && window >= 1
    requires var l := Serve(limit, window, a); l.times == a && l.entry == Some(Counter(limit, Some(window)))
    ensures var l := Serve(limit, window, a + [window]);
            l.times == a + [window] && l.entry == Some(Counter(1, Some(2 * window)))
  {
    assert (a + [window])[..|a|] == a;
  }

  lemma FirstWindow(limit: int, window: int)
    requires limit >= 1 && window >= 2
    ensures var a := [0] + Times(window - 1, limit - 1);
            Serve(limit, window, a).times == a && Serve(limit, window, a).entry == Some(Counter(limit, Some(window)))
  {
    assert [0][..0] == [];
    assert Serve(limit, window, [0]).times == [0] && Serve(limit, window, [0]).entry == Some(Counter(1, Some(window)));
    ManyAtOnce(limit, window, [0], window - 1, limit - 1);
  }

  // ---------------------------------------------------------------- when a check is not one instant

  function ServeEntry(e: Entry, limit: int, window: int, nows: seq<int>): Entry {
    if nows == [] then e else
    Check(ServeEntry(e, limit, window, nows[..|nows| - 1]), limit, window, nows[|nows| - 1])
  }

  // A counter loses its expiry at one place only: it was live when it was read and gone when it was increased.
  // What other checks did to it in between does not matter.
  lemma ExpiryIsLostExactly(before: Entry, e: Entry, window: int, read: int, late: int)
    requires e.Some? ==> e.value.expires.Some?
    ensures Increment(e, Get(before, read), window, late).value.expires == None
       <==> Get(before, read).Some? && Get(e, late) == None
  {}

  // A check reads a live counter; the counter expires; the check then increments it. The new counter has no
  // expiry, because the check saw one before: it only ever grows, and once it reaches the limit the sender is
  // refused for good.
  lemma {:induction false} StaleReadBlocksForever(e: Entry, limit: int, window: int, read: int, late: int,
                                                   nows: seq<int>, now: int)
    requires Get(e, read).Some? && !Refused(Get(e, read), limit) && Get(e, late) == None
    ensures var stuck := ServeEntry(Increment(e, Get(e, read), window, late), limit, window, nows);
            && stuck.Some? && stuck.value.expires == None
            && stuck.value.count == (if |nows| + 1 < limit then |nows| + 1 else limit)
            && (!Allowed(stuck, limit, now) <==> |nows| + 1 >= limit)
  {
    if nows != [] {
      StaleReadBlocksForever(e, limit, window, read, late, nows[..|nows| - 1], now);
    }
  }

  // ---------------------------------------------------------------- checks that overlap

  // The counter of a sender, the time, and what each check read that has not come to its increment yet.
  datatype Flight = Flight(entry: Entry, now: int, flying: map<nat, Option<nat>>)

  datatype Half = Read(check: nat, now: int) | Write(check: nat, now: int)

  // One half of a check, with at most k checks between their halves; a half that cannot come now changes nothing.
  function Fly(f: Flight, k: nat, limit: int, window: int, h: Half): Flight {
    if h.now < f.now then f else
    match h
    case Read(c, now) =>
      var read := Get(f.entry, now);
      if c in f.flying || |f.flying| >= k then f
      else if Refused(read, limit) then f.(now := now)
      else f.(now := now, flying := f.flying[c := read])
    case Write(c, now) =>
      if c !in f.flying then f else Flight(Increment(f.entry, f.flying[c], window, now), now, f.flying - {c})
  }

  function FlyAll(f: Flight, k: nat, limit: int, window: int, hs: seq<Half>): Flight
    decreases |hs|
  {
    if hs == [] then f else FlyAll(Fly(f, k, limit, window, hs[0]), k, limit, window, hs[1..])
  }

  // How many emails the counter that is there now has let through.
  function Count(f: Flight): nat {
    var read := Get(f.entry, f.now);
    if read.Some? then read.value else 0
  }

  predicate Bounded(f: Flight, k: nat, limit: int) {
    |f.flying| <= k && Count(f) + |f.flying| <= Limit(limit) + k - 1
  }

  lemma FlyKeepsBounded(f: Flight, k: nat, limit: int, window: int, h: Half)
    requires Bounded(f, k, limit)
    ensures Bounded(Fly(f, k, limit, window, h), k, limit)
  {
    var f' := Fly(f, k, limit, window, h);
    if f'.flying != f.flying {
      if h.Read? {
        assert f'.flying.Keys == f.flying.Keys + {h.check};
      } else {
        assert f.flying.Keys == f'.flying.Keys + {h.check};
      }
    }
  }

  // The two halves of a check that nobody gets between are the check as one instant.
  lemma HalvesMakeACheck(f: Flight, k: nat, limit: int, window: int, check: nat, now: int)
    requires check !in f.flying && |f.flying| < k && f.now <= now
    ensures var read := Fly(f, k, limit, window, Read(check, now));
            var written := Fly(read, k, limit, window, Write(check, now));
            && written.entry == Check(f.entry, limit, window, now) && written.flying == f.flying
            && (check in read.flying <==> Allowed(f.entry, limit, now))
  {
    var read := Fly(f, k, limit, window, Read(check, now));
    assert check in read.flying ==> read.flying - {check} == f.flying;
  }

  lemma {:induction false} FlightsStayBounded(f: Flight, k: nat, limit: int, window: int, hs: seq<Half>)
    requires Bounded(f, k, limit)
    ensures Bounded(FlyAll(f, k, limit, window, hs), k, limit)
    decreases |hs|
  {
    if hs != [] {
      FlyKeepsBounded(f, k, limit, window, hs[0]);
      FlightsStayBounded(Fly(f, k, limit, window, hs[0]), k, limit, window, hs[1..]);
    }
  }

  // With at most k checks between their read and their increment, a fixed window lets through at most k - 1
  // emails more than the limit, whatever their order, expiry included. With k = 1 that is the limit itself.
  lemma OverlapBound(now: int, k: nat, limit: int, window: int, hs: seq<Half>)
    ensures Count(FlyAll(Flight(None, now, map[]), k, limit, window, hs)) <= Limit(limit) + k - 1
  {
    FlightsStayBounded(Flight(None, now, map[]), k, limit, window, hs);
  }

  // n checks one after the other, and n that all read before any of them increments.
  function InTurn(n: nat): seq<Half> {
    if n == 0 then [] else [Read(0, 0), Write(0, 0)] + InTurn(n - 1)
  }

  function Reads(n: nat): seq<Half> {
    if n == 0 then [] else [Read(n, 0)] + Reads(n - 1)
  }

  function Writes(n: nat): seq<Half> {
    if n == 0 then [] else [Write(n, 0)] + Writes(n - 1)
  }

  lemma {:induction false} FlySplit(f: Flight, k: nat, limit: int, window: int, a: seq<Half>, b: seq<Half>)
    ensures FlyAll(f, k, limit, window, a + b) == FlyAll(FlyAll(f, k, limit, window, a), k, limit, window, b)
    decreases |a|
  {
    if a == [] {
      assert a + b == b;
    } else {
      assert (a + b)[1..] == a[1..] + b;
      FlySplit(Fly(f, k, limit, window, a[0]), k, limit, window, a[1..], b);
    }
  }

  predicate Idle(f: Flight) {
    f.now == 0 && f.flying == map[]
  }

  lemma {:induction false} InTurnCount(f: Flight, k: nat, limit: int, window: int, n: nat)
    requires Idle(f) && window > 0 && k > 0 && Count(f) + n <= limit
    ensures var f' := FlyAll(f, k, limit, window, InTurn(n)); Idle(f') && Count(f') == Count(f) + n
    decreases n
  {
    if n > 0 {
      OneInTurn(f, k, limit, window);
      InTurnCount(Fly(Fly(f, k, limit, window, Read(0, 0)), k, limit, window, Write(0, 0)), k, limit, window, n - 1);
      TwoHalves(f, k, limit, window, Read(0, 0), Write(0, 0), InTurn(n - 1));
    }
  }

  lemma OneInTurn(f: Flight, k: nat, limit: int, window: int)
    requires Idle(f) && window > 0 && k > 0 && Count(f) < limit
    ensures var f' := Fly(Fly(f, k, limit, window, Read(0, 0)), k, limit, window, Write(0, 0));
            Idle(f') && Count(f') == Count(f) + 1
  {
    var f1 := Fly(f, k, limit, window, Read(0, 0));
    assert f1.flying - {0} == map[];
  }

  lemma TwoHalves(f: Flight, k: nat, limit: int, window: int, a: Half, b: Half, rest: seq<Half>)
    ensures FlyAll(f, k, limit, window, [a, b] + rest)
            == FlyAll(Fly(Fly(f, k, limit, window, a), k, limit, window, b), k, limit, window, rest)
  {
    var hs := [a, b] + rest;
    assert hs[1..] == [b] + rest && hs[1..][1..] == rest;
  }

  lemma {:induction false} ReadsFly(f: Flight, k: nat, limit: int, window: int, n: nat)
    requires f.now == 0 && Count(f) < limit && |f.flying| + n <= k
    requires forall c :: 1 <= c <= n ==> c !in f.flying
    ensures var f' := FlyAll(f, k, limit, window, Reads(n));
            && f'.now == 0 && f'.entry == f.entry
            && forall c :: c in f.flying || 1 <= c <= n ==> c in f'.flying
    decreases n
  {
    if n > 0 {
      var f1 := Fly(f, k, limit, window, Read(n, 0));
      assert f1.flying.Keys == f.flying.Keys + {n};
      ReadsFly(f1, k, limit, window, n - 1);
      assert Reads(n)[1..] == Reads(n - 1);
    }
  }

  lemma {:induction false} WritesCount(f: Flight, k: nat, limit: int, window: int, n: nat)
    requires f.now == 0 && window > 0 && forall c :: 1 <= c <= n ==> c in f.flying
    ensures Count(FlyAll(f, k, limit, window, Writes(n))) == Count(f) + n
    decreases n
  {
    if n > 0 {
      WritesCount(Fly(f, k, limit, window, Write(n, 0)), k, limit, window, n - 1);
      assert Writes(n)[1..] == Writes(n - 1);
    }
  }

  // That many do get through, for every limit and every number of checks that overlap.
  lemma OverlapBoundIsReached(k: nat, limit: int, window: int)
    requires k >= 1 && limit >= 1 && window > 0
    ensures Count(FlyAll(Flight(None, 0, map[]), k, limit, window, InTurn(limit - 1) + (Reads(k) + Writes(k))))
            == limit + k - 1
  {
    var f := Flight(None, 0, map[]);
    var f1 := FlyAll(f, k, limit, window, InTurn(limit - 1));
    InTurnCount(f, k, limit, window, limit - 1);
    ReadsFly(f1, k, limit, window, k);
    WritesCount(FlyAll(f1, k, limit, window, Reads(k)), k, limit, window, k);
    FlySplit(f1, k, limit, window, Reads(k), Writes(k));
    FlySplit(f, k, limit, window, InTurn(limit - 1), Reads(k) + Writes(k));
  }
}
