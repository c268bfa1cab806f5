/** The action outbox: a row per external action, keyed so that a retry finds the earlier attempt (action_outbox.py). */
module Outbox {
  import opened Common

  // ---------------------------------------------------------------- the key

  // str.lower is not spelled out. SHA-256 is treated as injective, so the key is the text that is hashed.
  datatype Host = Host(lower: PyStr -> PyStr)

  type Key = PyStr

  const COLON: CodePoint := ':' as int

  function Trim(s: PyStr): PyStr {
    Strip(s, IsSpace)
  }

  function Folded(h: Host, s: PyStr): PyStr {
    h.lower(Trim(s))
  }

  function KeyText(client: PyStr, message: PyStr, action: PyStr): Key {
    client + [COLON] + message + [COLON] + action
  }

  function ComputeKey(h: Host, client: PyStr, message: PyStr, action: PyStr): Key {
    KeyText(Folded(h, client), Trim(message), Folded(h, action))
  }

  // A text before its first colon, and after its last one, can be read back.
  lemma CutAtColon(a: PyStr, x: PyStr, b: PyStr, y: PyStr)
    requires COLON !in a && COLON !in b && a + [COLON] + x == b + [COLON] + y
    ensures a == b && x == y
  {
    var t := a + [COLON] + x;
    assert t[|a|] == COLON && t[|b|] == COLON;
    if |a| < |b| { assert false; }
    if |b| < |a| { assert false; }
    assert a == t[..|a|] == b && x == t[|a| + 1..] == y;
  }

  lemma CutAtLastColon(x: PyStr, a: PyStr, y: PyStr, b: PyStr)
    requires COLON !in a && COLON !in b && x + [COLON] + a == y + [COLON] + b
    ensures a == b && x == y
  {
    var t := x + [COLON] + a;
    assert t[|x|] == COLON && t[|y|] == COLON;
    if |x| < |y| { assert false; }
    if |y| < |x| { assert false; }
    assert x == t[..|x|] == y && a == t[|x| + 1..] == b;
  }

  // Where no client name and no action type holds a colon, two calls share a key exactly when they agree on
  // the folded client, the trimmed message id and the folded action.
  lemma KeysAgree(h: Host, c1: PyStr, m1: PyStr, a1: PyStr, c2: PyStr, m2: PyStr, a2: PyStr)
    requires COLON !in Folded(h, c1) && COLON !in Folded(h, a1)
    requires COLON !in Folded(h, c2) && COLON !in Folded(h, a2)
    ensures ComputeKey(h, c1, m1, a1) == ComputeKey(h, c2, m2, a2)
       <==> Folded(h, c1) == Folded(h, c2) && Trim(m1) == Trim(m2) && Folded(h, a1) == Folded(h, a2)
  {
    var f1, f2 := Folded(h, c1), Folded(h, c2);
    if ComputeKey(h, c1, m1, a1) == ComputeKey(h, c2, m2, a2) {
      CutAtLastColon(f1 + [COLON] + Trim(m1), Folded(h, a1), f2 + [COLON] + Trim(m2), Folded(h, a2));
      CutAtColon(f1, Trim(m1), f2, Trim(m2));
    }
  }

  // So blanks around any of the three do not count, nor does the case of client and action, and all else does.
  lemma BlanksAndCaseDoNotCount(h: Host, c1: PyStr, m1: PyStr, a1: PyStr, c2: PyStr, m2: PyStr, a2: PyStr)
    requires COLON !in h.lower(Strip(c1, IsSpace)) && COLON !in h.lower(Strip(a1, IsSpace))
    requires COLON !in h.lower(Strip(c2, IsSpace)) && COLON !in h.lower(Strip(a2, IsSpace))
    ensures ComputeKey(h, c1, m1, a1) == ComputeKey(h, c2, m2, a2)
       <==> && h.lower(Strip(c1, IsSpace)) == h.lower(Strip(c2, IsSpace))
            && Strip(m1, IsSpace) == Strip(m2, IsSpace)
            && h.lower(Strip(a1, IsSpace)) == h.lower(Strip(a2, IsSpace))
  {
    KeysAgree(h, c1, m1, a1, c2, m2, a2);
  }

  // With a colon in the client name the key no longer tells client and message apart: whatever follows the
  // colon may belong to either.
  lemma ColonInClientCollides(h: Host, c: PyStr, d: PyStr, m: PyStr, action: PyStr)
    requires Folded(h, c + [COLON] + d) == c + [COLON] + d && Folded(h, c) == c
    requires Trim(m) == m && Trim(d + [COLON] + m) == d + [COLON] + m
    ensures ComputeKey(h, c + [COLON] + d, m, action) == ComputeKey(h, c, d + [COLON] + m, action)
  {
    assert (c + [COLON] + d) + [COLON] + m == c + [COLON] + (d + [COLON] + m);
  }

  // Keys of two action types that differ in their last character differ, whatever the clients and the messages.
  lemma LastCharacterSeparates(h: Host, c1: PyStr, m1: PyStr, a1: PyStr, c2: PyStr, m2: PyStr, a2: PyStr)
    requires Folded(h, a1) != [] && Folded(h, a2) != []
    requires Folded(h, a1)[|Folded(h, a1)| - 1] != Folded(h, a2)[|Folded(h, a2)| - 1]
    ensures ComputeKey(h, c1, m1, a1) != ComputeKey(h, c2, m2, a2)
  {
    var k1, k2 := ComputeKey(h, c1, m1, a1), ComputeKey(h, c2, m2, a2);
    assert k1[|k1| - 1] == Folded(h, a1)[|Folded(h, a1)| - 1];
    assert k2[|k2| - 1] == Folded(h, a2)[|Folded(h, a2)| - 1];
  }

  // ---------------------------------------------------------------- one attempt

  datatype Status = Pending | Completed | Failed

  type Ref = Option<PyStr>

  datatype Row = Row(status: Status, ref: Ref)

  type Log = map<Key, Row>

  // What an action hands back, as far as the reference is concerned.
  datatype Value = Plain(truth: bool) | Dict(ticketId: Ref, refrenceNo: Ref, messageId: Ref)

  // extracted is what extract_ref_fn gave, None also when there is none or it raised.
  function ExternalRef(extracted: Ref, v: Value): Ref {
    if Or(extracted, None) == None && v.Dict? then Or(v.ticketId, Or(v.refrenceNo, v.messageId)) else extracted
  }

  // The reference that is kept: the one that was extracted, if it says anything, and else the first of the three in
  // the result of the action that does.
  lemma FirstReferenceCounts(extracted: Ref, ticketId: Ref, refrenceNo: Ref, messageId: Ref)
    ensures var r := ExternalRef(extracted, Dict(ticketId, refrenceNo, messageId));
            && (Truthy(extracted) ==> r == extracted)
            && (!Truthy(extracted) && Truthy(ticketId) ==> r == ticketId)
            && (!Truthy(extracted) && !Truthy(ticketId) && Truthy(refrenceNo) ==> r == refrenceNo)
            && (!Truthy(extracted) && !Truthy(ticketId) && !Truthy(refrenceNo) ==> r == messageId)
    ensures forall truth :: ExternalRef(extracted, Plain(truth)) == extracted
  {}

  // How the surroundings answer one attempt: each transaction commits, fails and rolls back, or the process
  // dies before it; the action returns, raises, or the process dies in it.
  datatype Write = Commits | Fails | Dies
  datatype Action = Returns(extracted: Ref, value: Value) | Raises | Stops
  datatype World = World(begin: Write, action: Action, complete: Write, fail: Write)

  // What the caller sees. Threw is an exception out of the first transaction; Died is no answer at all.
  datatype Answer =
    | AlreadyCompleted(ref: Ref)
    | Executed(ref: Ref, value: Value)
    | Error
    | Threw
    | Died

  predicate IsCompleted(log: Log, key: Key) {
    key in log && log[key].status == Completed
  }

  // The first transaction, on a row that is not completed: pending and failed rows are taken as they are.
  function Begun(log: Log, key: Key): Log {
    if key in log then log else log[key := Row(Pending, None)]
  }

  // UPDATE ... WHERE idempotency_key = key, which looks at no status.
  function SetCompleted(log: Log, key: Key, ref: Ref): Log {
    if key in log then log[key := Row(Completed, ref)] else log
  }

  function SetFailed(log: Log, key: Key): Log {
    if key in log then log[key := log[key].(status := Failed)] else log
  }

  function AfterFailure(log: Log, key: Key, fail: Write): Log {
    if fail == Commits then SetFailed(log, key) else log
  }

  function AfterAttempt(log: Log, key: Key, w: World): Log {
    if w.begin != Commits || IsCompleted(log, key) then log
    else if w.action.Stops? || (w.action.Returns? && w.complete == Dies) then Begun(log, key)
    else if w.action.Returns? && w.complete == Commits then
      SetCompleted(Begun(log, key), key, ExternalRef(w.action.extracted, w.action.value))
    else AfterFailure(Begun(log, key), key, w.fail)
  }

  // The action ran to its normal end.
  predicate Ran(log: Log, key: Key, w: World) {
    w.begin == Commits && !IsCompleted(log, key) && w.action.Returns?
  }

  function AnswerOf(log: Log, key: Key, w: World): Answer {
    if w.begin == Dies then Died
    else if w.begin == Fails then Threw
    else if IsCompleted(log, key) then AlreadyCompleted(log[key].ref)
    else if w.action.Stops? || (w.action.Returns? && w.complete == Dies) then Died
    else if w.action.Returns? && w.complete == Commits then
      Executed(ExternalRef(w.action.extracted, w.action.value), w.action.value)
    else if w.fail == Dies then Died
    else Error
  }

  // Exactly the rows of these keys that are still pending fail; nothing else changes.
  function Swept(log: Log, keys: set<Key>): Log {
    map key | key in log :: if key in keys && log[key].status == Pending then log[key].(status := Failed) else log[key]
  }

  // What an attempt on a key that is not completed leaves there, once its first transaction has committed: completed
  // when the action returned and that was written, failed when the except branch was reached and written, and
  // otherwise what was there, or a new pending row. No other row changes.
  lemma AttemptLeaves(log: Log, key: Key, w: World)
    requires w.begin == Commits && !IsCompleted(log, key)
    ensures var log' := AfterAttempt(log, key, w);
            && key in log' && log'.Keys == log.Keys + {key}
            && (forall k :: k in log && k != key ==> log'[k] == log[k])
            && (w.action.Returns? && w.complete == Commits ==> log'[key].status == Completed)
            && (w.fail == Commits && (w.action.Raises? || (w.action.Returns? && w.complete == Fails)) ==>
                  log'[key].status == Failed)
            && (w.action.Stops? || (w.action.Returns? && w.complete == Dies) ==>
                  log'[key] == if key in log then log[key] else Row(Pending, None))
            && (w.fail != Commits && (w.action.Raises? || (w.action.Returns? && w.complete == Fails)) ==>
                  log'[key] == if key in log then log[key] else Row(Pending, None))
  {}

  // Where the first transaction does not commit, or finds the key completed, nothing happens.
  lemma AttemptLeavesAlone(log: Log, key: Key, w: World)
    requires w.begin != Commits || IsCompleted(log, key)
    ensures AfterAttempt(log, key, w) == log && !Ran(log, key, w)
  {}

  // A sweep fails the listed rows that are pending, keeps their references, and changes no other row.
  lemma SweepExactly(log: Log, keys: set<Key>)
    ensures Swept(log, keys).Keys == log.Keys
    ensures forall k :: k in log ==>
              && Swept(log, keys)[k].ref == log[k].ref
              && (k in keys && log[k].status == Pending ==> Swept(log, keys)[k].status == Failed)
              && (k !in keys || log[k].status != Pending ==> Swept(log, keys)[k] == log[k])
  {}

  class Table {
    var log: Log

    constructor (log: Log)
      ensures this.log == log
    {
      this.log := log;
    }

    // execute_idempotent_action, for an attempt that nobody disturbs. A process that dies here leaves what
    // it has committed.
    method Execute(key: Key, w: World) returns (answer: Answer, ran: bool)
      modifies this
      ensures log == AfterAttempt(old(log), key, w)
      ensures answer == AnswerOf(old(log), key, w)
      ensures ran == Ran(old(log), key, w)
    {
      ran := false;
      if w.begin == Dies { return Died, ran; }
      if w.begin == Fails { return Threw, ran; }
      if key in log {
        if log[key].status == Completed { return AlreadyCompleted(log[key].ref), ran; }
      } else {
        log := log[key := Row(Pending, None)];
      }
      match w.action {
        case Stops => return Died, ran;
        case Raises =>
        case Returns(extracted, value) =>
          ran := true;
          var ref := extracted;
          if (ref == None || ref.value == []) && value.Dict? {
            ref := Or(Or(value.ticketId, value.refrenceNo), value.messageId);
          }
          if w.complete == Dies { return Died, ran; }
          if w.complete == Commits {
            log := SetCompleted(log, key, ref);
            return Executed(ref, value), ran;
          }
      }
      if w.fail == Dies { return Died, ran; }
      if w.fail == Commits { log := SetFailed(log, key); }
      return Error, ran;
    }

    // sweep_stale_actions: stale is what the SELECT found, and may be out of date when a row is reached.
    method Sweep(stale: seq<Key>) returns (swept: seq<Key>)
      modifies this
      ensures swept == stale
      ensures log == Swept(old(log), set key | key in stale)
    {
      swept := [];
      for i := 0 to |stale|
        invariant swept == stale[..i]
        invariant log == Swept(old(log), set key | key in stale[..i])
      {
        var key := stale[i];
        assert stale[..i + 1] == stale[..i] + [key];
        if key in log && log[key].status == Pending {
          log := log[key := log[key].(status := Failed)];
        }
        swept := swept + [key];
      }
      assert stale[..|stale|] == stale;
    }
  }
}
