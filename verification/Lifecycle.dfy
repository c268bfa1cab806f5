/**
 The connector_configs table as committed transactions change it (app/connector_config/lifecycle.py),
 with the unique indexes of app/connector_config/table.py.
 */
module Lifecycle {
  import opened Common
  import opened Template
  import ResponseMapping

  datatype Status = Draft | PendingApproval | Live | Disabled | PendingDeletion

  // The allowlist looks at the part of a URL before its query.
  datatype Url = Url(place: string, query: string)

  datatype Content = Content(url: Url, request: Option<string>, headers: Option<string>, mapping: Option<string>,
                             base64Query: bool, base64Param: string)

  datatype Row = Row(client: string, trigger: string, content: Content, status: Status)

  type Table = map<int, Row>

  // The constants of a deployment: the regular expression engine's \w and the cap of every client.
  datatype Config = Config(pattern: Pattern, cap: nat)

  datatype Outcome =
    | Done | NotFound | CapExceeded | CreationRace | SwapRace | BadValue
    | TemplateRefused | MappingRefused | UrlRefused | DatabaseError

  // How a statement that meets another transaction ends, besides going through.
  datatype Fault = NoFault | LockConflict | OtherFault

  // ---------------------------------------------------------------- indexes, counts, statements

  predicate SameSlot(a: Row, b: Row) {
    && a.client == b.client && a.trigger == b.trigger && a.status == b.status
    && (a.status == Live || a.status == PendingApproval)
  }

  // uq_client_live_trigger and uq_client_pending_trigger
  ghost predicate Unique(t: Table) {
    forall i, j :: i in t && j in t && i != j ==> !SameSlot(t[i], t[j])
  }

  predicate Clashes(t: Table, id: int, r: Row) {
    exists j :: j in t && j != id && SameSlot(t[j], r)
  }

  function Ids(t: Table, client: string, status: Status): set<int> {
    set i | i in t && t[i].client == client && t[i].status == status
  }

  function Count(t: Table, client: string, status: Status): nat {
    |Ids(t, client, status)|
  }

  predicate IsLiveFor(t: Table, i: int, client: string, trigger: string) {
    i in t && t[i].client == client && t[i].trigger == trigger && t[i].status == Live
  }

  // None stands for the two client ids that disable the ownership filter.
  predicate Selects(t: Table, id: int, client: Option<string>, from: set<Status>) {
    id in t && (client.Some? ==> t[id].client == client.value) && t[id].status in from
  }

  function SetStatus(t: Table, id: int, status: Status): Table
    requires id in t
  {
    t[id := t[id].(status := status)]
  }

  // ---------------------------------------------------------------- transactions

  function Raises(f: Fault, conflict: Outcome): Outcome {
    if f == LockConflict then conflict else DatabaseError
  }

  // insert_connector_config_checked. A conflict of the counting SELECT, unlike one of the INSERT, comes out as
  // the database raised it.
  function InsertChecked(t: Table, next: int, r: Row, cap: nat, counting: Fault, fault: Fault): (Table, Outcome) {
    if r.status != Draft && r.status != PendingApproval && r.status != Live then (t, BadValue)
    else if r.status != Draft && counting != NoFault then (t, DatabaseError)
    else if r.status != Draft && Count(t, r.client, r.status) >= cap then (t, CapExceeded)
    else if r.content.base64Query && r.content.base64Param == "" then (t, BadValue)
    else if fault != NoFault then (t, if r.status == Draft then DatabaseError else Raises(fault, CreationRace))
    else if Clashes(t, next, r) then (t, CreationRace)
    else (t[next := r], Done)
  }

  // The transaction of activate_first_live.
  function ActivateFirst(t: Table, client: string, id: int, cap: nat, counting: Fault, fault: Fault): (Table, Outcome) {
    if counting != NoFault then (t, DatabaseError)
    else if Count(t, client, Live) >= cap then (t, CapExceeded)
    else if fault != NoFault then (t, Raises(fault, SwapRace))
    else if !Selects(t, id, Some(client), {PendingApproval}) then (t, SwapRace)
    else if Clashes(t, id, t[id].(status := Live)) then (t, SwapRace)
    else (SetStatus(t, id, Live), Done)
  }

  // The transaction of swap_to_live: the live row is taken offline and id put in its place, or nothing happens.
  function Swap(t: Table, client: string, id: int, liveId: Option<int>, fault1: Fault, fault2: Fault): (Table, Outcome)
  {
    if liveId.Some? && fault1 != NoFault then (t, Raises(fault1, SwapRace))
    else if liveId.Some? && !Selects(t, liveId.value, Some(client), {Live}) then (t, SwapRace)
    else
      var t1 := if liveId.Some? then SetStatus(t, liveId.value, Disabled) else t;
      if fault2 != NoFault then (t, Raises(fault2, SwapRace))
      else if !Selects(t1, id, Some(client), {PendingApproval}) then (t, SwapRace)
      else if Clashes(t1, id, t1[id].(status := Live)) then (t, SwapRace)
      else (SetStatus(t1, id, Live), Done)
  }

  // The one-statement transitions: reject, disable, request, refuse or cancel a deletion.
  function Move(t: Table, id: int, client: Option<string>, from: set<Status>, to: Status): Table {
    if Selects(t, id, client, from) then SetStatus(t, id, to) else t
  }

  // The one-statement deletions.
  function Delete(t: Table, id: int, client: Option<string>, from: set<Status>): Table {
    if Selects(t, id, client, from) then t - {id} else t
  }

  // ---------------------------------------------------------------- validation

  // What swap_to_live and activate_first_live check before their transaction, the allowlist apart.
  predicate ContentOk(c: Config, trigger: string, content: Content) {
    && c.pattern.KeysKnown(content.request)
    && c.pattern.KeysKnown(content.headers)
    && ResponseMapping.Accepts(trigger, content.mapping)
  }

  // The outcome of the reads and checks in front of either transaction.
  function Checks(c: Config, allow: set<string>, t: Table, client: string, trigger: string, id: int): Outcome {
    if id !in t || t[id].client != client then SwapRace
    else if !c.pattern.KeysKnown(t[id].content.request) || !c.pattern.KeysKnown(t[id].content.headers)
    then TemplateRefused
    else if !ResponseMapping.Accepts(trigger, t[id].content.mapping) then MappingRefused
    else if t[id].content.url.place !in allow then UrlRefused
    else Done
  }

  predicate Servable(c: Config, allow: set<string>, r: Row) {
    ContentOk(c, r.trigger, r.content) && r.content.url.place in allow
  }

  // ---------------------------------------------------------------- what the transactions keep

  lemma UniqueAfterUpdate(t: Table, id: int, r: Row)
    requires Unique(t) && !Clashes(t, id, r)
    ensures Unique(t[id := r])
  {}

  lemma UniqueWhenSlotFree(t: Table, id: int, r: Row)
    requires Unique(t) && r.status != Live && r.status != PendingApproval
    ensures Unique(t[id := r])
  {}

  lemma CountAfterUpdate(t: Table, id: int, r: Row, client: string, status: Status)
    ensures Count(t[id := r], client, status) <= Count(t, client, status) + 1
    ensures r.status != status || r.client != client ==> Count(t[id := r], client, status) <= Count(t, client, status)
  {
    var a, b := Ids(t, client, status), Ids(t[id := r], client, status);
    assert b <= a + {id};
    SubsetSize(b, a + {id});
    if r.status != status || r.client != client {
      assert b <= a;
      SubsetSize(b, a);
    }
  }

  lemma {:induction false} SubsetSize<T>(a: set<T>, b: set<T>)
    requires a <= b
    ensures |a| <= |b|
  {
    if a != {} {
      var x :| x in a;
      SubsetSize(a - {x}, b - {x});
    }
  }

  // ---------------------------------------------------------------- when the transactions go through

  // An insert goes through exactly for one of the three statuses, with a column for its encoded query if it has one,
  // without a fault, and, unless it is a draft, below the cap and in a free slot. The row stored is the row given.
  lemma InsertExactly(t: Table, next: int, r: Row, cap: nat, counting: Fault, fault: Fault)
    ensures var (t', o) := InsertChecked(t, next, r, cap, counting, fault);
            var counted := r.status == PendingApproval || r.status == Live;
            && (o == Done <==>
                  && (r.status == Draft || counted) && !(r.content.base64Query && r.content.base64Param == "")
                  && fault == NoFault
                  && (counted ==>
                        && counting == NoFault
                        && |set i | i in t && t[i].client == r.client && t[i].status == r.status| < cap
                        && forall i :: i in t && i != next && t[i].client == r.client && t[i].trigger == r.trigger ==>
                             t[i].status != r.status))
            && t' == if o == Done then t[next := r] else t
  {
    assert Ids(t, r.client, r.status) == set i | i in t && t[i].client == r.client && t[i].status == r.status;
  }

  // Why an insert that could go through otherwise is refused.
  lemma InsertRefusals(t: Table, next: int, r: Row, cap: nat, counting: Fault, fault: Fault)
    requires r.status == PendingApproval || r.status == Live
    ensures var o := InsertChecked(t, next, r, cap, counting, fault).1;
            && (o == CapExceeded <==> counting == NoFault && Count(t, r.client, r.status) >= cap)
            && (o == CreationRace ==> fault == LockConflict || (fault == NoFault && Clashes(t, next, r)))
            && (o == DatabaseError <==>
                  || counting != NoFault
                  || (&& Count(t, r.client, r.status) < cap && fault == OtherFault
                      && !(r.content.base64Query && r.content.base64Param == "")))
  {}

  // With the live row of its trigger to take offline, a pending row goes live unless a statement is disturbed.
  lemma SwapOutcome(t: Table, client: string, trigger: string, id: int, liveId: int, fault1: Fault, fault2: Fault)
    requires Unique(t) && IsLiveFor(t, liveId, client, trigger)
    ensures var o := Swap(t, client, id, Some(liveId), fault1, fault2).1;
            if fault1 != NoFault then o == (if fault1 == LockConflict then SwapRace else DatabaseError)
            else if fault2 != NoFault then o == (if fault2 == LockConflict then SwapRace else DatabaseError)
            else if id !in t || t[id].client != client || t[id].status != PendingApproval then o == SwapRace
            else (o == Done || o == SwapRace) && (t[id].trigger == trigger ==> o == Done)
  {
    if id in t && t[id].trigger == trigger && t[id].client == client && t[id].status == PendingApproval {
      var t1 := SetStatus(t, liveId, Disabled);
      forall j | j in t1 && j != id ensures !SameSlot(t1[j], t1[id].(status := Live)) {
        assert j != liveId ==> !SameSlot(t[j], t[liveId]);
      }
    }
  }

  // Where nothing is live for its trigger, a pending row goes live below the cap unless a statement is disturbed.
  lemma ActivateOutcome(t: Table, client: string, trigger: string, id: int, cap: nat, counting: Fault, fault: Fault)
    requires forall i :: !IsLiveFor(t, i, client, trigger)
    ensures var o := ActivateFirst(t, client, id, cap, counting, fault).1;
            if counting != NoFault then o == DatabaseError
            else if Count(t, client, Live) >= cap then o == CapExceeded
            else if fault != NoFault then o == (if fault == LockConflict then SwapRace else DatabaseError)
            else if id !in t || t[id].client != client || t[id].status != PendingApproval then o == SwapRace
            else (o == Done || o == SwapRace) && (t[id].trigger == trigger ==> o == Done)
  {
    if id in t && t[id].trigger == trigger && t[id].client == client {
      forall j | j in t && j != id ensures !SameSlot(t[j], t[id].(status := Live)) {
        assert !IsLiveFor(t, j, client, trigger);
      }
    }
  }

  // ---------------------------------------------------------------- the caps

  predicate CappedFor(t: Table, client: string, cap: nat) {
    Count(t, client, Live) <= cap && Count(t, client, PendingApproval) <= cap
  }

  ghost predicate Capped(t: Table, cap: nat) {
    forall client: string :: CappedFor(t, client, cap)
  }

  // A swap that commits exchanges exactly one live row for another, so it needs no cap check.
  lemma SwapExchanges(t: Table, client: string, id: int, liveId: int, fault1: Fault, fault2: Fault)
    requires Swap(t, client, id, Some(liveId), fault1, fault2).1 == Done
    ensures var t' := Swap(t, client, id, Some(liveId), fault1, fault2).0;
            && id != liveId && id in t && liveId in t
            && t[liveId].client == client && t[liveId].status == Live
            && t[id].client == client && t[id].status == PendingApproval
            && t' == t[liveId := t[liveId].(status := Disabled)][id := t[id].(status := Live)]
            && Ids(t', client, Live) == Ids(t, client, Live) - {liveId} + {id}
            && Count(t', client, Live) == Count(t, client, Live)
  {}

  // A swap that has a row to take offline keeps the caps. One that has none, which the function accepts but an
  // approval never asks for, keeps them exactly when the client is below its cap or nothing is committed.
  lemma SwapCaps(t: Table, cap: nat, client: string, id: int, liveId: Option<int>, fault1: Fault, fault2: Fault)
    requires Capped(t, cap)
    ensures var (t', o) := Swap(t, client, id, liveId, fault1, fault2);
            Capped(t', cap) <==> liveId.Some? || o != Done || Count(t, client, Live) < cap
  {
    if Swap(t, client, id, liveId, fault1, fault2).1 == Done {
      if liveId.Some? {
        SwapSomeCaps(t, cap, client, id, liveId.value, fault1, fault2);
      } else {
        GoLiveCaps(t, cap, client, id);
      }
    }
  }

  lemma SwapSomeCaps(t: Table, cap: nat, client: string, id: int, liveId: int, fault1: Fault, fault2: Fault)
    requires Capped(t, cap) && Swap(t, client, id, Some(liveId), fault1, fault2).1 == Done
    ensures Capped(Swap(t, client, id, Some(liveId), fault1, fault2).0, cap)
  {
    SwapExchanges(t, client, id, liveId, fault1, fault2);
    var t' := Swap(t, client, id, Some(liveId), fault1, fault2).0;
    forall c: string ensures CappedFor(t', c, cap) {
      assert CappedFor(t, c, cap);
      SubsetSize(Ids(t', c, PendingApproval), Ids(t, c, PendingApproval));
      if c != client { SubsetSize(Ids(t', c, Live), Ids(t, c, Live)); }
    }
  }

  // A pending row that goes live with no other row going offline takes one more live slot.
  lemma GoLiveCaps(t: Table, cap: nat, client: string, id: int)
    requires Capped(t, cap) && Selects(t, id, Some(client), {PendingApproval})
    ensures Capped(SetStatus(t, id, Live), cap) <==> Count(t, client, Live) < cap
  {
    var t' := SetStatus(t, id, Live);
    assert Ids(t', client, Live) == Ids(t, client, Live) + {id};
    if Count(t, client, Live) < cap {
      forall c: string ensures CappedFor(t', c, cap) {
        assert CappedFor(t, c, cap);
        CountAfterUpdate(t, id, t'[id], c, Live);
        CountAfterUpdate(t, id, t'[id], c, PendingApproval);
      }
    } else {
      assert !CappedFor(t', client, cap);
    }
  }

  lemma SwapKeepsUnique(t: Table, client: string, id: int, liveId: int, fault1: Fault, fault2: Fault)
    requires Unique(t)
    ensures Unique(Swap(t, client, id, Some(liveId), fault1, fault2).0)
  {
    if Swap(t, client, id, Some(liveId), fault1, fault2).1 == Done {
      var t1 := SetStatus(t, liveId, Disabled);
      UniqueWhenSlotFree(t, liveId, t1[liveId]);
      UniqueAfterUpdate(t1, id, t1[id].(status := Live));
    }
  }

  lemma ActivateKeepsUnique(t: Table, client: string, id: int, cap: nat, counting: Fault, fault: Fault)
    requires Unique(t)
    ensures Unique(ActivateFirst(t, client, id, cap, counting, fault).0)
  {
    if ActivateFirst(t, client, id, cap, counting, fault).1 == Done {
      UniqueAfterUpdate(t, id, t[id].(status := Live));
    }
  }

  lemma ActivateCaps(t: Table, cap: nat, client: string, id: int, counting: Fault, fault: Fault)
    requires Capped(t, cap)
    ensures Capped(ActivateFirst(t, client, id, cap, counting, fault).0, cap)
  {
    var (t', o) := ActivateFirst(t, client, id, cap, counting, fault);
    if o == Done {
      forall c: string ensures CappedFor(t', c, cap) {
        assert CappedFor(t, c, cap);
        CountAfterUpdate(t, id, t'[id], c, Live);
        CountAfterUpdate(t, id, t'[id], c, PendingApproval);
      }
    }
  }

  lemma InsertCaps(t: Table, next: int, r: Row, cap: nat, counting: Fault, fault: Fault)
    requires Capped(t, cap)
    ensures Capped(InsertChecked(t, next, r, cap, counting, fault).0, cap)
  {
    var (t', o) := InsertChecked(t, next, r, cap, counting, fault);
    if o == Done {
      forall c: string ensures CappedFor(t', c, cap) {
        assert CappedFor(t, c, cap);
        CountAfterUpdate(t, next, r, c, Live);
        CountAfterUpdate(t, next, r, c, PendingApproval);
      }
    }
  }

  lemma MoveCaps(t: Table, cap: nat, id: int, client: Option<string>, from: set<Status>, to: Status)
    requires Capped(t, cap) && to != Live && to != PendingApproval
    ensures Capped(Move(t, id, client, from, to), cap)
  {
    if Selects(t, id, client, from) {
      forall c: string ensures CappedFor(Move(t, id, client, from, to), c, cap) {
        assert CappedFor(t, c, cap);
        CountAfterUpdate(t, id, t[id].(status := to), c, Live);
        CountAfterUpdate(t, id, t[id].(status := to), c, PendingApproval);
      }
    }
  }

  lemma DeleteCaps(t: Table, cap: nat, id: int, client: Option<string>, from: set<Status>)
    requires Capped(t, cap)
    ensures Capped(Delete(t, id, client, from), cap)
  {
    var t' := Delete(t, id, client, from);
    forall c: string ensures CappedFor(t', c, cap) {
      assert CappedFor(t, c, cap);
      SubsetSize(Ids(t', c, Live), Ids(t, c, Live));
      SubsetSize(Ids(t', c, PendingApproval), Ids(t, c, PendingApproval));
    }
  }
}
