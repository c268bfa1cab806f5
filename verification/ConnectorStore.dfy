/**
 The functions of app/connector_config/lifecycle.py statement by statement: each takes its transaction
 through counts, updates and their row counts, and rolls back or commits.
 */
module ConnectorStore {
  import opened Common
  import opened Lifecycle
  import ResponseMapping

  // How an UPDATE, INSERT or DELETE ends.
  datatype Statement = Affected(rows: nat) | IntegrityError | Interrupted(fault: Fault)

  class Store {
    var rows: Table
    var next: int
    const config: Config
    var allow: set<string>

    constructor (config: Config, allow: set<string>)
      ensures rows == map[] && next == 1 && this.config == config && this.allow == allow
    {
      this.rows, this.next, this.config, this.allow := map[], 1, config, allow;
    }

    predicate Mine(t: Table, client: string, id: int) {
      id in t && t[id].client == client
    }

    predicate KeysOk(content: Content) {
      config.pattern.KeysKnown(content.request) && config.pattern.KeysKnown(content.headers)
    }

    // The row passes every check in front of the transaction.
    predicate Passes(t: Table, client: string, trigger: string, id: int)
      reads this
    {
      Mine(t, client, id) && ContentOk(config, trigger, t[id].content) && t[id].content.url.place in allow
    }

    ghost predicate Served(t: Table, client: string, trigger: string) {
      exists i :: IsLiveFor(t, i, client, trigger)
    }

    // UPDATE ... SET status = to WHERE id = id AND client_id = owner AND status IN from
    method UpdateStatus(id: int, owner: Option<string>, from: set<Status>, to: Status, fault: Fault)
      returns (r: Statement)
      modifies `rows
      ensures fault != NoFault ==> r == Interrupted(fault) && rows == old(rows)
      ensures fault == NoFault && !Selects(old(rows), id, owner, from) ==> r == Affected(0) && rows == old(rows)
      ensures fault == NoFault && Selects(old(rows), id, owner, from) ==>
                if Clashes(old(rows), id, old(rows)[id].(status := to)) then r == IntegrityError && rows == old(rows)
                else r == Affected(1) && rows == SetStatus(old(rows), id, to)
    {
      if fault != NoFault { return Interrupted(fault); }
      if !Selects(rows, id, owner, from) { return Affected(0); }
      if Clashes(rows, id, rows[id].(status := to)) { return IntegrityError; }
      rows := SetStatus(rows, id, to);
      return Affected(1);
    }

    // DELETE ... WHERE id = id AND client_id = owner AND status IN from
    method DeleteRow(id: int, owner: Option<string>, from: set<Status>) returns (deleted: bool)
      modifies `rows
      ensures rows == Delete(old(rows), id, owner, from)
      ensures deleted <==> Selects(old(rows), id, owner, from)
    {
      deleted := Selects(rows, id, owner, from);
      if deleted { rows := rows - {id}; }
    }

    method InsertConnectorConfigChecked(r: Row, cap: nat, counting: Fault, fault: Fault) returns (o: Outcome)
      modifies `rows, `next
      ensures rows == InsertChecked(old(rows), old(next), r, cap, counting, fault).0
      ensures o == InsertChecked(old(rows), old(next), r, cap, counting, fault).1
      ensures next == if o == Done then old(next) + 1 else old(next)
    {
      if r.status != Draft && r.status != PendingApproval && r.status != Live { return BadValue; }
      var saved := rows;
      if r.status == Live || r.status == PendingApproval {
        if counting != NoFault { return DatabaseError; }
        var count := Count(rows, r.client, r.status);
        if count >= cap { rows := saved; return CapExceeded; }
      }
      if r.content.base64Query && r.content.base64Param == "" { rows := saved; return BadValue; }
      if fault != NoFault {
        rows := saved;
        if r.status != Draft && fault == LockConflict { return CreationRace; }
        return DatabaseError;
      }
      if Clashes(rows, next, r) { rows := saved; return CreationRace; }
      rows := rows[next := r];
      next := next + 1;
      return Done;
    }

    // The checks shared by activate_first_live and swap_to_live, on the row as it is now.
    method CheckContent(client: string, trigger: string, id: int) returns (o: Outcome)
      ensures o == Checks(config, allow, rows, client, trigger, id)
    {
      if id !in rows || rows[id].client != client { return SwapRace; }
      var content := rows[id].content;
      if !config.pattern.KeysKnown(content.request) { return TemplateRefused; }
      if !config.pattern.KeysKnown(content.headers) { return TemplateRefused; }
      if !ResponseMapping.Accepts(trigger, content.mapping) { return MappingRefused; }
      if content.url.place !in allow { return UrlRefused; }
      return Done;
    }

    method ActivateFirstLive(client: string, trigger: string, id: int, cap: nat, counting: Fault, fault: Fault)
      returns (o: Outcome)
      modifies `rows
      ensures (rows, o) ==
              var check := Checks(config, allow, old(rows), client, trigger, id);
              if check != Done then (old(rows), check) else ActivateFirst(old(rows), client, id, cap, counting, fault)
    {
      o := CheckContent(client, trigger, id);
      if o != Done { return; }
      var saved := rows;
      if counting != NoFault { return DatabaseError; }
      var count := Count(rows, client, Live);
      if count >= cap { rows := saved; return CapExceeded; }
      var r := UpdateStatus(id, Some(client), {PendingApproval}, Live, fault);
      match r
      case Affected(n) =>
        if n == 0 { rows := saved; return SwapRace; }
        return Done;
      case IntegrityError => rows := saved; return SwapRace;
      case Interrupted(f) => rows := saved; return Raises(f, SwapRace);
    }

    method SwapToLive(client: string, trigger: string, id: int, liveId: Option<int>, fault1: Fault, fault2: Fault)
      returns (o: Outcome)
      modifies `rows
      ensures (rows, o) ==
              var check := Checks(config, allow, old(rows), client, trigger, id);
              if check != Done then (old(rows), check) else Swap(old(rows), client, id, liveId, fault1, fault2)
    {
      o := CheckContent(client, trigger, id);
      if o != Done { return; }
      var saved := rows;
      if liveId.Some? {
        var d := UpdateStatus(liveId.value, Some(client), {Live}, Status.Disabled, fault1);
        match d
        case Affected(n) => if n == 0 { rows := saved; return SwapRace; }
        case IntegrityError => assert false;
        case Interrupted(f) => rows := saved; return Raises(f, SwapRace);
      }
      var r := UpdateStatus(id, Some(client), {PendingApproval}, Live, fault2);
      match r
      case Affected(n) =>
        if n == 0 { rows := saved; return SwapRace; }
        return Done;
      case IntegrityError => rows := saved; return SwapRace;
      case Interrupted(f) => rows := saved; return Raises(f, SwapRace);
    }

    // Approving without another transaction in between: either nothing changes, or a pending row that
    // passed every check goes live, and the row that served its trigger, if any, goes offline with it. A row of the
    // trigger is approved exactly when it is pending, passes every check, has a row to replace or a place under the
    // cap, and no statement is disturbed; every refusal has its own outcome.
    method ApproveConnectorConfig(client: string, trigger: string, id: int, cap: nat, fault1: Fault, fault2: Fault)
      returns (o: Outcome)
      requires Unique(rows)
      modifies `rows
      ensures Unique(rows)
      ensures o != Done ==> rows == old(rows)
      ensures o == Done ==>
                && Selects(old(rows), id, Some(client), {PendingApproval})
                && ContentOk(config, trigger, old(rows)[id].content) && old(rows)[id].content.url.place in allow
      ensures o == Done ==>
                if liveId :| IsLiveFor(old(rows), liveId, client, trigger)
                then rows == old(rows)[liveId := old(rows)[liveId].(status := Status.Disabled)]
                                      [id := old(rows)[id].(status := Live)]
                else rows == SetStatus(old(rows), id, Live) && Count(old(rows), client, Live) < cap
      ensures id in old(rows) && old(rows)[id].trigger == trigger ==>
                (o == Done <==>
                   && Passes(old(rows), client, trigger, id) && old(rows)[id].status == PendingApproval
                   && (Served(old(rows), client, trigger) || Count(old(rows), client, Live) < cap)
                   && fault1 == NoFault && fault2 == NoFault)
      ensures o == TemplateRefused <==> Mine(old(rows), client, id) && !KeysOk(old(rows)[id].content)
      ensures o == MappingRefused <==> && Mine(old(rows), client, id) && KeysOk(old(rows)[id].content)
                                       && !ResponseMapping.Accepts(trigger, old(rows)[id].content.mapping)
      ensures o == UrlRefused <==> && Mine(old(rows), client, id) && ContentOk(config, trigger, old(rows)[id].content)
                                   && old(rows)[id].content.url.place !in allow
      ensures o == CapExceeded <==> && Passes(old(rows), client, trigger, id) && !Served(old(rows), client, trigger)
                                    && fault1 == NoFault && Count(old(rows), client, Live) >= cap
      ensures o == DatabaseError <==>
                && Passes(old(rows), client, trigger, id)
                && if Served(old(rows), client, trigger)
                   then fault1 == OtherFault || (fault1 == NoFault && fault2 == OtherFault)
                   else fault1 != NoFault || (Count(old(rows), client, Live) < cap && fault2 == OtherFault)
      ensures o in {Done, TemplateRefused, MappingRefused, UrlRefused, CapExceeded, DatabaseError, SwapRace}
    {
      var found := set i | i in rows && IsLiveFor(rows, i, client, trigger);
      if found != {} {
        var liveId :| liveId in found;
        forall j | IsLiveFor(rows, j, client, trigger) ensures j == liveId {
          assert j != liveId ==> SameSlot(rows[j], rows[liveId]);
        }
        o := SwapToLive(client, trigger, id, Some(liveId), fault1, fault2);
        SwapOutcome(old(rows), client, trigger, id, liveId, fault1, fault2);
        if o == Done {
          SwapExchanges(old(rows), client, id, liveId, fault1, fault2);
          SwapKeepsUnique(old(rows), client, id, liveId, fault1, fault2);
        }
      } else {
        assert forall j :: j !in found ==> !IsLiveFor(rows, j, client, trigger);
        o := ActivateFirstLive(client, trigger, id, cap, fault1, fault2);
        ActivateOutcome(old(rows), client, trigger, id, cap, fault1, fault2);
        ActivateKeepsUnique(old(rows), client, id, cap, fault1, fault2);
      }
    }

    // One row of the client may leave its pending slot; nothing else moves.
    method RejectConnectorConfig(id: int, client: string) returns (o: Outcome)
      modifies `rows
      ensures OnlyRow(old(rows), rows, id) && KeepsLimits(old(rows), rows) && KeepsService(old(rows), rows)
      ensures o == (if Waits(old(rows), id, Some(client), PendingApproval) then Done else SwapRace)
      ensures o == Done ==> rows.Keys == old(rows).Keys && rows[id] == old(rows)[id].(status := Status.Disabled)
      ensures o != Done ==> rows == old(rows)
    {
      MoveKeepsLimits(rows, id, Some(client), {PendingApproval}, Status.Disabled);
      var r := UpdateStatus(id, Some(client), {PendingApproval}, Status.Disabled, NoFault);
      o := if r == Affected(0) then SwapRace else Done;
    }

    method DisableConnectorConfig(id: int, owner: Option<string>) returns (updated: bool)
      modifies `rows
      ensures OnlyRow(old(rows), rows, id) && KeepsLimits(old(rows), rows)
      ensures updated <==> Waits(old(rows), id, owner, Live)
      ensures updated ==> rows.Keys == old(rows).Keys && rows[id] == old(rows)[id].(status := Status.Disabled)
      ensures updated && Unique(old(rows)) ==>
                forall i :: !IsLiveFor(rows, i, old(rows)[id].client, old(rows)[id].trigger)
      ensures !updated ==> rows == old(rows)
    {
      MoveKeepsLimits(rows, id, owner, {Live}, Status.Disabled);
      var r := UpdateStatus(id, owner, {Live}, Status.Disabled, NoFault);
      updated := r != Affected(0);
    }

    method RequestDeleteDisabledConnector(id: int, owner: Option<string>) returns (updated: bool)
      modifies `rows
      ensures OnlyRow(old(rows), rows, id) && KeepsLimits(old(rows), rows)
      ensures updated <==> Waits(old(rows), id, owner, Live) || Waits(old(rows), id, owner, Status.Disabled)
      ensures updated ==> rows.Keys == old(rows).Keys && rows[id] == old(rows)[id].(status := PendingDeletion)
      ensures !updated ==> rows == old(rows)
    {
      MoveKeepsLimits(rows, id, owner, {Live, Status.Disabled}, PendingDeletion);
      var r := UpdateStatus(id, owner, {Live, Status.Disabled}, PendingDeletion, NoFault);
      updated := r != Affected(0);
    }

    // reject_delete_connector and cancel_delete_request run the same statement.
    method RevertDeletion(id: int, owner: Option<string>) returns (reverted: bool)
      modifies `rows
      ensures OnlyRow(old(rows), rows, id) && KeepsLimits(old(rows), rows) && KeepsService(old(rows), rows)
      ensures reverted <==> Waits(old(rows), id, owner, PendingDeletion)
      ensures reverted ==> rows.Keys == old(rows).Keys && rows[id] == old(rows)[id].(status := Status.Disabled)
      ensures !reverted ==> rows == old(rows)
    {
      MoveKeepsLimits(rows, id, owner, {PendingDeletion}, Status.Disabled);
      var r := UpdateStatus(id, owner, {PendingDeletion}, Status.Disabled, NoFault);
      reverted := r != Affected(0);
    }

    // What is live or waiting for approval survives the deletion of a draft.
    method DeleteDraftConnectorConfig(id: int, owner: Option<string>) returns (deleted: bool)
      modifies `rows
      ensures OnlyRow(old(rows), rows, id) && KeepsLimits(old(rows), rows) && KeepsService(old(rows), rows)
      ensures forall i :: i in old(rows) && old(rows)[i].status != Draft ==> i in rows
      ensures deleted <==> Waits(old(rows), id, owner, Draft)
      ensures deleted <==> rows != old(rows)
      ensures deleted ==> id !in rows
    {
      DeleteKeepsLimits(rows, id, owner, {Draft});
      deleted := DeleteRow(id, owner, {Draft});
    }

    method DeletePendingConnectorConfig(id: int, owner: Option<string>) returns (deleted: bool)
      modifies `rows
      ensures OnlyRow(old(rows), rows, id) && KeepsLimits(old(rows), rows) && KeepsService(old(rows), rows)
      ensures forall i :: i in old(rows) && old(rows)[i].status != PendingApproval ==> i in rows
      ensures deleted <==> Waits(old(rows), id, owner, PendingApproval)
      ensures deleted <==> rows != old(rows)
      ensures deleted ==> id !in rows
    {
      DeleteKeepsLimits(rows, id, owner, {PendingApproval});
      deleted := DeleteRow(id, owner, {PendingApproval});
    }

    // An administrator may delete anything but a draft or a row that waits for approval.
    method ApproveDeleteConnector(id: int, owner: Option<string>) returns (deleted: bool)
      modifies `rows
      ensures OnlyRow(old(rows), rows, id) && KeepsLimits(old(rows), rows)
      ensures forall i :: i in old(rows) && old(rows)[i].status in {Draft, PendingApproval} ==> i in rows
      ensures deleted <==> || Waits(old(rows), id, owner, Live)
                           || Waits(old(rows), id, owner, Status.Disabled)
                           || Waits(old(rows), id, owner, PendingDeletion)
      ensures deleted <==> rows != old(rows)
      ensures deleted ==> id !in rows
    {
      DeleteKeepsLimits(rows, id, owner, {Live, Status.Disabled, PendingDeletion});
      deleted := DeleteRow(id, owner, {Live, Status.Disabled, PendingDeletion});
    }
  }

  // ---------------------------------------------------------------- what a caller can rely on

  // The row is there, belongs to the owner if one is asked for, and has this status.
  predicate Waits(t: Table, id: int, owner: Option<string>, status: Status) {
    id in t && t[id].status == status && (owner.Some? ==> t[id].client == owner.value)
  }

  ghost predicate OnlyRow(before: Table, after: Table, id: int) {
    before - {id} == after - {id}
  }

  // Neither an index nor a cap that held is broken.
  ghost predicate KeepsLimits(before: Table, after: Table) {
    (Unique(before) ==> Unique(after)) && forall cap: nat :: Capped(before, cap) ==> Capped(after, cap)
  }

  // The live rows are the same.
  ghost predicate KeepsService(before: Table, after: Table) {
    forall i :: (i in before && before[i].status == Live) || (i in after && after[i].status == Live) ==>
                  i in before && i in after && after[i] == before[i]
  }

  lemma MoveKeepsLimits(t: Table, id: int, owner: Option<string>, from: set<Status>, to: Status)
    requires to != Live && to != PendingApproval
    ensures KeepsLimits(t, Move(t, id, owner, from, to))
  {
    if Unique(t) && Selects(t, id, owner, from) { UniqueWhenSlotFree(t, id, t[id].(status := to)); }
    forall cap: nat | Capped(t, cap) ensures Capped(Move(t, id, owner, from, to), cap) {
      MoveCaps(t, cap, id, owner, from, to);
    }
  }

  lemma DeleteKeepsLimits(t: Table, id: int, owner: Option<string>, from: set<Status>)
    ensures KeepsLimits(t, Delete(t, id, owner, from))
  {
    forall cap: nat | Capped(t, cap) ensures Capped(Delete(t, id, owner, from), cap) {
      DeleteCaps(t, cap, id, owner, from);
    }
  }
}
