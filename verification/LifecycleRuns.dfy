/**
 Runs of the connector lifecycle in which submissions, takedowns, allowlist additions and any number of
 approvals interleave. An approval is four separate reads and one transaction
 (app/api/connectors.py:421, app/connector_config/lifecycle.py:125-307).
 */
module LifecycleRuns {
  import opened Common
  import opened Lifecycle
  import Connector = ConnectorContext

  // How far an approval in flight has come. It remembers what it has read, never the table itself.
  datatype Approval =
    | Begun(client: string, trigger: string, id: int)
    | Routed(client: string, trigger: string, id: int, liveId: Option<int>)
    | Fetched(client: string, trigger: string, id: int, liveId: Option<int>, content: Content)
    | Checked(client: string, trigger: string, id: int, liveId: Option<int>)

  datatype State = State(table: Table, next: int, allow: set<string>, approvals: map<nat, Approval>)

  datatype Label =
    | Submit(row: Row, fault1: Fault, fault2: Fault)
    | Allow(place: string)
    | Begin(actor: nat, client: string, id: int)
    | ReadLive(actor: nat)
    | Fetch(actor: nat)
    | Check(actor: nat)
    | Commit(actor: nat, fault1: Fault, fault2: Fault)
    | Abandon(actor: nat)
    | Reject(id: int, client: string)
    | DeleteDraft(id: int, owner: Option<string>)
    | DeletePending(id: int, owner: Option<string>)
    | RequestDelete(id: int, owner: Option<string>)
    | Disable(id: int, owner: Option<string>)
    | ApproveDelete(id: int, owner: Option<string>)
    | RejectDelete(id: int, owner: Option<string>)
    | CancelDelete(id: int, owner: Option<string>)

  ghost predicate HasLive(t: Table, client: string, trigger: string) {
    exists i :: IsLiveFor(t, i, client, trigger)
  }

  // The id approve_connector_config reads before it chooses between swapping and activating.
  ghost function LiveId(t: Table, client: string, trigger: string): (r: Option<int>)
    ensures r.Some? ==> IsLiveFor(t, r.value, client, trigger)
    ensures r.None? ==> !HasLive(t, client, trigger)
  {
    if i :| IsLiveFor(t, i, client, trigger) then Some(i) else None
  }

  function SetApproval(s: State, actor: nat, a: Approval): State {
    s.(approvals := s.approvals[actor := a])
  }

  function Drop(s: State, actor: nat): State {
    s.(approvals := s.approvals - {actor})
  }

  // The endpoint lets rows in as drafts or as pending approval only.
  function SubmitRow(c: Config, s: State, r: Row, fault1: Fault, fault2: Fault): State {
    if r.status != Draft && r.status != PendingApproval then s else
    var (t, o) := InsertChecked(s.table, s.next, r, c.cap, fault1, fault2);
    if o == Done then s.(table := t, next := s.next + 1) else s
  }

  ghost function Advance(c: Config, s: State, l: Label): State
    requires (l.ReadLive? || l.Fetch? || l.Check? || l.Commit?) && l.actor in s.approvals
  {
    var a := s.approvals[l.actor];
    if l.ReadLive? && a.Begun? then
      SetApproval(s, l.actor, Routed(a.client, a.trigger, a.id, LiveId(s.table, a.client, a.trigger)))
    else if l.Fetch? && a.Routed? then
      if a.id in s.table && s.table[a.id].client == a.client
      then SetApproval(s, l.actor, Fetched(a.client, a.trigger, a.id, a.liveId, s.table[a.id].content))
      else Drop(s, l.actor)
    else if l.Check? && a.Fetched? then
      if ContentOk(c, a.trigger, a.content) && a.content.url.place in s.allow
      then SetApproval(s, l.actor, Checked(a.client, a.trigger, a.id, a.liveId))
      else Drop(s, l.actor)
    else if l.Commit? && a.Checked? then
      Drop(s, l.actor).(table := CommitTable(c, s.table, a, l.fault1, l.fault2))
    else s
  }

  function CommitTable(c: Config, t: Table, a: Approval, fault1: Fault, fault2: Fault): Table
    requires a.Checked?
  {
    if a.liveId.Some? then Swap(t, a.client, a.id, a.liveId, fault1, fault2).0
    else ActivateFirst(t, a.client, a.id, c.cap, fault1, fault2).0
  }

  ghost function Apply(c: Config, s: State, l: Label): State {
    match l
    case Submit(r, fault1, fault2) => SubmitRow(c, s, r, fault1, fault2)
    case Allow(place) => s.(allow := s.allow + {place})
    case Begin(actor, client, id) =>
      if actor !in s.approvals && Selects(s.table, id, Some(client), {PendingApproval})
      then SetApproval(s, actor, Begun(client, s.table[id].trigger, id))
      else s
    case Abandon(actor) => Drop(s, actor)
    case Reject(id, client) => s.(table := Move(s.table, id, Some(client), {PendingApproval}, Status.Disabled))
    case DeleteDraft(id, owner) => s.(table := Delete(s.table, id, owner, {Draft}))
    case DeletePending(id, owner) => s.(table := Delete(s.table, id, owner, {PendingApproval}))
    case RequestDelete(id, owner) => s.(table := Move(s.table, id, owner, {Live, Disabled}, PendingDeletion))
    case Disable(id, owner) => s.(table := Move(s.table, id, owner, {Live}, Status.Disabled))
    case ApproveDelete(id, owner) => s.(table := Delete(s.table, id, owner, {Live, Disabled, PendingDeletion}))
    case RejectDelete(id, owner) => s.(table := Move(s.table, id, owner, {PendingDeletion}, Disabled))
    case CancelDelete(id, owner) => s.(table := Move(s.table, id, owner, {PendingDeletion}, Disabled))
    case _ => if l.actor in s.approvals then Advance(c, s, l) else s
  }

  ghost function Run(c: Config, s: State, ls: seq<Label>): State
    decreases |ls|
  {
    if ls == [] then s else Run(c, Apply(c, s, ls[0]), ls[1..])
  }

  function Init(allow: set<string>): State {
    State(map[], 1, allow, map[])
  }

  // ---------------------------------------------------------------- how a table may evolve

  // Pending, then live, then one of the two last stages; a draft stays a draft.
  predicate StageLeq(a: Status, b: Status) {
    || a == b
    || (a == PendingApproval && b != Draft)
    || (a == Live && (b == Disabled || b == PendingDeletion))
    || (a == Disabled && b == PendingDeletion)
    || (a == PendingDeletion && b == Disabled)
  }

  // The same row, possibly at a later stage.
  predicate Later(a: Row, b: Row) {
    a.client == b.client && a.trigger == b.trigger && a.content == b.content && StageLeq(a.status, b.status)
  }

  // Between two tables no row is rewritten, none goes back a stage, and an id is never given out twice.
  ghost predicate Evolves(s: State, s': State) {
    && s.next <= s'.next
    && s.allow <= s'.allow
    && (forall i :: i in s'.table && i in s.table ==> Later(s.table[i], s'.table[i]))
    && (forall i :: i in s'.table && i !in s.table ==> s.next <= i)
  }

  ghost predicate Tracks(c: Config, s: State, a: Approval) {
    && a.id < s.next
    && (a.id in s.table ==> s.table[a.id].client == a.client && s.table[a.id].trigger == a.trigger)
    && (!a.Begun? && a.liveId.Some? ==>
          && a.liveId.value < s.next
          && (a.liveId.value in s.table ==>
                s.table[a.liveId.value].client == a.client && s.table[a.liveId.value].trigger == a.trigger))
    && (a.Fetched? && a.id in s.table ==> s.table[a.id].content == a.content)
    && (a.Checked? && a.id in s.table ==> Servable(c, s.allow, s.table[a.id]))
  }

  ghost predicate TableInv(c: Config, s: State) {
    && (forall i :: i in s.table ==> i < s.next)
    && Unique(s.table)
    && Capped(s.table, c.cap)
    && (forall i :: i in s.table && s.table[i].status == Live ==> Servable(c, s.allow, s.table[i]))
  }

  ghost predicate Inv(c: Config, s: State) {
    TableInv(c, s) && forall k :: k in s.approvals ==> Tracks(c, s, s.approvals[k])
  }

  lemma TracksLater(c: Config, s: State, s': State, a: Approval)
    requires Tracks(c, s, a) && Evolves(s, s')
    ensures Tracks(c, s', a)
  {}

  lemma EvolvesTrans(a: State, b: State, d: State)
    requires Evolves(a, b) && Evolves(b, d)
    requires forall i :: i in a.table ==> i < a.next
    ensures Evolves(a, d)
  {
    forall i | i in d.table && i in a.table ensures Later(a.table[i], d.table[i]) {
      assert i in b.table;
    }
  }

  lemma MoveKeeps(c: Config, s: State, id: int, owner: Option<string>, from: set<Status>, to: Status)
    requires TableInv(c, s)
    requires to == Disabled || to == PendingDeletion
    requires Draft !in from
    ensures var s' := s.(table := Move(s.table, id, owner, from, to)); TableInv(c, s') && Evolves(s, s')
  {
    MoveCaps(s.table, c.cap, id, owner, from, to);
    if Selects(s.table, id, owner, from) { UniqueWhenSlotFree(s.table, id, s.table[id].(status := to)); }
  }

  lemma DeleteKeeps(c: Config, s: State, id: int, owner: Option<string>, from: set<Status>)
    requires TableInv(c, s)
    ensures var s' := s.(table := Delete(s.table, id, owner, from)); TableInv(c, s') && Evolves(s, s')
  {
    DeleteCaps(s.table, c.cap, id, owner, from);
  }

  lemma SubmitKeeps(c: Config, s: State, r: Row, fault1: Fault, fault2: Fault)
    requires TableInv(c, s)
    ensures TableInv(c, SubmitRow(c, s, r, fault1, fault2)) && Evolves(s, SubmitRow(c, s, r, fault1, fault2))
  {
    InsertCaps(s.table, s.next, r, c.cap, fault1, fault2);
    if InsertChecked(s.table, s.next, r, c.cap, fault1, fault2).1 == Done && r.status != Draft {
      UniqueAfterUpdate(s.table, s.next, r);
    }
  }

  // A row that goes live, checked before and unchanged since, with perhaps another one going offline.
  lemma WentLiveKeeps(c: Config, s: State, id: int, t: Table)
    requires TableInv(c, s) && Unique(t) && Capped(t, c.cap)
    requires id in s.table && s.table[id].status == PendingApproval && Servable(c, s.allow, s.table[id])
    requires t.Keys == s.table.Keys && t[id] == s.table[id].(status := Live)
    requires forall i :: i in t && i != id ==>
               t[i] == s.table[i] || (s.table[i].status == Live && t[i] == s.table[i].(status := Status.Disabled))
    ensures TableInv(c, s.(table := t)) && Evolves(s, s.(table := t))
  {}

  lemma SwapCommitKeeps(c: Config, s: State, a: Approval, fault1: Fault, fault2: Fault)
    requires TableInv(c, s) && a.Checked? && a.liveId.Some? && Tracks(c, s, a)
    requires Swap(s.table, a.client, a.id, a.liveId, fault1, fault2).1 == Done
    ensures var s' := s.(table := Swap(s.table, a.client, a.id, a.liveId, fault1, fault2).0);
            TableInv(c, s') && Evolves(s, s')
  {
    var t, live := s.table, a.liveId.value;
    SwapSomeCaps(t, c.cap, a.client, a.id, live, fault1, fault2);
    SwapKeepsUnique(t, a.client, a.id, live, fault1, fault2);
    SwapExchanges(t, a.client, a.id, live, fault1, fault2);
    WentLiveKeeps(c, s, a.id, Swap(t, a.client, a.id, a.liveId, fault1, fault2).0);
  }

  lemma ActivateCommitKeeps(c: Config, s: State, a: Approval, fault1: Fault, fault2: Fault)
    requires TableInv(c, s) && a.Checked? && a.liveId.None? && Tracks(c, s, a)
    requires ActivateFirst(s.table, a.client, a.id, c.cap, fault1, fault2).1 == Done
    ensures var s' := s.(table := ActivateFirst(s.table, a.client, a.id, c.cap, fault1, fault2).0);
            TableInv(c, s') && Evolves(s, s')
  {
    ActivateCaps(s.table, c.cap, a.client, a.id, fault1, fault2);
    ActivateKeepsUnique(s.table, a.client, a.id, c.cap, fault1, fault2);
    WentLiveKeeps(c, s, a.id, SetStatus(s.table, a.id, Live));
  }

  lemma CommitKeeps(c: Config, s: State, a: Approval, fault1: Fault, fault2: Fault)
    requires TableInv(c, s) && a.Checked? && Tracks(c, s, a)
    ensures var s' := s.(table := CommitTable(c, s.table, a, fault1, fault2)); TableInv(c, s') && Evolves(s, s')
  {
    if CommitTable(c, s.table, a, fault1, fault2) != s.table {
      if a.liveId.Some? {
        SwapCommitKeeps(c, s, a, fault1, fault2);
      } else {
        ActivateCommitKeeps(c, s, a, fault1, fault2);
      }
    }
  }

  lemma AdvanceKeeps(c: Config, s: State, l: Label)
    requires Inv(c, s) && (l.ReadLive? || l.Fetch? || l.Check? || l.Commit?) && l.actor in s.approvals
    ensures TableInv(c, Advance(c, s, l)) && Evolves(s, Advance(c, s, l))
    ensures forall k :: k in Advance(c, s, l).approvals ==> Tracks(c, s, Advance(c, s, l).approvals[k])
  {
    var a := s.approvals[l.actor];
    if l.Commit? && a.Checked? {
      CommitKeeps(c, s, a, l.fault1, l.fault2);
    }
  }

  lemma StepTable(c: Config, s: State, l: Label)
    requires Inv(c, s) && !(l.ReadLive? || l.Fetch? || l.Check? || l.Commit?)
    ensures TableInv(c, Apply(c, s, l)) && Evolves(s, Apply(c, s, l))
  {
    match l {
      case Submit(r, fault1, fault2) => SubmitKeeps(c, s, r, fault1, fault2);
      case Reject(id, client) => MoveKeeps(c, s, id, Some(client), {PendingApproval}, Status.Disabled);
      case DeleteDraft(id, owner) => DeleteKeeps(c, s, id, owner, {Draft});
      case DeletePending(id, owner) => DeleteKeeps(c, s, id, owner, {PendingApproval});
      case RequestDelete(id, owner) => MoveKeeps(c, s, id, owner, {Live, Status.Disabled}, PendingDeletion);
      case Disable(id, owner) => MoveKeeps(c, s, id, owner, {Live}, Status.Disabled);
      case ApproveDelete(id, owner) => DeleteKeeps(c, s, id, owner, {Live, Status.Disabled, PendingDeletion});
      case RejectDelete(id, owner) => MoveKeeps(c, s, id, owner, {PendingDeletion}, Status.Disabled);
      case CancelDelete(id, owner) => MoveKeeps(c, s, id, owner, {PendingDeletion}, Status.Disabled);
      case _ =>
    }
  }

  // Outside an approval's own steps, an approval is either as before or has just begun.
  lemma StepApprovals(c: Config, s: State, l: Label)
    requires Inv(c, s) && !(l.ReadLive? || l.Fetch? || l.Check? || l.Commit?)
    ensures forall k :: k in Apply(c, s, l).approvals ==> Tracks(c, s, Apply(c, s, l).approvals[k])
  {}

  // Every step keeps the invariant and lets the table evolve forward only.
  lemma StepKeeps(c: Config, s: State, l: Label)
    requires Inv(c, s)
    ensures Inv(c, Apply(c, s, l)) && Evolves(s, Apply(c, s, l))
  {
    var s' := Apply(c, s, l);
    if !(l.ReadLive? || l.Fetch? || l.Check? || l.Commit?) {
      StepTable(c, s, l);
      StepApprovals(c, s, l);
    } else if l.actor in s.approvals {
      AdvanceKeeps(c, s, l);
    }
    forall k | k in s'.approvals ensures Tracks(c, s', s'.approvals[k]) {
      TracksLater(c, s, s', s'.approvals[k]);
    }
  }

  lemma {:induction false} RunKeeps(c: Config, s: State, ls: seq<Label>)
    requires Inv(c, s)
    ensures Inv(c, Run(c, s, ls)) && Evolves(s, Run(c, s, ls))
    decreases |ls|
  {
    if ls != [] {
      StepKeeps(c, s, ls[0]);
      RunKeeps(c, Apply(c, s, ls[0]), ls[1..]);
      EvolvesTrans(s, Apply(c, s, ls[0]), Run(c, s, ls));
    }
  }

  lemma {:induction false} RunSplit(c: Config, s: State, a: seq<Label>, b: seq<Label>)
    ensures Run(c, s, a + b) == Run(c, Run(c, s, a), b)
    decreases |a|
  {
    if a == [] {
      assert a + b == b;
    } else {
      assert (a + b)[1..] == a[1..] + b;
      RunSplit(c, Apply(c, s, a[0]), a[1..], b);
    }
  }

  // ---------------------------------------------------------------- what holds in every run

  // The state after the first i steps of a run.
  ghost function At(c: Config, allow: set<string>, ls: seq<Label>, i: nat): State
    requires i <= |ls|
  {
    Run(c, Init(allow), ls[..i])
  }

  lemma InitInv(c: Config, allow: set<string>)
    ensures Inv(c, Init(allow))
  {
    var t: Table := map[];
    forall client: string ensures CappedFor(t, client, c.cap) {
      assert Ids(t, client, Live) == {} && Ids(t, client, PendingApproval) == {};
    }
  }

  lemma RunBetween(c: Config, allow: set<string>, ls: seq<Label>, i: nat, j: nat)
    requires i <= j <= |ls|
    ensures Inv(c, At(c, allow, ls, i)) && Inv(c, At(c, allow, ls, j))
    ensures Evolves(At(c, allow, ls, i), At(c, allow, ls, j))
  {
    InitInv(c, allow);
    RunKeeps(c, Init(allow), ls[..i]);
    assert ls[..j] == ls[..i] + ls[i..j];
    RunSplit(c, Init(allow), ls[..i], ls[i..j]);
    RunKeeps(c, At(c, allow, ls, i), ls[i..j]);
  }

  // In every reachable state a client has at most cap live and cap pending rows, and at most one of each
  // for a trigger.
  lemma CapsAndUniqueness(c: Config, allow: set<string>, ls: seq<Label>, client: string)
    ensures var t := Run(c, Init(allow), ls).table;
            && Count(t, client, Live) <= c.cap
            && Count(t, client, PendingApproval) <= c.cap
            && forall i, j :: i in t && j in t && i != j && t[i].client == t[j].client == client
                              && t[i].trigger == t[j].trigger && t[i].status == t[j].status
                              ==> t[i].status != Live && t[i].status != PendingApproval
  {
    InitInv(c, allow);
    RunKeeps(c, Init(allow), ls);
    var t := Run(c, Init(allow), ls).table;
    assert CappedFor(t, client, c.cap);
    forall i, j | i in t && j in t && i != j && t[i].client == t[j].client == client
                  && t[i].trigger == t[j].trigger && t[i].status == t[j].status
      ensures t[i].status != Live && t[i].status != PendingApproval
    {
      assert !SameSlot(t[i], t[j]);
    }
  }

  // The checks made before the approving transaction, on what was read then, still hold of every live row:
  // its placeholders are known, its required response fields configured, its URL allowlisted.
  lemma LiveRowsAreServable(c: Config, allow: set<string>, ls: seq<Label>, id: int)
    requires id in Run(c, Init(allow), ls).table && Run(c, Init(allow), ls).table[id].status == Live
    ensures var s := Run(c, Init(allow), ls);
            && ContentOk(c, s.table[id].trigger, s.table[id].content)
            && s.table[id].content.url.place in s.allow
  {
    InitInv(c, allow);
    RunKeeps(c, Init(allow), ls);
  }

  function Templates(content: Content): Connector.Config {
    Connector.Config(content.request, content.headers)
  }

  // So a connector that is live renders, whatever the run: for any email its templates go through exactly
  // when they use no reference key or the email names something.
  lemma LiveConnectorsRender(c: Config, allow: set<string>, ls: seq<Label>, id: int,
                             e: Connector.Email, a: Connector.Answers, thread: PyStr)
    requires id in Run(c, Init(allow), ls).table && Run(c, Init(allow), ls).table[id].status == Live
    requires var content := Run(c, Init(allow), ls).table[id].content;
             Connector.IsJsonColumn(content.request) && Connector.IsJsonColumn(content.headers)
    ensures var t := Templates(Run(c, Init(allow), ls).table[id].content);
            Connector.RenderConnector(c.pattern, t, Connector.BuildBase(e), a, thread).Ok?
            <==> !(Connector.NoIds(e) && exists k :: k in Connector.REFERENCE_KEYS && Connector.Uses(c.pattern, t, k))
  {
    LiveRowsAreServable(c, allow, ls, id);
    Connector.ApprovedConfigRenders(c.pattern, Templates(Run(c, Init(allow), ls).table[id].content), e, a, thread);
  }

  // The step of an approval, whichever it is.
  predicate IsApprovalStep(l: Label) {
    l.Begin? || l.ReadLive? || l.Fetch? || l.Check? || l.Commit? || l.Abandon?
  }

  // No step of any approval leaves a trigger that was served without a live row, however stale the live
  // id that the approval has read.
  lemma NoGapInService(c: Config, allow: set<string>, ls: seq<Label>, l: Label, client: string, trigger: string)
    requires IsApprovalStep(l)
    requires HasLive(Run(c, Init(allow), ls).table, client, trigger)
    ensures HasLive(Apply(c, Run(c, Init(allow), ls), l).table, client, trigger)
  {
    InitInv(c, allow);
    RunKeeps(c, Init(allow), ls);
    var s := Run(c, Init(allow), ls);
    var i :| IsLiveFor(s.table, i, client, trigger);
    var s' := Apply(c, s, l);
    if !IsLiveFor(s'.table, i, client, trigger) {
      CommitExact(c, s, l.actor, l.fault1, l.fault2);
      var a := s.approvals[l.actor];
      assert IsLiveFor(s'.table, a.id, client, trigger);
    }
  }

  // A first activation commits only where nothing is live for the trigger: the index sees to that.
  lemma ActivationFindsNone(t: Table, client: string, id: int, cap: nat, fault1: Fault, fault2: Fault)
    requires ActivateFirst(t, client, id, cap, fault1, fault2).1 == Done
    ensures id in t && t[id].client == client && !HasLive(t, client, t[id].trigger)
  {
    forall i ensures !IsLiveFor(t, i, client, t[id].trigger) {
      if IsLiveFor(t, i, client, t[id].trigger) { assert SameSlot(t[i], t[id].(status := Live)); }
    }
  }

  // A committing approval that has read a live id either exchanges that row for the new one, both of the
  // same client and trigger, with every other row unchanged, or changes nothing.
  lemma CommitExact(c: Config, s: State, actor: nat, fault1: Fault, fault2: Fault)
    requires Inv(c, s) && actor in s.approvals && s.approvals[actor].Checked?
    ensures var a, t, t' := s.approvals[actor], s.table, Apply(c, s, Commit(actor, fault1, fault2)).table;
            || t' == t
            || (&& a.id in t && t[a.id].status == PendingApproval
                && t[a.id].client == a.client && t[a.id].trigger == a.trigger
                && Servable(c, s.allow, t[a.id])
                && (a.liveId.None? ==> t' == SetStatus(t, a.id, Live) && !HasLive(t, a.client, a.trigger))
                && (a.liveId.Some? ==>
                      && a.liveId.value != a.id
                      && IsLiveFor(t, a.liveId.value, a.client, a.trigger)
                      && t' == t[a.liveId.value := t[a.liveId.value].(status := Status.Disabled)]
                                [a.id := t[a.id].(status := Live)]))
  {
    var a, t := s.approvals[actor], s.table;
    assert Tracks(c, s, a);
    if CommitTable(c, t, a, fault1, fault2) != t {
      if a.liveId.Some? {
        SwapExchanges(t, a.client, a.id, a.liveId.value, fault1, fault2);
      } else {
        ActivationFindsNone(t, a.client, a.id, c.cap, fault1, fault2);
      }
    }
  }

  // A row's stage never goes back, its content never changes and its id is never given out again: once
  // gone, it stays gone.
  lemma StagesNeverGoBack(c: Config, allow: set<string>, ls: seq<Label>, i: nat, j: nat, id: int)
    requires i <= j <= |ls|
    ensures var s, s' := At(c, allow, ls, i), At(c, allow, ls, j);
            && (id in s.table && id in s'.table ==> Later(s.table[id], s'.table[id]))
            && (id < s.next && id !in s.table ==> id !in s'.table)
  {
    RunBetween(c, allow, ls, i, j);
  }

  // Each id is live for at most one unbroken stretch of a run, and approved at most once.
  lemma LiveOnce(c: Config, allow: set<string>, ls: seq<Label>, i: nat, j: nat, k: nat, id: int)
    requires i <= j <= k <= |ls|
    requires id in At(c, allow, ls, i).table && At(c, allow, ls, i).table[id].status == Live
    requires id in At(c, allow, ls, k).table
    ensures id in At(c, allow, ls, j).table
    ensures At(c, allow, ls, k).table[id].status == Live ==> At(c, allow, ls, j).table[id].status == Live
    ensures At(c, allow, ls, k).table[id].status != PendingApproval
  {
    RunBetween(c, allow, ls, i, j);
    RunBetween(c, allow, ls, j, k);
    RunBetween(c, allow, ls, i, k);
  }

  // ---------------------------------------------------------------- steps take effect

  // The steps of an approval that nobody gets in the way of.
  ghost function Approved(c: Config, s: State, actor: nat, client: string, id: int): State {
    var routed := Apply(c, Apply(c, s, Begin(actor, client, id)), ReadLive(actor));
    Apply(c, Apply(c, Apply(c, routed, Fetch(actor)), Check(actor)), Commit(actor, NoFault, NoFault))
  }

  // In every reachable state such an approval of a pending row that is servable puts it live, if its trigger is served
  // already or the client is below its cap. The row that was live for the trigger goes offline, and no other changes.
  lemma ApprovalGoesThrough(c: Config, allow: set<string>, ls: seq<Label>, actor: nat, client: string, id: int)
    requires var s := Run(c, Init(allow), ls);
             && actor !in s.approvals && id in s.table
             && s.table[id].client == client && s.table[id].status == PendingApproval
             && ContentOk(c, s.table[id].trigger, s.table[id].content) && s.table[id].content.url.place in s.allow
             && (HasLive(s.table, client, s.table[id].trigger) || Count(s.table, client, Live) < c.cap)
    ensures var s := Run(c, Init(allow), ls); var t, t' := s.table, Approved(c, s, actor, client, id).table;
            && t'.Keys == t.Keys && t'[id] == t[id].(status := Live)
            && forall i :: i in t && i != id ==>
                 t'[i] == if IsLiveFor(t, i, client, t[id].trigger) then t[i].(status := Status.Disabled) else t[i]
  {
    InitInv(c, allow);
    RunKeeps(c, Init(allow), ls);
    var s := Run(c, Init(allow), ls);
    var trigger := s.table[id].trigger;
    var liveId := LiveId(s.table, client, trigger);
    ApprovedCommits(c, s, actor, client, id);
    if liveId.Some? {
      SwapOutcome(s.table, client, trigger, id, liveId.value, NoFault, NoFault);
      SwapExchanges(s.table, client, id, liveId.value, NoFault, NoFault);
      forall i | i in s.table && IsLiveFor(s.table, i, client, trigger) ensures i == liveId.value {
        assert i != liveId.value ==> !SameSlot(s.table[i], s.table[liveId.value]);
      }
    } else {
      forall i ensures !IsLiveFor(s.table, i, client, trigger) {}
      ActivateOutcome(s.table, client, trigger, id, c.cap, NoFault, NoFault);
    }
  }

  lemma ApprovedCommits(c: Config, s: State, actor: nat, client: string, id: int)
    requires actor !in s.approvals && id in s.table
    requires s.table[id].client == client && s.table[id].status == PendingApproval
    requires ContentOk(c, s.table[id].trigger, s.table[id].content) && s.table[id].content.url.place in s.allow
    ensures var liveId := LiveId(s.table, client, s.table[id].trigger);
            Approved(c, s, actor, client, id).table ==
              if liveId.Some? then Swap(s.table, client, id, liveId, NoFault, NoFault).0
              else ActivateFirst(s.table, client, id, c.cap, NoFault, NoFault).0
  {
    var trigger, content := s.table[id].trigger, s.table[id].content;
    var s1 := Apply(c, s, Begin(actor, client, id));
    assert s1.approvals[actor] == Begun(client, trigger, id);
    var s2 := Apply(c, s1, ReadLive(actor));
    var liveId := LiveId(s.table, client, trigger);
    assert s2.approvals[actor] == Routed(client, trigger, id, liveId);
    var s3 := Apply(c, s2, Fetch(actor));
    assert s3.approvals[actor] == Fetched(client, trigger, id, liveId, content);
    var s4 := Apply(c, s3, Check(actor));
    assert s4.approvals[actor] == Checked(client, trigger, id, liveId);
  }

  predicate Mine(t: Table, id: int, owner: Option<string>) {
    id in t && (owner.Some? ==> t[id].client == owner.value)
  }

  // The other calls move or delete exactly the rows they are for.
  lemma CallsTakeEffect(c: Config, s: State, id: int, owner: Option<string>)
    ensures Apply(c, s, RequestDelete(id, owner)).table ==
              if Mine(s.table, id, owner) && (s.table[id].status == Live || s.table[id].status == Status.Disabled)
              then s.table[id := s.table[id].(status := PendingDeletion)] else s.table
    ensures Apply(c, s, Disable(id, owner)).table ==
              if Mine(s.table, id, owner) && s.table[id].status == Live
              then s.table[id := s.table[id].(status := Status.Disabled)] else s.table
    ensures Apply(c, s, RejectDelete(id, owner)).table == Apply(c, s, CancelDelete(id, owner)).table ==
              if Mine(s.table, id, owner) && s.table[id].status == PendingDeletion
              then s.table[id := s.table[id].(status := Status.Disabled)] else s.table
    ensures owner.Some? ==>
              Apply(c, s, Reject(id, owner.value)).table ==
                if Mine(s.table, id, owner) && s.table[id].status == PendingApproval
                then s.table[id := s.table[id].(status := Status.Disabled)] else s.table
  {}

  lemma DeletionsTakeEffect(c: Config, s: State, id: int, owner: Option<string>)
    ensures Apply(c, s, DeleteDraft(id, owner)).table ==
              if Mine(s.table, id, owner) && s.table[id].status == Draft then s.table - {id} else s.table
    ensures Apply(c, s, DeletePending(id, owner)).table ==
              if Mine(s.table, id, owner) && s.table[id].status == PendingApproval then s.table - {id} else s.table
    ensures Apply(c, s, ApproveDelete(id, owner)).table ==
              if Mine(s.table, id, owner) && s.table[id].status in {Live, Status.Disabled, PendingDeletion}
              then s.table - {id} else s.table
  {}

  // A submission stores the row given under the next id, exactly when it is a draft or a pending row that the insert
  // lets through.
  lemma SubmissionStores(c: Config, s: State, r: Row)
    ensures var s' := Apply(c, s, Submit(r, NoFault, NoFault));
            if (r.status == Draft || r.status == PendingApproval)
               && !(r.content.base64Query && r.content.base64Param == "")
               && (r.status == PendingApproval ==>
                     && Count(s.table, r.client, PendingApproval) < c.cap
                     && forall i :: i in s.table && i != s.next ==> !SameSlot(s.table[i], r))
            then s' == s.(table := s.table[s.next := r], next := s.next + 1) else s' == s
  {
    InsertExactly(s.table, s.next, r, c.cap, NoFault, NoFault);
  }
}
