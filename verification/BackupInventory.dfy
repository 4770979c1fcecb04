// The inventory shown to the user: live observations joined with stored
// evidence, and the actions offered for each backup.

module BackupInventory {
  import opened Foundations
  import opened Sorting
  import opened Records
  import opened EvidenceStores
  import opened RetentionExecutor
  import opened RetentionCleanup
  import opened BackupDeletion
  import opened BackupReconciliation
  import opened LocalRetention

  datatype Action =
    | StartDualDelete
    | RetryRemoteDelete
    | RecoverRemoteResult
    | RetryLocalDelete
    | RetryStagingCleanup
    | RetryRetentionStagingCleanup
    | ReconcileCopies
    | RefreshInventory

  // The actions that delete a copy.
  predicate Mutates(a: Action) {
    a.StartDualDelete? || a.RetryRemoteDelete? || a.RetryLocalDelete?
  }

  datatype DeletionView = DeletionView(result: DeletionResult, cleanupPending: bool)

  datatype RemoteRecord = RemoteRecord(
    backupId: string, hostId: string, createdAt: int, retentionExpiresAt: Option<int>, protected: bool
  )

  datatype RemoteRetentionResult = RemoteRetentionResult(
    hostId: string, hostFingerprint: string, state: RetentionState, removedIds: seq<string>, remainingIds: seq<string>
  )

  datatype RetentionEvidence = RetentionEvidence(
    localResult: Option<LocalRetentionResult>, remoteResult: Option<RemoteRetentionResult>, cleanupPending: bool
  )

  // What `load_for_host` hands to the inventory.
  datatype Evidence = Evidence(
    retention: RetentionEvidence,
    views: seq<DeletionView>,
    reconciliations: seq<ReconciliationResult>,
    executions: seq<Execution>
  )

  const MISBOUND: Error := AdapterError("backup_inventory_binding_mismatch")

  // ---- The joins ----

  // `_local`: a listing that fails, repeats an id or shows another host is
  // treated as no observation at all.
  predicate LocalUsable(local: Outcome<seq<Manifest>>, hostId: string) {
    && local.Ok?
    && (forall i, j | 0 <= i < j < |local.value| :: local.value[i].backupId != local.value[j].backupId)
    && forall i | 0 <= i < |local.value| :: local.value[i].hostId == hostId
  }

  predicate RemoteUsable(remote: Outcome<seq<RemoteRecord>>, hostId: string) {
    && remote.Ok?
    && (forall i, j | 0 <= i < j < |remote.value| :: remote.value[i].backupId != remote.value[j].backupId)
    && forall i | 0 <= i < |remote.value| :: remote.value[i].hostId == hostId
  }

  function ManifestsById(list: seq<Manifest>): map<string, Manifest> {
    if list == [] then map[] else ManifestsById(list[..|list| - 1])[list[|list| - 1].backupId := list[|list| - 1]]
  }

  function RecordsById(list: seq<RemoteRecord>): map<string, RemoteRecord> {
    if list == [] then map[] else RecordsById(list[..|list| - 1])[list[|list| - 1].backupId := list[|list| - 1]]
  }

  // `_views`
  function ViewsById(
    sha: Sha256, hostId: string, fingerprint: string, views: seq<DeletionView>
  ): Outcome<map<string, DeletionView>>
  {
    if views == [] then Ok(map[])
    else
      match ViewsById(sha, hostId, fingerprint, views[..|views| - 1])
      case Raised(e) => Raised(e)
      case Ok(before) =>
        var v := views[|views| - 1];
        if !ValidResult(sha, v.result) then Raised(AdapterError("invalid_deletion_result"))
        else if v.result.hostId != hostId || v.result.hostFingerprint != fingerprint || v.result.backupId in before
          then Raised(MISBOUND)
        else Ok(before[v.result.backupId := v])
  }

  predicate BoundToView(r: ReconciliationResult, views: map<string, DeletionView>) {
    && r.backupId in views
    && r.sourceDeletionResultHash == views[r.backupId].result.resultHash
    && r.manifestHash == views[r.backupId].result.manifestHash
  }

  // `_reconciliations`
  function ReconciliationsById(
    sha: Sha256, hostId: string, fingerprint: string, views: map<string, DeletionView>,
    values: seq<ReconciliationResult>
  ): Outcome<map<string, ReconciliationResult>>
  {
    if values == [] then Ok(map[])
    else
      match ReconciliationsById(sha, hostId, fingerprint, views, values[..|values| - 1])
      case Raised(e) => Raised(e)
      case Ok(before) =>
        var r := values[|values| - 1];
        if !ValidReconciliation(sha, r) then Raised(AdapterError("invalid_reconciliation_result"))
        else if r.hostId != hostId || r.hostFingerprint != fingerprint || r.backupId in before || !BoundToView(r, views)
          then Raised(MISBOUND)
        else Ok(before[r.backupId := r])
  }

  predicate Later(a: Execution, b: Execution) {
    a.completedAt > b.completedAt || (a.completedAt == b.completedAt && LexLess(b.executionHash, a.executionHash))
  }

  // `_retention_executions`: the latest of each backup.
  function ExecutionsById(
    sha: Sha256, hostId: string, fingerprint: string, executions: seq<Execution>
  ): Outcome<map<string, Execution>>
  {
    if executions == [] then Ok(map[])
    else
      match ExecutionsById(sha, hostId, fingerprint, executions[..|executions| - 1])
      case Raised(e) => Raised(e)
      case Ok(before) =>
        var x := executions[|executions| - 1];
        if !ValidExecution(sha, x) then Raised(AdapterError("invalid_evidence_retention_execution"))
        else if x.hostId != hostId || x.hostFingerprint != fingerprint then Raised(MISBOUND)
        else if x.backupId !in before || Later(x, before[x.backupId]) then Ok(before[x.backupId := x])
        else Ok(before)
  }

  // `_validate_retention`
  predicate RetentionAcceptable(hostId: string, fingerprint: string, e: RetentionEvidence) {
    && (e.localResult.Some? ==> ValidReport(e.localResult.value) && e.localResult.value.hostId == hostId)
    && (e.remoteResult.Some? ==> e.remoteResult.value.hostId == hostId
                                 && e.remoteResult.value.hostFingerprint == fingerprint)
  }

  // Everything one call of `list_for_host` works with.
  datatype Joined = Joined(
    manifests: map<string, Manifest>,
    records: map<string, RemoteRecord>,
    localUnknown: bool,
    remoteUnknown: bool,
    views: map<string, DeletionView>,
    reconciliations: map<string, ReconciliationResult>,
    executions: map<string, Execution>,
    retention: RetentionEvidence
  )

  function Join(
    sha: Sha256, hostId: string, fingerprint: string, local: Outcome<seq<Manifest>>, remote: Outcome<seq<RemoteRecord>>,
    e: Evidence
  ): Outcome<Joined>
  {
    match ViewsById(sha, hostId, fingerprint, e.views)
    case Raised(error) => Raised(error)
    case Ok(views) =>
      match ReconciliationsById(sha, hostId, fingerprint, views, e.reconciliations)
      case Raised(error) => Raised(error)
      case Ok(reconciliations) =>
        match ExecutionsById(sha, hostId, fingerprint, e.executions)
        case Raised(error) => Raised(error)
        case Ok(executions) =>
          if !RetentionAcceptable(hostId, fingerprint, e.retention) then Raised(MISBOUND)
          else
            Ok(Joined(
              if LocalUsable(local, hostId) then ManifestsById(local.value) else map[],
              if RemoteUsable(remote, hostId) then RecordsById(remote.value) else map[],
              !LocalUsable(local, hostId), !RemoteUsable(remote, hostId),
              views, reconciliations, executions, e.retention))
  }

  function RetentionIds(e: RetentionEvidence): set<string> {
    (if e.localResult.Some?
     then Elements(e.localResult.value.removedIds) + Elements(e.localResult.value.remainingIds) else {})
    + (if e.remoteResult.Some?
       then Elements(e.remoteResult.value.removedIds) + Elements(e.remoteResult.value.remainingIds) else {})
  }

  function KnownIds(j: Joined): set<string> {
    j.manifests.Keys + j.records.Keys + j.views.Keys + j.reconciliations.Keys + j.executions.Keys
    + RetentionIds(j.retention)
  }

  // ---- One item ----

  datatype Item = Item(
    backupId: string,
    createdAt: Option<int>,
    protected: bool,
    local: CopyPresence,
    remote: CopyPresence,
    state: DualCopyState,
    requiresAttention: bool,
    view: Option<DeletionView>,
    reconciliation: Option<ReconciliationResult>,
    actions: seq<Action>,
    execution: Option<Execution>
  )

  function Lookup<T>(m: map<string, T>, id: string): Option<T> {
    if id in m then Some(m[id]) else None
  }

  predicate Unsettled(state: Option<RetentionState>) {
    state.Some? && (state.value.RetentionPartial? || state.value.RetentionFailed? || state.value.RetentionUnknown?)
  }

  function LocalRetentionOf(e: RetentionEvidence, id: string): Option<RetentionState> {
    if e.localResult.Some? && (id in e.localResult.value.removedIds || id in e.localResult.value.remainingIds)
    then Some(e.localResult.value.state) else None
  }

  function RemoteRetentionOf(e: RetentionEvidence, id: string): Option<RetentionState> {
    if e.remoteResult.Some? && (id in e.remoteResult.value.removedIds || id in e.remoteResult.value.remainingIds)
    then Some(e.remoteResult.value.state) else None
  }

  // `tuple(dict.fromkeys(actions))`
  function Unique(actions: seq<Action>): seq<Action> {
    if actions == [] then []
    else
      var init, last := Unique(actions[..|actions| - 1]), actions[|actions| - 1];
      if last in init then init else init + [last]
  }

  // The first part of `_actions`, offered to protected backups as well.
  function PassiveActions(
    state: DualCopyState, view: Option<DeletionView>, local: Option<RetentionState>, remote: Option<RetentionState>,
    cleanupPending: bool
  ): seq<Action>
  {
    (if state.StateUnknown? then [if view.Some? then ReconcileCopies else RefreshInventory] else [])
    + (if Unsettled(remote) || Unsettled(local) then [RefreshInventory] else [])
    + (if view.Some? && view.value.cleanupPending then [RetryStagingCleanup] else [])
    + (if cleanupPending then [RetryRetentionStagingCleanup] else [])
  }

  // The action that continues a recorded deletion.
  function FollowUp(state: DualCopyState, result: DeletionResult): seq<Action> {
    if result.remoteOutcome.OutcomeUnknown? then [RecoverRemoteResult]
    else if result.remoteOutcome.Failed? then (if state.BothAvailable? then [RetryRemoteDelete] else [])
    else if result.localOutcome.Failed? then (if state.LocalOnly? then [RetryLocalDelete] else [])
    else []
  }

  // `_actions`
  function ActionsFor(
    state: DualCopyState, protected: bool, view: Option<DeletionView>, local: Option<RetentionState>,
    remote: Option<RetentionState>, cleanupPending: bool
  ): seq<Action>
  {
    var passive := PassiveActions(state, view, local, remote, cleanupPending);
    if protected then passive
    else if view.None? then passive + (if state.BothAvailable? then [StartDualDelete] else [])
    else Unique(passive + FollowUp(state, view.value.result))
  }

  function WithoutMutations(actions: seq<Action>): seq<Action> {
    if actions == [] then []
    else WithoutMutations(actions[..|actions| - 1])
         + (if Mutates(actions[|actions| - 1]) then [] else [actions[|actions| - 1]])
  }

  // An unfinished evidence execution withdraws every mutating action.
  function Restrain(actions: seq<Action>, execution: Option<Execution>): seq<Action> {
    if execution.None? || execution.value.state.RunCompleted? then actions
    else
      var kept := WithoutMutations(actions);
      if RefreshInventory in kept then kept else kept + [RefreshInventory]
  }

  function Observed<T>(unknown: bool, found: map<string, T>, id: string): CopyPresence {
    if unknown then PresenceUnknown else if id in found then Present else Absent
  }

  predicate IsProtected(j: Joined, id: string) {
    (id in j.manifests && j.manifests[id].protected) || (id in j.records && j.records[id].protected)
  }

  // What was just observed of the two copies, whatever is on record.
  function LiveState(j: Joined, id: string): DualCopyState {
    if j.localUnknown || j.remoteUnknown then StateUnknown
    else CombinedState(Observed(j.localUnknown, j.manifests, id), Observed(j.remoteUnknown, j.records, id))
  }

  function LiveActions(j: Joined, id: string): seq<Action> {
    var localState, remoteState := LocalRetentionOf(j.retention, id), RemoteRetentionOf(j.retention, id);
    ActionsFor(LiveState(j, id), IsProtected(j, id), Lookup(j.views, id), localState, remoteState,
               j.retention.cleanupPending && remoteState.Some?)
  }

  function OfferedActions(j: Joined, id: string): seq<Action> {
    Restrain(LiveActions(j, id), Lookup(j.executions, id))
  }

  function ItemFor(j: Joined, id: string): Item {
    var liveLocal, liveRemote := Observed(j.localUnknown, j.manifests, id), Observed(j.remoteUnknown, j.records, id);
    var fallBack := (j.localUnknown || j.remoteUnknown) && id in j.reconciliations;
    var local := if fallBack then j.reconciliations[id].local else liveLocal;
    var remote := if fallBack then j.reconciliations[id].remote else liveRemote;
    var state := CombinedState(local, remote);
    var view, execution := Lookup(j.views, id), Lookup(j.executions, id);
    var localState, remoteState := LocalRetentionOf(j.retention, id), RemoteRetentionOf(j.retention, id);
    var attention :=
      || !Settled(state)
      || (view.Some? && view.value.result.requiresAttention)
      || Unsettled(remoteState) || Unsettled(localState)
      || (execution.Some? && !execution.value.state.RunCompleted?);
    Item(id,
         if id in j.manifests then Some(j.manifests[id].createdAt)
         else if id in j.records then Some(j.records[id].createdAt) else None,
         IsProtected(j, id), local, remote, state, attention, view, Lookup(j.reconciliations, id),
         OfferedActions(j, id), execution)
  }

  predicate ItemBefore(a: Item, b: Item) {
    match (a.createdAt, b.createdAt)
    case (Some(_), None) => true
    case (None, Some(_)) => false
    case (None, None) => LexLess(b.backupId, a.backupId)
    case (Some(x), Some(y)) => x > y || (x == y && LexLess(b.backupId, a.backupId))
  }

  // `list_for_host`: exactly one item per known backup.
  method ListForHost(
    sha: Sha256, hostId: string, fingerprint: string, cancelled: bool, local: Outcome<seq<Manifest>>,
    remote: Outcome<seq<RemoteRecord>>, e: Evidence
  ) returns (r: Outcome<seq<Item>>)
    ensures r.Ok? <==> !cancelled && Join(sha, hostId, fingerprint, local, remote, e).Ok?
    ensures r.Ok? ==>
              var j := Join(sha, hostId, fingerprint, local, remote, e).value;
              && (forall i, k | 0 <= i < k < |r.value| :: r.value[i].backupId != r.value[k].backupId)
              && (forall id :: id in KnownIds(j) <==> exists i :: 0 <= i < |r.value| && r.value[i].backupId == id)
              && (forall i | 0 <= i < |r.value| :: r.value[i] == ItemFor(j, r.value[i].backupId))
  {
    if cancelled {
      return Raised(OperationCancelled);
    }
    var joined := Join(sha, hostId, fingerprint, local, remote, e);
    if joined.Raised? {
      return Raised(joined.error);
    }
    var j := joined.value;
    var pending := KnownIds(j);
    var items: seq<Item> := [];
    while pending != {}
      invariant pending <= KnownIds(j)
      invariant Distinct(items)
      invariant forall item | item in items :: item.backupId !in pending && item == ItemFor(j, item.backupId)
      invariant forall item | item in items :: item.backupId in KnownIds(j)
      invariant forall id | id in KnownIds(j) && id !in pending :: ItemFor(j, id) in items
    {
      var id :| id in pending;
      pending := pending - {id};
      items := items + [ItemFor(j, id)];
    }
    var sorted := Sort(items, ItemBefore);
    SortDistinct(items, ItemBefore);
    SameBag(sorted, items);
    OneItemPerId(j, items, sorted);
    r := Ok(sorted);
  }

  lemma OneItemPerId(j: Joined, items: seq<Item>, sorted: seq<Item>)
    requires Distinct(sorted) && forall item :: item in sorted <==> item in items
    requires forall item | item in items :: item == ItemFor(j, item.backupId) && item.backupId in KnownIds(j)
    requires forall id | id in KnownIds(j) :: ItemFor(j, id) in items
    ensures forall i, k | 0 <= i < k < |sorted| :: sorted[i].backupId != sorted[k].backupId
    ensures forall id :: id in KnownIds(j) <==> exists i :: 0 <= i < |sorted| && sorted[i].backupId == id
    ensures forall i | 0 <= i < |sorted| :: sorted[i] == ItemFor(j, sorted[i].backupId)
  {
    forall i | 0 <= i < |sorted|
      ensures sorted[i] == ItemFor(j, sorted[i].backupId) && sorted[i].backupId in KnownIds(j)
    {
      assert sorted[i] in sorted;
    }
    forall id | id in KnownIds(j) ensures exists i :: 0 <= i < |sorted| && sorted[i].backupId == id {
      assert ItemFor(j, id) in sorted;
      var i :| 0 <= i < |sorted| && sorted[i] == ItemFor(j, id);
      assert sorted[i].backupId == id;
    }
  }

  // ---- What the actions promise ----

  lemma {:induction false} UniqueFacts(actions: seq<Action>)
    ensures forall a :: a in Unique(actions) <==> a in actions
    ensures Distinct(Unique(actions))
  {
    if actions != [] {
      UniqueFacts(actions[..|actions| - 1]);
      assert actions == actions[..|actions| - 1] + [actions[|actions| - 1]];
    }
  }

  lemma {:induction false} WithoutMutationsFacts(actions: seq<Action>)
    ensures forall a :: a in WithoutMutations(actions) <==> a in actions && !Mutates(a)
  {
    if actions != [] {
      WithoutMutationsFacts(actions[..|actions| - 1]);
      assert actions == actions[..|actions| - 1] + [actions[|actions| - 1]];
    }
  }

  lemma ActionsForFacts(
    state: DualCopyState, protected: bool, view: Option<DeletionView>, local: Option<RetentionState>,
    remote: Option<RetentionState>, cleanupPending: bool, a: Action
  )
    requires Mutates(a)
    ensures a in ActionsFor(state, protected, view, local, remote, cleanupPending) <==>
              && !protected
              && match a
                 case StartDualDelete => view.None? && state.BothAvailable?
                 case RetryRemoteDelete => view.Some? && view.value.result.remoteOutcome.Failed? && state.BothAvailable?
                 case RetryLocalDelete => view.Some? && !view.value.result.remoteOutcome.Failed?
                                          && !view.value.result.remoteOutcome.OutcomeUnknown?
                                          && view.value.result.localOutcome.Failed? && state.LocalOnly?
                 case _ => false
  {
    var passive := PassiveActions(state, view, local, remote, cleanupPending);
    assert forall b | b in passive :: !Mutates(b);
    if view.Some? {
      UniqueFacts(passive + FollowUp(state, view.value.result));
    }
  }

  lemma RestrainFacts(actions: seq<Action>, execution: Option<Execution>, a: Action)
    requires Mutates(a)
    ensures a in Restrain(actions, execution) <==>
              a in actions && (execution.Some? ==> execution.value.state.RunCompleted?)
  {
    WithoutMutationsFacts(actions);
  }

  // What the copies and the recorded deletion must look like for an action.
  predicate CalledFor(j: Joined, id: string, a: Action) {
    match a
    case StartDualDelete => id !in j.views && id in j.manifests && id in j.records
    case RetryRemoteDelete =>
      id in j.views && j.views[id].result.remoteOutcome.Failed? && id in j.manifests && id in j.records
    case RetryLocalDelete =>
      && id in j.views && j.views[id].result.localOutcome.Failed?
      && !j.views[id].result.remoteOutcome.Failed? && !j.views[id].result.remoteOutcome.OutcomeUnknown?
      && id in j.manifests && id !in j.records
    case _ => false
  }

  // Exactly when each mutating action is offered: the backup is unprotected,
  // both live copies were observed, no evidence execution is unfinished, and
  // the copies and the recorded deletion call for that action.
  lemma MutationOfferedIff(j: Joined, id: string, a: Action)
    requires Mutates(a)
    ensures a in ItemFor(j, id).actions <==>
              && !IsProtected(j, id)
              && !j.localUnknown && !j.remoteUnknown
              && (id in j.executions ==> j.executions[id].state.RunCompleted?)
              && CalledFor(j, id, a)
  {
    RestrainFacts(LiveActions(j, id), Lookup(j.executions, id), a);
    var localState, remoteState := LocalRetentionOf(j.retention, id), RemoteRetentionOf(j.retention, id);
    ActionsForFacts(LiveState(j, id), IsProtected(j, id), Lookup(j.views, id), localState, remoteState,
                    j.retention.cleanupPending && remoteState.Some?, a);
    LiveStateFacts(j, id);
  }

  lemma LiveStateFacts(j: Joined, id: string)
    ensures LiveState(j, id).BothAvailable? <==>
              !j.localUnknown && !j.remoteUnknown && id in j.manifests && id in j.records
    ensures LiveState(j, id).LocalOnly? <==>
              !j.localUnknown && !j.remoteUnknown && id in j.manifests && id !in j.records
  {
  }

  // At most one mutating action per item.
  lemma AtMostOneMutation(j: Joined, id: string, a: Action, b: Action)
    requires Mutates(a) && Mutates(b)
    requires a in ItemFor(j, id).actions && b in ItemFor(j, id).actions
    ensures a == b
  {
    MutationOfferedIff(j, id, a);
    MutationOfferedIff(j, id, b);
  }

  // A stored reconciliation changes what is displayed, never what is offered.
  lemma ReconciliationUnlocksNothing(j: Joined, id: string)
    ensures ItemFor(j, id).actions == ItemFor(j.(reconciliations := map[]), id).actions
  {
  }
}
