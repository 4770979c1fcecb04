// Removal of one candidate's evidence: reconciliations, then the manifest,
// then the deletion result, stopping at the first failure.

module RetentionExecutor {
  import opened Foundations
  import opened Records
  import opened EvidenceStores
  import opened RetentionPlanner

  datatype Evidence = Evidence(
    reconciliations: Directory<ReconciliationResult>,
    manifests: Directory<Manifest>,
    deletions: Directory<DeletionResult>
  )

  datatype Operation =
    | RemoveReconciliation(reconciliation: ReconciliationResult)
    | RemoveManifest(deletion: DeletionResult)
    | RemoveDeletion(deletion: DeletionResult)
  {
    function Kind(): Kind {
      match this
      case RemoveReconciliation(_) => ReconciliationKind
      case RemoveManifest(_) => ManifestKind
      case RemoveDeletion(_) => DeletionKind
    }
  }

  function Kinds(ops: seq<Operation>): seq<Kind> {
    seq(|ops|, i requires 0 <= i < |ops| => ops[i].Kind())
  }

  function Hashes(values: seq<ReconciliationResult>): seq<string> {
    seq(|values|, i requires 0 <= i < |values| => values[i].resultHash)
  }

  function ReconciliationOps(values: seq<ReconciliationResult>): seq<Operation> {
    seq(|values|, i requires 0 <= i < |values| => RemoveReconciliation(values[i]))
  }

  // The evidence of deletion `d` in the order it is removed.
  function AllOps(values: seq<ReconciliationResult>, d: DeletionResult): seq<Operation> {
    ReconciliationOps(values) + [RemoveManifest(d), RemoveDeletion(d)]
  }

  // What the environment does while one operation runs: whether the user has
  // cancelled by the time the flag is read, and how the unlink goes.
  datatype Tick = Tick(cancelled: bool, fault: Fault)

  type Schedule = nat -> Tick

  // One round of the removal loop.
  function Attempt(s: Evidence, op: Operation, tick: Tick): (Evidence, Option<Error>) {
    if tick.cancelled then (s, Some(OperationCancelled))
    else match op
      case RemoveReconciliation(r) =>
        var (files, error) := DeleteReconciliation(s.reconciliations, r, tick.fault);
        (s.(reconciliations := files), error)
      case RemoveManifest(d) =>
        var (files, error) := DeleteManifest(s.manifests, d, tick.fault);
        (s.(manifests := files), error)
      case RemoveDeletion(d) =>
        var (files, error) := DeleteDeletion(s.deletions, d, tick.fault);
        (s.(deletions := files), error)
  }

  // How far the loop got: how many operations returned, and what stopped it.
  datatype Progress = Progress(evidence: Evidence, removed: nat, error: Option<Error>)

  function Advance(s: Evidence, ops: seq<Operation>, ticks: Schedule): (p: Progress)
    ensures p.removed <= |ops|
    ensures p.error.None? <==> p.removed == |ops|
  {
    if ops == [] then Progress(s, 0, None)
    else
      var p := Advance(s, ops[..|ops| - 1], ticks);
      if p.error.Some? then p
      else
        var (after, error) := Attempt(p.evidence, ops[|ops| - 1], ticks(|ops| - 1));
        if error.None? then Progress(after, |ops|, None) else Progress(after, |ops| - 1, error)
  }

  function WithoutOne(s: Evidence, op: Operation): Evidence {
    match op
    case RemoveReconciliation(r) => s.(reconciliations := s.reconciliations - {r.reconciliationId})
    case RemoveManifest(d) => s.(manifests := s.manifests - {d.requestHash})
    case RemoveDeletion(d) => s.(deletions := s.deletions - {d.requestId})
  }

  // The evidence left when exactly these operations took effect.
  function Without(s: Evidence, ops: seq<Operation>): Evidence {
    if ops == [] then s else WithoutOne(Without(s, ops[..|ops| - 1]), ops[|ops| - 1])
  }

  // An operation that returns removed its file; one that fails left everything
  // alone, or unlinked the file and failed to make that durable.
  lemma AttemptEffect(s: Evidence, op: Operation, tick: Tick)
    ensures var (after, error) := Attempt(s, op, tick);
            && (error.None? ==> after == WithoutOne(s, op))
            && (error.Some?
                ==> after == s || (after == WithoutOne(s, op) && tick.fault == Torn && error == Some(OsError)))
  {
  }

  // Whatever goes wrong, the loop removes a prefix of its operations: those
  // reported as removed, and at most the one that failed (a torn unlink).
  lemma {:induction false} AdvanceRemovesPrefix(s: Evidence, ops: seq<Operation>, ticks: Schedule)
    returns (effective: nat)
    ensures var p := Advance(s, ops, ticks);
            && p.removed <= effective <= |ops|
            && effective <= p.removed + 1
            && p.evidence == Without(s, ops[..effective])
    ensures effective > Advance(s, ops, ticks).removed ==> ticks(effective - 1).fault == Torn
  {
    if ops == [] {
      effective := 0;
    } else {
      var init, last := ops[..|ops| - 1], ops[|ops| - 1];
      effective := AdvanceRemovesPrefix(s, init, ticks);
      var p := Advance(s, init, ticks);
      assert init[..effective] == ops[..effective];
      if p.error.None? {
        assert init[..effective] == init;
        AttemptEffect(p.evidence, last, ticks(|ops| - 1));
        var (after, error) := Attempt(p.evidence, last, ticks(|ops| - 1));
        assert ops[..|ops|] == ops;
        if error.None? || after != p.evidence {
          effective := |ops|;
          assert Without(s, ops) == WithoutOne(p.evidence, last);
        }
      }
    }
  }

  type Ledger = Directory<Execution>

  datatype Reply =
    | Returned(execution: Execution)
    | Unpersisted(execution: Execution, causeCode: string)  // BackupEvidenceRetentionExecutionPersistenceError
    | Rejected(error: Error)

  // `_validate_execution`
  predicate ValidExecution(sha: Sha256, e: Execution) {
    && IsDigest(e.requestHash)
    && IsDigest(e.deletionResultHash)
    && IsDigest(e.executionHash)
    && e.backupId != ""
    && e.hostId != ""
    && IsFingerprint(e.hostFingerprint)
    && (forall i | 0 <= i < |e.reconciliationResultHashes| :: IsDigest(e.reconciliationResultHashes[i]))
    && |Elements(e.reconciliationResultHashes)| == |e.reconciliationResultHashes|
    && e.executionHash == HashExecution(sha, e)
    && match e.state
       case RunCompleted => e.remainingKinds == [] && e.errorCode.None?
       case RunPartial => e.removedKinds != [] && e.remainingKinds != [] && e.errorCode.Some? && e.errorCode.value != ""
       case RunFailed => e.removedKinds == [] && e.remainingKinds != [] && e.errorCode.Some? && e.errorCode.value != ""
  }

  // `BackupEvidenceRetentionExecutionStore.save` behind `_persist`
  function Persist(sha: Sha256, ledger: Ledger, e: Execution, save: Fault): (Reply, Ledger) {
    if !ValidExecution(sha, e) then (Unpersisted(e, "invalid_evidence_retention_execution"), ledger)
    else if e.executionHash in ledger then (Unpersisted(e, "evidence_retention_execution_exists"), ledger)
    else
      var (after, written) := Write(ledger, e.executionHash, e, save);
      (if written.Ok? then Returned(e) else Unpersisted(e, "evidence_retention_execution_store_failed"), after)
  }

  // The record of a run of `ops` that got as far as `p`.
  function RunRecord(
    sha: Sha256, requestHash: string, backupId: string, hostId: string, fingerprint: string, resultHash: string,
    hashes: seq<string>, ops: seq<Operation>, p: Progress, fallback: string, at: int
  ): Execution
    requires p.removed <= |ops|
  {
    SealExecution(sha, Execution(
      requestHash, backupId, hostId, fingerprint, resultHash, hashes,
      if p.error.None? then RunCompleted else if p.removed > 0 then RunPartial else RunFailed,
      Kinds(ops)[..p.removed],
      if p.error.None? then [] else Kinds(ops)[p.removed..],
      if p.error.None? then None else Some(CodeOf(p.error.value, fallback)),
      at, ""))
  }

  class ExecutionStore {
    const sha: Sha256
    var files: Ledger

    constructor (sha: Sha256)
      ensures this.sha == sha && files == map[]
    {
      this.sha := sha;
      files := map[];
    }

    method Save(e: Execution, fault: Fault) returns (reply: Reply)
      modifies this
      ensures (reply, files) == Persist(sha, old(files), e, fault)
    {
      if !ValidExecution(sha, e) {
        return Unpersisted(e, "invalid_evidence_retention_execution");
      }
      if e.executionHash in files {
        return Unpersisted(e, "evidence_retention_execution_exists");
      }
      var (after, written) := Write(files, e.executionHash, e, fault);
      files := after;
      reply := if written.Ok? then Returned(e) else Unpersisted(e, "evidence_retention_execution_store_failed");
    }
  }

  // What one call of `execute` or `resume` does to the world.
  datatype Effect = Effect(reply: Reply, evidence: Evidence, ledger: Ledger)

  datatype Target = Target(requestHash: string, hostId: string, fingerprint: string, now: int)

  // What the guards of `execute` establish before anything is removed.
  datatype Selection = Selection(
    record: RetentionRecord,
    deletion: DeletionResult,
    reconciliations: seq<ReconciliationResult>
  )

  function FindRecord(plan: seq<RetentionRecord>, requestHash: string): Option<RetentionRecord> {
    if plan == [] then None
    else if plan[0].requestHash == requestHash then Some(plan[0])
    else FindRecord(plan[1..], requestHash)
  }

  predicate SameIdentity(values: seq<ReconciliationResult>, d: DeletionResult) {
    forall i | 0 <= i < |values| :: values[i].backupId == d.backupId && values[i].manifestHash == d.manifestHash
  }

  function Select(
    s: Evidence, orders: Orders, reconciliationOrder: seq<string>, t: Target
  ): Outcome<Selection>
    requires Elements(orders.deletions) <= s.deletions.Keys && Elements(orders.manifests) <= s.manifests.Keys
    requires Elements(reconciliationOrder) <= s.reconciliations.Keys
  {
    match Plan(s.deletions, s.manifests, orders, t.hostId, t.fingerprint, t.now)
    case Raised(e) => Raised(e)
    case Ok(plan) =>
      match FindRecord(plan, t.requestHash)
      case None => Raised(AdapterError("evidence_retention_not_candidate"))
      case Some(record) => SelectRecord(s, record, reconciliationOrder, t)
  }

  function SelectRecord(
    s: Evidence, record: RetentionRecord, reconciliationOrder: seq<string>, t: Target
  ): Outcome<Selection>
    requires Elements(reconciliationOrder) <= s.reconciliations.Keys
  {
    if record.disposition != Candidate then Raised(AdapterError("evidence_retention_not_candidate"))
    else if record.deletionRequestId.None? then Raised(AdapterError("evidence_retention_binding_mismatch"))
    else
      match LoadDeletion(s.deletions, record.deletionRequestId.value)
      case Raised(e) => Raised(e)
      case Ok(deletion) =>
        match LoadManifest(s.manifests, deletion)
        case Raised(e) => Raised(e)
        case Ok(manifest) =>
          if (manifest.backupId, manifest.hostId, manifest.hostFingerprint)
             != (record.backupId, t.hostId, Some(t.fingerprint))
          then Raised(AdapterError("evidence_retention_binding_mismatch"))
          else
            match ListForDeletion(s.reconciliations, reconciliationOrder, deletion.resultHash, t.hostId, t.fingerprint)
            case Raised(e) => Raised(e)
            case Ok(values) =>
              if !SameIdentity(values, deletion) then Raised(AdapterError("evidence_retention_binding_mismatch"))
              else Ok(Selection(record, deletion, values))
  }

  function ExecuteEffect(
    sha: Sha256, s: Evidence, ledger: Ledger, orders: Orders, reconciliationOrder: seq<string>, t: Target,
    cancelled: bool, ticks: Schedule, save: Fault
  ): Effect
    requires Elements(orders.deletions) <= s.deletions.Keys && Elements(orders.manifests) <= s.manifests.Keys
    requires Elements(reconciliationOrder) <= s.reconciliations.Keys
  {
    if cancelled then Effect(Rejected(OperationCancelled), s, ledger)
    else CarryOut(sha, s, ledger, Select(s, orders, reconciliationOrder, t), t, ticks, save)
  }

  // What follows the guards: the removal loop and its record.
  function CarryOut(
    sha: Sha256, s: Evidence, ledger: Ledger, chosen: Outcome<Selection>, t: Target, ticks: Schedule, save: Fault
  ): Effect
  {
    match chosen
    case Raised(e) => Effect(Rejected(e), s, ledger)
    case Ok(c) =>
      var p := Advance(s, AllOps(c.reconciliations, c.deletion), ticks);
      var (reply, after) := Persist(sha, ledger, ExecutionOf(sha, t, c, p), save);
      Effect(reply, p.evidence, after)
  }

  function ExecutionOf(sha: Sha256, t: Target, chosen: Selection, p: Progress): Execution
    requires p.removed <= |AllOps(chosen.reconciliations, chosen.deletion)|
  {
    RunRecord(sha, t.requestHash, chosen.record.backupId, t.hostId, t.fingerprint, chosen.deletion.resultHash,
              Hashes(chosen.reconciliations), AllOps(chosen.reconciliations, chosen.deletion), p,
              "evidence_retention_failed", t.now)
  }

  class Executor {
    const planner: Planner
    const manifests: ManifestEvidenceStore
    const deletions: DeletionResultStore
    const reconciliations: ReconciliationResultStore
    const executions: ExecutionStore

    constructor (planner: Planner, reconciliations: ReconciliationResultStore, executions: ExecutionStore)
      ensures this.planner == planner && manifests == planner.manifests && deletions == planner.deletions
      ensures this.reconciliations == reconciliations && this.executions == executions
    {
      this.planner := planner;
      this.manifests := planner.manifests;
      this.deletions := planner.deletions;
      this.reconciliations := reconciliations;
      this.executions := executions;
    }

    ghost predicate Wired() {
      planner.manifests == manifests && planner.deletions == deletions
    }

    ghost function Contents(): Evidence
      reads reconciliations, manifests, deletions
    {
      Evidence(reconciliations.files, manifests.files, deletions.files)
    }

    // `delete(value)` for one operation
    method Remove(op: Operation, tick: Tick) returns (error: Option<Error>)
      modifies reconciliations, manifests, deletions
      ensures (Contents(), error) == Attempt(old(Contents()), op, tick)
    {
      if tick.cancelled {
        return Some(OperationCancelled);
      }
      match op {
        case RemoveReconciliation(r) => error := reconciliations.Delete(r, tick.fault);
        case RemoveManifest(d) => error := manifests.Delete(d, tick.fault);
        case RemoveDeletion(d) => error := deletions.Delete(d, tick.fault);
      }
    }

    // The removal loop shared by `execute` and `resume`.
    method Run(ops: seq<Operation>, ticks: Schedule) returns (removed: nat, error: Option<Error>)
      modifies reconciliations, manifests, deletions
      ensures Progress(Contents(), removed, error) == Advance(old(Contents()), ops, ticks)
    {
      removed := 0;
      error := None;
      while removed < |ops| && error.None?
        invariant removed <= |ops|
        invariant error.None? ==> Progress(Contents(), removed, None) == Advance(old(Contents()), ops[..removed], ticks)
        invariant error.Some? ==> Progress(Contents(), removed, error) == Advance(old(Contents()), ops, ticks)
        decreases |ops| - removed, error.None?
      {
        assert ops[..removed + 1][..removed] == ops[..removed];
        error := Remove(ops[removed], ticks(removed));
        if error.None? {
          removed := removed + 1;
        } else {
          AdvanceStops(old(Contents()), ops, removed + 1, ticks);
        }
      }
      assert ops[..|ops|] == ops;
    }

    method Execute(t: Target, cancelled: bool, ticks: Schedule, save: Fault)
      returns (reply: Reply, ghost orders: Orders, ghost reconciliationOrder: seq<string>)
      requires Wired()
      modifies reconciliations, manifests, deletions, executions
      ensures ListsBoth(old(deletions.files), old(manifests.files), orders)
      ensures Enumerates(old(reconciliations.files), reconciliationOrder)
      ensures Effect(reply, Contents(), executions.files)
              == ExecuteEffect(executions.sha, old(Contents()), old(executions.files), orders,
                                           reconciliationOrder, t, cancelled, ticks, save)
    {
      if cancelled {
        ghost var deletionOrder := SomeOrder(deletions.files);
        ghost var manifestOrder := SomeOrder(manifests.files);
        orders := Orders(deletionOrder, manifestOrder);
        reconciliationOrder := SomeOrder(reconciliations.files);
        return Rejected(OperationCancelled), orders, reconciliationOrder;
      }
      var chosen;
      chosen, orders, reconciliationOrder := Choose(t);
      if chosen.Raised? {
        return Rejected(chosen.error), orders, reconciliationOrder;
      }
      var ops := AllOps(chosen.value.reconciliations, chosen.value.deletion);
      ghost var before := Contents();
      var removed, error := Run(ops, ticks);
      var p := Progress(Evidence(reconciliations.files, manifests.files, deletions.files), removed, error);
      assert p == Advance(before, ops, ticks);
      reply := executions.Save(ExecutionOf(executions.sha, t, chosen.value, p), save);
    }

    // The guards of `execute`: read-only.
    method Choose(t: Target)
      returns (r: Outcome<Selection>, ghost orders: Orders, ghost reconciliationOrder: seq<string>)
      requires Wired()
      ensures ListsBoth(deletions.files, manifests.files, orders)
      ensures Enumerates(reconciliations.files, reconciliationOrder)
      ensures r == Select(Contents(), orders, reconciliationOrder, t)
    {
      var plan;
      plan, orders := planner.PlanForHost(t.hostId, t.fingerprint, t.now, KEEP_GENERATIONS);
      reconciliationOrder := SomeOrder(reconciliations.files);
      if plan.Raised? {
        return Raised(plan.error), orders, reconciliationOrder;
      }
      var record := FindRecord(plan.value, t.requestHash);
      if record.None? {
        return Raised(AdapterError("evidence_retention_not_candidate")), orders, reconciliationOrder;
      }
      r, reconciliationOrder := ChooseRecord(record.value, t);
    }

    method ChooseRecord(record: RetentionRecord, t: Target)
      returns (r: Outcome<Selection>, ghost order: seq<string>)
      ensures Enumerates(reconciliations.files, order)
      ensures r == SelectRecord(Contents(), record, order, t)
    {
      order := SomeOrder(reconciliations.files);
      if record.disposition != Candidate {
        return Raised(AdapterError("evidence_retention_not_candidate")), order;
      }
      if record.deletionRequestId.None? {
        return Raised(AdapterError("evidence_retention_binding_mismatch")), order;
      }
      var deletion := LoadDeletion(deletions.files, record.deletionRequestId.value);
      if deletion.Raised? {
        return Raised(deletion.error), order;
      }
      var manifest := LoadManifest(manifests.files, deletion.value);
      if manifest.Raised? {
        return Raised(manifest.error), order;
      }
      if (manifest.value.backupId, manifest.value.hostId, manifest.value.hostFingerprint)
         != (record.backupId, t.hostId, Some(t.fingerprint)) {
        return Raised(AdapterError("evidence_retention_binding_mismatch")), order;
      }
      var values;
      values, order := reconciliations.ListForDeletionResult(deletion.value.resultHash, t.hostId, t.fingerprint);
      if values.Raised? {
        return Raised(values.error), order;
      }
      if !SameIdentity(values.value, deletion.value) {
        return Raised(AdapterError("evidence_retention_binding_mismatch")), order;
      }
      r := Ok(Selection(record, deletion.value, values.value));
    }
  }

  // Once an operation fails, the ones after it are not tried.
  lemma {:induction false} AdvanceStops(s: Evidence, ops: seq<Operation>, i: nat, ticks: Schedule)
    requires i <= |ops| && Advance(s, ops[..i], ticks).error.Some?
    ensures Advance(s, ops, ticks) == Advance(s, ops[..i], ticks)
  {
    if i < |ops| {
      var init := ops[..|ops| - 1];
      assert init[..i] == ops[..i];
      AdvanceStops(s, init, i, ticks);
    } else {
      assert ops[..i] == ops;
    }
  }
}
