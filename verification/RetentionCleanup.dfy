// Resuming an interrupted removal: only the suffix that a persisted cleanup
// request names, and only while the stores still hold exactly that suffix.

module RetentionCleanup {
  import opened Foundations
  import opened Records
  import opened EvidenceStores
  import opened RetentionExecutor

  const CLEANUP_LIFETIME: int := 5 * MINUTES

  // `_validate_request` without a clock
  predicate ValidRequest(sha: Sha256, r: CleanupRequest) {
    && IsIdentifier(r.cleanupId)
    && IsDigest(r.sourceExecutionHash)
    && IsDigest(r.sourceRequestHash)
    && IsDigest(r.requestHash)
    && r.backupId != ""
    && r.hostId != ""
    && IsFingerprint(r.hostFingerprint)
    && r.expiresAt == r.createdAt + CLEANUP_LIFETIME
    && r.remainingKinds != []
    && r.requestHash == HashCleanup(sha, r)
  }

  // `_validate_request(request, now)`
  predicate ValidRequestAt(sha: Sha256, r: CleanupRequest, now: int) {
    ValidRequest(sha, r) && r.createdAt <= now <= r.expiresAt
  }

  predicate BoundRequest(r: CleanupRequest, e: Execution) {
    && r.sourceExecutionHash == e.executionHash
    && r.sourceRequestHash == e.requestHash
    && r.backupId == e.backupId
    && r.hostId == e.hostId
    && r.hostFingerprint == e.hostFingerprint
    && r.remainingKinds == e.remainingKinds
    && e.state != RunCompleted
  }

  function FindDeletion(results: seq<DeletionResult>, resultHash: string): Option<DeletionResult> {
    if results == [] then None
    else if results[0].resultHash == resultHash then Some(results[0])
    else FindDeletion(results[1..], resultHash)
  }

  function CountReconciliations(kinds: seq<Kind>): nat {
    if kinds == [] then 0
    else (if kinds[0] == ReconciliationKind then 1 else 0) + CountReconciliations(kinds[1..])
  }

  // Python's `values[n:]`, which never fails.
  function From<T>(values: seq<T>, n: nat): seq<T> {
    if n <= |values| then values[n..] else []
  }

  const MISMATCH: Error := AdapterError("evidence_retention_cleanup_binding_mismatch")

  // The guards of `resume`: the operations left to do, or a refusal.
  function Admit(
    sha: Sha256, s: Evidence, deletionOrder: seq<string>, reconciliationOrder: seq<string>, e: Execution,
    r: CleanupRequest
  ): Outcome<seq<Operation>>
    requires Elements(deletionOrder) <= s.deletions.Keys
    requires Elements(reconciliationOrder) <= s.reconciliations.Keys
  {
    if !ValidRequest(sha, r) then Raised(AdapterError("invalid_evidence_retention_cleanup_request"))
    else if !BoundRequest(r, e) then Raised(MISMATCH)
    else
      match ListHost(s.deletions, deletionOrder, DeletionStamp, e.hostId, e.hostFingerprint)
      case Raised(error) => Raised(error)
      case Ok(results) => AdmitDeletion(s, reconciliationOrder, e, FindDeletion(results, e.deletionResultHash))
  }

  function AdmitDeletion(
    s: Evidence, reconciliationOrder: seq<string>, e: Execution, deletion: Option<DeletionResult>
  ): Outcome<seq<Operation>>
    requires Elements(reconciliationOrder) <= s.reconciliations.Keys
  {
    if (DeletionKind in e.remainingKinds) != deletion.Some? then Raised(MISMATCH)
    else
      match ListForDeletion(s.reconciliations, reconciliationOrder, e.deletionResultHash, e.hostId, e.hostFingerprint)
      case Raised(error) => Raised(error)
      case Ok(current) =>
        if Hashes(current) != From(e.reconciliationResultHashes, CountReconciliations(e.removedKinds))
        then Raised(MISMATCH)
        else AdmitOperations(s, e, deletion, current)
  }

  function AdmitOperations(
    s: Evidence, e: Execution, deletion: Option<DeletionResult>, current: seq<ReconciliationResult>
  ): Outcome<seq<Operation>>
  {
    if ManifestKind in e.remainingKinds && deletion.None? then Raised(MISMATCH)
    else if ManifestKind in e.remainingKinds && LoadManifest(s.manifests, deletion.value).Raised?
      then Raised(LoadManifest(s.manifests, deletion.value).error)
    else
      var ops := LeftOver(current, deletion, ManifestKind in e.remainingKinds);
      if Kinds(ops) != e.remainingKinds then Raised(MISMATCH) else Ok(ops)
  }

  function LeftOver(
    current: seq<ReconciliationResult>, deletion: Option<DeletionResult>, withManifest: bool
  ): seq<Operation>
    requires withManifest ==> deletion.Some?
  {
    ReconciliationOps(current)
    + (if withManifest then [RemoveManifest(deletion.value)] else [])
    + (if deletion.Some? then [RemoveDeletion(deletion.value)] else [])
  }

  function ResumeRecord(
    sha: Sha256, e: Execution, r: CleanupRequest, ops: seq<Operation>, p: Progress, at: int
  ): Execution
    requires p.removed <= |ops|
  {
    RunRecord(sha, r.requestHash, e.backupId, e.hostId, e.hostFingerprint, e.deletionResultHash,
              e.reconciliationResultHashes, ops, p, "evidence_retention_cleanup_failed", at)
  }

  function ResumeEffect(
    sha: Sha256, s: Evidence, ledger: Ledger, deletionOrder: seq<string>, reconciliationOrder: seq<string>,
    e: Execution, r: CleanupRequest, ticks: Schedule, save: Fault, at: int
  ): Effect
    requires Elements(deletionOrder) <= s.deletions.Keys
    requires Elements(reconciliationOrder) <= s.reconciliations.Keys
  {
    CarryOn(sha, s, ledger, Admit(sha, s, deletionOrder, reconciliationOrder, e, r), e, r, ticks, save, at)
  }

  // What follows the guards: the removal loop and its record.
  function CarryOn(
    sha: Sha256, s: Evidence, ledger: Ledger, admitted: Outcome<seq<Operation>>, e: Execution, r: CleanupRequest,
    ticks: Schedule, save: Fault, at: int
  ): Effect
  {
    match admitted
    case Raised(error) => Effect(Rejected(error), s, ledger)
    case Ok(ops) =>
      var p := Advance(s, ops, ticks);
      var (reply, after) := Persist(sha, ledger, ResumeRecord(sha, e, r, ops, p, at), save);
      Effect(reply, p.evidence, after)
  }

  // Cleanup requests are written once; the same request may be saved again.
  function SaveRequest(
    sha: Sha256, files: Directory<CleanupRequest>, r: CleanupRequest, fault: Fault
  ): (Directory<CleanupRequest>, Outcome<CleanupRequest>)
  {
    if !ValidRequest(sha, r) then (files, Raised(AdapterError("invalid_evidence_retention_cleanup_request")))
    else if r.cleanupId !in files then Write(files, r.cleanupId, r, fault)
    else match files[r.cleanupId]
         case Damaged => (files, Raised(AdapterError("invalid_evidence_retention_cleanup_request")))
         case Stored(current) =>
           if current == r then (files, Ok(r))
           else (files, Raised(AdapterError("evidence_retention_cleanup_request_collision")))
  }

  class CleanupRequestStore {
    const sha: Sha256
    var files: Directory<CleanupRequest>

    constructor (sha: Sha256)
      ensures this.sha == sha && files == map[]
    {
      this.sha := sha;
      files := map[];
    }

    method Save(r: CleanupRequest, fault: Fault) returns (saved: Outcome<CleanupRequest>)
      modifies this
      ensures (files, saved) == SaveRequest(sha, old(files), r, fault)
    {
      if !ValidRequest(sha, r) {
        return Raised(AdapterError("invalid_evidence_retention_cleanup_request"));
      }
      if r.cleanupId in files {
        match files[r.cleanupId] {
          case Damaged => return Raised(AdapterError("invalid_evidence_retention_cleanup_request"));
          case Stored(current) =>
            if current != r {
              return Raised(AdapterError("evidence_retention_cleanup_request_collision"));
            }
            return Ok(current);
        }
      }
      var (after, written) := Write(files, r.cleanupId, r, fault);
      files := after;
      saved := written;
    }
  }

  class CleanupExecutor {
    const executor: Executor

    constructor (executor: Executor)
      ensures this.executor == executor
    {
      this.executor := executor;
    }

    method Resume(e: Execution, r: CleanupRequest, ticks: Schedule, save: Fault, at: int)
      returns (reply: Reply, ghost deletionOrder: seq<string>, ghost reconciliationOrder: seq<string>)
      modifies executor.reconciliations, executor.manifests, executor.deletions, executor.executions
      ensures Enumerates(old(executor.deletions.files), deletionOrder)
      ensures Enumerates(old(executor.reconciliations.files), reconciliationOrder)
      ensures Effect(reply, executor.Contents(), executor.executions.files)
              == ResumeEffect(executor.executions.sha, old(executor.Contents()), old(executor.executions.files),
                              deletionOrder, reconciliationOrder, e, r, ticks, save, at)
    {
      var admitted;
      admitted, deletionOrder, reconciliationOrder := Guard(e, r);
      if admitted.Raised? {
        return Rejected(admitted.error), deletionOrder, reconciliationOrder;
      }
      ghost var before := executor.Contents();
      var removed, error := executor.Run(admitted.value, ticks);
      var p := Progress(Evidence(executor.reconciliations.files, executor.manifests.files, executor.deletions.files),
                        removed, error);
      assert p == Advance(before, admitted.value, ticks);
      reply := executor.executions.Save(ResumeRecord(executor.executions.sha, e, r, admitted.value, p, at), save);
    }

    method Guard(e: Execution, r: CleanupRequest)
      returns (admitted: Outcome<seq<Operation>>, ghost deletionOrder: seq<string>,
               ghost reconciliationOrder: seq<string>)
      ensures Enumerates(executor.deletions.files, deletionOrder)
      ensures Enumerates(executor.reconciliations.files, reconciliationOrder)
      ensures admitted == Admit(executor.executions.sha, executor.Contents(), deletionOrder, reconciliationOrder, e, r)
    {
      deletionOrder := SomeOrder(executor.deletions.files);
      reconciliationOrder := SomeOrder(executor.reconciliations.files);
      if !ValidRequest(executor.executions.sha, r) {
        admitted := Raised(AdapterError("invalid_evidence_retention_cleanup_request"));
        return;
      }
      if !BoundRequest(r, e) {
        admitted := Raised(MISMATCH);
        return;
      }
      var results;
      results, deletionOrder := executor.deletions.ListForHost(e.hostId, e.hostFingerprint);
      if results.Raised? {
        admitted := Raised(results.error);
        return;
      }
      var deletion := FindDeletion(results.value, e.deletionResultHash);
      if (DeletionKind in e.remainingKinds) != deletion.Some? {
        admitted := Raised(MISMATCH);
        return;
      }
      var current;
      current, reconciliationOrder := executor.reconciliations.ListForDeletionResult(
        e.deletionResultHash, e.hostId, e.hostFingerprint);
      if current.Raised? {
        admitted := Raised(current.error);
        return;
      }
      if Hashes(current.value) != From(e.reconciliationResultHashes, CountReconciliations(e.removedKinds)) {
        admitted := Raised(MISMATCH);
        return;
      }
      if ManifestKind in e.remainingKinds {
        if deletion.None? {
          admitted := Raised(MISMATCH);
          return;
        }
        var manifest := LoadManifest(executor.manifests.files, deletion.value);
        if manifest.Raised? {
          admitted := Raised(manifest.error);
          return;
        }
      }
      var ops := LeftOver(current.value, deletion, ManifestKind in e.remainingKinds);
      if Kinds(ops) != e.remainingKinds {
        admitted := Raised(MISMATCH);
      } else {
        admitted := Ok(ops);
      }
    }
  }

  function ExecutionStamp(e: Execution): Stamp {
    Stamp(e.hostId, e.hostFingerprint, e.completedAt)
  }

  function FindExecution(executions: seq<Execution>, hash: string): Option<Execution> {
    if executions == [] then None
    else if executions[0].executionHash == hash then Some(executions[0])
    else FindExecution(executions[1..], hash)
  }

  // `new_backup_evidence_retention_cleanup_request`
  function NewRequest(sha: Sha256, cleanupId: string, e: Execution, now: int): Outcome<CleanupRequest> {
    if e.state == RunCompleted then Raised(AdapterError("evidence_retention_cleanup_not_required"))
    else
      var unsealed := CleanupRequest(cleanupId, e.executionHash, e.requestHash, e.backupId, e.hostId, e.hostFingerprint,
                                     e.remainingKinds, now, now + CLEANUP_LIFETIME, "");
      var r := unsealed.(requestHash := HashCleanup(sha, unsealed));
      if ValidRequestAt(sha, r, now) then Ok(r)
      else Raised(AdapterError("invalid_evidence_retention_cleanup_request"))
  }

  predicate UniqueRequests(executions: seq<Execution>) {
    forall i, j | 0 <= i < j < |executions| :: executions[i].requestHash != executions[j].requestHash
  }

  // `BackupEvidenceRetentionExecutionStore.list_for_host`
  function ListExecutions(
    ledger: Ledger, order: seq<string>, hostId: string, fingerprint: string
  ): Outcome<seq<Execution>>
    requires Elements(order) <= ledger.Keys
  {
    match ListHost(ledger, order, ExecutionStamp, hostId, fingerprint)
    case Raised(e) => Raised(e)
    case Ok(executions) =>
      if UniqueRequests(executions) then Ok(executions)
      else Raised(AdapterError("evidence_retention_execution_binding_mismatch"))
  }

  // `execute` up to the saving of the request: the execution to resume.
  function Authorize(
    sha: Sha256, ledger: Ledger, order: seq<string>, r: CleanupRequest, now: int, cancelled: (bool, bool, bool)
  ): Outcome<Execution>
    requires Elements(order) <= ledger.Keys
  {
    if !ValidRequestAt(sha, r, now) then Raised(AdapterError("invalid_evidence_retention_cleanup_request"))
    else if cancelled.0 then Raised(OperationCancelled)
    else
      match ListExecutions(ledger, order, r.hostId, r.hostFingerprint)
      case Raised(error) => Raised(error)
      case Ok(executions) =>
        match FindExecution(executions, r.sourceExecutionHash)
        case None => Raised(AdapterError("evidence_retention_cleanup_source_not_found"))
        case Some(e) =>
          if e.state == RunCompleted then Raised(AdapterError("evidence_retention_cleanup_not_required"))
          else if !BoundRequest(r, e) then Raised(MISMATCH)
          else if cancelled.1 then Raised(OperationCancelled)
          else Ok(e)
  }

  // The order in which each directory is listed during one call.
  datatype CleanupOrders = CleanupOrders(executions: seq<string>, deletions: seq<string>, reconciliations: seq<string>)

  ghost predicate ListsAll(s: Evidence, ledger: Ledger, o: CleanupOrders) {
    && Enumerates(ledger, o.executions)
    && Enumerates(s.deletions, o.deletions)
    && Enumerates(s.reconciliations, o.reconciliations)
  }

  // `BackupEvidenceRetentionCleanupService.execute`; the cancellation flag is
  // read on entry, before and after the request is saved.
  ghost function ServiceEffect(
    sha: Sha256, requests: Directory<CleanupRequest>, s: Evidence, ledger: Ledger, o: CleanupOrders, r: CleanupRequest,
    now: int, cancelled: (bool, bool, bool), requestSave: Fault, ticks: Schedule, save: Fault, at: int
  ): (Directory<CleanupRequest>, Effect)
    requires ListsAll(s, ledger, o)
  {
    match Authorize(sha, ledger, o.executions, r, now, cancelled)
    case Raised(error) => (requests, Effect(Rejected(error), s, ledger))
    case Ok(e) =>
      Proceed(sha, requests, r, cancelled.2, requestSave, Effect(Rejected(OperationCancelled), s, ledger),
              ResumeEffect(sha, s, ledger, o.deletions, o.reconciliations, e, r, ticks, save, at))
  }

  // What follows the checks: save the request, then leave things as they are or
  // resume.
  function Proceed(
    sha: Sha256, requests: Directory<CleanupRequest>, r: CleanupRequest, cancelled: bool, requestSave: Fault,
    left: Effect, resumed: Effect
  ): (Directory<CleanupRequest>, Effect)
  {
    var (after, saved) := SaveRequest(sha, requests, r, requestSave);
    (after,
     if saved.Raised? then left.(reply := Rejected(saved.error))
     else if cancelled then left
     else resumed)
  }

  // Authorizes a resume only from a request bound to a stored execution.
  class CleanupService {
    const requests: CleanupRequestStore
    const cleanup: CleanupExecutor

    constructor (requests: CleanupRequestStore, cleanup: CleanupExecutor)
      ensures this.requests == requests && this.cleanup == cleanup
    {
      this.requests := requests;
      this.cleanup := cleanup;
    }

    method Execute(
      r: CleanupRequest, now: int, cancelled: (bool, bool, bool), requestSave: Fault, ticks: Schedule, save: Fault,
      at: int
    ) returns (reply: Reply, ghost o: CleanupOrders)
      requires requests.sha == cleanup.executor.executions.sha
      modifies requests, cleanup.executor.reconciliations, cleanup.executor.manifests, cleanup.executor.deletions,
               cleanup.executor.executions
      ensures ListsAll(old(cleanup.executor.Contents()), old(cleanup.executor.executions.files), o)
      ensures (requests.files, Effect(reply, cleanup.executor.Contents(), cleanup.executor.executions.files))
              == ServiceEffect(requests.sha, old(requests.files), old(cleanup.executor.Contents()),
                               old(cleanup.executor.executions.files), o, r, now, cancelled, requestSave, ticks,
                               save, at)
    {
      var authorized;
      authorized, o := Check(r, now, cancelled);
      if authorized.Raised? {
        return Rejected(authorized.error), o;
      }
      ghost var deletionOrder, reconciliationOrder;
      reply, deletionOrder, reconciliationOrder :=
        SaveThenResume(authorized.value, r, cancelled.2, requestSave, ticks, save, at);
      o := CleanupOrders(o.executions, deletionOrder, reconciliationOrder);
    }

    method SaveThenResume(
      e: Execution, r: CleanupRequest, cancelled: bool, requestSave: Fault, ticks: Schedule, save: Fault, at: int
    ) returns (reply: Reply, ghost deletionOrder: seq<string>, ghost reconciliationOrder: seq<string>)
      modifies requests, cleanup.executor.reconciliations, cleanup.executor.manifests, cleanup.executor.deletions,
               cleanup.executor.executions
      ensures Enumerates(old(cleanup.executor.deletions.files), deletionOrder)
      ensures Enumerates(old(cleanup.executor.reconciliations.files), reconciliationOrder)
      ensures var s, ledger := old(cleanup.executor.Contents()), old(cleanup.executor.executions.files);
              (requests.files, Effect(reply, cleanup.executor.Contents(), cleanup.executor.executions.files))
              == Proceed(requests.sha, old(requests.files), r, cancelled, requestSave,
                         Effect(Rejected(OperationCancelled), s, ledger),
                         ResumeEffect(cleanup.executor.executions.sha, s, ledger, deletionOrder, reconciliationOrder, e,
                                      r, ticks, save, at))
    {
      deletionOrder := SomeOrder(cleanup.executor.deletions.files);
      reconciliationOrder := SomeOrder(cleanup.executor.reconciliations.files);
      var saved := requests.Save(r, requestSave);
      if saved.Raised? {
        return Rejected(saved.error), deletionOrder, reconciliationOrder;
      }
      if cancelled {
        return Rejected(OperationCancelled), deletionOrder, reconciliationOrder;
      }
      assert saved.value == r;
      reply, deletionOrder, reconciliationOrder := cleanup.Resume(e, saved.value, ticks, save, at);
    }

    // Everything before the request is saved: read-only.
    method Check(r: CleanupRequest, now: int, cancelled: (bool, bool, bool))
      returns (authorized: Outcome<Execution>, ghost o: CleanupOrders)
      ensures ListsAll(cleanup.executor.Contents(), cleanup.executor.executions.files, o)
      ensures authorized == Authorize(requests.sha, cleanup.executor.executions.files, o.executions, r, now, cancelled)
    {
      var executor := cleanup.executor;
      ghost var deletionOrder := SomeOrder(executor.deletions.files);
      ghost var reconciliationOrder := SomeOrder(executor.reconciliations.files);
      var executions, order := ScanDirectory(executor.executions.files, ExecutionStamp, r.hostId, r.hostFingerprint);
      o := CleanupOrders(order, deletionOrder, reconciliationOrder);
      if !ValidRequestAt(requests.sha, r, now) {
        return Raised(AdapterError("invalid_evidence_retention_cleanup_request")), o;
      }
      if cancelled.0 {
        return Raised(OperationCancelled), o;
      }
      if executions.Raised? {
        return Raised(executions.error), o;
      }
      if !UniqueRequests(executions.value) {
        return Raised(AdapterError("evidence_retention_execution_binding_mismatch")), o;
      }
      var source := FindExecution(executions.value, r.sourceExecutionHash);
      if source.None? {
        return Raised(AdapterError("evidence_retention_cleanup_source_not_found")), o;
      }
      if source.value.state == RunCompleted {
        return Raised(AdapterError("evidence_retention_cleanup_not_required")), o;
      }
      if !BoundRequest(r, source.value) {
        return Raised(MISMATCH), o;
      }
      if cancelled.1 {
        return Raised(OperationCancelled), o;
      }
      authorized := Ok(source.value);
    }
  }

  // Every file of a ledger holds the execution its name says.
  ghost predicate NamedByHash(ledger: Ledger) {
    forall k | k in ledger && ledger[k].Stored? :: ledger[k].value.executionHash == k
  }

  lemma {:induction false} FindExecutionFinds(executions: seq<Execution>, hash: string)
    ensures match FindExecution(executions, hash)
            case None => forall e | e in executions :: e.executionHash != hash
            case Some(e) => e in executions && e.executionHash == hash
  {
    if executions != [] {
      FindExecutionFinds(executions[1..], hash);
    }
  }

  // A cleanup goes ahead for a valid, fresh, uncancelled request bound to a
  // stored execution that is not complete, in a ledger that can be listed, once
  // the request is on disk.
  ghost predicate GoesAhead(
    sha: Sha256, requests: Directory<CleanupRequest>, ledger: Ledger, order: seq<string>, r: CleanupRequest, now: int,
    cancelled: (bool, bool, bool), requestSave: Fault
  )
    requires Elements(order) <= ledger.Keys
  {
    && ValidRequestAt(sha, r, now)
    && cancelled == (false, false, false)
    && ListExecutions(ledger, order, r.hostId, r.hostFingerprint).Ok?
    && r.sourceExecutionHash in ledger && ledger[r.sourceExecutionHash].Stored?
    && BoundRequest(r, ledger[r.sourceExecutionHash].value)
    && Saves(requests, r, requestSave)
  }

  lemma SourceIsFound(ledger: Ledger, order: seq<string>, r: CleanupRequest)
    requires Enumerates(ledger, order) && NamedByHash(ledger)
    requires ListExecutions(ledger, order, r.hostId, r.hostFingerprint).Ok?
    ensures var found := FindExecution(ListExecutions(ledger, order, r.hostId, r.hostFingerprint).value,
                                       r.sourceExecutionHash);
            found.Some? && BoundRequest(r, found.value)
            <==> && r.sourceExecutionHash in ledger && ledger[r.sourceExecutionHash].Stored?
                 && BoundRequest(r, ledger[r.sourceExecutionHash].value)
    ensures var found := FindExecution(ListExecutions(ledger, order, r.hostId, r.hostFingerprint).value,
                                       r.sourceExecutionHash);
            found.Some? ==> r.sourceExecutionHash in ledger && ledger[r.sourceExecutionHash] == Stored(found.value)
  {
    ListHostExact(ledger, order, ExecutionStamp, r.hostId, r.hostFingerprint);
    var executions := ListExecutions(ledger, order, r.hostId, r.hostFingerprint).value;
    FindExecutionFinds(executions, r.sourceExecutionHash);
    if r.sourceExecutionHash in ledger && ledger[r.sourceExecutionHash].Stored? {
      var e := ledger[r.sourceExecutionHash].value;
      if BoundRequest(r, e) {
        assert ExecutionStamp(e).hostId == r.hostId;
        assert OnHost(ledger, ExecutionStamp, r.hostId, e);
        assert e in executions;
      }
    }
  }

  lemma AuthorizedIff(
    sha: Sha256, ledger: Ledger, order: seq<string>, r: CleanupRequest, now: int, cancelled: (bool, bool, bool)
  )
    requires Enumerates(ledger, order) && NamedByHash(ledger)
    ensures var a := Authorize(sha, ledger, order, r, now, cancelled);
            && (a.Ok? <==> && ValidRequestAt(sha, r, now) && !cancelled.0 && !cancelled.1
                           && ListExecutions(ledger, order, r.hostId, r.hostFingerprint).Ok?
                           && r.sourceExecutionHash in ledger && ledger[r.sourceExecutionHash].Stored?
                           && BoundRequest(r, ledger[r.sourceExecutionHash].value))
            && (a.Ok? ==> ledger[r.sourceExecutionHash] == Stored(a.value))
  {
    if ListExecutions(ledger, order, r.hostId, r.hostFingerprint).Ok? {
      SourceIsFound(ledger, order, r);
    }
  }

  // An accepted cleanup is the resumption of its source execution, with the
  // request on disk; any other changes neither evidence nor ledger.
  lemma CleanupResumesIff(
    sha: Sha256, requests: Directory<CleanupRequest>, s: Evidence, ledger: Ledger, o: CleanupOrders, r: CleanupRequest,
    now: int, cancelled: (bool, bool, bool), requestSave: Fault, ticks: Schedule, save: Fault, at: int
  )
    requires ListsAll(s, ledger, o) && NamedByHash(ledger)
    ensures var (after, effect) :=
              ServiceEffect(sha, requests, s, ledger, o, r, now, cancelled, requestSave, ticks, save, at);
            if GoesAhead(sha, requests, ledger, o.executions, r, now, cancelled, requestSave)
            then
              && after == requests[r.cleanupId := Stored(r)]
              && effect == ResumeEffect(sha, s, ledger, o.deletions, o.reconciliations,
                                        ledger[r.sourceExecutionHash].value, r, ticks, save, at)
            else effect.reply.Rejected? && effect.evidence == s && effect.ledger == ledger
  {
    GoesAheadIff(sha, requests, ledger, o.executions, r, now, cancelled, requestSave);
    var authorized := Authorize(sha, ledger, o.executions, r, now, cancelled);
    if authorized.Ok? {
      ProceedsIff(sha, requests, r, cancelled.2, requestSave, Effect(Rejected(OperationCancelled), s, ledger),
                  ResumeEffect(sha, s, ledger, o.deletions, o.reconciliations, authorized.value, r, ticks, save, at));
    }
  }

  lemma ServiceResumes(
    sha: Sha256, requests: Directory<CleanupRequest>, s: Evidence, ledger: Ledger, o: CleanupOrders, r: CleanupRequest,
    now: int, requestSave: Fault, ticks: Schedule, save: Fault, at: int, e: Execution
  )
    requires ListsAll(s, ledger, o) && NamedByHash(ledger)
    requires GoesAhead(sha, requests, ledger, o.executions, r, now, (false, false, false), requestSave)
    requires ledger[r.sourceExecutionHash] == Stored(e)
    ensures ServiceEffect(sha, requests, s, ledger, o, r, now, (false, false, false), requestSave, ticks, save, at)
            == (requests[r.cleanupId := Stored(r)],
                ResumeEffect(sha, s, ledger, o.deletions, o.reconciliations, e, r, ticks, save, at))
  {
    CleanupResumesIff(sha, requests, s, ledger, o, r, now, (false, false, false), requestSave, ticks, save, at);
  }

  // The request is on disk, was there, or is written now.
  predicate Saves(requests: Directory<CleanupRequest>, r: CleanupRequest, fault: Fault) {
    if r.cleanupId in requests then requests[r.cleanupId] == Stored(r) else fault == Smooth
  }

  lemma GoesAheadIff(
    sha: Sha256, requests: Directory<CleanupRequest>, ledger: Ledger, order: seq<string>, r: CleanupRequest, now: int,
    cancelled: (bool, bool, bool), requestSave: Fault
  )
    requires Enumerates(ledger, order) && NamedByHash(ledger)
    ensures var authorized := Authorize(sha, ledger, order, r, now, cancelled);
            && (GoesAhead(sha, requests, ledger, order, r, now, cancelled, requestSave)
                <==> authorized.Ok? && !cancelled.2 && Saves(requests, r, requestSave))
            && (authorized.Ok? ==>
                  && ValidRequest(sha, r) && r.sourceExecutionHash in ledger
                  && ledger[r.sourceExecutionHash] == Stored(authorized.value))
  {
    AuthorizedIff(sha, ledger, order, r, now, cancelled);
  }

  // A cleanup request can be made for a valid execution exactly when it is not
  // complete and the identifier has the right shape.
  lemma RequestMadeIff(sha: Sha256, cleanupId: string, e: Execution, now: int)
    requires ValidExecution(sha, e)
    ensures NewRequest(sha, cleanupId, e, now).Ok? <==> e.state != RunCompleted && IsIdentifier(cleanupId)
  {
    var unsealed := CleanupRequest(cleanupId, e.executionHash, e.requestHash, e.backupId, e.hostId, e.hostFingerprint,
                                   e.remainingKinds, now, now + CLEANUP_LIFETIME, "");
    assert unsealed == unsealed.(requestHash := HashCleanup(sha, unsealed)).(requestHash := "");
  }

  // A request made for an execution of the ledger goes ahead, if nothing cancels
  // or refuses it, exactly during its five minutes and while the host's
  // executions can be listed.
  lemma MadeRequestGoesAheadIff(
    sha: Sha256, requests: Directory<CleanupRequest>, ledger: Ledger, order: seq<string>, cleanupId: string,
    e: Execution, made: int, now: int
  )
    requires Enumerates(ledger, order)
    requires e.executionHash in ledger && ledger[e.executionHash] == Stored(e) && cleanupId !in requests
    requires NewRequest(sha, cleanupId, e, made).Ok?
    ensures GoesAhead(sha, requests, ledger, order, NewRequest(sha, cleanupId, e, made).value, now,
                      (false, false, false), Smooth)
            <==> && made <= now <= made + CLEANUP_LIFETIME
                 && ListExecutions(ledger, order, e.hostId, e.hostFingerprint).Ok?
  {
  }

  lemma ProceedsIff(
    sha: Sha256, requests: Directory<CleanupRequest>, r: CleanupRequest, cancelled: bool, requestSave: Fault,
    left: Effect, resumed: Effect
  )
    requires ValidRequest(sha, r) && left.reply.Rejected?
    ensures var (after, effect) := Proceed(sha, requests, r, cancelled, requestSave, left, resumed);
            if !cancelled && Saves(requests, r, requestSave)
            then after == requests[r.cleanupId := Stored(r)] && effect == resumed
            else effect.reply.Rejected? && effect.evidence == left.evidence && effect.ledger == left.ledger
  {
    SavedRequest(sha, requests, r, requestSave);
  }

  lemma SavedRequest(sha: Sha256, requests: Directory<CleanupRequest>, r: CleanupRequest, fault: Fault)
    ensures var (after, saved) := SaveRequest(sha, requests, r, fault);
            && (saved.Ok? <==> ValidRequest(sha, r) && Saves(requests, r, fault))
            && (saved.Ok? ==> saved.value == r && after == requests[r.cleanupId := Stored(r)])
            && (saved.Raised? ==> after == requests || (after == requests[r.cleanupId := Stored(r)] && fault == Torn))
  {
  }
}
