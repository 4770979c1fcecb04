// Running a retention request or a cleanup request again: the ledger then holds
// two executions of one request, and the host's executions cannot be listed any
// more.

module RetentionReruns {
  import opened Foundations
  import opened Records
  import opened EvidenceStores
  import opened RetentionPlanner
  import opened RetentionExecutor
  import opened RetentionCleanup
  import opened RetentionRuns
  import opened RetentionRecords
  import opened RetentionResume
  import opened BackupEvidence
  import BackupInventory

  // Records are kept under their own hash and never overwritten.
  lemma ReturnedIsStored(
    sha: Sha256, s: Evidence, ledger: Ledger, orders: RetentionPlanner.Orders, reconciliationOrder: seq<string>,
    t: Target, cancelled: bool, ticks: Schedule, save: Fault
  )
    requires ListsBoth(s.deletions, s.manifests, orders) && Enumerates(s.reconciliations, reconciliationOrder)
    requires ExecuteEffect(sha, s, ledger, orders, reconciliationOrder, t, cancelled, ticks, save).reply.Returned?
    ensures var effect := ExecuteEffect(sha, s, ledger, orders, reconciliationOrder, t, cancelled, ticks, save);
            var e := effect.reply.execution;
            && e.executionHash !in ledger && effect.ledger == ledger[e.executionHash := Stored(e)]
            && e.requestHash == t.requestHash && e.hostId == t.hostId
  {
    CarryOutReturns(sha, s, ledger, Select(s, orders, reconciliationOrder, t), t, ticks, save);
  }

  lemma CarryOutReturns(
    sha: Sha256, s: Evidence, ledger: Ledger, chosen: Outcome<Selection>, t: Target, ticks: Schedule, save: Fault
  )
    requires CarryOut(sha, s, ledger, chosen, t, ticks, save).reply.Returned?
    ensures var effect := CarryOut(sha, s, ledger, chosen, t, ticks, save);
            var e := effect.reply.execution;
            && e.executionHash !in ledger && effect.ledger == ledger[e.executionHash := Stored(e)]
            && e.requestHash == t.requestHash && e.hostId == t.hostId
  {
  }

  // Two calls of `execute` for one request, whatever happened during either: once
  // both have returned, the ledger repeats the request.
  lemma SecondReturnRepeats(
    sha: Sha256, s: Evidence, ledger: Ledger, orders: RetentionPlanner.Orders, reconciliationOrder: seq<string>,
    t: Target, ticks: Schedule, save: Fault, laterOrders: RetentionPlanner.Orders, laterReconciliations: seq<string>,
    now: int, laterTicks: Schedule, laterSave: Fault
  )
    requires ListsBoth(s.deletions, s.manifests, orders) && Enumerates(s.reconciliations, reconciliationOrder)
    requires var first := ExecuteEffect(sha, s, ledger, orders, reconciliationOrder, t, false, ticks, save);
             && first.reply.Returned?
             && ListsBoth(first.evidence.deletions, first.evidence.manifests, laterOrders)
             && Enumerates(first.evidence.reconciliations, laterReconciliations)
             && ExecuteEffect(sha, first.evidence, first.ledger, laterOrders, laterReconciliations, t.(now := now),
                              false, laterTicks, laterSave).reply.Returned?
    ensures var first := ExecuteEffect(sha, s, ledger, orders, reconciliationOrder, t, false, ticks, save);
            var second := ExecuteEffect(sha, first.evidence, first.ledger, laterOrders, laterReconciliations,
                                        t.(now := now), false, laterTicks, laterSave);
            RequestRepeated(second.ledger, t.hostId, first.reply.execution.executionHash,
                            second.reply.execution.executionHash)
  {
    var first := ExecuteEffect(sha, s, ledger, orders, reconciliationOrder, t, false, ticks, save);
    ReturnedIsStored(sha, s, ledger, orders, reconciliationOrder, t, false, ticks, save);
    ReturnedIsStored(sha, first.evidence, first.ledger, laterOrders, laterReconciliations, t.(now := now), false,
                     laterTicks, laterSave);
  }

  // Cancelled before its first step, a run changes no evidence and hands back a
  // failed execution, which is stored unless its hash is taken.
  lemma CancelledRun(sha: Sha256, s: Evidence, ledger: Ledger, c: Selection, t: Target, ticks: Schedule)
    requires ticks(0).cancelled
    ensures var effect := CarryOut(sha, s, ledger, Ok(c), t, ticks, Smooth);
            var e := ExecutionOf(sha, t, c, Progress(s, 0, Some(OperationCancelled)));
            && effect.evidence == s && e.state == RunFailed && e.completedAt == t.now
            && (ValidExecution(sha, e) && e.executionHash !in ledger ==>
                  effect.reply == Returned(e) && effect.ledger == ledger[e.executionHash := Stored(e)])
  {
    CancelledProgress(s, c, ticks);
  }

  // The input: a candidate whose run is cancelled at once, and run again later.
  // Both runs return, no evidence changed, and the request is repeated (or two
  // records collide).
  lemma CancelledTwiceRepeats(
    sha: Sha256, s: Evidence, orders: RetentionPlanner.Orders, reconciliationOrder: seq<string>, t: Target, now: int
  ) returns (ticks: Schedule)
    requires Intact(s) && ValidDeletions(sha, s.deletions) && now != t.now
    requires ListsBoth(s.deletions, s.manifests, orders) && Enumerates(s.reconciliations, reconciliationOrder)
    requires Select(s, orders, reconciliationOrder, t).Ok?
    requires Select(s, orders, reconciliationOrder, t.(now := now)).Ok?
    ensures var first := ExecuteEffect(sha, s, map[], orders, reconciliationOrder, t, false, ticks, Smooth);
            && first.reply.Returned? && first.evidence == s && first.reply.execution.state == RunFailed
            && var second := ExecuteEffect(sha, s, first.ledger, orders, reconciliationOrder, t.(now := now), false,
                                           ticks, Smooth);
               && second.evidence == s
               && ((second.reply.Returned?
                    && RequestRepeated(second.ledger, t.hostId, first.reply.execution.executionHash,
                                       second.reply.execution.executionHash))
                   || exists a, b :: Collision(sha, ExecutionText(a), ExecutionText(b)))
  {
    ticks := (i: nat) => Tick(true, Smooth);
    var c := Select(s, orders, reconciliationOrder, t).value;
    var c' := Select(s, orders, reconciliationOrder, t.(now := now)).value;
    ExecutedRecordIsValid(sha, s, orders, reconciliationOrder, t, ticks);
    ExecutedRecordIsValid(sha, s, orders, reconciliationOrder, t.(now := now), ticks);
    CancelledProgress(s, c, ticks);
    CancelledProgress(s, c', ticks);
    CancelledPair(sha, s, c, t, c', t.(now := now), ticks);
  }

  // The record of a run that was cancelled before its first step.
  function CancelledRecord(sha: Sha256, s: Evidence, c: Selection, t: Target): Execution {
    ExecutionOf(sha, t, c, Progress(s, 0, Some(OperationCancelled)))
  }

  lemma CancelledPair(
    sha: Sha256, s: Evidence, c: Selection, t: Target, c': Selection, t': Target, ticks: Schedule
  )
    requires ticks(0).cancelled && t'.now != t.now && t'.requestHash == t.requestHash && t'.hostId == t.hostId
    requires ValidExecution(sha, CancelledRecord(sha, s, c, t)) && ValidExecution(sha, CancelledRecord(sha, s, c', t'))
    ensures var first := CarryOut(sha, s, map[], Ok(c), t, ticks, Smooth);
            && first.reply.Returned? && first.evidence == s && first.reply.execution.state == RunFailed
            && var second := CarryOut(sha, s, first.ledger, Ok(c'), t', ticks, Smooth);
               && second.evidence == s
               && ((second.reply.Returned?
                    && RequestRepeated(second.ledger, t.hostId, first.reply.execution.executionHash,
                                       second.reply.execution.executionHash))
                   || exists a, b :: Collision(sha, ExecutionText(a), ExecutionText(b)))
  {
    var e, e' := CancelledRecord(sha, s, c, t), CancelledRecord(sha, s, c', t');
    CancelledRun(sha, s, map[], c, t, ticks);
    CancelledRun(sha, s, map[e.executionHash := Stored(e)], c', t', ticks);
    if e.executionHash == e'.executionHash {
      assert e.(executionHash := "").completedAt != e'.(executionHash := "").completedAt;
      assert Collision(sha, ExecutionText(e.(executionHash := "")), ExecutionText(e'.(executionHash := "")));
    }
  }

  lemma CancelledProgress(s: Evidence, c: Selection, ticks: Schedule)
    requires ticks(0).cancelled
    ensures Advance(s, AllOps(c.reconciliations, c.deletion), ticks) == Progress(s, 0, Some(OperationCancelled))
  {
    var ops := AllOps(c.reconciliations, c.deletion);
    CancelledAtOnce(s, ops, ticks, |ops|);
    assert ops[..|ops|] == ops;
  }

  // ---- Cleanup requests ----

  // A resume that returned stored its record under the cleanup request's hash.
  lemma CarryOnReturns(
    sha: Sha256, s: Evidence, ledger: Ledger, admitted: Outcome<seq<Operation>>, e: Execution, r: CleanupRequest,
    ticks: Schedule, save: Fault, at: int
  )
    requires CarryOn(sha, s, ledger, admitted, e, r, ticks, save, at).reply.Returned?
    ensures var effect := CarryOn(sha, s, ledger, admitted, e, r, ticks, save, at);
            StoresNew(ledger, effect, r.requestHash, e.hostId)
  {
  }

  // A call that returned stored one execution, new under its own hash.
  ghost predicate StoresNew(ledger: Ledger, effect: Effect, requestHash: string, hostId: string) {
    && effect.reply.Returned?
    && var x := effect.reply.execution;
       && x.executionHash !in ledger && effect.ledger == ledger[x.executionHash := Stored(x)]
       && x.requestHash == requestHash && x.hostId == hostId
  }

  lemma CleanupReturns(
    sha: Sha256, requests: Directory<CleanupRequest>, s: Evidence, ledger: Ledger, o: CleanupOrders, r: CleanupRequest,
    now: int, cancelled: (bool, bool, bool), requestSave: Fault, ticks: Schedule, save: Fault, at: int
  )
    requires ListsAll(s, ledger, o) && NamedByHash(ledger)
    requires ServiceEffect(sha, requests, s, ledger, o, r, now, cancelled, requestSave, ticks, save,
                           at).1.reply.Returned?
    ensures StoresNew(ledger, ServiceEffect(sha, requests, s, ledger, o, r, now, cancelled, requestSave, ticks, save,
                                            at).1, r.requestHash, r.hostId)
  {
    CleanupResumesIff(sha, requests, s, ledger, o, r, now, cancelled, requestSave, ticks, save, at);
    var e := ledger[r.sourceExecutionHash].value;
    CarryOnReturns(sha, s, ledger, Admit(sha, s, o.deletions, o.reconciliations, e, r), e, r, ticks, save, at);
  }

  lemma StoredTwice(ledger: Ledger, first: Effect, second: Effect, requestHash: string, hostId: string)
    requires StoresNew(ledger, first, requestHash, hostId) && StoresNew(first.ledger, second, requestHash, hostId)
    ensures RequestRepeated(second.ledger, hostId, first.reply.execution.executionHash,
                            second.reply.execution.executionHash)
  {
  }

  // Two calls of the cleanup service for one request, whatever happened during
  // either: once both have returned, the ledger repeats the request.
  lemma SecondCleanupRepeats(
    sha: Sha256, requests: Directory<CleanupRequest>, s: Evidence, ledger: Ledger, o: CleanupOrders, r: CleanupRequest,
    now: int, cancelled: (bool, bool, bool), requestSave: Fault, ticks: Schedule, save: Fault, at: int,
    later: CleanupOrders, laterNow: int, laterCancelled: (bool, bool, bool), laterRequestSave: Fault,
    laterTicks: Schedule, laterSave: Fault, laterAt: int
  )
    requires ListsAll(s, ledger, o) && NamedByHash(ledger)
    requires var (files, first) :=
               ServiceEffect(sha, requests, s, ledger, o, r, now, cancelled, requestSave, ticks, save, at);
             && first.reply.Returned?
             && ListsAll(first.evidence, first.ledger, later)
             && ServiceEffect(sha, files, first.evidence, first.ledger, later, r, laterNow, laterCancelled,
                              laterRequestSave, laterTicks, laterSave, laterAt).1.reply.Returned?
    ensures var (files, first) :=
              ServiceEffect(sha, requests, s, ledger, o, r, now, cancelled, requestSave, ticks, save, at);
            var second := ServiceEffect(sha, files, first.evidence, first.ledger, later, r, laterNow, laterCancelled,
                                        laterRequestSave, laterTicks, laterSave, laterAt).1;
            RequestRepeated(second.ledger, r.hostId, first.reply.execution.executionHash,
                            second.reply.execution.executionHash)
  {
    var (files, first) := ServiceEffect(sha, requests, s, ledger, o, r, now, cancelled, requestSave, ticks, save, at);
    CleanupReturns(sha, requests, s, ledger, o, r, now, cancelled, requestSave, ticks, save, at);
    CleanupReturns(sha, files, first.evidence, first.ledger, later, r, laterNow, laterCancelled, laterRequestSave,
                   laterTicks, laterSave, laterAt);
    StoredTwice(ledger, first, ServiceEffect(sha, files, first.evidence, first.ledger, later, r, laterNow,
                                             laterCancelled, laterRequestSave, laterTicks, laterSave, laterAt).1,
                r.requestHash, r.hostId);
  }

  // The record of a resume that was cancelled before its first step.
  function CancelledResumption(
    sha: Sha256, s: Evidence, e: Execution, r: CleanupRequest, ops: seq<Operation>, at: int
  ): Execution
  {
    ResumeRecord(sha, e, r, ops, Progress(s, 0, Some(OperationCancelled)), at)
  }

  lemma CancelledCarryOn(
    sha: Sha256, s: Evidence, ledger: Ledger, ops: seq<Operation>, e: Execution, r: CleanupRequest, ticks: Schedule,
    at: int
  )
    requires ops != [] && ticks(0).cancelled
    requires ValidExecution(sha, CancelledResumption(sha, s, e, r, ops, at))
    requires CancelledResumption(sha, s, e, r, ops, at).executionHash !in ledger
    ensures var x := CancelledResumption(sha, s, e, r, ops, at);
            CarryOn(sha, s, ledger, Ok(ops), e, r, ticks, Smooth, at)
            == Effect(Returned(x), s, ledger[x.executionHash := Stored(x)])
  {
    CancelledAtOnce(s, ops, ticks, |ops|);
    assert ops[..|ops|] == ops;
  }

  lemma OneMoreIsListed(
    ledger: Ledger, order: seq<string>, more: seq<string>, hostId: string, fingerprint: string, x: Execution
  )
    requires Enumerates(ledger, order) && NamedByHash(ledger) && x.executionHash !in ledger
    requires Enumerates(ledger[x.executionHash := Stored(x)], more)
    requires x.hostId == hostId && x.hostFingerprint == fingerprint
    requires forall k | k in ledger && ledger[k].Stored? :: ledger[k].value.requestHash != x.requestHash
    requires ListExecutions(ledger, order, hostId, fingerprint).Ok?
    ensures ListExecutions(ledger[x.executionHash := Stored(x)], more, hostId, fingerprint).Ok?
  {
    ListHostExact(ledger, order, ExecutionStamp, hostId, fingerprint);
    forall k | k in ledger
      ensures ledger[k].Stored? && (ledger[k].value.hostId == hostId ==> ledger[k].value.hostFingerprint == fingerprint)
    {
      if ledger[k].value.hostId == hostId {
        assert OnHost(ledger, ExecutionStamp, hostId, ledger[k].value);
        assert ExecutionStamp(ledger[k].value).hostFingerprint == fingerprint;
      }
    }
    ExecutionsListedIff(ledger, order, hostId, fingerprint);
    var after := ledger[x.executionHash := Stored(x)];
    ExecutionsListedIff(after, more, hostId, fingerprint);
    forall j, k ensures !RequestRepeated(after, hostId, j, k) {
      assert !RequestRepeated(ledger, hostId, j, k);
    }
  }

  // A cleanup that goes ahead and is cancelled before its first step.
  lemma CancelledCleanup(
    sha: Sha256, requests: Directory<CleanupRequest>, s: Evidence, ledger: Ledger, o: CleanupOrders, r: CleanupRequest,
    now: int, ticks: Schedule, at: int, e: Execution, ops: seq<Operation>
  )
    requires ListsAll(s, ledger, o) && NamedByHash(ledger) && ticks(0).cancelled
    requires GoesAhead(sha, requests, ledger, o.executions, r, now, (false, false, false), Smooth)
    requires ledger[r.sourceExecutionHash] == Stored(e) && ValidExecution(sha, e)
    requires Admit(sha, s, o.deletions, o.reconciliations, e, r) == Ok(ops)
    requires CancelledResumption(sha, s, e, r, ops, at).executionHash !in ledger
    ensures var x := CancelledResumption(sha, s, e, r, ops, at);
            && x.state == RunFailed && x.requestHash == r.requestHash && x.hostId == r.hostId
            && x.hostFingerprint == r.hostFingerprint && x.completedAt == at
            && ServiceEffect(sha, requests, s, ledger, o, r, now, (false, false, false), Smooth, ticks, Smooth, at)
               == (requests[r.cleanupId := Stored(r)],
                   Effect(Returned(x), s, ledger[x.executionHash := Stored(x)]))
  {
    ServiceResumes(sha, requests, s, ledger, o, r, now, Smooth, ticks, Smooth, at, e);
    CancelledResumptionIsValid(sha, s, o.deletions, o.reconciliations, e, r, ops, ticks, at);
    CancelledCarryOn(sha, s, ledger, ops, e, r, ticks, at);
  }

  lemma CancelledResumptionIsValid(
    sha: Sha256, s: Evidence, deletionOrder: seq<string>, reconciliationOrder: seq<string>, e: Execution,
    r: CleanupRequest, ops: seq<Operation>, ticks: Schedule, at: int
  )
    requires Enumerates(s.deletions, deletionOrder) && Enumerates(s.reconciliations, reconciliationOrder)
    requires ticks(0).cancelled && ValidExecution(sha, e) && ValidRequest(sha, r) && BoundRequest(r, e)
    requires Admit(sha, s, deletionOrder, reconciliationOrder, e, r) == Ok(ops)
    ensures var x := CancelledResumption(sha, s, e, r, ops, at);
            && ops != [] && ValidExecution(sha, x) && x.state == RunFailed && x.completedAt == at
            && x.requestHash == r.requestHash && x.hostId == r.hostId && x.hostFingerprint == r.hostFingerprint
  {
    AdmittedKinds(sha, s, deletionOrder, reconciliationOrder, e, r);
    assert |Kinds(ops)| == |ops|;
    CancelledAtOnce(s, ops, ticks, |ops|);
    assert ops[..|ops|] == ops;
    ResumedRecordIsValid(sha, s, deletionOrder, reconciliationOrder, e, r, ticks, at);
  }

  // The input: a cleanup cancelled at once, and the same request run again within
  // its five minutes. Both calls return, no evidence changed, and the request is
  // repeated (or two records collide).
  lemma CancelledCleanupRepeats(
    sha: Sha256, requests: Directory<CleanupRequest>, s: Evidence, ledger: Ledger, o: CleanupOrders, r: CleanupRequest,
    now: int, at: int, later: CleanupOrders, laterNow: int, laterAt: int, e: Execution, ops: seq<Operation>
  ) returns (ticks: Schedule)
    requires ListsAll(s, ledger, o) && NamedByHash(ledger)
    requires GoesAhead(sha, requests, ledger, o.executions, r, now, (false, false, false), Smooth)
    requires ledger[r.sourceExecutionHash] == Stored(e) && ValidExecution(sha, e)
    requires Admit(sha, s, o.deletions, o.reconciliations, e, r) == Ok(ops)
    requires forall k | k in ledger && ledger[k].Stored? :: ledger[k].value.requestHash != r.requestHash
    requires CancelledResumption(sha, s, e, r, ops, at).executionHash !in ledger
    requires CancelledResumption(sha, s, e, r, ops, laterAt).executionHash !in ledger
    requires at != laterAt && r.createdAt <= laterNow <= r.expiresAt
    requires var x := CancelledResumption(sha, s, e, r, ops, at);
             ListsAll(s, ledger[x.executionHash := Stored(x)], later)
    requires later.deletions == o.deletions && later.reconciliations == o.reconciliations
    ensures var (files, first) :=
              ServiceEffect(sha, requests, s, ledger, o, r, now, (false, false, false), Smooth, ticks, Smooth, at);
            && first.reply.Returned? && first.evidence == s && first.reply.execution.state == RunFailed
            && ListsAll(s, first.ledger, later)
            && var second := ServiceEffect(sha, files, s, first.ledger, later, r, laterNow, (false, false, false),
                                           Smooth, ticks, Smooth, laterAt).1;
               || (second.reply.Returned? && second.evidence == s
                   && RequestRepeated(second.ledger, r.hostId, first.reply.execution.executionHash,
                                      second.reply.execution.executionHash))
               || exists a, b :: Collision(sha, ExecutionText(a), ExecutionText(b))
  {
    ticks := (i: nat) => Tick(true, Smooth);
    var x, y := CancelledResumption(sha, s, e, r, ops, at), CancelledResumption(sha, s, e, r, ops, laterAt);
    CancelledCleanup(sha, requests, s, ledger, o, r, now, ticks, at, e, ops);
    if x.executionHash == y.executionHash {
      SameHashCollides(sha, s, e, r, ops, at, laterAt);
    } else {
      var after := ledger[x.executionHash := Stored(x)];
      GoesAheadAgain(sha, requests, ledger, o.executions, later.executions, r, now, laterNow, x);
      CancelledCleanup(sha, requests[r.cleanupId := Stored(r)], s, after, later, r, laterNow, ticks, laterAt, e, ops);
      StoredTwice(ledger, Effect(Returned(x), s, after),
                  Effect(Returned(y), s, after[y.executionHash := Stored(y)]), r.requestHash, r.hostId);
    }
  }

  lemma SameHashCollides(
    sha: Sha256, s: Evidence, e: Execution, r: CleanupRequest, ops: seq<Operation>, at: int, laterAt: int
  )
    requires at != laterAt
    requires CancelledResumption(sha, s, e, r, ops, at).executionHash
          == CancelledResumption(sha, s, e, r, ops, laterAt).executionHash
    ensures exists a, b :: Collision(sha, ExecutionText(a), ExecutionText(b))
  {
    var x, y := CancelledResumption(sha, s, e, r, ops, at), CancelledResumption(sha, s, e, r, ops, laterAt);
    assert x.(executionHash := "").completedAt != y.(executionHash := "").completedAt;
    assert Collision(sha, ExecutionText(x.(executionHash := "")), ExecutionText(y.(executionHash := "")));
  }

  // The same request goes ahead again after its first execution was stored.
  lemma GoesAheadAgain(
    sha: Sha256, requests: Directory<CleanupRequest>, ledger: Ledger, order: seq<string>, more: seq<string>,
    r: CleanupRequest, now: int, laterNow: int, x: Execution
  )
    requires Enumerates(ledger, order) && NamedByHash(ledger) && x.executionHash !in ledger
    requires GoesAhead(sha, requests, ledger, order, r, now, (false, false, false), Smooth)
    requires x.hostId == r.hostId && x.hostFingerprint == r.hostFingerprint && x.requestHash == r.requestHash
    requires forall k | k in ledger && ledger[k].Stored? :: ledger[k].value.requestHash != r.requestHash
    requires Enumerates(ledger[x.executionHash := Stored(x)], more) && r.createdAt <= laterNow <= r.expiresAt
    ensures GoesAhead(sha, requests[r.cleanupId := Stored(r)], ledger[x.executionHash := Stored(x)], more, r, laterNow,
                      (false, false, false), Smooth)
  {
    OneMoreIsListed(ledger, order, more, r.hostId, r.hostFingerprint, x);
  }

  // ---- What a repeated request blocks ----

  // A ledger that repeats a request of a host cannot be listed for that host,
  // authorizes none of its cleanups, and blocks everything loaded for it.
  lemma RepeatedBlocksHost(
    sha: Sha256, s: Stores, o: BackupEvidence.Orders, hostId: string, fingerprint: string, j: string, k: string,
    r: CleanupRequest, now: int, cancelled: (bool, bool, bool), retention: Outcome<BackupInventory.RetentionEvidence>,
    pending: Pending
  )
    requires s.executions.Some? && Lists(s, o) && NamedByHash(s.executions.value)
    requires RequestRepeated(s.executions.value, hostId, j, k)
    requires r.hostId == hostId && r.hostFingerprint == fingerprint
    ensures ListExecutions(s.executions.value, o.executions, hostId, fingerprint).Raised?
    ensures Authorize(sha, s.executions.value, o.executions, r, now, cancelled).Raised?
    ensures Loaded(s, o, hostId, fingerprint, retention, pending).Raised?
  {
    var ledger := s.executions.value;
    if ListHost(ledger, o.executions, ExecutionStamp, hostId, fingerprint).Ok? {
      ListHostExact(ledger, o.executions, ExecutionStamp, hostId, fingerprint);
      RepeatedIsListed(ledger, hostId, j, k,
                       ListHost(ledger, o.executions, ExecutionStamp, hostId, fingerprint).value);
    }
  }
}
