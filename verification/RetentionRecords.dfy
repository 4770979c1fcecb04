// The records of removal runs: whatever happens during a run, its record is one
// the execution store accepts, so it is never lost to its own validator.

module RetentionRecords {
  import opened Foundations
  import opened Records
  import opened EvidenceStores
  import opened RetentionPlanner
  import opened RetentionExecutor
  import opened RetentionCleanup
  import opened RetentionRuns
  import opened RetentionSafety
  import opened RetentionResume
  import BackupDeletion

  predicate Named(error: Option<Error>) {
    error.Some? && error.value.AdapterError? ==> error.value.code != ""
  }

  lemma AttemptErrorIsNamed(s: Evidence, op: Operation, tick: Tick)
    ensures Named(Attempt(s, op, tick).1)
  {
  }

  lemma {:induction false} AdvanceErrorIsNamed(s: Evidence, ops: seq<Operation>, ticks: Schedule)
    ensures Named(Advance(s, ops, ticks).error)
  {
    if ops != [] {
      var n := |ops| - 1;
      AdvanceErrorIsNamed(s, ops[..n], ticks);
      AttemptErrorIsNamed(Advance(s, ops[..n], ticks).evidence, ops[n], ticks(n));
    }
  }

  // A record of a run over some operations is valid as soon as its identities
  // and hashes are.
  lemma RunRecordIsValid(
    sha: Sha256, requestHash: string, backupId: string, hostId: string, fingerprint: string, resultHash: string,
    hashes: seq<string>, ops: seq<Operation>, p: Progress, fallback: string, at: int
  )
    requires p.removed <= |ops| && (p.error.None? <==> p.removed == |ops|)
    requires Named(p.error) && fallback != ""
    requires IsDigest(requestHash) && IsDigest(resultHash) && backupId != "" && hostId != ""
             && IsFingerprint(fingerprint)
    requires (forall i | 0 <= i < |hashes| :: IsDigest(hashes[i])) && Distinct(hashes)
    ensures ValidExecution(sha, RunRecord(sha, requestHash, backupId, hostId, fingerprint, resultHash, hashes, ops, p,
                                          fallback, at))
  {
    DistinctCardinality(hashes);
    var e := RunRecord(sha, requestHash, backupId, hostId, fingerprint, resultHash, hashes, ops, p, fallback, at);
    assert HashExecution(sha, e) == e.executionHash by {
      assert e.(executionHash := "") == e.(executionHash := "").(executionHash := "");
    }
    assert |Kinds(ops)| == |ops|;
    if p.error.Some? {
      assert |e.remainingKinds| == |ops| - p.removed;
      assert |e.removedKinds| == p.removed;
    }
  }

  lemma ListedHashes(s: Evidence, d: DeletionResult, values: seq<ReconciliationResult>)
    requires Intact(s) && Distinct(values)
    requires forall r | r in values :: KeepsReconciliation(s, d, r)
    ensures Distinct(Hashes(values)) && forall i | 0 <= i < |values| :: IsDigest(Hashes(values)[i])
  {
    forall i, j | 0 <= i < j < |values| ensures Hashes(values)[i] != Hashes(values)[j] {
      assert KeepsReconciliation(s, d, values[i]) && KeepsReconciliation(s, d, values[j]);
      assert values[i] != values[j];
    }
    forall i | 0 <= i < |values| ensures IsDigest(Hashes(values)[i]) {
      assert KeepsReconciliation(s, d, values[i]);
    }
  }

  ghost predicate ValidDeletions(sha: Sha256, files: Directory<DeletionResult>) {
    forall k | k in files && files[k].Stored? :: BackupDeletion.ValidResult(sha, files[k].value)
  }

  lemma SelectedBackup(s: Evidence, record: RetentionRecord, reconciliationOrder: seq<string>, t: Target)
    requires Enumerates(s.reconciliations, reconciliationOrder)
    requires SelectRecord(s, record, reconciliationOrder, t).Ok?
    ensures var c := SelectRecord(s, record, reconciliationOrder, t).value;
            c.record == record && record.backupId == c.deletion.backupId
  {
  }

  // `execute` always leaves a record its store accepts: it can only fail to keep
  // it when the write fails or the very same record is there already.
  lemma ExecutedRecordIsValid(
    sha: Sha256, s: Evidence, orders: Orders, reconciliationOrder: seq<string>, t: Target, ticks: Schedule
  )
    requires Intact(s) && ValidDeletions(sha, s.deletions)
    requires ListsBoth(s.deletions, s.manifests, orders) && Enumerates(s.reconciliations, reconciliationOrder)
    requires Select(s, orders, reconciliationOrder, t).Ok?
    ensures var c := Select(s, orders, reconciliationOrder, t).value;
            ValidExecution(sha, ExecutionOf(sha, t, c, Advance(s, AllOps(c.reconciliations, c.deletion), ticks)))
  {
    SelectIsRemoval(s, orders, reconciliationOrder, t);
    var record := SelectedRecord(s, orders, reconciliationOrder, t);
    SelectedBackup(s, record, reconciliationOrder, t);
    var c := Select(s, orders, reconciliationOrder, t).value;
    SelectedRecordIsValid(sha, s, c, t, ticks);
  }

  lemma SelectedRecordIsValid(sha: Sha256, s: Evidence, c: Selection, t: Target, ticks: Schedule)
    requires Intact(s) && ValidDeletions(sha, s.deletions)
    requires StoredDeletion(s, c.deletion) && Distinct(c.reconciliations) && c.record.backupId == c.deletion.backupId
    requires forall r | r in c.reconciliations :: KeepsReconciliation(s, c.deletion, r)
    requires c.deletion.requestHash == t.requestHash && c.deletion.hostId == t.hostId
    requires c.deletion.hostFingerprint == t.fingerprint
    ensures ValidExecution(sha, ExecutionOf(sha, t, c, Advance(s, AllOps(c.reconciliations, c.deletion), ticks)))
  {
    var d, ops := c.deletion, AllOps(c.reconciliations, c.deletion);
    assert BackupDeletion.ValidResult(sha, d);
    ListedHashes(s, d, c.reconciliations);
    AdvanceErrorIsNamed(s, ops, ticks);
    RunRecordIsValid(sha, t.requestHash, c.record.backupId, t.hostId, t.fingerprint, d.resultHash,
                     Hashes(c.reconciliations), ops, Advance(s, ops, ticks), "evidence_retention_failed", t.now);
  }

  // So does every `resume`, from any valid record.
  lemma ResumedRecordIsValid(
    sha: Sha256, s: Evidence, deletionOrder: seq<string>, reconciliationOrder: seq<string>, e: Execution,
    r: CleanupRequest, ticks: Schedule, at: int
  )
    requires Enumerates(s.deletions, deletionOrder) && Enumerates(s.reconciliations, reconciliationOrder)
    requires ValidExecution(sha, e) && Admit(sha, s, deletionOrder, reconciliationOrder, e, r).Ok?
    ensures var ops := Admit(sha, s, deletionOrder, reconciliationOrder, e, r).value;
            ValidExecution(sha, ResumeRecord(sha, e, r, ops, Advance(s, ops, ticks), at))
  {
    var ops := Admit(sha, s, deletionOrder, reconciliationOrder, e, r).value;
    AdvanceErrorIsNamed(s, ops, ticks);
    DistinctCardinality(e.reconciliationResultHashes);
    RunRecordIsValid(sha, r.requestHash, e.backupId, e.hostId, e.hostFingerprint, e.deletionResultHash,
                     e.reconciliationResultHashes, ops, Advance(s, ops, ticks), "evidence_retention_cleanup_failed",
                     at);
  }
}
