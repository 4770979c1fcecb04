// What can still be removed after an interrupted run: by running the request
// again, or by resuming its record.

module RetentionRecovery {
  import opened Foundations
  import opened Records
  import opened EvidenceStores
  import opened RetentionPlanner
  import opened RetentionExecutor
  import opened RetentionCleanup
  import opened RetentionRuns
  import opened RetentionSafety
  import opened RetentionAdmission
  import opened RetentionResume
  import opened RetentionResumable
  import opened RetentionRecords

  // ---- Running again ----

  // A listing of one deletion succeeds again once some reconciliations are gone.
  lemma FewerAreListedToo(
    s: Evidence, after: Evidence, order: seq<string>, laterOrder: seq<string>, d: DeletionResult
  )
    requires Submap(after.reconciliations, s.reconciliations)
    requires Enumerates(s.reconciliations, order) && Enumerates(after.reconciliations, laterOrder)
    requires ListForDeletion(s.reconciliations, order, d.resultHash, d.hostId, d.hostFingerprint).Ok?
    ensures ListForDeletion(after.reconciliations, laterOrder, d.resultHash, d.hostId, d.hostFingerprint).Ok?
  {
    ListHostExact(s.reconciliations, order, ReconciliationStamp, d.hostId, d.hostFingerprint);
    forall k | k in after.reconciliations && ReconciliationStamp(after.reconciliations[k].value).hostId == d.hostId
      ensures ReconciliationStamp(after.reconciliations[k].value).hostFingerprint == d.hostFingerprint
    {
      assert OnHost(s.reconciliations, ReconciliationStamp, d.hostId, s.reconciliations[k].value);
    }
    ScanHostSucceeds(after.reconciliations, laterOrder, ReconciliationStamp, d.hostId, d.hostFingerprint);
  }

  // A record that was chosen is chosen again while the deletion and its manifest
  // are there.
  lemma RecordSelectedAgain(
    s: Evidence, after: Evidence, record: RetentionRecord, order: seq<string>, laterOrder: seq<string>, t: Target
  )
    requires Intact(s) && Shrunk(s, after) && after.deletions == s.deletions && after.manifests == s.manifests
    requires Enumerates(s.reconciliations, order) && Enumerates(after.reconciliations, laterOrder)
    requires SelectRecord(s, record, order, t).Ok?
    requires var d := SelectRecord(s, record, order, t).value.deletion;
             d.hostId == t.hostId && d.hostFingerprint == t.fingerprint
    ensures SelectRecord(after, record, laterOrder, t).Ok?
    ensures SelectRecord(after, record, laterOrder, t).value.deletion
            == SelectRecord(s, record, order, t).value.deletion
  {
    var c := SelectRecord(s, record, order, t).value;
    SelectedList(s, record, order, t);
    LaterListIsSmaller(s, after, order, laterOrder, c.deletion, c.reconciliations);
    ListDecides(s, after, record, order, laterOrder, t);
  }

  lemma SelectedList(s: Evidence, record: RetentionRecord, order: seq<string>, t: Target)
    requires Enumerates(s.reconciliations, order) && SelectRecord(s, record, order, t).Ok?
    ensures var c := SelectRecord(s, record, order, t).value;
            && ListForDeletion(s.reconciliations, order, c.deletion.resultHash, t.hostId, t.fingerprint)
               == Ok(c.reconciliations)
            && SameIdentity(c.reconciliations, c.deletion)
  {
  }

  // With the same deletion and manifest, choosing depends on the listing alone.
  lemma ListDecides(
    s: Evidence, after: Evidence, record: RetentionRecord, order: seq<string>, laterOrder: seq<string>, t: Target
  )
    requires after.deletions == s.deletions && after.manifests == s.manifests
    requires Enumerates(s.reconciliations, order) && Enumerates(after.reconciliations, laterOrder)
    requires SelectRecord(s, record, order, t).Ok?
    requires var d := SelectRecord(s, record, order, t).value.deletion;
             var listed := ListForDeletion(after.reconciliations, laterOrder, d.resultHash, t.hostId, t.fingerprint);
             listed.Ok? && SameIdentity(listed.value, d)
    ensures SelectRecord(after, record, laterOrder, t).Ok?
    ensures SelectRecord(after, record, laterOrder, t).value.deletion
            == SelectRecord(s, record, order, t).value.deletion
  {
  }

  lemma LaterListIsSmaller(
    s: Evidence, after: Evidence, order: seq<string>, laterOrder: seq<string>, d: DeletionResult,
    values: seq<ReconciliationResult>
  )
    requires Intact(s) && Shrunk(s, after)
    requires Enumerates(s.reconciliations, order) && Enumerates(after.reconciliations, laterOrder)
    requires ListForDeletion(s.reconciliations, order, d.resultHash, d.hostId, d.hostFingerprint) == Ok(values)
    requires SameIdentity(values, d)
    ensures var listed := ListForDeletion(after.reconciliations, laterOrder, d.resultHash, d.hostId, d.hostFingerprint);
            listed.Ok? && SameIdentity(listed.value, d)
  {
    FewerAreListedToo(s, after, order, laterOrder, d);
    var listed := ListForDeletion(after.reconciliations, laterOrder, d.resultHash, d.hostId, d.hostFingerprint).value;
    ShrunkIntact(s, after);
    ListingIsExact(s, order, d, values);
    ListingIsExact(after, laterOrder, d, listed);
    FewerAreIdentical(s, after, d, values, listed);
  }

  lemma FewerAreIdentical(
    s: Evidence, after: Evidence, d: DeletionResult, values: seq<ReconciliationResult>,
    listed: seq<ReconciliationResult>
  )
    requires Submap(after.reconciliations, s.reconciliations) && SameIdentity(values, d)
    requires forall r :: r in values <==> KeepsReconciliation(s, d, r)
    requires forall r :: r in listed <==> KeepsReconciliation(after, d, r)
    ensures SameIdentity(listed, d)
  {
    forall i | 0 <= i < |listed| ensures listed[i] in values {
      assert listed[i] in listed && KeepsReconciliation(after, d, listed[i]);
    }
  }

  lemma SelectedAgain(
    s: Evidence, orders: Orders, reconciliationOrder: seq<string>, t: Target, n: nat, laterOrder: seq<string>
  )
    requires Intact(s)
    requires ListsBoth(s.deletions, s.manifests, orders) && Enumerates(s.reconciliations, reconciliationOrder)
    requires Select(s, orders, reconciliationOrder, t).Ok?
    requires var c := Select(s, orders, reconciliationOrder, t).value;
             && n <= |c.reconciliations|
             && Enumerates(After(s, c.deletion, c.reconciliations, true, n).reconciliations, laterOrder)
    ensures var c := Select(s, orders, reconciliationOrder, t).value;
            var after := After(s, c.deletion, c.reconciliations, true, n);
            && after.deletions == s.deletions && after.manifests == s.manifests
            && Select(after, orders, laterOrder, t).Ok?
            && Select(after, orders, laterOrder, t).value.deletion == c.deletion
  {
    SelectIsRemoval(s, orders, reconciliationOrder, t);
    var c := Select(s, orders, reconciliationOrder, t).value;
    var after := After(s, c.deletion, c.reconciliations, true, n);
    AfterShrinks(s, c.deletion, c.reconciliations, true, n);
    var plan := Plan(s.deletions, s.manifests, orders, t.hostId, t.fingerprint, t.now).value;
    RecordSelectedAgain(s, after, FindRecord(plan, t.requestHash).value, reconciliationOrder, laterOrder, t);
  }

  // What is left can be removed by running the request again exactly while its
  // manifest is there.
  lemma NeverSelectedIff(s: Evidence, orders: Orders, reconciliationOrder: seq<string>, t: Target, n: nat)
    requires Intact(s)
    requires ListsBoth(s.deletions, s.manifests, orders) && Enumerates(s.reconciliations, reconciliationOrder)
    requires Select(s, orders, reconciliationOrder, t).Ok?
    ensures var c := Select(s, orders, reconciliationOrder, t).value;
            NeverSelected(After(s, c.deletion, c.reconciliations, true, n), t) <==> n > |c.reconciliations|
  {
    SelectIsRemoval(s, orders, reconciliationOrder, t);
    var c := Select(s, orders, reconciliationOrder, t).value;
    var after := After(s, c.deletion, c.reconciliations, true, n);
    if n > |c.reconciliations| {
      GoneManifestIsNoCandidate(s, c.deletion, c.reconciliations, t, n);
    } else {
      var laterOrder := SomeOrder(after.reconciliations);
      SelectedAgain(s, orders, reconciliationOrder, t, n, laterOrder);
      assert t.(now := t.now) == t;
    }
  }

  // ---- Resuming ----

  // An unfinished valid record can be asked for.
  lemma RequestExists(sha: Sha256, e: Execution) returns (r: CleanupRequest)
    requires ValidExecution(sha, e) && e.state != RunCompleted
    ensures ValidRequest(sha, r) && BoundRequest(r, e)
  {
    assert IsIdentifier("a");
    RequestMadeIff(sha, "a", e, 0);
    r := NewRequest(sha, "a", e, 0).value;
  }

  // The record of an interrupted `execute` is stuck exactly when the step it
  // failed at was torn.
  lemma NeverResumedIff(
    sha: Sha256, s: Evidence, orders: Orders, reconciliationOrder: seq<string>, t: Target, ticks: Schedule
  )
    requires Intact(s) && Uniform(s, t.hostId, t.fingerprint) && ValidDeletions(sha, s.deletions)
    requires ListsBoth(s.deletions, s.manifests, orders) && Enumerates(s.reconciliations, reconciliationOrder)
    requires Select(s, orders, reconciliationOrder, t).Ok?
    requires NoTies(s, Select(s, orders, reconciliationOrder, t).value.deletion)
    requires var c := Select(s, orders, reconciliationOrder, t).value;
             Advance(s, AllOps(c.reconciliations, c.deletion), ticks).error.Some?
    ensures var c := Select(s, orders, reconciliationOrder, t).value;
            var p := Advance(s, AllOps(c.reconciliations, c.deletion), ticks);
            NeverResumed(sha, p.evidence, ExecutionOf(sha, t, c, p)) <==> Tears(ticks(p.removed))
  {
    var c := Select(s, orders, reconciliationOrder, t).value;
    var p := Advance(s, AllOps(c.reconciliations, c.deletion), ticks);
    var e := ExecutionOf(sha, t, c, p);
    ExecutedRecordIsValid(sha, s, orders, reconciliationOrder, t, ticks);
    if Tears(ticks(p.removed)) {
      forall r, deletionOrder, laterOrder
        | Enumerates(p.evidence.deletions, deletionOrder) && Enumerates(p.evidence.reconciliations, laterOrder)
        ensures Admit(sha, p.evidence, deletionOrder, laterOrder, e, r).Raised?
      {
        if ValidRequest(sha, r) && BoundRequest(r, e) {
          ExecutorRecordIsResumableIff(sha, s, orders, reconciliationOrder, t, ticks, r, deletionOrder, laterOrder);
        }
      }
    } else {
      var r := RequestExists(sha, e);
      var deletionOrder := SomeOrder(p.evidence.deletions);
      var laterOrder := SomeOrder(p.evidence.reconciliations);
      ExecutorRecordIsResumableIff(sha, s, orders, reconciliationOrder, t, ticks, r, deletionOrder, laterOrder);
    }
  }

  // ---- Either ----

  // Some later call starts removing evidence of this deletion: a run of its
  // request, or the resumption of one of its recorded executions.
  ghost predicate Recoverable(sha: Sha256, s: Evidence, ledger: Ledger, t: Target, resultHash: string) {
    !NeverSelected(s, t) || exists k :: ResumableRecord(sha, s, ledger, resultHash, k)
  }

  ghost predicate ResumableRecord(sha: Sha256, s: Evidence, ledger: Ledger, resultHash: string, k: string) {
    && k in ledger && ledger[k].Stored? && ledger[k].value.deletionResultHash == resultHash
    && !NeverResumed(sha, s, ledger[k].value)
  }

  // The deletion has no recorded execution yet.
  ghost predicate FirstRun(ledger: Ledger, resultHash: string) {
    forall k | k in ledger && ledger[k].Stored? :: ledger[k].value.deletionResultHash != resultHash
  }

  // After a crash that left no record, what is left can still be removed exactly
  // while the manifest is there.
  lemma CrashIsRecoverableIff(
    sha: Sha256, s: Evidence, ledger: Ledger, orders: Orders, reconciliationOrder: seq<string>, t: Target, n: nat
  )
    requires Intact(s)
    requires ListsBoth(s.deletions, s.manifests, orders) && Enumerates(s.reconciliations, reconciliationOrder)
    requires Select(s, orders, reconciliationOrder, t).Ok?
    requires FirstRun(ledger, Select(s, orders, reconciliationOrder, t).value.deletion.resultHash)
    ensures var c := Select(s, orders, reconciliationOrder, t).value;
            Recoverable(sha, After(s, c.deletion, c.reconciliations, true, n), ledger, t, c.deletion.resultHash)
            <==> n <= |c.reconciliations|
  {
    NeverSelectedIff(s, orders, reconciliationOrder, t, n);
  }

  lemma RecoverableWithRecord(sha: Sha256, s: Evidence, ledger: Ledger, t: Target, e: Execution)
    requires FirstRun(ledger, e.deletionResultHash)
    ensures Recoverable(sha, s, ledger[e.executionHash := Stored(e)], t, e.deletionResultHash)
            <==> !NeverSelected(s, t) || !NeverResumed(sha, s, e)
  {
    var after := ledger[e.executionHash := Stored(e)];
    if !NeverResumed(sha, s, e) {
      assert ResumableRecord(sha, s, after, e.deletionResultHash, e.executionHash);
    }
    assert forall k | k in after && k != e.executionHash :: k in ledger && after[k] == ledger[k];
  }

  // After an interrupted first run, what is left can still be removed exactly
  // while the manifest is there, or when the failing step was not torn and the
  // record was written.
  lemma InterruptedIsRecoverableIff(
    sha: Sha256, s: Evidence, ledger: Ledger, orders: Orders, reconciliationOrder: seq<string>, t: Target,
    ticks: Schedule, save: Fault
  )
    requires Intact(s) && Uniform(s, t.hostId, t.fingerprint) && ValidDeletions(sha, s.deletions)
    requires ListsBoth(s.deletions, s.manifests, orders) && Enumerates(s.reconciliations, reconciliationOrder)
    requires Select(s, orders, reconciliationOrder, t).Ok?
    requires NoTies(s, Select(s, orders, reconciliationOrder, t).value.deletion)
    requires FirstRun(ledger, Select(s, orders, reconciliationOrder, t).value.deletion.resultHash)
    requires var c := Select(s, orders, reconciliationOrder, t).value;
             var p := Advance(s, AllOps(c.reconciliations, c.deletion), ticks);
             p.error.Some? && ExecutionOf(sha, t, c, p).executionHash !in ledger
    ensures var c := Select(s, orders, reconciliationOrder, t).value;
            var p := Advance(s, AllOps(c.reconciliations, c.deletion), ticks);
            var effect := ExecuteEffect(sha, s, ledger, orders, reconciliationOrder, t, false, ticks, save);
            Recoverable(sha, effect.evidence, effect.ledger, t, c.deletion.resultHash)
            <==> Effective(ticks, p) <= |c.reconciliations| || (!Tears(ticks(p.removed)) && save != Refused)
  {
    var c := Select(s, orders, reconciliationOrder, t).value;
    var p := Advance(s, AllOps(c.reconciliations, c.deletion), ticks);
    InterruptedLeaves(s, orders, reconciliationOrder, t, ticks);
    NeverSelectedIff(s, orders, reconciliationOrder, t, Effective(ticks, p));
    NeverResumedIff(sha, s, orders, reconciliationOrder, t, ticks);
    ExecutedRecordIsValid(sha, s, orders, reconciliationOrder, t, ticks);
    CarriedOut(sha, s, ledger, c, t, ticks, save);
    RecoverableWithRecord(sha, p.evidence, ledger, t, ExecutionOf(sha, t, c, p));
  }

  // The evidence an interrupted run leaves behind.
  lemma InterruptedLeaves(
    s: Evidence, orders: Orders, reconciliationOrder: seq<string>, t: Target, ticks: Schedule
  )
    requires Intact(s)
    requires ListsBoth(s.deletions, s.manifests, orders) && Enumerates(s.reconciliations, reconciliationOrder)
    requires Select(s, orders, reconciliationOrder, t).Ok?
    requires var c := Select(s, orders, reconciliationOrder, t).value;
             Advance(s, AllOps(c.reconciliations, c.deletion), ticks).error.Some?
    ensures var c := Select(s, orders, reconciliationOrder, t).value;
            var p := Advance(s, AllOps(c.reconciliations, c.deletion), ticks);
            p.evidence == After(s, c.deletion, c.reconciliations, true, Effective(ticks, p))
  {
    SelectIsRemoval(s, orders, reconciliationOrder, t);
    SelectedManifest(s, orders, reconciliationOrder, t);
    var c := Select(s, orders, reconciliationOrder, t).value;
    StoppedSelection(s, c, ticks, Advance(s, AllOps(c.reconciliations, c.deletion), ticks));
  }

  lemma StoppedSelection(s: Evidence, c: Selection, ticks: Schedule, p: Progress)
    requires Intact(s) && Removal(s, c.deletion, c.reconciliations, true) && Distinct(c.reconciliations)
    requires LoadManifest(s.manifests, c.deletion).Ok?
    requires AllOps(c.reconciliations, c.deletion) == LeftOver(c.reconciliations, Some(c.deletion), true)
    requires p == Advance(s, AllOps(c.reconciliations, c.deletion), ticks) && p.error.Some?
    ensures p.evidence == After(s, c.deletion, c.reconciliations, true, Effective(ticks, p))
  {
    StoppedEvidence(s, c.deletion, c.reconciliations, true, ticks, p);
  }

  // What a run leaves in the ledger.
  lemma CarriedOut(
    sha: Sha256, s: Evidence, ledger: Ledger, c: Selection, t: Target, ticks: Schedule, save: Fault
  )
    requires var e := ExecutionOf(sha, t, c, Advance(s, AllOps(c.reconciliations, c.deletion), ticks));
             ValidExecution(sha, e) && e.executionHash !in ledger
    ensures var p := Advance(s, AllOps(c.reconciliations, c.deletion), ticks);
            var e := ExecutionOf(sha, t, c, p);
            var effect := CarryOut(sha, s, ledger, Ok(c), t, ticks, save);
            && effect.evidence == p.evidence
            && e.deletionResultHash == c.deletion.resultHash
            && effect.ledger == if save == Refused then ledger else ledger[e.executionHash := Stored(e)]
  {
  }

  // ---- What a later call then achieves ----

  // Undisturbed, a run removes all evidence of its deletion and nothing else.
  lemma UndisturbedExecuteEmptiesEvidence(
    sha: Sha256, s: Evidence, ledger: Ledger, orders: Orders, reconciliationOrder: seq<string>, t: Target,
    ticks: Schedule, save: Fault
  )
    requires Intact(s) && Undisturbed(ticks)
    requires ListsBoth(s.deletions, s.manifests, orders) && Enumerates(s.reconciliations, reconciliationOrder)
    requires Select(s, orders, reconciliationOrder, t).Ok?
    ensures var c := Select(s, orders, reconciliationOrder, t).value;
            var effect := ExecuteEffect(sha, s, ledger, orders, reconciliationOrder, t, false, ticks, save);
            && !effect.reply.Rejected? && effect.reply.execution.state == RunCompleted
            && Emptied(s, effect.evidence, c.deletion)
  {
    SelectIsRemoval(s, orders, reconciliationOrder, t);
    SelectedManifest(s, orders, reconciliationOrder, t);
    var c := Select(s, orders, reconciliationOrder, t).value;
    UndisturbedLoopEmpties(s, c.deletion, c.reconciliations, true, ticks);
    CompletedRun(sha, s, ledger, c, t, ticks, save);
  }

  lemma CompletedRun(
    sha: Sha256, s: Evidence, ledger: Ledger, c: Selection, t: Target, ticks: Schedule, save: Fault
  )
    requires Advance(s, AllOps(c.reconciliations, c.deletion), ticks).error.None?
    ensures var effect := CarryOut(sha, s, ledger, Ok(c), t, ticks, save);
            && !effect.reply.Rejected? && effect.reply.execution.state == RunCompleted
            && effect.evidence == Advance(s, AllOps(c.reconciliations, c.deletion), ticks).evidence
  {
  }

  // Emptying what a loop left is emptying what it started from.
  lemma EmptiedFromStart(
    s: Evidence, d: DeletionResult, values: seq<ReconciliationResult>, n: nat, after: Evidence
  )
    requires Intact(s) && Removal(s, d, values, true) && n < |LeftOver(values, Some(d), true)|
    requires Emptied(After(s, d, values, true, n), after, d)
    ensures Emptied(s, after, d)
  {
    var left := After(s, d, values, true, n);
    forall k ensures k in after.reconciliations <==> k in s.reconciliations && !KeptFor(s, d, k) {
      if k in s.reconciliations && k !in left.reconciliations {
        var i :| 0 <= i < n && i < |values| && values[i].reconciliationId == k;
        assert values[i] in values;
      }
    }
  }

  // The record of a loop that stopped cleanly is truthful about what it left.
  lemma StoppedIsTruthful(
    s: Evidence, d: DeletionResult, values: seq<ReconciliationResult>, ticks: Schedule, e: Execution
  )
    requires Intact(s) && Removal(s, d, values, true)
    requires var p := Advance(s, LeftOver(values, Some(d), true), ticks);
             p.evidence == After(s, d, values, true, p.removed)
    requires RecordsLoop(s, d, values, true, ticks, e)
    ensures Truthful(Advance(s, LeftOver(values, Some(d), true), ticks).evidence, e)
  {
    var p := Advance(s, LeftOver(values, Some(d), true), ticks);
    AfterShrinks(s, d, values, true, p.removed);
    LoopIsTruthful(s, s, d, values, true, ticks, e, p.removed);
  }

  lemma ExecutionRecordsLoop(sha: Sha256, s: Evidence, c: Selection, t: Target, ticks: Schedule)
    requires AllOps(c.reconciliations, c.deletion) == LeftOver(c.reconciliations, Some(c.deletion), true)
    ensures var p := Advance(s, AllOps(c.reconciliations, c.deletion), ticks);
            && RecordsLoop(s, c.deletion, c.reconciliations, true, ticks, ExecutionOf(sha, t, c, p))
            && (p.error.Some? <==> ExecutionOf(sha, t, c, p).state != RunCompleted)
  {
  }

  // What an interrupted run left without tearing is intact, its record is
  // truthful, and emptying it empties what was there at the start.
  lemma CleanStopCanBeEmptied(
    sha: Sha256, s: Evidence, orders: Orders, reconciliationOrder: seq<string>, t: Target, ticks: Schedule
  )
    requires Intact(s)
    requires ListsBoth(s.deletions, s.manifests, orders) && Enumerates(s.reconciliations, reconciliationOrder)
    requires Select(s, orders, reconciliationOrder, t).Ok?
    requires var c := Select(s, orders, reconciliationOrder, t).value;
             var p := Advance(s, AllOps(c.reconciliations, c.deletion), ticks);
             p.error.Some? && !Tears(ticks(p.removed))
    ensures var c := Select(s, orders, reconciliationOrder, t).value;
            var p := Advance(s, AllOps(c.reconciliations, c.deletion), ticks);
            && Intact(p.evidence) && Truthful(p.evidence, ExecutionOf(sha, t, c, p))
            && StoredDeletion(p.evidence, c.deletion)
            && forall after | Emptied(p.evidence, after, c.deletion) :: Emptied(s, after, c.deletion)
  {
    SelectIsRemoval(s, orders, reconciliationOrder, t);
    InterruptedLeaves(s, orders, reconciliationOrder, t, ticks);
    SelectionCanBeEmptied(sha, s, Select(s, orders, reconciliationOrder, t).value, t, ticks);
  }

  lemma SelectionCanBeEmptied(sha: Sha256, s: Evidence, c: Selection, t: Target, ticks: Schedule)
    requires Intact(s) && Removal(s, c.deletion, c.reconciliations, true)
    requires AllOps(c.reconciliations, c.deletion) == LeftOver(c.reconciliations, Some(c.deletion), true)
    requires var p := Advance(s, AllOps(c.reconciliations, c.deletion), ticks);
             p.error.Some? && p.evidence == After(s, c.deletion, c.reconciliations, true, p.removed)
    ensures var p := Advance(s, AllOps(c.reconciliations, c.deletion), ticks);
            && Intact(p.evidence) && Truthful(p.evidence, ExecutionOf(sha, t, c, p))
            && StoredDeletion(p.evidence, c.deletion)
            && forall after | Emptied(p.evidence, after, c.deletion) :: Emptied(s, after, c.deletion)
  {
    var d, values, p := c.deletion, c.reconciliations, Advance(s, AllOps(c.reconciliations, c.deletion), ticks);
    AfterShrinks(s, d, values, true, p.removed);
    ShrunkIntact(s, p.evidence);
    ExecutionRecordsLoop(sha, s, c, t, ticks);
    StoppedIsTruthful(s, d, values, ticks, ExecutionOf(sha, t, c, p));
    forall after | Emptied(p.evidence, after, d) ensures Emptied(s, after, d) {
      EmptiedFromStart(s, d, values, p.removed, after);
    }
  }

  // A run stopped anywhere without tearing, then an undisturbed resumption of its
  // record: all evidence of the deletion is gone, and nothing else.
  lemma InterruptedThenResumed(
    sha: Sha256, s: Evidence, ledger: Ledger, orders: Orders, reconciliationOrder: seq<string>, t: Target,
    ticks: Schedule, r: CleanupRequest, laterDeletions: seq<string>, laterReconciliations: seq<string>,
    laterTicks: Schedule, save: Fault, at: int
  )
    requires Intact(s) && Uniform(s, t.hostId, t.fingerprint) && Undisturbed(laterTicks)
    requires ListsBoth(s.deletions, s.manifests, orders) && Enumerates(s.reconciliations, reconciliationOrder)
    requires Select(s, orders, reconciliationOrder, t).Ok?
    requires NoTies(s, Select(s, orders, reconciliationOrder, t).value.deletion)
    requires var c := Select(s, orders, reconciliationOrder, t).value;
             var p := Advance(s, AllOps(c.reconciliations, c.deletion), ticks);
             && p.error.Some? && !Tears(ticks(p.removed))
             && ValidRequest(sha, r) && BoundRequest(r, ExecutionOf(sha, t, c, p))
             && Enumerates(p.evidence.deletions, laterDeletions)
             && Enumerates(p.evidence.reconciliations, laterReconciliations)
    ensures var c := Select(s, orders, reconciliationOrder, t).value;
            var p := Advance(s, AllOps(c.reconciliations, c.deletion), ticks);
            var effect := ResumeEffect(sha, p.evidence, ledger, laterDeletions, laterReconciliations,
                                       ExecutionOf(sha, t, c, p), r, laterTicks, save, at);
            && !effect.reply.Rejected? && effect.reply.execution.state == RunCompleted
            && Emptied(s, effect.evidence, c.deletion)
  {
    var c := Select(s, orders, reconciliationOrder, t).value;
    var p := Advance(s, AllOps(c.reconciliations, c.deletion), ticks);
    CleanStopCanBeEmptied(sha, s, orders, reconciliationOrder, t, ticks);
    ExecutorRecordIsResumableIff(sha, s, orders, reconciliationOrder, t, ticks, r, laterDeletions,
                                 laterReconciliations);
    var d := UndisturbedResumeEmptiesEvidence(sha, p.evidence, ledger, laterDeletions, laterReconciliations,
                                              ExecutionOf(sha, t, c, p), r, laterTicks, save, at);
    assert d == c.deletion;
  }

  // The same through the ledger and the cleanup service: the record of the run is
  // stored, a request is made for it, and goes ahead within its five minutes.
  lemma InterruptedThenCleanedUp(
    sha: Sha256, s: Evidence, ledger: Ledger, orders: Orders, reconciliationOrder: seq<string>, t: Target,
    ticks: Schedule, requests: Directory<CleanupRequest>, cleanupId: string, made: int, now: int, o: CleanupOrders,
    laterTicks: Schedule, save: Fault, at: int
  )
    requires Intact(s) && Uniform(s, t.hostId, t.fingerprint) && ValidDeletions(sha, s.deletions)
    requires ListsBoth(s.deletions, s.manifests, orders) && Enumerates(s.reconciliations, reconciliationOrder)
    requires Select(s, orders, reconciliationOrder, t).Ok? && NamedByHash(ledger) && Undisturbed(laterTicks)
    requires NoTies(s, Select(s, orders, reconciliationOrder, t).value.deletion)
    requires IsIdentifier(cleanupId) && cleanupId !in requests && made <= now <= made + CLEANUP_LIFETIME
    requires var c := Select(s, orders, reconciliationOrder, t).value;
             var p := Advance(s, AllOps(c.reconciliations, c.deletion), ticks);
             && p.error.Some? && !Tears(ticks(p.removed))
             && ExecutionOf(sha, t, c, p).executionHash !in ledger
    requires var effect := ExecuteEffect(sha, s, ledger, orders, reconciliationOrder, t, false, ticks, Smooth);
             && ListsAll(effect.evidence, effect.ledger, o)
             && ListExecutions(effect.ledger, o.executions, t.hostId, t.fingerprint).Ok?
    ensures var c := Select(s, orders, reconciliationOrder, t).value;
            var effect := ExecuteEffect(sha, s, ledger, orders, reconciliationOrder, t, false, ticks, Smooth);
            && effect.reply.Returned? && NewRequest(sha, cleanupId, effect.reply.execution, made).Ok?
            && var r := NewRequest(sha, cleanupId, effect.reply.execution, made).value;
               var done := ServiceEffect(sha, requests, effect.evidence, effect.ledger, o, r, now,
                                         (false, false, false), Smooth, laterTicks, save, at).1;
               && !done.reply.Rejected? && done.reply.execution.state == RunCompleted
               && Emptied(s, done.evidence, c.deletion)
  {
    var c := Select(s, orders, reconciliationOrder, t).value;
    var p := Advance(s, AllOps(c.reconciliations, c.deletion), ticks);
    var e := ExecutionOf(sha, t, c, p);
    InterruptedExecuteReturns(sha, s, ledger, orders, reconciliationOrder, t, ticks);
    var after := ledger[e.executionHash := Stored(e)];
    var r := StoredRecordCleansUp(sha, requests, p.evidence, after, o, cleanupId, e, made, now, laterTicks, save, at);
    InterruptedThenResumed(sha, s, after, orders, reconciliationOrder, t, ticks, r, o.deletions, o.reconciliations,
                           laterTicks, save, at);
  }

  lemma InterruptedExecuteReturns(
    sha: Sha256, s: Evidence, ledger: Ledger, orders: Orders, reconciliationOrder: seq<string>, t: Target,
    ticks: Schedule
  )
    requires Intact(s) && ValidDeletions(sha, s.deletions)
    requires ListsBoth(s.deletions, s.manifests, orders) && Enumerates(s.reconciliations, reconciliationOrder)
    requires Select(s, orders, reconciliationOrder, t).Ok?
    requires var c := Select(s, orders, reconciliationOrder, t).value;
             var p := Advance(s, AllOps(c.reconciliations, c.deletion), ticks);
             p.error.Some? && ExecutionOf(sha, t, c, p).executionHash !in ledger
    ensures var c := Select(s, orders, reconciliationOrder, t).value;
            var p := Advance(s, AllOps(c.reconciliations, c.deletion), ticks);
            var e := ExecutionOf(sha, t, c, p);
            && ExecuteEffect(sha, s, ledger, orders, reconciliationOrder, t, false, ticks, Smooth)
               == Effect(Returned(e), p.evidence, ledger[e.executionHash := Stored(e)])
            && ValidExecution(sha, e) && e.state != RunCompleted
            && e.hostId == t.hostId && e.hostFingerprint == t.fingerprint
  {
    var c := Select(s, orders, reconciliationOrder, t).value;
    ExecutedRecordIsValid(sha, s, orders, reconciliationOrder, t, ticks);
    SelectIsRemoval(s, orders, reconciliationOrder, t);
    ExecutionRecordsLoop(sha, s, c, t, ticks);
    InterruptedRunReturns(sha, s, ledger, c, t, ticks);
  }

  // A stored unfinished record is resumed through the cleanup service.
  lemma StoredRecordCleansUp(
    sha: Sha256, requests: Directory<CleanupRequest>, s: Evidence, ledger: Ledger, o: CleanupOrders, cleanupId: string,
    e: Execution, made: int, now: int, ticks: Schedule, save: Fault, at: int
  ) returns (r: CleanupRequest)
    requires ListsAll(s, ledger, o) && NamedByHash(ledger)
    requires e.executionHash in ledger && ledger[e.executionHash] == Stored(e)
    requires ValidExecution(sha, e) && e.state != RunCompleted
    requires IsIdentifier(cleanupId) && cleanupId !in requests && made <= now <= made + CLEANUP_LIFETIME
    requires ListExecutions(ledger, o.executions, e.hostId, e.hostFingerprint).Ok?
    ensures NewRequest(sha, cleanupId, e, made) == Ok(r) && ValidRequest(sha, r) && BoundRequest(r, e)
    ensures ServiceEffect(sha, requests, s, ledger, o, r, now, (false, false, false), Smooth, ticks, save, at).1
            == ResumeEffect(sha, s, ledger, o.deletions, o.reconciliations, e, r, ticks, save, at)
  {
    r := MadeForRecord(sha, requests, ledger, o.executions, cleanupId, e, made, now);
    ServiceResumes(sha, requests, s, ledger, o, r, now, Smooth, ticks, save, at, e);
  }

  lemma InterruptedRunReturns(sha: Sha256, s: Evidence, ledger: Ledger, c: Selection, t: Target, ticks: Schedule)
    requires var e := ExecutionOf(sha, t, c, Advance(s, AllOps(c.reconciliations, c.deletion), ticks));
             ValidExecution(sha, e) && e.executionHash !in ledger
    ensures var p := Advance(s, AllOps(c.reconciliations, c.deletion), ticks);
            var e := ExecutionOf(sha, t, c, p);
            && CarryOut(sha, s, ledger, Ok(c), t, ticks, Smooth)
               == Effect(Returned(e), p.evidence, ledger[e.executionHash := Stored(e)])
            && e.hostId == t.hostId && e.hostFingerprint == t.fingerprint
  {
  }

  lemma MadeForRecord(
    sha: Sha256, requests: Directory<CleanupRequest>, ledger: Ledger, order: seq<string>, cleanupId: string,
    e: Execution, made: int, now: int
  ) returns (r: CleanupRequest)
    requires Enumerates(ledger, order) && e.executionHash in ledger && ledger[e.executionHash] == Stored(e)
    requires ValidExecution(sha, e) && e.state != RunCompleted
    requires IsIdentifier(cleanupId) && cleanupId !in requests && made <= now <= made + CLEANUP_LIFETIME
    requires ListExecutions(ledger, order, e.hostId, e.hostFingerprint).Ok?
    ensures NewRequest(sha, cleanupId, e, made) == Ok(r)
    ensures ValidRequest(sha, r) && BoundRequest(r, e) && r.sourceExecutionHash == e.executionHash
    ensures GoesAhead(sha, requests, ledger, order, r, now, (false, false, false), Smooth)
  {
    RequestMadeIff(sha, cleanupId, e, made);
    MadeRequestGoesAheadIff(sha, requests, ledger, order, cleanupId, e, made, now);
    r := NewRequest(sha, cleanupId, e, made).value;
  }

  // ---- A second resume ----

  // Disturbed at step `n` only, by a cancellation.
  function CancelAt(n: nat): Schedule {
    (i: nat) => Tick(i == n, Smooth)
  }

  lemma CancelledStop(at: nat -> Evidence, p: Progress, n: nat)
    requires StopsAt(at, CancelAt(n), p) && (p.error.None? ==> p.removed > n)
    ensures p.removed == n && p.error.Some? && p.evidence == at(n)
  {
    assert CancelAt(n)(n) == Tick(true, Smooth);
    assert p.error.Some? ==> CancelAt(n)(p.removed) != Tick(false, Smooth);
    assert forall i | 0 <= i < p.removed :: CancelAt(n)(i) == Tick(false, Smooth);
  }

  // The input: a run cancelled after one reconciliation, and the resumption of its
  // record cancelled before its first step. Nothing was torn and nothing is
  // missing, but no request ever resumes the second record.
  lemma SecondResumeIsRefused(
    sha: Sha256, s: Evidence, orders: Orders, reconciliationOrder: seq<string>, t: Target, r: CleanupRequest,
    laterDeletions: seq<string>, laterReconciliations: seq<string>, at: int
  )
    requires Intact(s) && Uniform(s, t.hostId, t.fingerprint)
    requires ListsBoth(s.deletions, s.manifests, orders) && Enumerates(s.reconciliations, reconciliationOrder)
    requires Select(s, orders, reconciliationOrder, t).Ok?
    requires Select(s, orders, reconciliationOrder, t).value.reconciliations != []
    requires NoTies(s, Select(s, orders, reconciliationOrder, t).value.deletion)
    requires var c := Select(s, orders, reconciliationOrder, t).value;
             var p := Advance(s, AllOps(c.reconciliations, c.deletion), CancelAt(1));
             && ValidRequest(sha, r) && BoundRequest(r, ExecutionOf(sha, t, c, p))
             && Enumerates(p.evidence.deletions, laterDeletions)
             && Enumerates(p.evidence.reconciliations, laterReconciliations)
    ensures var c := Select(s, orders, reconciliationOrder, t).value;
            var p := Advance(s, AllOps(c.reconciliations, c.deletion), CancelAt(1));
            var e := ExecutionOf(sha, t, c, p);
            var admitted := Admit(sha, p.evidence, laterDeletions, laterReconciliations, e, r);
            && p.removed == 1 && p.error.Some? && admitted.Ok?
            && var q := Advance(p.evidence, admitted.value, CancelAt(0));
               && q.evidence == p.evidence && q.error.Some?
               && NeverResumed(sha, q.evidence, ResumeRecord(sha, e, r, admitted.value, q, at))
  {
    var c := Select(s, orders, reconciliationOrder, t).value;
    var p := Advance(s, AllOps(c.reconciliations, c.deletion), CancelAt(1));
    var e := ExecutionOf(sha, t, c, p);
    SelectIsRemoval(s, orders, reconciliationOrder, t);
    SelectedManifest(s, orders, reconciliationOrder, t);
    StoppedLoop(s, c.deletion, c.reconciliations, true, CancelAt(1));
    CancelledStop(States(s, c.deletion, c.reconciliations, true), p, 1);
    assert CancelAt(1)(1) == Tick(true, Smooth);
    ExecutorRecordIsResumableIff(sha, s, orders, reconciliationOrder, t, CancelAt(1), r, laterDeletions,
                                 laterReconciliations);
    CleanStopCanBeEmptied(sha, s, orders, reconciliationOrder, t, CancelAt(1));
    OneRemoved(sha, s, c, t, p);
    AfterShrinks(s, c.deletion, c.reconciliations, true, 1);
    RestConditions(s, p.evidence, c.deletion);
    ResumedRecordIsStuck(sha, p.evidence, laterDeletions, laterReconciliations, e, r, at, c.deletion);
  }

  lemma OneRemoved(sha: Sha256, s: Evidence, c: Selection, t: Target, p: Progress)
    requires c.reconciliations != [] && p.removed == 1
    ensures var e := ExecutionOf(sha, t, c, p);
            && CountReconciliations(e.removedKinds) == 1 && e.reconciliationResultHashes != []
            && e.deletionResultHash == c.deletion.resultHash
            && e.hostId == t.hostId && e.hostFingerprint == t.fingerprint
  {
    var e := ExecutionOf(sha, t, c, p);
    assert e.removedKinds == [ReconciliationKind];
    assert CountReconciliations([ReconciliationKind][1..]) == 0;
  }

  lemma ResumedRecordIsStuck(
    sha: Sha256, s: Evidence, deletionOrder: seq<string>, reconciliationOrder: seq<string>, e: Execution,
    r: CleanupRequest, at: int, d: DeletionResult
  )
    requires Intact(s) && Truthful(s, e) && Uniform(s, e.hostId, e.hostFingerprint)
    requires StoredDeletion(s, d) && d.resultHash == e.deletionResultHash && NoTies(s, d)
    requires Enumerates(s.deletions, deletionOrder) && Enumerates(s.reconciliations, reconciliationOrder)
    requires Admit(sha, s, deletionOrder, reconciliationOrder, e, r).Ok?
    requires CountReconciliations(e.removedKinds) > 0 && e.reconciliationResultHashes != []
    ensures var ops := Admit(sha, s, deletionOrder, reconciliationOrder, e, r).value;
            var q := Advance(s, ops, CancelAt(0));
            q.evidence == s && q.error.Some? && NeverResumed(sha, s, ResumeRecord(sha, e, r, ops, q, at))
  {
    var ops := Admit(sha, s, deletionOrder, reconciliationOrder, e, r).value;
    AdmittedKinds(sha, s, deletionOrder, reconciliationOrder, e, r);
    assert |Kinds(ops)| == |ops|;
    CancelledAtOnce(s, ops, CancelAt(0), |ops|);
    assert ops[..|ops|] == ops;
    var q := Advance(s, ops, CancelAt(0));
    var record := ResumeRecord(sha, e, r, ops, q, at);
    forall later, deletions, reconciliations
      | Enumerates(s.deletions, deletions) && Enumerates(s.reconciliations, reconciliations)
      ensures Admit(sha, s, deletions, reconciliations, record, later).Raised?
    {
      if ValidRequest(sha, later) && BoundRequest(later, record) {
        ResumedRecordIsResumableIff(sha, s, deletionOrder, reconciliationOrder, e, r, CancelAt(0), at, later, deletions,
                                    reconciliations);
      }
    }
  }
}
