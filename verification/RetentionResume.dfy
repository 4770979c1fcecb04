// What one `resume` removes, and when it completes.

module RetentionResume {
  import opened Foundations
  import opened Records
  import opened Sorting
  import opened EvidenceStores
  import opened RetentionPlanner
  import opened RetentionExecutor
  import opened RetentionCleanup
  import opened RetentionRuns
  import opened RetentionSafety
  import opened RetentionAdmission

  // On any stores whatever: a refused resume removes nothing; an admitted one
  // removes exactly a prefix of what the source recorded as remaining (plus at
  // most one torn unlink), and its record accounts for all of it.
  lemma ResumeRemovesRecordedPrefix(
    sha: Sha256, s: Evidence, ledger: Ledger, deletionOrder: seq<string>, reconciliationOrder: seq<string>,
    e: Execution, r: CleanupRequest, ticks: Schedule, save: Fault, at: int
  ) returns (ops: seq<Operation>, n: nat)
    requires Enumerates(s.deletions, deletionOrder) && Enumerates(s.reconciliations, reconciliationOrder)
    ensures n <= |ops|
    ensures var effect := ResumeEffect(sha, s, ledger, deletionOrder, reconciliationOrder, e, r, ticks, save, at);
            && effect.evidence == Without(s, ops[..n])
            && (effect.reply.Rejected? ==> effect.evidence == s && effect.ledger == ledger)
            && (!effect.reply.Rejected? ==>
                  var record := effect.reply.execution;
                  && Kinds(ops) == e.remainingKinds
                  && record.removedKinds + record.remainingKinds == e.remainingKinds
                  && |record.removedKinds| <= n <= |record.removedKinds| + 1
                  && record.deletionResultHash == e.deletionResultHash
                  && (record.state == RunCompleted <==> record.removedKinds == e.remainingKinds))
  {
    var admitted := Admit(sha, s, deletionOrder, reconciliationOrder, e, r);
    if admitted.Raised? {
      ops, n := [], 0;
    } else {
      ops := admitted.value;
      AdmittedKinds(sha, s, deletionOrder, reconciliationOrder, e, r);
      n := CarryOnRemovesPrefix(sha, s, ledger, ops, e, r, ticks, save, at);
    }
  }

  lemma CarryOnRemovesPrefix(
    sha: Sha256, s: Evidence, ledger: Ledger, ops: seq<Operation>, e: Execution, r: CleanupRequest, ticks: Schedule,
    save: Fault, at: int
  ) returns (n: nat)
    requires Kinds(ops) == e.remainingKinds
    ensures n <= |ops|
    ensures var effect := CarryOn(sha, s, ledger, Ok(ops), e, r, ticks, save, at);
            && effect.evidence == Without(s, ops[..n])
            && !effect.reply.Rejected?
            && var record := effect.reply.execution;
               && record.removedKinds + record.remainingKinds == e.remainingKinds
               && |record.removedKinds| <= n <= |record.removedKinds| + 1
               && record.deletionResultHash == e.deletionResultHash
               && (record.state == RunCompleted <==> record.removedKinds == e.remainingKinds)
  {
    CarryOnShape(sha, s, ledger, Ok(ops), e, r, ticks, save, at);
    n := AdvanceRemovesPrefix(s, ops, ticks);
    var p := Advance(s, ops, ticks);
    var effect := CarryOn(sha, s, ledger, Ok(ops), e, r, ticks, save, at);
    assert ResumeRecord(sha, e, r, ops, p, at) in HandedBack(effect.reply);
    assert Kinds(ops)[..p.removed] + Kinds(ops)[p.removed..] == Kinds(ops);
    assert |Kinds(ops)[..p.removed]| == p.removed;
  }

  lemma AdmittedKinds(
    sha: Sha256, s: Evidence, deletionOrder: seq<string>, reconciliationOrder: seq<string>, e: Execution,
    r: CleanupRequest
  )
    requires Enumerates(s.deletions, deletionOrder) && Enumerates(s.reconciliations, reconciliationOrder)
    requires Admit(sha, s, deletionOrder, reconciliationOrder, e, r).Ok?
    ensures Kinds(Admit(sha, s, deletionOrder, reconciliationOrder, e, r).value) == e.remainingKinds
  {
  }

  // ---- Cancellation ----

  // Cancelled before its first step, a loop changes nothing.
  lemma {:induction false} CancelledAtOnce(s: Evidence, ops: seq<Operation>, ticks: Schedule, k: nat)
    requires 0 < k <= |ops| && ticks(0).cancelled
    ensures Advance(s, ops[..k], ticks) == Progress(s, 0, Some(OperationCancelled))
  {
    assert ops[..k][..k - 1] == ops[..k - 1];
    if k > 1 {
      CancelledAtOnce(s, ops, ticks, k - 1);
    } else {
      assert ops[..0] == [];
    }
  }

  // ---- Completion ----

  ghost predicate Undisturbed(ticks: Schedule) {
    forall i: nat :: ticks(i) == Tick(false, Smooth)
  }

  lemma AdvanceStep(s: Evidence, ops: seq<Operation>, ticks: Schedule, n: nat, before: Evidence, after: Evidence)
    requires 0 < n <= |ops|
    requires Advance(s, ops[..n - 1], ticks) == Progress(before, n - 1, None)
    requires Attempt(before, ops[n - 1], ticks(n - 1)) == (after, None)
    ensures Advance(s, ops[..n], ticks) == Progress(after, n, None)
  {
    assert ops[..n][..n - 1] == ops[..n - 1];
  }

  lemma AfterStep(s: Evidence, d: DeletionResult, values: seq<ReconciliationResult>, withManifest: bool, n: nat)
    requires 0 < n <= |LeftOver(values, Some(d), withManifest)|
    ensures After(s, d, values, withManifest, n)
            == WithoutOne(After(s, d, values, withManifest, n - 1), LeftOver(values, Some(d), withManifest)[n - 1])
  {
    var ops := LeftOver(values, Some(d), withManifest);
    WithoutIsAfter(s, d, values, withManifest, n - 1);
    WithoutIsAfter(s, d, values, withManifest, n);
    assert ops[..n][..n - 1] == ops[..n - 1];
  }

  // Without faults or cancellation the loop removes all of its operations.
  lemma {:induction false} UndisturbedLoopCompletes(
    s: Evidence, d: DeletionResult, values: seq<ReconciliationResult>, withManifest: bool, ticks: Schedule, n: nat
  )
    requires Intact(s) && Removal(s, d, values, withManifest) && Distinct(values) && Undisturbed(ticks)
    requires withManifest ==> LoadManifest(s.manifests, d).Ok?
    requires n <= |LeftOver(values, Some(d), withManifest)|
    ensures Advance(s, LeftOver(values, Some(d), withManifest)[..n], ticks)
            == Progress(After(s, d, values, withManifest, n), n, None)
  {
    var ops := LeftOver(values, Some(d), withManifest);
    if n == 0 {
      WithoutIsAfter(s, d, values, withManifest, 0);
      assert ops[..0] == [];
    } else {
      var before, after := After(s, d, values, withManifest, n - 1), After(s, d, values, withManifest, n);
      UndisturbedLoopCompletes(s, d, values, withManifest, ticks, n - 1);
      assert Attempt(before, ops[n - 1], ticks(n - 1)) == (after, None) by {
        NextOperationSucceeds(s, d, values, withManifest, n);
        AfterStep(s, d, values, withManifest, n);
        AttemptEffect(before, ops[n - 1], ticks(n - 1));
      }
      AdvanceStep(s, ops, ticks, n, before, after);
    }
  }

  lemma NextOperationSucceeds(
    s: Evidence, d: DeletionResult, values: seq<ReconciliationResult>, withManifest: bool, n: nat
  )
    requires Intact(s) && Removal(s, d, values, withManifest) && Distinct(values)
    requires withManifest ==> LoadManifest(s.manifests, d).Ok?
    requires 0 < n <= |LeftOver(values, Some(d), withManifest)|
    ensures Attempt(After(s, d, values, withManifest, n - 1), LeftOver(values, Some(d), withManifest)[n - 1],
                    Tick(false, Smooth)).1.None?
  {
    var before := After(s, d, values, withManifest, n - 1);
    var op := LeftOver(values, Some(d), withManifest)[n - 1];
    if n <= |values| {
      var v := values[n - 1];
      assert op == RemoveReconciliation(v);
      assert v in values && KeepsReconciliation(s, d, v);
      assert v.reconciliationId !in Gone(values, n - 1) by {
        forall i | 0 <= i < n - 1 ensures values[i].reconciliationId != v.reconciliationId {
          assert values[i] in values && KeepsReconciliation(s, d, values[i]);
        }
      }
    } else if withManifest && n == |values| + 1 {
      assert op == RemoveManifest(d);
    } else {
      assert op == RemoveDeletion(d);
    }
  }

  // An undisturbed resume removes everything that was left of the deletion's
  // evidence and nothing else.
  lemma UndisturbedResumeEmptiesEvidence(
    sha: Sha256, s: Evidence, ledger: Ledger, deletionOrder: seq<string>, reconciliationOrder: seq<string>,
    e: Execution, r: CleanupRequest, ticks: Schedule, save: Fault, at: int
  ) returns (d: DeletionResult)
    requires Intact(s) && Truthful(s, e) && Undisturbed(ticks)
    requires Enumerates(s.deletions, deletionOrder) && Enumerates(s.reconciliations, reconciliationOrder)
    requires Admit(sha, s, deletionOrder, reconciliationOrder, e, r).Ok?
    ensures var effect := ResumeEffect(sha, s, ledger, deletionOrder, reconciliationOrder, e, r, ticks, save, at);
            && !effect.reply.Rejected?
            && effect.reply.execution.state == RunCompleted
            && effect.reply.execution.removedKinds == e.remainingKinds
            && StoredDeletion(s, d) && d.resultHash == e.deletionResultHash
            && Emptied(s, effect.evidence, d)
  {
    var values, withManifest;
    d, values, withManifest := AdmitIsRemoval(sha, s, deletionOrder, reconciliationOrder, e, r);
    AdmittedManifest(sha, s, deletionOrder, reconciliationOrder, e, r, d, values, withManifest);
    UndisturbedLoopEmpties(s, d, values, withManifest, ticks);
    var ops := LeftOver(values, Some(d), withManifest);
    CompletedResume(sha, s, ledger, e, r, ticks, save, at, ops, Advance(s, ops, ticks).evidence);
  }

  // Nothing of `d` is left in `after`, and nothing else went.
  ghost predicate Emptied(s: Evidence, after: Evidence, d: DeletionResult) {
    && after.deletions == s.deletions - {d.requestId}
    && after.manifests == s.manifests - {d.requestHash}
    && Submap(after.reconciliations, s.reconciliations)
    && (forall k :: k in after.reconciliations
                    <==> k in s.reconciliations && !KeptFor(s, d, k))
  }

  ghost predicate KeptFor(s: Evidence, d: DeletionResult, k: string)
    requires k in s.reconciliations
  {
    s.reconciliations[k].Stored? && KeepsReconciliation(s, d, s.reconciliations[k].value)
  }

  lemma UndisturbedLoopEmpties(
    s: Evidence, d: DeletionResult, values: seq<ReconciliationResult>, withManifest: bool, ticks: Schedule
  )
    requires Intact(s) && Removal(s, d, values, withManifest) && Distinct(values) && Undisturbed(ticks)
    requires withManifest ==> LoadManifest(s.manifests, d).Ok?
    ensures var ops := LeftOver(values, Some(d), withManifest);
            var p := Advance(s, ops, ticks);
            && p == Progress(p.evidence, |ops|, None)
            && Emptied(s, p.evidence, d)
  {
    var ops := LeftOver(values, Some(d), withManifest);
    UndisturbedLoopCompletes(s, d, values, withManifest, ticks, |ops|);
    assert ops[..|ops|] == ops;
    EmptiedEvidence(s, d, values, withManifest);
  }

  lemma CompletedResume(
    sha: Sha256, s: Evidence, ledger: Ledger, e: Execution, r: CleanupRequest, ticks: Schedule, save: Fault,
    at: int, ops: seq<Operation>, after: Evidence
  )
    requires Advance(s, ops, ticks) == Progress(after, |ops|, None)
    requires Kinds(ops) == e.remainingKinds
    ensures var effect := CarryOn(sha, s, ledger, Ok(ops), e, r, ticks, save, at);
            && !effect.reply.Rejected?
            && effect.evidence == after
            && effect.reply.execution.state == RunCompleted
            && effect.reply.execution.removedKinds == e.remainingKinds
  {
    CarryOnShape(sha, s, ledger, Ok(ops), e, r, ticks, save, at);
    var effect := CarryOn(sha, s, ledger, Ok(ops), e, r, ticks, save, at);
    assert ResumeRecord(sha, e, r, ops, Progress(after, |ops|, None), at) in HandedBack(effect.reply);
    assert Kinds(ops)[..|ops|] == Kinds(ops);
  }

  lemma EmptiedEvidence(s: Evidence, d: DeletionResult, values: seq<ReconciliationResult>, withManifest: bool)
    requires Intact(s) && Removal(s, d, values, withManifest)
    ensures Emptied(s, After(s, d, values, withManifest, |LeftOver(values, Some(d), withManifest)|), d)
  {
    assert !withManifest ==> s.manifests - {d.requestHash} == s.manifests;
    EverythingGone(s, d, values, |LeftOver(values, Some(d), withManifest)|);
  }

  lemma EverythingGone(s: Evidence, d: DeletionResult, values: seq<ReconciliationResult>, n: nat)
    requires Intact(s) && n >= |values|
    requires forall r :: r in values <==> KeepsReconciliation(s, d, r)
    ensures forall k :: k in s.reconciliations - Gone(values, n)
                        <==> k in s.reconciliations && !KeepsReconciliation(s, d, s.reconciliations[k].value)
  {
    forall k | k in s.reconciliations
      ensures k in Gone(values, n) <==> KeepsReconciliation(s, d, s.reconciliations[k].value)
    {
      var v := s.reconciliations[k].value;
      if KeepsReconciliation(s, d, v) {
        assert v in values;
        var i :| 0 <= i < |values| && values[i] == v;
        assert k in Gone(values, n);
      }
      if k in Gone(values, n) {
        var i :| 0 <= i < n && i < |values| && values[i].reconciliationId == k;
        assert values[i] in values;
      }
    }
  }
}
