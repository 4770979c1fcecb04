// When the record of an interrupted run can be resumed: exactly which failing
// steps, and which earlier removals, leave it acceptable.

module RetentionResumable {
  import opened Foundations
  import opened Records
  import opened EvidenceStores
  import opened RetentionPlanner
  import opened RetentionExecutor
  import opened RetentionCleanup
  import opened RetentionRuns
  import opened RetentionSafety
  import opened RetentionAdmission
  import opened RetentionResume

  // The step unlinked its file and then failed to make that durable.
  predicate Tears(tick: Tick) {
    !tick.cancelled && tick.fault == Torn
  }

  // An operation that would succeed undisturbed, under any disturbance.
  lemma DisturbedAttempt(s: Evidence, op: Operation, tick: Tick)
    requires Attempt(s, op, Tick(false, Smooth)).1.None?
    ensures var (after, error) := Attempt(s, op, tick);
            && (error.None? <==> tick == Tick(false, Smooth))
            && (Tears(tick) ==> error == Some(OsError))
            && after == if error.None? || Tears(tick) then WithoutOne(s, op) else s
  {
    AttemptEffect(s, op, Tick(false, Smooth));
  }

  // The operations that took effect when a loop got as far as `p`.
  function Effective(ticks: Schedule, p: Progress): nat {
    if p.error.Some? && Tears(ticks(p.removed)) then p.removed + 1 else p.removed
  }

  // A loop through the states `at(0)`, `at(1)`, ... that got as far as `p`: every
  // reported step was undisturbed, the one it stopped at was not, and took effect
  // only if it was torn.
  ghost predicate StopsAt(at: nat -> Evidence, ticks: Schedule, p: Progress) {
    && (forall i | 0 <= i < p.removed :: ticks(i) == Tick(false, Smooth))
    && (p.error.Some? ==> ticks(p.removed) != Tick(false, Smooth))
    && (p.error.Some? && Tears(ticks(p.removed)) ==> p.error == Some(OsError))
    && p.evidence == at(Effective(ticks, p))
  }

  // Undisturbed, step `k` leads from one state to the next.
  ghost predicate StepLeads(at: nat -> Evidence, ops: seq<Operation>, k: nat)
    requires k < |ops|
  {
    && at(k + 1) == WithoutOne(at(k), ops[k])
    && Attempt(at(k), ops[k], Tick(false, Smooth)).1.None?
  }

  // One more step, undisturbed or the last.
  lemma StepStops(at: nat -> Evidence, ticks: Schedule, n: nat, before: Evidence, after: Evidence, error: Option<Error>)
    requires StopsAt(at, ticks, Progress(before, n, None))
    requires error.None? <==> ticks(n) == Tick(false, Smooth)
    requires Tears(ticks(n)) ==> error == Some(OsError)
    requires after == if error.None? || Tears(ticks(n)) then at(n + 1) else at(n)
    ensures StopsAt(at, ticks, Progress(after, if error.None? then n + 1 else n, error))
  {
  }

  lemma {:induction false} LoopStopsAt(at: nat -> Evidence, ops: seq<Operation>, ticks: Schedule, k: nat)
    requires k <= |ops| && forall i | 0 <= i < |ops| :: StepLeads(at, ops, i)
    ensures StopsAt(at, ticks, Advance(at(0), ops[..k], ticks))
  {
    if k == 0 {
      assert ops[..0] == [];
    } else {
      assert ops[..k][..k - 1] == ops[..k - 1];
      LoopStopsAt(at, ops, ticks, k - 1);
      var before := Advance(at(0), ops[..k - 1], ticks);
      if before.error.None? {
        assert StepLeads(at, ops, k - 1);
        DisturbedAttempt(before.evidence, ops[k - 1], ticks(k - 1));
        var (after, error) := Attempt(before.evidence, ops[k - 1], ticks(k - 1));
        StepStops(at, ticks, k - 1, before.evidence, after, error);
      }
    }
  }

  function States(
    s: Evidence, d: DeletionResult, values: seq<ReconciliationResult>, withManifest: bool
  ): nat -> Evidence
  {
    (n: nat) => After(s, d, values, withManifest, n)
  }

  lemma RemovalLeads(
    s: Evidence, d: DeletionResult, values: seq<ReconciliationResult>, withManifest: bool, i: nat
  )
    requires Intact(s) && Removal(s, d, values, withManifest) && Distinct(values)
    requires withManifest ==> LoadManifest(s.manifests, d).Ok?
    requires i < |LeftOver(values, Some(d), withManifest)|
    ensures StepLeads(States(s, d, values, withManifest), LeftOver(values, Some(d), withManifest), i)
  {
    NextOperationSucceeds(s, d, values, withManifest, i + 1);
    AfterStep(s, d, values, withManifest, i + 1);
  }

  lemma RemovalStarts(s: Evidence, d: DeletionResult, values: seq<ReconciliationResult>, withManifest: bool)
    ensures States(s, d, values, withManifest)(0) == s
  {
    WithoutIsAfter(s, d, values, withManifest, 0);
    assert LeftOver(values, Some(d), withManifest)[..0] == [];
  }

  lemma StoppedLoop(
    s: Evidence, d: DeletionResult, values: seq<ReconciliationResult>, withManifest: bool, ticks: Schedule
  )
    requires Intact(s) && Removal(s, d, values, withManifest) && Distinct(values)
    requires withManifest ==> LoadManifest(s.manifests, d).Ok?
    ensures StopsAt(States(s, d, values, withManifest), ticks,
                    Advance(s, LeftOver(values, Some(d), withManifest), ticks))
  {
    forall i | 0 <= i < |LeftOver(values, Some(d), withManifest)|
      ensures StepLeads(States(s, d, values, withManifest), LeftOver(values, Some(d), withManifest), i)
    {
      RemovalLeads(s, d, values, withManifest, i);
    }
    RemovalStarts(s, d, values, withManifest);
    WholeLoopStops(States(s, d, values, withManifest), LeftOver(values, Some(d), withManifest), ticks);
  }

  lemma WholeLoopStops(at: nat -> Evidence, ops: seq<Operation>, ticks: Schedule)
    requires forall i | 0 <= i < |ops| :: StepLeads(at, ops, i)
    ensures StopsAt(at, ticks, Advance(at(0), ops, ticks))
  {
    LoopStopsAt(at, ops, ticks, |ops|);
    assert ops[..|ops|] == ops;
  }

  // A loop that stopped at step `n`, torn or not, and the admission of its record.
  lemma StoppedAdmission(
    sha: Sha256, s: Evidence, after: Evidence, d: DeletionResult, values: seq<ReconciliationResult>, withManifest: bool,
    n: nat, torn: bool, e: Execution, skipped: nat, r: CleanupRequest, deletionOrder: seq<string>,
    reconciliationOrder: seq<string>
  )
    requires Intact(s) && Uniform(s, d.hostId, d.hostFingerprint) && NoTies(s, d)
    requires Removal(s, d, values, withManifest) && Distinct(values)
    requires withManifest ==> LoadManifest(s.manifests, d).Ok?
    requires StoppedAt(s, d, values, withManifest, n, e)
    requires after == After(s, d, values, withManifest, if torn then n + 1 else n)
    requires Enumerates(after.deletions, deletionOrder) && Enumerates(after.reconciliations, reconciliationOrder)
    requires Hashes(values) == From(e.reconciliationResultHashes, skipped)
    requires ValidRequest(sha, r) && BoundRequest(r, e)
    ensures var admitted := Admit(sha, after, deletionOrder, reconciliationOrder, e, r);
            if !torn && (skipped == 0 || e.reconciliationResultHashes == [])
            then admitted == Ok(LeftOver(values, Some(d), withManifest)[n..])
            else admitted.Raised?
  {
    if torn {
      assert |Hashes(values)| == |values|;
      TornStopIsRefused(sha, s, deletionOrder, reconciliationOrder, e, r, d, values, withManifest, n);
    } else {
      CleanStopAdmission(sha, s, deletionOrder, reconciliationOrder, e, r, d, values, withManifest, n, skipped);
    }
  }

  lemma StoppedEvidence(
    s: Evidence, d: DeletionResult, values: seq<ReconciliationResult>, withManifest: bool, ticks: Schedule, p: Progress
  )
    requires Intact(s) && Removal(s, d, values, withManifest) && Distinct(values)
    requires withManifest ==> LoadManifest(s.manifests, d).Ok?
    requires p == Advance(s, LeftOver(values, Some(d), withManifest), ticks) && p.error.Some?
    ensures p.evidence == After(s, d, values, withManifest,
                                if Tears(ticks(p.removed)) then p.removed + 1 else p.removed)
  {
    StoppedLoop(s, d, values, withManifest, ticks);
  }

  lemma RunAdmission(
    sha: Sha256, s: Evidence, d: DeletionResult, values: seq<ReconciliationResult>, withManifest: bool, ticks: Schedule,
    p: Progress, e: Execution, skipped: nat, r: CleanupRequest, deletionOrder: seq<string>,
    reconciliationOrder: seq<string>
  )
    requires Intact(s) && Uniform(s, d.hostId, d.hostFingerprint) && NoTies(s, d)
    requires Removal(s, d, values, withManifest) && Distinct(values)
    requires withManifest ==> LoadManifest(s.manifests, d).Ok?
    requires p == Advance(s, LeftOver(values, Some(d), withManifest), ticks) && p.error.Some?
    requires StoppedAt(s, d, values, withManifest, p.removed, e)
    requires Enumerates(p.evidence.deletions, deletionOrder)
             && Enumerates(p.evidence.reconciliations, reconciliationOrder)
    requires Hashes(values) == From(e.reconciliationResultHashes, skipped)
    requires ValidRequest(sha, r) && BoundRequest(r, e)
    ensures var admitted := Admit(sha, p.evidence, deletionOrder, reconciliationOrder, e, r);
            if !Tears(ticks(p.removed)) && (skipped == 0 || e.reconciliationResultHashes == [])
            then admitted == Ok(LeftOver(values, Some(d), withManifest)[p.removed..])
            else admitted.Raised?
  {
    StoppedEvidence(s, d, values, withManifest, ticks, p);
    StoppedAdmission(sha, s, p.evidence, d, values, withManifest, p.removed, Tears(ticks(p.removed)), e, skipped, r,
                     deletionOrder, reconciliationOrder);
  }

  // The record an interrupted `execute` hands back can be resumed exactly when
  // the step it failed at was not torn, and then with exactly the operations it
  // did not reach.
  lemma ExecutorRecordIsResumableIff(
    sha: Sha256, s: Evidence, orders: Orders, reconciliationOrder: seq<string>, t: Target, ticks: Schedule,
    r: CleanupRequest, laterDeletions: seq<string>, laterReconciliations: seq<string>
  )
    requires Intact(s) && Uniform(s, t.hostId, t.fingerprint)
    requires ListsBoth(s.deletions, s.manifests, orders) && Enumerates(s.reconciliations, reconciliationOrder)
    requires Select(s, orders, reconciliationOrder, t).Ok?
    requires NoTies(s, Select(s, orders, reconciliationOrder, t).value.deletion)
    requires var c := Select(s, orders, reconciliationOrder, t).value;
             var p := Advance(s, AllOps(c.reconciliations, c.deletion), ticks);
             && p.error.Some?
             && ValidRequest(sha, r) && BoundRequest(r, ExecutionOf(sha, t, c, p))
             && Enumerates(p.evidence.deletions, laterDeletions)
             && Enumerates(p.evidence.reconciliations, laterReconciliations)
    ensures var c := Select(s, orders, reconciliationOrder, t).value;
            var p := Advance(s, AllOps(c.reconciliations, c.deletion), ticks);
            var admitted := Admit(sha, p.evidence, laterDeletions, laterReconciliations, ExecutionOf(sha, t, c, p), r);
            if Tears(ticks(p.removed)) then admitted.Raised?
            else admitted == Ok(AllOps(c.reconciliations, c.deletion)[p.removed..])
  {
    var c := Select(s, orders, reconciliationOrder, t).value;
    SelectIsRemoval(s, orders, reconciliationOrder, t);
    SelectedManifest(s, orders, reconciliationOrder, t);
    SelectedStopAdmission(sha, s, c, t, ticks, r, laterDeletions, laterReconciliations);
  }

  lemma SelectedStopAdmission(
    sha: Sha256, s: Evidence, c: Selection, t: Target, ticks: Schedule, r: CleanupRequest, laterDeletions: seq<string>,
    laterReconciliations: seq<string>
  )
    requires Intact(s) && Uniform(s, t.hostId, t.fingerprint) && NoTies(s, c.deletion)
    requires Removal(s, c.deletion, c.reconciliations, true) && Distinct(c.reconciliations)
    requires c.deletion.hostId == t.hostId && c.deletion.hostFingerprint == t.fingerprint
    requires AllOps(c.reconciliations, c.deletion) == LeftOver(c.reconciliations, Some(c.deletion), true)
    requires LoadManifest(s.manifests, c.deletion).Ok?
    requires var p := Advance(s, AllOps(c.reconciliations, c.deletion), ticks);
             && p.error.Some?
             && ValidRequest(sha, r) && BoundRequest(r, ExecutionOf(sha, t, c, p))
             && Enumerates(p.evidence.deletions, laterDeletions)
             && Enumerates(p.evidence.reconciliations, laterReconciliations)
    ensures var p := Advance(s, AllOps(c.reconciliations, c.deletion), ticks);
            var admitted := Admit(sha, p.evidence, laterDeletions, laterReconciliations, ExecutionOf(sha, t, c, p), r);
            if Tears(ticks(p.removed)) then admitted.Raised?
            else admitted == Ok(AllOps(c.reconciliations, c.deletion)[p.removed..])
  {
    var p := Advance(s, AllOps(c.reconciliations, c.deletion), ticks);
    var e := ExecutionOf(sha, t, c, p);
    ExecutedStop(sha, s, t, c, p);
    assert Hashes(c.reconciliations) == From(e.reconciliationResultHashes, 0);
    RunAdmission(sha, s, c.deletion, c.reconciliations, true, ticks, p, e, 0, r, laterDeletions, laterReconciliations);
  }

  // The record an interrupted `resume` hands back can be resumed again exactly
  // when the step it failed at was not torn and the record it resumed had removed
  // no reconciliation (or never had one): it keeps the full list of hashes but
  // only its own removals.
  lemma ResumedRecordIsResumableIff(
    sha: Sha256, s: Evidence, deletionOrder: seq<string>, reconciliationOrder: seq<string>, source: Execution,
    request: CleanupRequest, ticks: Schedule, at: int, r: CleanupRequest, laterDeletions: seq<string>,
    laterReconciliations: seq<string>
  )
    requires Intact(s) && Truthful(s, source) && Uniform(s, source.hostId, source.hostFingerprint)
    requires forall d | StoredDeletion(s, d) && d.resultHash == source.deletionResultHash :: NoTies(s, d)
    requires Enumerates(s.deletions, deletionOrder) && Enumerates(s.reconciliations, reconciliationOrder)
    requires Admit(sha, s, deletionOrder, reconciliationOrder, source, request).Ok?
    requires var ops := Admit(sha, s, deletionOrder, reconciliationOrder, source, request).value;
             var p := Advance(s, ops, ticks);
             && p.error.Some?
             && ValidRequest(sha, r) && BoundRequest(r, ResumeRecord(sha, source, request, ops, p, at))
             && Enumerates(p.evidence.deletions, laterDeletions)
             && Enumerates(p.evidence.reconciliations, laterReconciliations)
    ensures var ops := Admit(sha, s, deletionOrder, reconciliationOrder, source, request).value;
            var p := Advance(s, ops, ticks);
            Admit(sha, p.evidence, laterDeletions, laterReconciliations,
                  ResumeRecord(sha, source, request, ops, p, at), r).Ok?
            <==> !Tears(ticks(p.removed))
                 && (CountReconciliations(source.removedKinds) == 0 || source.reconciliationResultHashes == [])
  {
    var ops := Admit(sha, s, deletionOrder, reconciliationOrder, source, request).value;
    var p := Advance(s, ops, ticks);
    var d, values, withManifest := AdmitIsRemoval(sha, s, deletionOrder, reconciliationOrder, source, request);
    AdmittedManifest(sha, s, deletionOrder, reconciliationOrder, source, request, d, values, withManifest);
    ResumedStop(sha, s, source, request, d, values, withManifest, p, at);
    RunAdmission(sha, s, d, values, withManifest, ticks, p, ResumeRecord(sha, source, request, ops, p, at),
                 CountReconciliations(source.removedKinds), r, laterDeletions, laterReconciliations);
  }

  lemma ResumedStop(
    sha: Sha256, s: Evidence, source: Execution, request: CleanupRequest, d: DeletionResult,
    values: seq<ReconciliationResult>, withManifest: bool, p: Progress, at: int
  )
    requires p.removed < |LeftOver(values, Some(d), withManifest)| && p.error.Some?
    requires d.resultHash == source.deletionResultHash && d.hostId == source.hostId
    requires d.hostFingerprint == source.hostFingerprint
    ensures var e := ResumeRecord(sha, source, request, LeftOver(values, Some(d), withManifest), p, at);
            StoppedAt(s, d, values, withManifest, p.removed, e)
            && e.reconciliationResultHashes == source.reconciliationResultHashes
  {
  }

  // Torn at the manifest, a run strands the deletion result: its record cannot be
  // resumed, and without a manifest it is no candidate for another run either.
  lemma TornManifestStrandsDeletion(
    sha: Sha256, s: Evidence, orders: Orders, reconciliationOrder: seq<string>, t: Target
  ) returns (ticks: Schedule)
    requires Intact(s) && Uniform(s, t.hostId, t.fingerprint)
    requires ListsBoth(s.deletions, s.manifests, orders) && Enumerates(s.reconciliations, reconciliationOrder)
    requires Select(s, orders, reconciliationOrder, t).Ok?
    ensures var c := Select(s, orders, reconciliationOrder, t).value;
            var p := Advance(s, AllOps(c.reconciliations, c.deletion), ticks);
            && p.removed == |c.reconciliations| && p.error == Some(OsError)
            && StoredDeletion(p.evidence, c.deletion)
            && NeverResumed(sha, p.evidence, ExecutionOf(sha, t, c, p)) && NeverSelected(p.evidence, t)
  {
    var c := Select(s, orders, reconciliationOrder, t).value;
    SelectIsRemoval(s, orders, reconciliationOrder, t);
    SelectedManifest(s, orders, reconciliationOrder, t);
    ticks := (i: nat) => Tick(false, if i == |c.reconciliations| then Torn else Smooth);
    TornManifestStop(s, c.deletion, c.reconciliations, ticks);
    var p := Advance(s, AllOps(c.reconciliations, c.deletion), ticks);
    ExecutedStop(sha, s, t, c, p);
    assert |Hashes(c.reconciliations)| == |c.reconciliations|;
    TornRecordIsStuck(sha, s, c.deletion, c.reconciliations, true, |c.reconciliations|, ExecutionOf(sha, t, c, p));
    GoneManifestIsNoCandidate(s, c.deletion, c.reconciliations, t, |c.reconciliations| + 1);
  }

  // No request resumes record `e` of evidence `s`.
  ghost predicate NeverResumed(sha: Sha256, s: Evidence, e: Execution) {
    forall r, deletionOrder, reconciliationOrder
      | Enumerates(s.deletions, deletionOrder) && Enumerates(s.reconciliations, reconciliationOrder) ::
      Admit(sha, s, deletionOrder, reconciliationOrder, e, r).Raised?
  }

  // No run selects the request, at any time.
  ghost predicate NeverSelected(s: Evidence, t: Target) {
    forall orders, reconciliationOrder, now
      | ListsBoth(s.deletions, s.manifests, orders) && Enumerates(s.reconciliations, reconciliationOrder) ::
      Select(s, orders, reconciliationOrder, t.(now := now)).Raised?
  }

  // A loop over all of the evidence, torn at the manifest and nowhere disturbed
  // before.
  lemma TornManifestStop(s: Evidence, d: DeletionResult, values: seq<ReconciliationResult>, ticks: Schedule)
    requires Intact(s) && Removal(s, d, values, true) && Distinct(values) && LoadManifest(s.manifests, d).Ok?
    requires forall i: nat :: ticks(i) == Tick(false, if i == |values| then Torn else Smooth)
    ensures Advance(s, LeftOver(values, Some(d), true), ticks)
            == Progress(After(s, d, values, true, |values| + 1), |values|, Some(OsError))
    ensures StoredDeletion(After(s, d, values, true, |values| + 1), d)
  {
    StoppedLoop(s, d, values, true, ticks);
    TornAt(States(s, d, values, true), ticks, Advance(s, LeftOver(values, Some(d), true), ticks), |values|);
  }

  lemma ExecutedStop(sha: Sha256, s: Evidence, t: Target, c: Selection, p: Progress)
    requires p.removed < |AllOps(c.reconciliations, c.deletion)| && p.error.Some?
    requires c.deletion.hostId == t.hostId && c.deletion.hostFingerprint == t.fingerprint
    requires AllOps(c.reconciliations, c.deletion) == LeftOver(c.reconciliations, Some(c.deletion), true)
    ensures var e := ExecutionOf(sha, t, c, p);
            StoppedAt(s, c.deletion, c.reconciliations, true, p.removed, e)
            && e.reconciliationResultHashes == Hashes(c.reconciliations)
  {
  }

  // A loop disturbed at step `n` only, by a torn unlink.
  lemma TornAt(at: nat -> Evidence, ticks: Schedule, p: Progress, n: nat)
    requires StopsAt(at, ticks, p) && (p.error.None? ==> p.removed > n)
    requires forall i: nat :: ticks(i) == Tick(false, if i == n then Torn else Smooth)
    ensures p.removed == n && p.error == Some(OsError) && p.evidence == at(n + 1)
  {
    assert ticks(n) == Tick(false, Torn);
  }

  lemma TornRecordIsStuck(
    sha: Sha256, s: Evidence, d: DeletionResult, values: seq<ReconciliationResult>, withManifest: bool, n: nat,
    e: Execution
  )
    requires Intact(s) && Removal(s, d, values, withManifest) && Distinct(values)
    requires StoppedAt(s, d, values, withManifest, n, e) && |values| <= |e.reconciliationResultHashes|
    ensures NeverResumed(sha, After(s, d, values, withManifest, n + 1), e)
  {
    var after := After(s, d, values, withManifest, n + 1);
    forall r, deletionOrder, reconciliationOrder
      | Enumerates(after.deletions, deletionOrder) && Enumerates(after.reconciliations, reconciliationOrder)
      ensures Admit(sha, after, deletionOrder, reconciliationOrder, e, r).Raised?
    {
      TornStopIsRefused(sha, s, deletionOrder, reconciliationOrder, e, r, d, values, withManifest, n);
    }
  }

  lemma GoneManifestIsNoCandidate(
    s: Evidence, d: DeletionResult, values: seq<ReconciliationResult>, t: Target, n: nat
  )
    requires Intact(s) && d.requestHash == t.requestHash && n > |values|
    ensures NeverSelected(After(s, d, values, true, n), t)
  {
    AfterShrinks(s, d, values, true, n);
    ShrunkIntact(s, After(s, d, values, true, n));
    NoManifestIsNoCandidate(After(s, d, values, true, n), t);
  }

  // Without its manifest a request is no candidate.
  lemma NoManifestIsNoCandidate(s: Evidence, t: Target)
    requires Intact(s) && t.requestHash !in s.manifests
    ensures NeverSelected(s, t)
  {
    forall orders, reconciliationOrder, now
      | ListsBoth(s.deletions, s.manifests, orders) && Enumerates(s.reconciliations, reconciliationOrder)
      ensures Select(s, orders, reconciliationOrder, t.(now := now)).Raised?
    {
      if Select(s, orders, reconciliationOrder, t.(now := now)).Ok? {
        SelectIsRemoval(s, orders, reconciliationOrder, t.(now := now));
      }
    }
  }
}
