// Exactly when the record of an interrupted removal can be resumed.

module RetentionAdmission {
  import opened Foundations
  import opened Records
  import opened Sorting
  import opened EvidenceStores
  import opened RetentionPlanner
  import opened RetentionExecutor
  import opened RetentionCleanup
  import opened RetentionRuns
  import opened RetentionSafety

  // No record of the host is bound to another fingerprint.
  ghost predicate Uniform(s: Evidence, hostId: string, fingerprint: string) {
    && (forall k | k in s.deletions && s.deletions[k].Stored? && s.deletions[k].value.hostId == hostId ::
          s.deletions[k].value.hostFingerprint == fingerprint)
    && (forall k | k in s.reconciliations && s.reconciliations[k].Stored?
                   && s.reconciliations[k].value.hostId == hostId ::
          s.reconciliations[k].value.hostFingerprint == fingerprint)
  }

  // No two reconciliations of `d` were observed at the same instant.
  ghost predicate NoTies(s: Evidence, d: DeletionResult) {
    forall q, r | KeepsReconciliation(s, d, q) && KeepsReconciliation(s, d, r) && q != r :: q.observedAt != r.observedAt
  }

  predicate ObservedLater(a: ReconciliationResult, b: ReconciliationResult) { a.observedAt > b.observedAt }

  // Without ties there is only one listing.
  lemma ListingIsUnique(s: Evidence, d: DeletionResult, a: seq<ReconciliationResult>, b: seq<ReconciliationResult>)
    requires NoTies(s, d)
    requires forall r :: r in a <==> KeepsReconciliation(s, d, r)
    requires forall r :: r in b <==> KeepsReconciliation(s, d, r)
    requires NewestFirst(a) && NewestFirst(b) && Distinct(a) && Distinct(b)
    ensures a == b
  {
    StrictWithoutTies(s, d, a);
    StrictWithoutTies(s, d, b);
    StrictListingUnique(a, b, ObservedLater);
  }

  lemma StrictWithoutTies(s: Evidence, d: DeletionResult, a: seq<ReconciliationResult>)
    requires NoTies(s, d) && NewestFirst(a) && Distinct(a)
    requires forall r | r in a :: KeepsReconciliation(s, d, r)
    ensures Strict(a, ObservedLater)
  {
    forall i, j | 0 <= i < j < |a| ensures ObservedLater(a[i], a[j]) {
      assert a[i] in a && a[j] in a && a[i] != a[j];
    }
  }

  lemma ListingsSucceed(
    s: Evidence, deletionOrder: seq<string>, reconciliationOrder: seq<string>, d: DeletionResult
  )
    requires Intact(s) && Uniform(s, d.hostId, d.hostFingerprint) && IsDigest(d.resultHash)
    requires Enumerates(s.deletions, deletionOrder) && Enumerates(s.reconciliations, reconciliationOrder)
    ensures ListHost(s.deletions, deletionOrder, DeletionStamp, d.hostId, d.hostFingerprint).Ok?
    ensures ListForDeletion(s.reconciliations, reconciliationOrder, d.resultHash, d.hostId, d.hostFingerprint).Ok?
  {
    ScanHostSucceeds(s.deletions, deletionOrder, DeletionStamp, d.hostId, d.hostFingerprint);
    ScanHostSucceeds(s.reconciliations, reconciliationOrder, ReconciliationStamp, d.hostId, d.hostFingerprint);
  }

  lemma DeletionIsFound(s: Evidence, deletionOrder: seq<string>, d: DeletionResult)
    requires Intact(s) && StoredDeletion(s, d) && Enumerates(s.deletions, deletionOrder)
    requires ListHost(s.deletions, deletionOrder, DeletionStamp, d.hostId, d.hostFingerprint).Ok?
    ensures FindDeletion(ListHost(s.deletions, deletionOrder, DeletionStamp, d.hostId, d.hostFingerprint).value,
                         d.resultHash) == Some(d)
  {
    var results := ListHost(s.deletions, deletionOrder, DeletionStamp, d.hostId, d.hostFingerprint).value;
    ListHostExact(s.deletions, deletionOrder, DeletionStamp, d.hostId, d.hostFingerprint);
    FindDeletionFinds(results, d.resultHash);
    assert OnHost(s.deletions, DeletionStamp, d.hostId, d);
  }

  // While the stores hold exactly the evidence a record calls remaining, the
  // only guard of `resume` that can still fail is the comparison of hashes.
  lemma AdmissionIsHashComparison(
    sha: Sha256, s: Evidence, deletionOrder: seq<string>, reconciliationOrder: seq<string>, e: Execution,
    r: CleanupRequest, d: DeletionResult, rest: seq<ReconciliationResult>, withManifest: bool
  )
    requires Intact(s) && Uniform(s, d.hostId, d.hostFingerprint) && NoTies(s, d)
    requires Enumerates(s.deletions, deletionOrder) && Enumerates(s.reconciliations, reconciliationOrder)
    requires Removal(s, d, rest, withManifest) && Distinct(rest)
    requires withManifest ==> LoadManifest(s.manifests, d).Ok?
    requires ValidRequest(sha, r) && BoundRequest(r, e)
    requires e.deletionResultHash == d.resultHash && e.hostId == d.hostId && e.hostFingerprint == d.hostFingerprint
    requires e.remainingKinds == Kinds(LeftOver(rest, Some(d), withManifest))
    ensures Admit(sha, s, deletionOrder, reconciliationOrder, e, r)
            == if Hashes(rest) == From(e.reconciliationResultHashes, CountReconciliations(e.removedKinds))
               then Ok(LeftOver(rest, Some(d), withManifest)) else Raised(MISMATCH)
  {
    ListingsSucceed(s, deletionOrder, reconciliationOrder, d);
    DeletionIsFound(s, deletionOrder, d);
    var current := ListForDeletion(s.reconciliations, reconciliationOrder, d.resultHash, d.hostId,
                                   d.hostFingerprint).value;
    ListingIsExact(s, reconciliationOrder, d, current);
    ListingIsUnique(s, d, current, rest);
    LeftOverKinds(rest, d, withManifest);
    AdmissionSteps(sha, s, deletionOrder, reconciliationOrder, e, r, d, rest, withManifest);
  }

  lemma AdmissionSteps(
    sha: Sha256, s: Evidence, deletionOrder: seq<string>, reconciliationOrder: seq<string>, e: Execution,
    r: CleanupRequest, d: DeletionResult, rest: seq<ReconciliationResult>, withManifest: bool
  )
    requires Enumerates(s.deletions, deletionOrder) && Enumerates(s.reconciliations, reconciliationOrder)
    requires ValidRequest(sha, r) && BoundRequest(r, e)
    requires ListHost(s.deletions, deletionOrder, DeletionStamp, e.hostId, e.hostFingerprint).Ok?
    requires FindDeletion(ListHost(s.deletions, deletionOrder, DeletionStamp, e.hostId, e.hostFingerprint).value,
                          e.deletionResultHash) == Some(d)
    requires ListForDeletion(s.reconciliations, reconciliationOrder, e.deletionResultHash, e.hostId, e.hostFingerprint)
             == Ok(rest)
    requires withManifest ==> LoadManifest(s.manifests, d).Ok?
    requires DeletionKind in e.remainingKinds && (ManifestKind in e.remainingKinds <==> withManifest)
    requires e.remainingKinds == Kinds(LeftOver(rest, Some(d), withManifest))
    ensures Admit(sha, s, deletionOrder, reconciliationOrder, e, r)
            == if Hashes(rest) == From(e.reconciliationResultHashes, CountReconciliations(e.removedKinds))
               then Ok(LeftOver(rest, Some(d), withManifest)) else Raised(MISMATCH)
  {
  }

  lemma LeftOverKinds(values: seq<ReconciliationResult>, d: DeletionResult, withManifest: bool)
    ensures var kinds := Kinds(LeftOver(values, Some(d), withManifest));
            && DeletionKind in kinds
            && (ManifestKind in kinds <==> withManifest)
  {
    var ops := LeftOver(values, Some(d), withManifest);
    var kinds := Kinds(ops);
    assert ops[|ops| - 1] == RemoveDeletion(d) && kinds[|ops| - 1] == DeletionKind;
    if withManifest {
      assert ops[|values|] == RemoveManifest(d) && kinds[|values|] == ManifestKind;
    } else {
      forall i | 0 <= i < |kinds| ensures kinds[i] != ManifestKind {
        assert i < |values| ==> ops[i] == RemoveReconciliation(values[i]);
      }
    }
  }

  // ---- The state an interrupted loop leaves behind ----

  // Stopping cleanly after `n` operations leaves a smaller removal to do.
  lemma RestIsRemoval(
    s: Evidence, d: DeletionResult, values: seq<ReconciliationResult>, withManifest: bool, n: nat
  )
    requires Intact(s) && Removal(s, d, values, withManifest) && Distinct(values)
    requires n < |LeftOver(values, Some(d), withManifest)|
    ensures var rest := values[Min(n, |values|)..];
            var left := withManifest && n <= |values|;
            && Removal(After(s, d, values, withManifest, n), d, rest, left)
            && Distinct(rest)
            && LeftOver(rest, Some(d), left) == LeftOver(values, Some(d), withManifest)[n..]
  {
    var m := Min(n, |values|);
    var rest, left := values[m..], withManifest && n <= |values|;
    var after := After(s, d, values, withManifest, n);
    forall r ensures r in rest <==> KeepsReconciliation(after, d, r) {
      KeptAfter(s, d, values, withManifest, n, d, r);
      SplitMembership(values, m, r);
    }
    assert forall i | 0 <= i < |rest| :: rest[i] == values[m + i];
    assert NewestFirst(rest) && Distinct(rest);
    LeftOverSuffix(values, d, withManifest, n);
  }

  lemma SplitMembership<T>(values: seq<T>, m: nat, r: T)
    requires m <= |values| && Distinct(values)
    ensures r in values[m..] <==> r in values && r !in values[..m]
  {
    assert values == values[..m] + values[m..];
    if r in values[m..] {
      var j :| 0 <= j < |values[m..]| && values[m..][j] == r;
      assert values[m + j] == r;
      forall i | 0 <= i < m ensures values[..m][i] != r {
        assert values[i] != values[m + j];
      }
    }
  }

  lemma LeftOverSuffix(values: seq<ReconciliationResult>, d: DeletionResult, withManifest: bool, n: nat)
    requires n < |LeftOver(values, Some(d), withManifest)|
    ensures LeftOver(values[Min(n, |values|)..], Some(d), withManifest && n <= |values|)
            == LeftOver(values, Some(d), withManifest)[n..]
  {
    var ops := LeftOver(values, Some(d), withManifest);
    var small := LeftOver(values[Min(n, |values|)..], Some(d), withManifest && n <= |values|);
    assert |small| == |ops| - n;
    forall i | 0 <= i < |small| ensures small[i] == ops[n + i] {
      if n + i < |values| {
        assert small[i] == RemoveReconciliation(values[n..][i]);
      }
    }
  }

  lemma RestConditions(s: Evidence, after: Evidence, d: DeletionResult)
    requires Intact(s) && Shrunk(s, after) && Uniform(s, d.hostId, d.hostFingerprint) && NoTies(s, d)
    ensures Intact(after) && Uniform(after, d.hostId, d.hostFingerprint) && NoTies(after, d)
  {
    ShrunkIntact(s, after);
    forall r | KeepsReconciliation(after, d, r) ensures KeepsReconciliation(s, d, r) {}
  }

  lemma AfterShrinks(s: Evidence, d: DeletionResult, values: seq<ReconciliationResult>, withManifest: bool, n: nat)
    ensures Shrunk(s, After(s, d, values, withManifest, n))
  {
  }

  // The number of reconciliations among the first operations of a loop.
  lemma {:induction false} CountPrefix(kinds: seq<Kind>, n: nat)
    requires forall i | 0 <= i < |kinds| :: kinds[i] == ReconciliationKind <==> i < n
    ensures CountReconciliations(kinds) == Min(n, |kinds|)
  {
    if kinds != [] {
      if n == 0 {
        CountPrefix(kinds[1..], 0);
      } else {
        CountPrefix(kinds[1..], n - 1);
      }
    }
  }

  lemma RemovedCount(values: seq<ReconciliationResult>, d: DeletionResult, withManifest: bool, n: nat)
    requires n <= |LeftOver(values, Some(d), withManifest)|
    ensures CountReconciliations(Kinds(LeftOver(values, Some(d), withManifest))[..n]) == Min(n, |values|)
  {
    var ops := LeftOver(values, Some(d), withManifest);
    var kinds := Kinds(ops)[..n];
    forall i | 0 <= i < |kinds| ensures kinds[i] == ReconciliationKind <==> i < |values| {
      assert kinds[i] == ops[i].Kind();
    }
    CountPrefix(kinds, |values|);
  }

  // The record of a loop over the evidence of `d` that reported `n` operations.
  ghost predicate StoppedAt(
    s: Evidence, d: DeletionResult, values: seq<ReconciliationResult>, withManifest: bool, n: nat, e: Execution
  )
  {
    && n < |LeftOver(values, Some(d), withManifest)|
    && e.removedKinds == Kinds(LeftOver(values, Some(d), withManifest))[..n]
    && e.remainingKinds == Kinds(LeftOver(values, Some(d), withManifest))[n..]
    && e.deletionResultHash == d.resultHash && e.hostId == d.hostId && e.hostFingerprint == d.hostFingerprint
  }

  lemma SuffixHashes(values: seq<ReconciliationResult>, m: nat)
    requires m <= |values|
    ensures Hashes(values[m..]) == Hashes(values)[m..]
  {
  }

  lemma SuffixKinds(ops: seq<Operation>, n: nat)
    requires n <= |ops|
    ensures Kinds(ops[n..]) == Kinds(ops)[n..]
  {
  }

  // When the failing step took no effect, the record of a loop over evidence
  // whose hashes were the recorded ones from position `skipped` on can be resumed
  // exactly when nothing was skipped.
  lemma CleanStopAdmission(
    sha: Sha256, s: Evidence, deletionOrder: seq<string>, reconciliationOrder: seq<string>, e: Execution,
    r: CleanupRequest, d: DeletionResult, values: seq<ReconciliationResult>, withManifest: bool, n: nat, skipped: nat
  )
    requires Intact(s) && Uniform(s, d.hostId, d.hostFingerprint) && NoTies(s, d)
    requires Removal(s, d, values, withManifest) && Distinct(values)
    requires withManifest ==> LoadManifest(s.manifests, d).Ok?
    requires StoppedAt(s, d, values, withManifest, n, e)
    requires Hashes(values) == From(e.reconciliationResultHashes, skipped)
    requires ValidRequest(sha, r) && BoundRequest(r, e)
    requires Enumerates(After(s, d, values, withManifest, n).deletions, deletionOrder)
    requires Enumerates(After(s, d, values, withManifest, n).reconciliations, reconciliationOrder)
    ensures Admit(sha, After(s, d, values, withManifest, n), deletionOrder, reconciliationOrder, e, r)
            == if skipped == 0 || e.reconciliationResultHashes == []
               then Ok(LeftOver(values, Some(d), withManifest)[n..]) else Raised(MISMATCH)
  {
    var after := After(s, d, values, withManifest, n);
    var m := Min(n, |values|);
    var rest, left := values[m..], withManifest && n <= |values|;
    RestIsRemoval(s, d, values, withManifest, n);
    AfterShrinks(s, d, values, withManifest, n);
    RestConditions(s, after, d);
    SuffixKinds(LeftOver(values, Some(d), withManifest), n);
    AdmissionIsHashComparison(sha, after, deletionOrder, reconciliationOrder, e, r, d, rest, left);
    RemovedCount(values, d, withManifest, n);
    SuffixHashes(values, m);
    ShiftedSuffix(e.reconciliationResultHashes, skipped, m);
  }

  // Comparing two suffixes of the same list.
  lemma ShiftedSuffix(hashes: seq<string>, skipped: nat, m: nat)
    requires m <= |From(hashes, skipped)|
    ensures From(hashes, skipped)[m..] == From(hashes, m) <==> skipped == 0 || hashes == []
  {
    if skipped == 0 {
      assert hashes[0..] == hashes;
    }
  }

  // ---- When the failing step took effect ----

  // No deletion result of this hash is listed once the file of `d` is gone.
  lemma DeletionIsGone(s: Evidence, after: Evidence, order: seq<string>, d: DeletionResult)
    requires Intact(s) && StoredDeletion(s, d) && Shrunk(s, after) && d.requestId !in after.deletions
    requires Enumerates(after.deletions, order)
    requires ListHost(after.deletions, order, DeletionStamp, d.hostId, d.hostFingerprint).Ok?
    ensures FindDeletion(ListHost(after.deletions, order, DeletionStamp, d.hostId, d.hostFingerprint).value,
                         d.resultHash).None?
  {
    var results := ListHost(after.deletions, order, DeletionStamp, d.hostId, d.hostFingerprint).value;
    ListHostExact(after.deletions, order, DeletionStamp, d.hostId, d.hostFingerprint);
    FindDeletionFinds(results, d.resultHash);
    forall c | c in results ensures c.resultHash != d.resultHash {
      assert OnHost(after.deletions, DeletionStamp, d.hostId, c);
    }
  }

  // Fewer reconciliations are listed than the record expects.
  lemma FewerAreListed(
    s: Evidence, order: seq<string>, d: DeletionResult, rest: seq<ReconciliationResult>, hashes: seq<string>, n: nat
  )
    requires Intact(s) && Enumerates(s.reconciliations, order)
    requires forall r :: r in rest <==> KeepsReconciliation(s, d, r)
    requires Distinct(rest) && n <= |hashes| && |rest| < |hashes| - n
    requires ListForDeletion(s.reconciliations, order, d.resultHash, d.hostId, d.hostFingerprint).Ok?
    ensures Hashes(ListForDeletion(s.reconciliations, order, d.resultHash, d.hostId, d.hostFingerprint).value)
            != From(hashes, n)
  {
    var current := ListForDeletion(s.reconciliations, order, d.resultHash, d.hostId, d.hostFingerprint).value;
    ListingIsExact(s, order, d, current);
    DistinctCardinality(current);
    DistinctCardinality(rest);
    assert Elements(current) == Elements(rest);
    assert |Hashes(current)| == |rest| && |From(hashes, n)| == |hashes| - n;
  }

  // A step that took effect and then failed is recorded as not done, although
  // its file is gone: no request can resume that record.
  lemma TornStopIsRefused(
    sha: Sha256, s: Evidence, deletionOrder: seq<string>, reconciliationOrder: seq<string>, e: Execution,
    r: CleanupRequest, d: DeletionResult, values: seq<ReconciliationResult>, withManifest: bool, n: nat
  )
    requires Intact(s) && Removal(s, d, values, withManifest) && Distinct(values)
    requires StoppedAt(s, d, values, withManifest, n, e) && |values| <= |e.reconciliationResultHashes|
    requires Enumerates(After(s, d, values, withManifest, n + 1).deletions, deletionOrder)
    requires Enumerates(After(s, d, values, withManifest, n + 1).reconciliations, reconciliationOrder)
    ensures Admit(sha, After(s, d, values, withManifest, n + 1), deletionOrder, reconciliationOrder, e, r).Raised?
  {
    var after := After(s, d, values, withManifest, n + 1);
    AfterShrinks(s, d, values, withManifest, n + 1);
    ShrunkIntact(s, after);
    SuffixKindsLeft(values, d, withManifest, n, e.remainingKinds);
    if ListHost(after.deletions, deletionOrder, DeletionStamp, e.hostId, e.hostFingerprint).Ok? {
      if n + 1 == |LeftOver(values, Some(d), withManifest)| {
        DeletionIsGone(s, after, deletionOrder, d);
      } else if n < |values| {
        RestIsRemoval(s, d, values, withManifest, n + 1);
        RemovedCount(values, d, withManifest, n);
        if ListForDeletion(after.reconciliations, reconciliationOrder, d.resultHash, d.hostId, d.hostFingerprint).Ok? {
          FewerAreListed(after, reconciliationOrder, d, values[n + 1..], e.reconciliationResultHashes, n);
        }
      } else {
        RestIsRemoval(s, d, values, withManifest, n + 1);
        DeletionIsFound(after, deletionOrder, d);
        assert LoadManifest(after.manifests, d).Raised?;
      }
    }
  }

  // The deletion is always left to do; the manifest is, up to its own step.
  lemma SuffixKindsLeft(
    values: seq<ReconciliationResult>, d: DeletionResult, withManifest: bool, n: nat, kinds: seq<Kind>
  )
    requires n < |LeftOver(values, Some(d), withManifest)|
    requires kinds == Kinds(LeftOver(values, Some(d), withManifest))[n..]
    ensures DeletionKind in kinds
    ensures withManifest && n <= |values| ==> ManifestKind in kinds
  {
    LeftOverSuffix(values, d, withManifest, n);
    SuffixKinds(LeftOver(values, Some(d), withManifest), n);
    LeftOverKinds(values[Min(n, |values|)..], d, withManifest && n <= |values|);
  }

  lemma SelectedManifest(s: Evidence, orders: Orders, reconciliationOrder: seq<string>, t: Target)
    requires ListsBoth(s.deletions, s.manifests, orders) && Enumerates(s.reconciliations, reconciliationOrder)
    requires Select(s, orders, reconciliationOrder, t).Ok?
    ensures LoadManifest(s.manifests, Select(s, orders, reconciliationOrder, t).value.deletion).Ok?
  {
    var plan := Plan(s.deletions, s.manifests, orders, t.hostId, t.fingerprint, t.now).value;
    SelectedRecordManifest(s, FindRecord(plan, t.requestHash).value, reconciliationOrder, t);
  }

  lemma SelectedRecordManifest(s: Evidence, record: RetentionRecord, reconciliationOrder: seq<string>, t: Target)
    requires Enumerates(s.reconciliations, reconciliationOrder)
    requires SelectRecord(s, record, reconciliationOrder, t).Ok?
    ensures LoadManifest(s.manifests, SelectRecord(s, record, reconciliationOrder, t).value.deletion).Ok?
  {
  }

  lemma AdmittedManifest(
    sha: Sha256, s: Evidence, deletionOrder: seq<string>, reconciliationOrder: seq<string>, e: Execution,
    r: CleanupRequest, d: DeletionResult, values: seq<ReconciliationResult>, withManifest: bool
  )
    requires Intact(s) && StoredDeletion(s, d)
    requires Enumerates(s.deletions, deletionOrder) && Enumerates(s.reconciliations, reconciliationOrder)
    requires Admit(sha, s, deletionOrder, reconciliationOrder, e, r).Ok?
    requires d.resultHash == e.deletionResultHash && d.hostId == e.hostId && d.hostFingerprint == e.hostFingerprint
    requires Kinds(LeftOver(values, Some(d), withManifest)) == e.remainingKinds
    ensures withManifest ==> LoadManifest(s.manifests, d).Ok?
  {
    LeftOverKinds(values, d, withManifest);
    DeletionIsFound(s, deletionOrder, d);
  }
}
