// Safety of evidence removal over whole runs: any sequence of `execute` and
// `resume` calls, with any failures, cancellations and torn unlinks.

module RetentionRuns {
  import opened Foundations
  import opened Records
  import opened EvidenceStores
  import opened RetentionPlanner
  import opened RetentionPlanProperties
  import opened RetentionExecutor
  import opened RetentionCleanup

  // What the stores' own `save` operations leave behind: every file readable
  // and named after its record, and no two results sharing a hash.
  ghost predicate Intact(s: Evidence) {
    && IntactReconciliations(s.reconciliations)
    && IntactDeletions(s.deletions)
  }

  ghost predicate IntactReconciliations(files: Directory<ReconciliationResult>) {
    && (forall k | k in files :: files[k].Stored? && files[k].value.reconciliationId == k && IsIdentifier(k)
                                 && IsDigest(files[k].value.resultHash))
    && (forall i, j | i in files && j in files && files[i].value.resultHash == files[j].value.resultHash :: i == j)
  }

  ghost predicate IntactDeletions(files: Directory<DeletionResult>) {
    && (forall k | k in files :: files[k].Stored? && files[k].value.requestId == k && IsIdentifier(k)
                                 && IsDigest(files[k].value.requestHash) && IsDigest(files[k].value.resultHash))
    && (forall i, j | i in files && j in files && files[i].value.requestHash == files[j].value.requestHash :: i == j)
    && (forall i, j | i in files && j in files && files[i].value.resultHash == files[j].value.resultHash :: i == j)
  }

  ghost predicate Submap<T(!new)>(small: Directory<T>, large: Directory<T>) {
    small.Keys <= large.Keys && forall k | k in small :: small[k] == large[k]
  }

  // Nothing was added or rewritten.
  ghost predicate Shrunk(before: Evidence, after: Evidence) {
    && Submap(after.reconciliations, before.reconciliations)
    && Submap(after.manifests, before.manifests)
    && Submap(after.deletions, before.deletions)
  }

  ghost predicate StoredDeletion(s: Evidence, d: DeletionResult) {
    d.requestId in s.deletions && s.deletions[d.requestId] == Stored(d)
  }

  // `r` is a reconciliation of deletion `d`, kept in `s`.
  ghost predicate KeepsReconciliation(s: Evidence, d: DeletionResult, r: ReconciliationResult) {
    && r.reconciliationId in s.reconciliations && s.reconciliations[r.reconciliationId] == Stored(r)
    && r.sourceDeletionResultHash == d.resultHash && r.hostId == d.hostId
  }

  // Evidence of `d` only ever disappears in the order reconciliations,
  // manifest, deletion result.
  ghost predicate Phased(start: Evidence, s: Evidence, d: DeletionResult) {
    && (!StoredDeletion(s, d) ==> d.requestHash !in s.manifests && forall r :: !KeepsReconciliation(s, d, r))
    && (d.requestHash in start.manifests && d.requestHash !in s.manifests ==>
          forall r :: !KeepsReconciliation(s, d, r))
  }

  // Reconciliations disappear newest first.
  ghost predicate OldestLast(start: Evidence, s: Evidence, d: DeletionResult) {
    forall q, r | KeepsReconciliation(start, d, q) && !KeepsReconciliation(s, d, q) && KeepsReconciliation(s, d, r) ::
      q.observedAt >= r.observedAt
  }

  ghost predicate Orderly(start: Evidence, s: Evidence) {
    forall d | StoredDeletion(start, d) :: Phased(start, s, d) && OldestLast(start, s, d)
  }

  // The shape of every recorded remainder: the tail of
  // reconciliation* manifest deletion.
  ghost predicate TailShape(kinds: seq<Kind>) {
    && kinds != []
    && kinds[|kinds| - 1] == DeletionKind
    && (|kinds| >= 2 ==> kinds[|kinds| - 2] == ManifestKind)
    && forall i | 0 <= i < |kinds| - 2 :: kinds[i] == ReconciliationKind
  }

  // A record claiming that only the deletion result is left tells the truth
  // about the manifest.
  ghost predicate Truthful(s: Evidence, e: Execution) {
    && (e.remainingKinds == [] || TailShape(e.remainingKinds))
    && (e.remainingKinds == [DeletionKind] ==>
          forall d | StoredDeletion(s, d) && d.resultHash == e.deletionResultHash :: d.requestHash !in s.manifests)
  }

  // The operations of one removal loop over the evidence of `d`, and what they
  // rely on.
  ghost predicate Removal(
    s: Evidence, d: DeletionResult, values: seq<ReconciliationResult>, withManifest: bool
  )
  {
    && StoredDeletion(s, d)
    && (forall r :: r in values <==> KeepsReconciliation(s, d, r))
    && NewestFirst(values)
    && (withManifest <==> d.requestHash in s.manifests)
    && (!withManifest ==> values == [])
  }

  function Gone(values: seq<ReconciliationResult>, n: nat): set<string> {
    set i | 0 <= i < n && i < |values| :: values[i].reconciliationId
  }

  // The evidence after the first `n` operations on deletion `d` took effect.
  function After(
    s: Evidence, d: DeletionResult, values: seq<ReconciliationResult>, withManifest: bool, n: nat
  ): Evidence
  {
    Evidence(
      s.reconciliations - Gone(values, n),
      if withManifest && n > |values| then s.manifests - {d.requestHash} else s.manifests,
      if n == |LeftOver(values, Some(d), withManifest)| then s.deletions - {d.requestId} else s.deletions)
  }

  lemma {:induction false} WithoutIsAfter(
    s: Evidence, d: DeletionResult, values: seq<ReconciliationResult>, withManifest: bool, n: nat
  )
    requires n <= |LeftOver(values, Some(d), withManifest)|
    ensures Without(s, LeftOver(values, Some(d), withManifest)[..n]) == After(s, d, values, withManifest, n)
  {
    var ops := LeftOver(values, Some(d), withManifest);
    if n == 0 {
      assert Gone(values, n) == {};
      assert s.reconciliations - {} == s.reconciliations;
    } else {
      WithoutIsAfter(s, d, values, withManifest, n - 1);
      assert ops[..n][..n - 1] == ops[..n - 1];
      assert Without(s, ops[..n]) == WithoutOne(After(s, d, values, withManifest, n - 1), ops[n - 1]);
      if n <= |values| {
        assert ops[n - 1] == RemoveReconciliation(values[n - 1]);
        assert Gone(values, n) == Gone(values, n - 1) + {values[n - 1].reconciliationId};
        assert s.reconciliations - Gone(values, n)
            == s.reconciliations - Gone(values, n - 1) - {values[n - 1].reconciliationId};
      } else {
        assert Gone(values, n) == Gone(values, n - 1);
        if withManifest && n == |values| + 1 {
          assert ops[n - 1] == RemoveManifest(d);
        } else {
          assert n == |ops| && ops[n - 1] == RemoveDeletion(d);
        }
      }
    }
  }

  // Which reconciliations survive the first `n` operations.
  lemma KeptAfter(
    s: Evidence, d: DeletionResult, values: seq<ReconciliationResult>, withManifest: bool, n: nat,
    c: DeletionResult, r: ReconciliationResult
  )
    requires Removal(s, d, values, withManifest)
    ensures KeepsReconciliation(After(s, d, values, withManifest, n), c, r)
            <==> KeepsReconciliation(s, c, r) && r !in values[..if n < |values| then n else |values|]
  {
    var m := if n < |values| then n else |values|;
    if KeepsReconciliation(s, c, r) {
      if r in values[..m] {
        var i :| 0 <= i < m && values[i] == r;
        assert r.reconciliationId in Gone(values, n);
      }
      if r.reconciliationId in Gone(values, n) {
        var i :| 0 <= i < n && i < |values| && values[i].reconciliationId == r.reconciliationId;
        assert values[i] in values;
        assert values[i] == r;
        assert values[..m][i] == r;
      }
    }
  }

  // One removal loop, stopped anywhere, keeps the order of removal.
  lemma RemovalKeepsOrder(
    start: Evidence, s: Evidence, d: DeletionResult, values: seq<ReconciliationResult>, withManifest: bool, n: nat
  )
    requires Intact(start) && Shrunk(start, s) && Orderly(start, s)
    requires Removal(s, d, values, withManifest)
    requires n <= |LeftOver(values, Some(d), withManifest)|
    ensures var after := After(s, d, values, withManifest, n);
            Shrunk(s, after) && Shrunk(start, after) && Orderly(start, after)
  {
    var after := After(s, d, values, withManifest, n);
    forall c | StoredDeletion(start, c) ensures Phased(start, after, c) && OldestLast(start, after, c) {
      if c == d {
        OwnStaysPhased(start, s, d, values, withManifest, n);
        OwnStaysOldestLast(start, s, d, values, withManifest, n);
      } else {
        OtherUntouched(start, s, d, values, withManifest, n, c);
        SameEvidenceSameOrder(start, s, after, c);
      }
    }
  }

  // The same evidence of `c` before and after.
  ghost predicate SameEvidence(s: Evidence, after: Evidence, c: DeletionResult) {
    && (StoredDeletion(after, c) <==> StoredDeletion(s, c))
    && (c.requestHash in after.manifests <==> c.requestHash in s.manifests)
    && forall r :: KeepsReconciliation(after, c, r) <==> KeepsReconciliation(s, c, r)
  }

  lemma SameEvidenceSameOrder(start: Evidence, s: Evidence, after: Evidence, c: DeletionResult)
    requires SameEvidence(s, after, c) && Phased(start, s, c) && OldestLast(start, s, c)
    ensures Phased(start, after, c) && OldestLast(start, after, c)
  {
  }

  lemma OtherUntouched(
    start: Evidence, s: Evidence, d: DeletionResult, values: seq<ReconciliationResult>, withManifest: bool, n: nat,
    c: DeletionResult
  )
    requires Intact(start) && Shrunk(start, s)
    requires Removal(s, d, values, withManifest)
    requires StoredDeletion(start, c) && c != d
    ensures SameEvidence(s, After(s, d, values, withManifest, n), c)
  {
    assert StoredDeletion(start, d);
    DistinctDeletions(start, d, c);
    OtherFilesStay(s, d, values, withManifest, n, c);
  }

  lemma OtherFilesStay(
    s: Evidence, d: DeletionResult, values: seq<ReconciliationResult>, withManifest: bool, n: nat, c: DeletionResult
  )
    requires Removal(s, d, values, withManifest)
    requires c.requestId != d.requestId && c.requestHash != d.requestHash && c.resultHash != d.resultHash
    ensures SameEvidence(s, After(s, d, values, withManifest, n), c)
  {
    var after := After(s, d, values, withManifest, n);
    forall r ensures KeepsReconciliation(after, c, r) <==> KeepsReconciliation(s, c, r) {
      OtherKept(s, d, values, withManifest, n, c, r);
    }
  }

  lemma OtherKept(
    s: Evidence, d: DeletionResult, values: seq<ReconciliationResult>, withManifest: bool, n: nat, c: DeletionResult,
    r: ReconciliationResult
  )
    requires Removal(s, d, values, withManifest) && c.resultHash != d.resultHash
    ensures KeepsReconciliation(After(s, d, values, withManifest, n), c, r) <==> KeepsReconciliation(s, c, r)
  {
    KeptAfter(s, d, values, withManifest, n, c, r);
    if r in values { assert KeepsReconciliation(s, d, r); }
  }

  lemma DistinctDeletions(start: Evidence, d: DeletionResult, c: DeletionResult)
    requires Intact(start) && StoredDeletion(start, d) && StoredDeletion(start, c) && c != d
    ensures c.requestId != d.requestId && c.requestHash != d.requestHash && c.resultHash != d.resultHash
  {
  }

  lemma OwnStaysPhased(
    start: Evidence, s: Evidence, d: DeletionResult, values: seq<ReconciliationResult>, withManifest: bool, n: nat
  )
    requires Removal(s, d, values, withManifest)
    requires n <= |LeftOver(values, Some(d), withManifest)|
    requires StoredDeletion(start, d) && Phased(start, s, d)
    ensures Phased(start, After(s, d, values, withManifest, n), d)
  {
    var after := After(s, d, values, withManifest, n);
    assert values[..|values|] == values;
    forall r ensures KeepsReconciliation(after, d, r) ==> n < |values| {
      KeptAfter(s, d, values, withManifest, n, d, r);
    }
  }

  lemma OwnStaysOldestLast(
    start: Evidence, s: Evidence, d: DeletionResult, values: seq<ReconciliationResult>, withManifest: bool, n: nat
  )
    requires Removal(s, d, values, withManifest)
    requires OldestLast(start, s, d)
    ensures OldestLast(start, After(s, d, values, withManifest, n), d)
  {
    var after := After(s, d, values, withManifest, n);
    var m := if n < |values| then n else |values|;
    forall q, r | KeepsReconciliation(start, d, q) && !KeepsReconciliation(after, d, q)
                  && KeepsReconciliation(after, d, r)
      ensures q.observedAt >= r.observedAt
    {
      KeptAfter(s, d, values, withManifest, n, d, q);
      KeptAfter(s, d, values, withManifest, n, d, r);
      if KeepsReconciliation(s, d, q) {
        PrefixIsNewer(values, m, q, r);
      }
    }
  }

  lemma PrefixIsNewer(values: seq<ReconciliationResult>, m: nat, q: ReconciliationResult, r: ReconciliationResult)
    requires NewestFirst(values) && m <= |values|
    requires q in values[..m] && r in values && r !in values[..m]
    ensures q.observedAt >= r.observedAt
  {
    var i :| 0 <= i < m && values[i] == q;
    assert values == values[..m] + values[m..];
    var j :| 0 <= j < |values[m..]| && values[m..][j] == r;
    assert values[m + j] == r;
  }
}
