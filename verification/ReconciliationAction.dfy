// The one action that only looks: reconciling a backup shown in the inventory.

module ReconciliationAction {
  import opened Foundations
  import opened Records
  import opened EvidenceStores
  import opened BackupReconciliation
  import opened BackupInventory
  import opened BackupEvidence
  import BackupDeletion

  function FindDeletionOf(results: seq<DeletionResult>, backupId: string): Option<DeletionResult> {
    if results == [] then None
    else if results[0].backupId == backupId then Some(results[0])
    else FindDeletionOf(results[1..], backupId)
  }

  // The live manifest if there is one, else the evidence kept for the deletion.
  function ManifestFor(
    live: Outcome<seq<Manifest>>, evidence: Option<Directory<Manifest>>, hostId: string, d: DeletionResult
  ): Outcome<Manifest>
  {
    if live.Raised? then Raised(live.error)
    else if !LocalUsable(live, hostId) then Raised(AdapterError("reconciliation_binding_mismatch"))
    else match FindBackup(live.value, d.backupId)
         case Some(m) => Ok(m)
         case None =>
           if evidence.None? then Raised(AdapterError("reconciliation_manifest_not_found"))
           else LoadManifest(evidence.value, d)
  }

  // What one call is asked for.
  datatype Ask = Ask(action: Action, reconciliationId: string, backupId: string, hostId: string, fingerprint: string)

  // What it meets: the cancellation flag at its two checks, the live listing,
  // the two observations, the clock, and how the record is written.
  datatype Meets = Meets(
    cancelledFirst: bool, live: Outcome<seq<Manifest>>, cancelledSecond: bool, sighting: BackupDeletion.Sighting,
    at: int, fault: Fault
  )

  // `BackupReconciliationActionService.execute`
  function ExecuteAction(
    sha: Sha256, deletions: Directory<DeletionResult>, order: seq<string>, results: Directory<ReconciliationResult>,
    evidence: Option<Directory<Manifest>>, ask: Ask, w: Meets
  ): (Directory<ReconciliationResult>, Outcome<ReconciliationResult>)
    requires Elements(order) <= deletions.Keys
  {
    if !ask.action.ReconcileCopies? then (results, Raised(AdapterError("invalid_backup_reconciliation_action")))
    else if w.cancelledFirst then (results, Raised(OperationCancelled))
    else
      match ListHost(deletions, order, DeletionStamp, ask.hostId, ask.fingerprint)
      case Raised(e) => (results, Raised(e))
      case Ok(list) =>
        match FindDeletionOf(list, ask.backupId)
        case None => (results, Raised(AdapterError("deletion_result_not_found")))
        case Some(d) => ReconcileDeletion(sha, results, evidence, ask, w, d)
  }

  function ReconcileDeletion(
    sha: Sha256, results: Directory<ReconciliationResult>, evidence: Option<Directory<Manifest>>, ask: Ask, w: Meets,
    d: DeletionResult
  ): (Directory<ReconciliationResult>, Outcome<ReconciliationResult>)
  {
    match ManifestFor(w.live, evidence, ask.hostId, d)
    case Raised(e) => (results, Raised(e))
    case Ok(m) =>
      if m.hostFingerprint != Some(ask.fingerprint) || m.manifestHash != d.manifestHash
      then (results, Raised(AdapterError("reconciliation_binding_mismatch")))
      else if w.cancelledSecond then (results, Raised(OperationCancelled))
      else RunReconciliation(sha, results, ask.reconciliationId, d, m, w.sighting, w.at, w.fault)
  }

  lemma {:induction false} FindDeletionOfFinds(results: seq<DeletionResult>, backupId: string)
    requires NewestDeletionsFirst(results)
    ensures match FindDeletionOf(results, backupId)
            case None => forall d | d in results :: d.backupId != backupId
            case Some(found) =>
              && found in results && found.backupId == backupId
              && forall d | d in results && d.backupId == backupId :: d.completedAt <= found.completedAt
  {
    if results != [] && results[0].backupId != backupId {
      var rest := results[1..];
      assert forall i, j | 0 <= i < j < |rest| :: rest[i] == results[i + 1] && rest[j] == results[j + 1];
      FindDeletionOfFinds(rest, backupId);
      assert forall d | d in results :: d == results[0] || d in rest;
    }
  }

  // The deletions of one backup completed at different instants.
  ghost predicate DistinctTimes(deletions: Directory<DeletionResult>, hostId: string, backupId: string) {
    forall a, b | OnHost(deletions, DeletionStamp, hostId, a) && OnHost(deletions, DeletionStamp, hostId, b)
                  && a.backupId == backupId && b.backupId == backupId && a.completedAt == b.completedAt :: a == b
  }

  // The record of a successful action belongs to the newest deletion of the
  // backup it was asked for, and is valid.
  lemma ActionReconcilesNewest(
    sha: Sha256, deletions: Directory<DeletionResult>, order: seq<string>, results: Directory<ReconciliationResult>,
    evidence: Option<Directory<Manifest>>, ask: Ask, w: Meets
  ) returns (d: DeletionResult)
    requires Enumerates(deletions, order)
    requires ExecuteAction(sha, deletions, order, results, evidence, ask, w).1.Ok?
    ensures OnHost(deletions, DeletionStamp, ask.hostId, d) && d.backupId == ask.backupId
    ensures forall x | OnHost(deletions, DeletionStamp, ask.hostId, x) && x.backupId == ask.backupId ::
              x.completedAt <= d.completedAt
    ensures var (after, outcome) := ExecuteAction(sha, deletions, order, results, evidence, ask, w);
            var r := outcome.value;
            && after == results[r.reconciliationId := Stored(r)]
            && ValidReconciliation(sha, r) && BelongsTo(r, d) && r.observedAt == w.at
            && r.reconciliationId == ask.reconciliationId && ask.reconciliationId !in results
            && r.hostId == ask.hostId && r.hostFingerprint == ask.fingerprint
  {
    ListHostExact(deletions, order, DeletionStamp, ask.hostId, ask.fingerprint);
    var list := ListHost(deletions, order, DeletionStamp, ask.hostId, ask.fingerprint).value;
    forall i, j | 0 <= i < j < |list| ensures list[i].completedAt >= list[j].completedAt {
      assert DeletionStamp(list[i]).at >= DeletionStamp(list[j]).at;
    }
    FindDeletionOfFinds(list, ask.backupId);
    d := FindDeletionOf(list, ask.backupId).value;
    assert DeletionStamp(d).hostId == ask.hostId && DeletionStamp(d).hostFingerprint == ask.fingerprint;
    var m := ManifestFor(w.live, evidence, ask.hostId, d).value;
    ReconciliationSucceedsIff(sha, results, ask.reconciliationId, d, m, w.sighting, w.at, w.fault);
  }

  // After a successful action, the next load shows that backup with the very
  // deletion that was reconciled, and with this reconciliation or a newer one.
  lemma ReconciledIsShown(
    sha: Sha256, s: Stores, order: seq<string>, evidence: Option<Directory<Manifest>>, ask: Ask, w: Meets, o: Orders,
    retention: Outcome<RetentionEvidence>, pending: Pending
  )
    requires s.reconciliations.Some? && Enumerates(s.deletions, order)
    requires DistinctTimes(s.deletions, ask.hostId, ask.backupId)
    requires ExecuteAction(sha, s.deletions, order, s.reconciliations.value, evidence, ask, w).1.Ok?
    requires var files := ExecuteAction(sha, s.deletions, order, s.reconciliations.value, evidence, ask, w).0;
             var after := s.(reconciliations := Some(files));
             Lists(after, o) && Loaded(after, o, ask.hostId, ask.fingerprint, retention, pending).Ok?
    ensures var (files, outcome) := ExecuteAction(sha, s.deletions, order, s.reconciliations.value, evidence, ask, w);
            var e := Loaded(s.(reconciliations := Some(files)), o, ask.hostId, ask.fingerprint, retention,
                            pending).value;
            && BelongsToView(outcome.value, e.views)
            && HasNewest(e.reconciliations, outcome.value)
  {
    var (files, outcome) := ExecuteAction(sha, s.deletions, order, s.reconciliations.value, evidence, ask, w);
    var r, after := outcome.value, s.(reconciliations := Some(files));
    var e := Loaded(after, o, ask.hostId, ask.fingerprint, retention, pending).value;
    var d := ActionReconcilesNewest(sha, s.deletions, order, s.reconciliations.value, evidence, ask, w);
    LoadedIsNewest(after, o, ask.hostId, ask.fingerprint, retention, pending);
    NewestIsViewed(s, ask.hostId, ask.fingerprint, e.views, d, r);
    assert files[r.reconciliationId] == Stored(r) && ReconciliationStamp(r).hostId == ask.hostId;
    assert OnHost(files, ReconciliationStamp, ask.hostId, r);
  }

  lemma NewestIsViewed(
    s: Stores, hostId: string, fingerprint: string, views: seq<DeletionView>, d: DeletionResult, r: ReconciliationResult
  )
    requires NewestViews(s, hostId, fingerprint, views) && BelongsTo(r, d)
    requires DistinctTimes(s.deletions, hostId, d.backupId) && OnHost(s.deletions, DeletionStamp, hostId, d)
    requires forall x | OnHost(s.deletions, DeletionStamp, hostId, x) && x.backupId == d.backupId ::
               x.completedAt <= d.completedAt
    ensures BelongsToView(r, views)
  {
    assert HasNewestView(views, d);
    var v :| v in views && v.result.backupId == d.backupId && v.result.completedAt >= d.completedAt;
    assert OnHost(s.deletions, DeletionStamp, hostId, v.result);
    var i :| 0 <= i < |views| && views[i] == v;
    assert BelongsTo(r, views[i].result);
  }
}
