// Looking at both copies again after a deletion, without changing either.

module BackupReconciliation {
  import opened Foundations
  import opened Records
  import opened EvidenceStores
  import opened BackupStore
  import opened BackupCatalog
  import BackupDeletion

  // `_validate_result`
  predicate ValidReconciliation(sha: Sha256, r: ReconciliationResult) {
    && IsIdentifier(r.reconciliationId)
    && IsIdentifier(r.backupId)
    && IsIdentifier(r.hostId)
    && IsDigest(r.sourceDeletionResultHash)
    && IsDigest(r.manifestHash)
    && IsFingerprint(r.hostFingerprint)
    && r.state == CombinedState(r.local, r.remote)
    && r.requiresAttention == !Settled(r.state)
    && r.resultHash == sha(ReconciliationText(r.(resultHash := "")))
  }

  // `LocalBackupCopyObserver.observe`
  function LocalPresence(
    env: Environment, disk: Disk, m: Manifest, cancelled: bool, cancelledInVerify: bool
  ): Outcome<CopyPresence>
  {
    if cancelled then Raised(OperationCancelled)
    else if m.storageLocation !in disk then Ok(Absent)
    else if cancelledInVerify then Raised(OperationCancelled)
    else Ok(if AllPassed(Verification(env, disk, m)) then Present else PresenceUnknown)
  }

  // How loading the remote copy goes.
  datatype RemoteLoad = LoadReturned | LoadCancelled | LoadFailed(error: Error)

  // `RemoteBackupCopyObserver.observe`
  function RemotePresence(cancelled: bool, load: RemoteLoad): Outcome<CopyPresence> {
    if cancelled then Raised(OperationCancelled)
    else
      match load
      case LoadReturned => Ok(Present)
      case LoadCancelled => Raised(OperationCancelled)
      case LoadFailed(error) =>
        if error.OperationCancelled? then Raised(error)
        else Ok(if error == AdapterError(BackupDeletion.REMOTE_ABSENT) then Absent else PresenceUnknown)
  }

  // The record of one observation.
  function ObservationRecord(
    sha: Sha256, id: string, d: DeletionResult, m: Manifest, seen: BackupDeletion.Observation, at: int
  ): ReconciliationResult
  {
    var state := CombinedState(seen.local, seen.remote);
    var r := ReconciliationResult(id, d.resultHash, m.backupId, m.hostId, m.hostFingerprint.GetOr(""), m.manifestHash,
                                  at, seen.local, seen.remote, state, !Settled(state), "");
    r.(resultHash := sha(ReconciliationText(r)))
  }

  // `BackupReconciliationRunner.reconcile`
  function RunReconciliation(
    sha: Sha256, files: Directory<ReconciliationResult>, id: string, d: DeletionResult, m: Manifest,
    sighting: BackupDeletion.Sighting, at: int, fault: Fault
  ): (Directory<ReconciliationResult>, Outcome<ReconciliationResult>)
  {
    if !IsIdentifier(id) then (files, Raised(AdapterError("invalid_reconciliation_result")))
    else if !BackupDeletion.ValidResult(sha, d) then (files, Raised(AdapterError("invalid_deletion_result")))
    else if !BoundTo(m, d) then (files, Raised(AdapterError("reconciliation_binding_mismatch")))
    else
      match BackupDeletion.ObserveBoth(sighting)
      case Raised(e) => (files, Raised(e))
      case Ok(seen) =>
        var r := ObservationRecord(sha, id, d, m, seen, at);
        SaveReconciliation(files, r, ValidReconciliation(sha, r), fault)
  }

  class BackupReconciliationRunner {
    const sha: Sha256
    const results: ReconciliationResultStore

    constructor (sha: Sha256, results: ReconciliationResultStore)
      ensures this.sha == sha && this.results == results
    {
      this.sha := sha;
      this.results := results;
    }

    method Reconcile(
      id: string, d: DeletionResult, m: Manifest, sighting: BackupDeletion.Sighting, at: int, fault: Fault
    ) returns (r: Outcome<ReconciliationResult>)
      modifies results
      ensures (results.files, r) == RunReconciliation(sha, old(results.files), id, d, m, sighting, at, fault)
    {
      if !IsIdentifier(id) {
        return Raised(AdapterError("invalid_reconciliation_result"));
      }
      if !BackupDeletion.ValidResult(sha, d) {
        return Raised(AdapterError("invalid_deletion_result"));
      }
      if !BoundTo(m, d) {
        return Raised(AdapterError("reconciliation_binding_mismatch"));
      }
      var seen := BackupDeletion.ObserveBoth(sighting);
      if seen.Raised? {
        return Raised(seen.error);
      }
      var record := ObservationRecord(sha, id, d, m, seen.value, at);
      r := results.Save(record, ValidReconciliation(sha, record), fault);
    }
  }

  // A record made by `reconcile` for `d`.
  ghost predicate RecordedFor(
    sha: Sha256, id: string, d: DeletionResult, sighting: BackupDeletion.Sighting, at: int, r: ReconciliationResult
  )
  {
    && ValidReconciliation(sha, r)
    && r.reconciliationId == id && r.observedAt == at
    && r.sourceDeletionResultHash == d.resultHash && r.manifestHash == d.manifestHash
    && r.backupId == d.backupId && r.hostId == d.hostId && r.hostFingerprint == d.hostFingerprint
    && sighting.local.Ok? && sighting.remote.Ok?
    && (!r.requiresAttention <==> sighting.local == sighting.remote && sighting.local.value != PresenceUnknown)
  }

  // A run writes a record exactly with a fresh identifier, a valid deletion
  // result, the manifest it was bound to and both observations, unless the write
  // is refused, and succeeds if the write is also made durable. The record is
  // never refused by its own validator, belongs to that deletion, and asks for
  // attention unless both copies were seen or both were seen to be gone.
  lemma ReconciliationSucceedsIff(
    sha: Sha256, files: Directory<ReconciliationResult>, id: string, d: DeletionResult, m: Manifest,
    sighting: BackupDeletion.Sighting, at: int, fault: Fault
  )
    ensures var (after, r) := RunReconciliation(sha, files, id, d, m, sighting, at, fault);
            var recordable := && IsIdentifier(id) && id !in files && BackupDeletion.ValidResult(sha, d)
                              && BoundTo(m, d) && BackupDeletion.ObserveBoth(sighting).Ok?;
            && (r.Ok? <==> recordable && fault == Smooth)
            && (r.Ok? ==> after == files[id := Stored(r.value)])
            && (after != files <==> recordable && fault != Refused)
            && (after != files
                ==> exists x :: RecordedFor(sha, id, d, sighting, at, x) && after == files[id := Stored(x)])
            && (r.Ok? ==> RecordedFor(sha, id, d, sighting, at, r.value))
  {
    if IsIdentifier(id) && BackupDeletion.ValidResult(sha, d) && BoundTo(m, d)
       && BackupDeletion.ObserveBoth(sighting).Ok? {
      var x := ObservationRecord(sha, id, d, m, BackupDeletion.ObserveBoth(sighting).value, at);
      RecordIsValid(sha, id, d, m, BackupDeletion.ObserveBoth(sighting).value, at);
      assert RecordedFor(sha, id, d, sighting, at, x);
    }
  }

  lemma RecordIsValid(
    sha: Sha256, id: string, d: DeletionResult, m: Manifest, seen: BackupDeletion.Observation, at: int
  )
    requires IsIdentifier(id) && BackupDeletion.ValidResult(sha, d) && BoundTo(m, d)
    ensures ValidReconciliation(sha, ObservationRecord(sha, id, d, m, seen, at))
    ensures d.resultHash == HashResult(sha, d)
  {
    var r := ObservationRecord(sha, id, d, m, seen, at);
    assert r.(resultHash := "") == r.(resultHash := "").(resultHash := "");
  }

  // A remote store that tells the truth about the copy it is asked to load.
  ghost predicate TruthfulLoad(present: bool, load: RemoteLoad) {
    && (load == LoadReturned ==> present)
    && (load == LoadFailed(AdapterError(BackupDeletion.REMOTE_ABSENT)) ==> !present)
  }

  // Both observers together, whatever cancels them: over a truthful remote store
  // they never report a copy that is gone nor miss one that is there.
  lemma ObserversTellTheTruth(
    env: Environment, disk: Disk, m: Manifest, w: BackupDeletion.World, p: BackupDeletion.Ports, load: RemoteLoad,
    cancelledLocal: bool, cancelledInVerify: bool, cancelledRemote: bool
  )
    requires w.local == (m.storageLocation in disk) && TruthfulLoad(w.remote, load)
    requires p.sighting.local == LocalPresence(env, disk, m, cancelledLocal, cancelledInVerify)
    requires p.sighting.remote == RemotePresence(cancelledRemote, load)
    ensures BackupDeletion.TruthfulObservers(w, p)
  {
    assert p.sighting.local == Ok(Present) ==> m.storageLocation in disk;
  }

  // What the local observer answers follows the store: a backup just created is
  // seen as present, and one just deleted as absent.
  lemma CreatedIsSeen(
    env: Environment, s: Store, r: BackupRequest, captured: seq<Captured>, requirePrecondition: bool, created: int
  )
    requires LawfulCipher(env)
    requires Persist(env, s, r, captured, requirePrecondition, NoHalt, created).1.Ok?
    ensures var (after, m) := Persist(env, s, r, captured, requirePrecondition, NoHalt, created);
            LocalPresence(env, after.disk, m.value, false, false) == Ok(Present)
  {
    CreatedBackupVerifies(env, s, r, captured, requirePrecondition, NoHalt, created);
  }

  lemma DeletedIsGone(env: Environment, s: Store, m: Manifest, fault: TreeFault)
    requires BackupCatalog.Delete(env, s, m, false, fault).1.None?
    ensures LocalPresence(env, s.disk, m, false, false) == Ok(Present)
    ensures LocalPresence(env, BackupCatalog.Delete(env, s, m, false, fault).0.disk, m, false, false) == Ok(Absent)
  {
  }
}
