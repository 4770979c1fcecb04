// The immutable records the backup lifecycle writes as canonical JSON files.

module Records {
  import opened Foundations

  datatype Encryption = Encryption(enabled: bool, keyReference: Option<string>, keyScope: Option<string>)

  // `items/{index:04d}-{sha256}.{enc|bin}`
  datatype ItemRef = ItemRef(index: nat, sha256: string, encrypted: bool)

  datatype BackupItem = BackupItem(
    target: string,
    existed: bool,
    contentRef: Option<ItemRef>,
    sha256: Option<string>,
    mode: Option<int>,
    uid: Option<int>,
    gid: Option<int>
  )

  // Where a backup lives: `root/<component of the host>/<backup id>`, or a path
  // outside the store.
  datatype Location = Inside(component: string, name: string) | Outside(path: string)

  datatype Manifest = Manifest(
    backupId: string,
    planId: string,
    changeSetHash: string,
    hostId: string,
    hostFingerprint: Option<string>,
    items: seq<BackupItem>,
    manifestHash: string,
    storageLocation: Location,
    encryption: Encryption,
    protected: bool,
    createdAt: int,
    retentionExpiresAt: Option<int>,
    complete: bool
  )

  // `next(...)` over a listing
  function FindBackup(list: seq<Manifest>, backupId: string): Option<Manifest> {
    if list == [] then None
    else if list[0].backupId == backupId then Some(list[0])
    else FindBackup(list[1..], backupId)
  }

  lemma {:induction false} FindBackupFinds(list: seq<Manifest>, backupId: string)
    ensures match FindBackup(list, backupId)
            case None => forall m | m in list :: m.backupId != backupId
            case Some(m) => m in list && m.backupId == backupId
  {
    if list != [] {
      FindBackupFinds(list[1..], backupId);
    }
  }

  datatype CopyPresence = Present | Absent | PresenceUnknown

  datatype DualCopyState = BothAvailable | LocalOnly | RemoteOnly | BothDeleted | StateUnknown

  // `_state` and `_combined`: one table written three times in the program.
  function CombinedState(local: CopyPresence, remote: CopyPresence): DualCopyState {
    if local.PresenceUnknown? || remote.PresenceUnknown? then StateUnknown
    else if local.Present? && remote.Present? then BothAvailable
    else if local.Present? then LocalOnly
    else if remote.Present? then RemoteOnly
    else BothDeleted
  }

  predicate Settled(state: DualCopyState) {
    state.BothAvailable? || state.BothDeleted?
  }

  datatype CopyDeleteOutcome = Deleted | AlreadyAbsent | Failed | NotAttempted | OutcomeUnknown

  datatype DeletionRequest = DeletionRequest(
    requestId: string,
    backupId: string,
    hostId: string,
    hostFingerprint: string,
    manifestHash: string,
    createdAt: int,
    expiresAt: int,
    requestHash: string
  )

  datatype DeletionResult = DeletionResult(
    requestId: string,
    requestHash: string,
    backupId: string,
    hostId: string,
    hostFingerprint: string,
    manifestHash: string,
    remoteOutcome: CopyDeleteOutcome,
    localOutcome: CopyDeleteOutcome,
    remoteError: Option<string>,
    localError: Option<string>,
    localPresence: CopyPresence,
    remotePresence: CopyPresence,
    state: DualCopyState,
    requiresAttention: bool,
    completedAt: int,
    resultHash: string
  )

  datatype ReconciliationResult = ReconciliationResult(
    reconciliationId: string,
    sourceDeletionResultHash: string,
    backupId: string,
    hostId: string,
    hostFingerprint: string,
    manifestHash: string,
    observedAt: int,
    local: CopyPresence,
    remote: CopyPresence,
    state: DualCopyState,
    requiresAttention: bool,
    resultHash: string
  )

  // The three kinds of evidence kept for one deletion.
  datatype Kind = ReconciliationKind | ManifestKind | DeletionKind

  datatype ExecutionState = RunCompleted | RunPartial | RunFailed

  datatype Execution = Execution(
    requestHash: string,
    backupId: string,
    hostId: string,
    hostFingerprint: string,
    deletionResultHash: string,
    reconciliationResultHashes: seq<string>,
    state: ExecutionState,
    removedKinds: seq<Kind>,
    remainingKinds: seq<Kind>,
    errorCode: Option<string>,
    completedAt: int,
    executionHash: string
  )

  datatype CleanupRequest = CleanupRequest(
    cleanupId: string,
    sourceExecutionHash: string,
    sourceRequestHash: string,
    backupId: string,
    hostId: string,
    hostFingerprint: string,
    remainingKinds: seq<Kind>,
    createdAt: int,
    expiresAt: int,
    requestHash: string
  )

  // SHA-256 over the canonical JSON of a record whose own hash field is blank.
  // Records of different kinds have different field names, so the record itself
  // stands for its encoding; nothing is assumed about collisions.
  datatype Encodable =
    | ManifestText(manifest: Manifest)
    | RequestText(request: DeletionRequest)
    | ResultText(result: DeletionResult)
    | ReconciliationText(reconciliation: ReconciliationResult)
    | ExecutionText(execution: Execution)
    | CleanupText(cleanup: CleanupRequest)

  type Sha256 = Encodable -> Digest

  function HashManifest(sha: Sha256, m: Manifest): Digest {
    sha(ManifestText(m.(manifestHash := "")))
  }

  function HashRequest(sha: Sha256, r: DeletionRequest): Digest {
    sha(RequestText(r.(requestHash := "")))
  }

  function HashResult(sha: Sha256, r: DeletionResult): Digest {
    sha(ResultText(r.(resultHash := "")))
  }

  function HashExecution(sha: Sha256, e: Execution): Digest {
    sha(ExecutionText(e.(executionHash := "")))
  }

  function HashCleanup(sha: Sha256, r: CleanupRequest): Digest {
    sha(CleanupText(r.(requestHash := "")))
  }

  function SealExecution(sha: Sha256, e: Execution): Execution {
    e.(executionHash := HashExecution(sha, e))
  }

  ghost predicate Collision(sha: Sha256, a: Encodable, b: Encodable) {
    a != b && sha(a) == sha(b)
  }
}
