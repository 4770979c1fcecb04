# Backup lifecycle and evidence protocol

This project models how the manager keeps, restores and deletes backups of a
host's configuration, and what it writes down while doing so, and proves what
those protocols guarantee over every failure point, cancellation point and run.

A backup exists in two copies. It is created, verified and restored by a local
store that caches manifests beside its directory. Deleting it is coordinated:
manifest evidence first, the remote copy second, the local copy third, then both
are observed and a result is recorded. Results can be reconciled again later.
Old evidence is removed by a planner and an executor that stop at the first
failure, and a cleanup executor resumes what is left from the recorded
execution. An inventory joins all of this with live listings and decides which
actions are offered. Beside it stand a hash-chained audit log, the traversal of
OpenSSH `Include` files, the preview, approval and preparation of a restore, and
the encrypted envelope of an item.

## How it is modelled

- A directory of records is a map from file name to a record or to a damaged
  entry; it is listed in an arbitrary order.
- Every write, unlink and removal that can fail takes its outcome from outside: it
  works, it changes nothing, or it takes effect and then reports an error. A tree
  can also be removed only in part. Cancellation is a fresh answer at every check.
  Clocks, listings of other components, ports and observers are parameters.
- SHA-256 over canonical JSON is an arbitrary function from records to digests.
  Nothing is assumed about collisions: a conclusion that needs their absence
  says "or a collision", and names the two texts.
- Components that change state step by step are classes and loops; their
  contracts equate the outcome with a function of the old state, and the lemmas
  are about that function. Whole runs are sequences of states each related to
  the next by one operation.
- AES-GCM opens what it seals and nothing else. JSON strings, canonical objects
  and base64 (section 4 of RFC 4648) are written out and proved to read back.

| file | contents |
|---|---|
| Foundations.dfy | results, identifiers, stable sorting, runs of a state machine |
| Records.dfy | the immutable records and their hashes |
| EvidenceStores.dfy | the directories of evidence |
| RetentionPlanner.dfy, RetentionPlanProperties.dfy | classifying evidence |
| RetentionExecutor.dfy, RetentionCleanup.dfy | removing it and resuming |
| RetentionRuns.dfy, RetentionSafety.dfy, RetentionResume.dfy, RetentionRecords.dfy | whole runs of removal |
| RetentionAdmission.dfy, RetentionResumable.dfy, RetentionRecovery.dfy, RetentionReruns.dfy | when a run can be carried on, and what running it again does |
| AuditLog.dfy | the audit log |
| HostDiscovery.dfy | the include traversal |
| BackupStore.dfy, BackupRestore.dfy, BackupCatalog.dfy, BackupPrune.dfy, BackupLocalStore.dfy | the local store |
| LocalRetention.dfy | the local retention report |
| BackupDeletion.dfy, BackupReconciliation.dfy, ReconciliationAction.dfy | two-copy deletion and reconciliation |
| BackupEvidence.dfy, BackupInventory.dfy | what is loaded and what is offered |
| RestorePipeline.dfy, BackupEnvelope.dfy | restore authorization and item envelopes |

## Where the code gives less than it seems to promise

Each of these is proved as stated, with the exact condition.

- A run stopped by an unlink that took effect and then raised leaves a record that
  every resume refuses: the step stays among the remaining kinds while its file is
  gone (`ExecutorRecordIsResumableIff`, `TornStopIsRefused`). If that step was the
  manifest, the deletion is also never a candidate for removal again
  (`TornManifestStrandsDeletion`). In general what a first run left can still be
  removed exactly while the manifest is there, or when nothing was torn and the
  record was written (`InterruptedIsRecoverableIff`, `CrashIsRecoverableIff`).
- The record of an interrupted resume can be resumed again only if, besides, no
  earlier attempt removed a reconciliation or there was none
  (`ResumedRecordIsResumableIff`, `SecondResumeIsRefused`): the record keeps the
  full list of hashes but only its own removals.
- Running a failed retention request again stores a second execution of it
  (`SecondReturnRepeats`, `CancelledTwiceRepeats`), and so does running one cleanup
  request twice (`SecondCleanupRepeats`, `CancelledCleanupRepeats`). From then on
  the host's executions cannot be listed (`ExecutionsListedIff`), its cleanups are
  refused and nothing is loaded for it (`RepeatedBlocksHost`).
- Pruning twice at one time can remove more than pruning once, because backups of
  one time are listed in any order: it is idempotent exactly when no unprotected
  survivor can fall behind the kept generations by such a tie
  (`PruneIsIdempotentIff`, `TiedPairIsNotTieProof`).
- Until the host is listed again (`LoadHeals`), the cache keeps an entry that is no
  longer true after a protection that was written and then raised
  (`TornProtectionIsStale`), a removal that failed after the manifest went
  (`RemovalLeavesStaleIff`, `DeletionLeavesStaleIff`, `PruneLeavesStaleIff`), and a
  create that replaced the manifest of a backup without its items folder and then
  raised, or took over the directory of a host whose hashed name is the same
  (`CreateLeavesStaleIff`, `RecreatedBackupGoesStale`).
- The local store reports pruned backups oldest first and the runner expects
  newest first, so a prune is reported as completed only if at most one listed
  backup does not survive the policy (`CompletedIffAtMostOneRemovable`).
- A mode of zero is restored as 0600 (`CreateThenRestore`).
- A deletion result that repeats an error code not shaped like an identifier is
  refused by its own validator, after the copies are gone (`RecordIsValidIff`,
  `FinishedIff`).
- A cancellation raised while the copies are observed after a deletion escapes,
  and no result is recorded though the copies may be gone (`FinishedIff`,
  `CancelledObservationGoesUnrecorded`).
- An audit event over one MiB, or one past the last twenty-digit name, is written
  but makes the log unreadable, and so does a stop between the event file and HEAD
  (`MisfitBreaksLog`, `HalfAppendBreaksLog`, `AppendIsAtomicToReaders`); a run stays
  readable exactly without them (`EveryRunIsReadableIff`).
- A configuration of exactly 128 readable files is refused when anything is still
  to be included after the last of them, even a file met before (`ListedIff`,
  `CapIsExact`, `ChainAtCap`).
- A key reference whose escaped text is too long gives envelopes that the store
  then refuses for their size (`EnvelopeFitsIff`).

## Model

| member | source | states |
|---|---|---|
| `EvidenceStores.ListHostExact` | src/llm_manager/infrastructure/backup_deletion.py:144-159 | a listing that succeeds shows exactly the host's records, newest first, and only when no entry of the whole directory is damaged and every record of the host carries the fingerprint asked for |
| `EvidenceStores.ScanHostSucceeds` | src/llm_manager/infrastructure/backup_deletion.py:151-158 | conversely, when no entry is damaged and the fingerprints agree, listing succeeds |
| `EvidenceStores.ListHostDistinct` | src/llm_manager/infrastructure/backup_deletion.py:144-159 | records stored once each are listed once each |
| `EvidenceStores.ListEntriesExact` | src/llm_manager/infrastructure/backup_manifest_evidence.py:60-78 | listing manifest evidence returns every file once, under the request hash its name carries, newest manifest first |
| `EvidenceStores.ListEntriesSucceedsIff` | src/llm_manager/infrastructure/backup_manifest_evidence.py:60-78 | it succeeds exactly when no file of the directory is damaged |
| `EvidenceStores.ScanDirectory` | src/llm_manager/infrastructure/backup_reconciliation.py:107-122 | the directory loop computes that listing for some order of the directory |
| `EvidenceStores.DeletionResultStore.Save` | src/llm_manager/infrastructure/backup_deletion.py:114-123 | a result is stored only if valid and new, and is then read back; the write can be refused, or take effect and then raise |
| `EvidenceStores.DeletionResultStore.Delete` | src/llm_manager/infrastructure/backup_deletion.py:161-166 | removal of exactly the stored record given, with a refused or torn unlink as separate outcomes |
| `EvidenceStores.ReconciliationResultStore.Save` | src/llm_manager/infrastructure/backup_reconciliation.py:80-89 | reconciliation results are immutable once saved; the write can be refused, or take effect and then raise |
| `EvidenceStores.ReconciliationResultStore.ListForDeletionResult` | src/llm_manager/infrastructure/backup_reconciliation.py:124-132 | the listing of one deletion's reconciliations |
| `EvidenceStores.ReconciliationResultStore.Delete` | src/llm_manager/infrastructure/backup_reconciliation.py:134-139 | removal of exactly the stored record given |
| `EvidenceStores.ManifestEvidenceStore.Save` | src/llm_manager/infrastructure/backup_manifest_evidence.py:34-52 | saving the same manifest twice changes nothing, another manifest under the request is a collision; the write can be refused, or take effect and then raise |
| `EvidenceStores.ManifestEvidenceStore.Delete` | src/llm_manager/infrastructure/backup_manifest_evidence.py:80-84 | only evidence bound to the given deletion is unlinked |
| `RetentionPlanner.Planner.PlanForHost` | src/llm_manager/infrastructure/backup_evidence_retention.py:58-129 | the planner's loops compute the specification plan |
| `RetentionPlanProperties.PlanPartitionsEvidence` | src/llm_manager/infrastructure/backup_evidence_retention.py:58-129 | one record for each request hash of the host that has a deletion result or a manifest, and no other |
| `RetentionPlanProperties.CandidateIsRemovable` | src/llm_manager/infrastructure/backup_evidence_retention.py:102-120 | a candidate is unprotected, needs no attention, is deleted on both sides, and is 30 days old or has ten linked records no older |
| `RetentionPlanProperties.OldOrSupersededIsCandidate` | src/llm_manager/infrastructure/backup_evidence_retention.py:102-120 | conversely, such evidence is a candidate once 30 days old or behind ten strictly newer linked records |
| `RetentionPlanProperties.AtMostTenWithinPolicy` | src/llm_manager/infrastructure/backup_evidence_retention.py:102-120 | at most ten records are kept merely as recent |
| `RetentionExecutor.AdvanceRemovesPrefix` | src/llm_manager/infrastructure/backup_evidence_retention.py:333-365 | however the loop is disturbed, the files gone are those of a prefix of the operations: the reported ones and at most one torn unlink more |
| `RetentionExecutor.AdvanceStops` | src/llm_manager/infrastructure/backup_evidence_retention.py:339-358 | nothing after the first failure is tried |
| `RetentionExecutor.Executor.Run` | src/llm_manager/infrastructure/backup_evidence_retention.py:339-358 | the removal loop computes that progress |
| `RetentionExecutor.Executor.Choose` | src/llm_manager/infrastructure/backup_evidence_retention.py:303-332 | the guards are read-only and select what the specification selects |
| `RetentionExecutor.Executor.Execute` | src/llm_manager/infrastructure/backup_evidence_retention.py:303-376 | one call refines the effect on evidence, ledger and caller |
| `RetentionExecutor.ExecutionStore.Save` | src/llm_manager/infrastructure/backup_evidence_retention.py:167-180 | an execution is stored only if valid and new; the write can be refused, or take effect and then raise |
| `RetentionRecords.ExecutedRecordIsValid` | src/llm_manager/infrastructure/backup_evidence_retention.py:339-376 | the record of a run passes the store's validator whatever happened during the run |
| `RetentionRecords.ResumedRecordIsValid` | src/llm_manager/infrastructure/backup_evidence_retention_cleanup.py:230-266 | so does the record of every resume from a valid record |
| `RetentionCleanup.CleanupRequestStore.Save` | src/llm_manager/infrastructure/backup_evidence_retention_cleanup.py:72-89 | requests are immutable once saved; the write can be refused, or take effect and then raise |
| `RetentionCleanup.CleanupExecutor.Guard` | src/llm_manager/infrastructure/backup_evidence_retention_cleanup.py:169-229 | the guards of a resume are read-only and admit what the specification admits |
| `RetentionCleanup.CleanupExecutor.Resume` | src/llm_manager/infrastructure/backup_evidence_retention_cleanup.py:163-255 | one resume refines the effect on evidence, ledger and caller |
| `RetentionCleanup.CleanupService.Execute` | src/llm_manager/infrastructure/backup_evidence_retention_cleanup.py:282-326 | the service refines authorization, saving of the request and resumption on requests, evidence, ledger and caller |
| `RetentionCleanup.AuthorizedIff` | src/llm_manager/infrastructure/backup_evidence_retention_cleanup.py:293-315 | a cleanup is authorized exactly for a fresh valid request bound to an unfinished execution of a ledger that can be listed |
| `RetentionCleanup.CleanupResumesIff` | src/llm_manager/infrastructure/backup_evidence_retention_cleanup.py:282-326 | a cleanup that goes ahead is the resumption of its source execution with the request on disk; any other changes neither evidence nor ledger |
| `RetentionCleanup.RequestMadeIff` | src/llm_manager/infrastructure/backup_evidence_retention_cleanup.py:329-345 | a request can be made for a valid execution exactly when that is not complete and the identifier is well formed |
| `RetentionCleanup.MadeRequestGoesAheadIff` | src/llm_manager/infrastructure/backup_evidence_retention_cleanup.py:282-345 | a request made for a stored execution goes ahead exactly during its five minutes, while the host's executions can be listed |
| `RetentionSafety.SelectIsRemoval` | src/llm_manager/infrastructure/backup_evidence_retention.py:303-338 | what execute starts removing is a finished candidate with all of its evidence present |
| `RetentionSafety.AdmitIsRemoval` | src/llm_manager/infrastructure/backup_evidence_retention_cleanup.py:169-229 | what resume starts removing is exactly what the stores still hold of that deletion, with the recorded kinds and hashes |
| `RetentionSafety.EveryRunIsSafe` | src/llm_manager/infrastructure/backup_evidence_retention_cleanup.py:211-255 | in every state of every run of executes and resumes, evidence only shrinks, goes in the order reconciliations (newest first), manifest, result, and every record handed back is truthful |
| `RetentionSafety.RunsNeverOrphan` | src/llm_manager/infrastructure/backup_evidence_retention.py:333-347 | a run that removed a deletion result has removed its manifest and reconciliations before |
| `RetentionSafety.EvidenceIsAlwaysASuffix` | src/llm_manager/infrastructure/backup_evidence_retention.py:333-347 | in every state of every run what is left of a deletion's evidence is a suffix of (reconciliations as listed, manifest, result) |
| `RetentionAdmission.AdmissionIsHashComparison` | src/llm_manager/infrastructure/backup_evidence_retention_cleanup.py:169-229 | while the stores hold what a record calls remaining, resume is refused exactly when the recorded hashes differ |
| `RetentionAdmission.CleanStopAdmission` | src/llm_manager/infrastructure/backup_evidence_retention_cleanup.py:195-210 | after a clean stop, resume is admitted exactly when the record counts its hashes from the start |
| `RetentionAdmission.TornStopIsRefused` | src/llm_manager/infrastructure/backup_evidence_retention_cleanup.py:187-229 | whatever the order of the directories, the record of a run stopped by a torn unlink is refused |
| `RetentionResumable.ExecutorRecordIsResumableIff` | src/llm_manager/infrastructure/backup_evidence_retention_cleanup.py:163-229 | the record of an interrupted execute can be resumed exactly when the step it failed at was not torn, and then with exactly the operations not reached |
| `RetentionResumable.ResumedRecordIsResumableIff` | src/llm_manager/infrastructure/backup_evidence_retention_cleanup.py:187-229 | the record of an interrupted resume can be resumed exactly when the failing step was not torn and the record it resumed had removed no reconciliation, or there was none |
| `RetentionRecovery.SecondResumeIsRefused` | src/llm_manager/infrastructure/backup_evidence_retention_cleanup.py:195-210 | the input: a run cancelled after one reconciliation and a resume cancelled at once; nothing is torn, and the second record is never resumed |
| `RetentionResumable.TornManifestStrandsDeletion` | src/llm_manager/infrastructure/backup_evidence_retention_cleanup.py:187-229 | the input: after a torn unlink of the manifest the record is never resumed and the deletion is never a candidate again |
| `RetentionRecovery.NeverSelectedIff` | src/llm_manager/infrastructure/backup_evidence_retention.py:303-332 | what is left can be removed by running the request again exactly while its manifest is there |
| `RetentionRecovery.InterruptedIsRecoverableIff` | src/llm_manager/infrastructure/backup_evidence_retention.py:333-376 | after an interrupted first run, evidence can still be removed exactly while the manifest is there, or when the failing step was not torn and the record was written |
| `RetentionRecovery.CrashIsRecoverableIff` | src/llm_manager/infrastructure/backup_evidence_retention.py:333-376 | after a crash that left no record, exactly while the manifest is there |
| `RetentionRecovery.UndisturbedExecuteEmptiesEvidence` | src/llm_manager/infrastructure/backup_evidence_retention.py:333-376 | an undisturbed run completes, empties the deletion's evidence and touches nothing else |
| `RetentionRecovery.InterruptedThenResumed` | src/llm_manager/infrastructure/backup_evidence_retention_cleanup.py:163-255 | a run stopped anywhere without tearing, then an undisturbed resume of its record, empties the deletion's evidence and touches nothing else |
| `RetentionRecovery.InterruptedThenCleanedUp` | src/llm_manager/infrastructure/backup_evidence_retention_cleanup.py:282-345 | the same through ledger, request and cleanup service |
| `RetentionReruns.SecondReturnRepeats` | src/llm_manager/infrastructure/backup_evidence_retention.py:303-376 | two runs of one request that both return leave a ledger that repeats the request |
| `RetentionReruns.CancelledTwiceRepeats` | src/llm_manager/infrastructure/backup_evidence_retention.py:339-376 | the input: a run cancelled at once and run again later stores a second execution, with all evidence still in place |
| `RetentionReruns.SecondCleanupRepeats` | src/llm_manager/infrastructure/backup_evidence_retention_cleanup.py:282-326 | two calls of the cleanup service for one request that both return leave a ledger that repeats the request |
| `RetentionReruns.CancelledCleanupRepeats` | src/llm_manager/infrastructure/backup_evidence_retention_cleanup.py:211-255 | the input: a cleanup cancelled at once and the same request run again within its five minutes |
| `RetentionReruns.RepeatedBlocksHost` | src/llm_manager/infrastructure/backup_evidence.py:39-92 | a repeated request blocks the listing of the host's executions, its cleanups and everything loaded for it |
| `RetentionResume.ResumeRemovesRecordedPrefix` | src/llm_manager/infrastructure/backup_evidence_retention_cleanup.py:211-255 | a resume removes a prefix of the recorded remainder or nothing, and its record splits that remainder into removed and remaining |
| `RetentionResume.UndisturbedResumeEmptiesEvidence` | src/llm_manager/infrastructure/backup_evidence_retention_cleanup.py:211-255 | an undisturbed resume that is admitted completes, empties the deletion's evidence and touches nothing else |
| `AuditLog.ReadLogExact` | src/llm_manager/infrastructure/audit.py:62-95 | `read_all` accepts exactly the directories that are a linked log of some events, and returns those events |
| `AuditLog.HeadDeterminesLog` | src/llm_manager/infrastructure/audit.py:62-95 | two accepted directories with the same HEAD hold the same events and the same bytes, or the digest collides |
| `AuditLog.SameLastHashSameEvents` | src/llm_manager/infrastructure/audit.py:68-85 | backward along the chain: equal last hashes mean equal event sequences, or a collision |
| `AuditLog.LogIsUnique` | src/llm_manager/infrastructure/audit.py:62-95 | a directory is the log of at most one sequence of events |
| `AuditLog.AppendReadsBack` | src/llm_manager/infrastructure/audit.py:40-60 | a finished append that fits is read back as the old events and the new one |
| `AuditLog.AppendIsAtomicToReaders` | src/llm_manager/infrastructure/audit.py:40-60 | for every stopping point of an append, a HEAD replaced but not made durable included, the logs a reader can accept afterwards: the old one, the new one, or none |
| `AuditLog.HalfAppendBreaksLog` | src/llm_manager/infrastructure/audit.py:59-93 | a stop between event and HEAD leaves a directory no reader accepts, while event names last |
| `AuditLog.MisfitBreaksLog` | src/llm_manager/infrastructure/audit.py:59-93 | an append too large to read, or past the last event name, finishes with a directory no reader accepts |
| `AuditLog.UnnamedEventIsIgnored` | src/llm_manager/infrastructure/audit.py:59-69 | past the last event name a half append is not even seen |
| `AuditLog.EveryRunIsFaithful` | src/llm_manager/infrastructure/audit.py:40-95 | in every run of appends, stopped anywhere, an accepted directory holds exactly the events whose HEAD was replaced, in order, all finished appends among them |
| `AuditLog.EveryRunIsReadableIff` | src/llm_manager/infrastructure/audit.py:40-95 | in every run of appends the directory is readable, and shows all that landed, exactly as long as every append fitted and none stopped between its two writes |
| `AuditLog.LocalAuditLog.ReadAll` | src/llm_manager/infrastructure/audit.py:62-95 | the reading loop accepts a directory exactly when it is a log, and returns its events |
| `AuditLog.LocalAuditLog.Append` | src/llm_manager/infrastructure/audit.py:40-60 | an append validates the log first and then writes event file and HEAD in that order; what it leaves and answers at every stopping point |
| `Numerals.FixedMonotone` | src/llm_manager/infrastructure/audit.py:59-66 | zero-padded numerals sort like their numbers |
| `HostDiscovery.Traversal.Read` | src/llm_manager/application/host_discovery.py:39-69 | one recursive call: what it visits is reached, explored and collected, and it goes exactly as far as reading the files from a list of pending paths would |
| `HostDiscovery.Traversal.ReadIncludes` | src/llm_manager/application/host_discovery.py:71-80 | the same for the files of one pattern |
| `HostDiscovery.ListAliases` | src/llm_manager/application/host_discovery.py:33-80 | success means visited is exactly what Include reaches from the root and the aliases are exactly their literal aliases; it terminates on cycles |
| `HostDiscovery.ListedIff` | src/llm_manager/application/host_discovery.py:33-80 | it succeeds exactly when every reachable file can be read and nothing is pending once 128 files have been met |
| `HostDiscovery.CapIsExact` | src/llm_manager/application/host_discovery.py:39-45 | closures of at most 127 files succeed exactly when all are readable, larger than 128 never, and those of 128 when all are readable and the last file met leaves nothing pending |
| `HostDiscovery.ChainAtCap` | src/llm_manager/application/host_discovery.py:39-45 | the input: 128 readable files each including the next are listed, and refused once the last one includes itself |
| `BackupStore.VerificationPassesIff` | src/llm_manager/infrastructure/backup.py:179-223 | all checks pass exactly when this manifest is on disk inside the store and every item decodes to its recorded hash |
| `BackupStore.CreatedBackupVerifies` | src/llm_manager/infrastructure/backup.py:89-223 | a backup just created passes every check |
| `BackupStore.RestoreIsFaithful` | src/llm_manager/infrastructure/backup.py:225-253 | however a restore is interrupted or fails, every item reported as passed equals its snapshot, and no other file changed |
| `BackupRestore.SmoothRestoreMatches` | src/llm_manager/infrastructure/backup.py:225-253 | without faults every target ends in its snapshot's state and other files stay |
| `BackupRestore.CreatedTargetsSeparate` | src/llm_manager/infrastructure/backup.py:49-78 | no two items of a created backup restore the same file |
| `BackupRestore.CreateThenRestore` | src/llm_manager/infrastructure/backup.py:49-253 | create, change the targets, restore: existence, content, owner and mode come back (mode exactly when not zero), other files are untouched |
| `BackupCatalog.LoadIsExact` | src/llm_manager/infrastructure/backup.py:428-446 | after loading, the host's cache is exactly the valid backups on disk; other hosts' entries and the disk are unchanged |
| `BackupCatalog.LoadHeals` | src/llm_manager/infrastructure/backup.py:428-446 | listing a host makes its cached manifests true again, whatever they were |
| `BackupCatalog.EveryRunIsCoherent` | src/llm_manager/infrastructure/backup.py:89-446 | in every run of create, list, protect, delete and prune, disturbed at any file operation, each cached manifest equals the one on disk, except those of a torn creation, protection or removal, or taken over by another host's create, not listed since |
| `BackupCatalog.CreateLeavesStaleIff` | src/llm_manager/infrastructure/backup.py:122-173 | exactly when a create leaves a true cache entry stale: it replaces the manifest of a backup that had lost its items folder and then raises, or of another host whose directory name collides |
| `BackupCatalog.RecreatedBackupGoesStale` | src/llm_manager/infrastructure/backup.py:122-173 | the input: a delete that fails between items folder and manifest, and a create of the same id whose manifest is written and then raises |
| `BackupCatalog.RemovalLeavesStaleIff` | src/llm_manager/infrastructure/backup.py:633-655 | exactly when a removal leaves a stale entry: it fails after the manifest went |
| `BackupCatalog.DeletionLeavesStaleIff` | src/llm_manager/infrastructure/backup.py:353-367 | the same of delete, with its guards |
| `BackupCatalog.WholeStepsStayExact` | src/llm_manager/infrastructure/backup.py:89-446 | without torn steps and colliding directory names no cached manifest is ever stale |
| `BackupCatalog.RelabelKeepsTruth` | src/llm_manager/infrastructure/backup.py:340-351 | protecting rewrites manifest and cache together, or leaves that one entry in doubt |
| `BackupCatalog.TornProtectionIsStale` | src/llm_manager/infrastructure/backup.py:340-351 | a protection that is written and then raises leaves a stale cache entry exactly when it changed the label |
| `BackupPrune.PruneKeepsExactly` | src/llm_manager/infrastructure/backup.py:369-389 | a finished prune removes exactly the removable backups, except the newest when all are removable |
| `BackupPrune.PruneNeverEmpties` | src/llm_manager/infrastructure/backup.py:369-389 | finished or not, a prune leaves every protected backup, and some backup of a host that had one, valid on disk |
| `BackupPrune.PruneTouches` | src/llm_manager/infrastructure/backup.py:369-389 | the removed backups' directories go, in a failed prune too; only the one that failed can be damaged, and no other entry changes |
| `BackupPrune.SurvivorsStay` | src/llm_manager/infrastructure/backup.py:369-389 | after a finished prune the host's valid backups on disk are exactly the survivors |
| `BackupPrune.PruneLeavesStaleIff` | src/llm_manager/infrastructure/backup.py:369-389 | exactly which entries a prune leaves stale: the one it stopped at, when its removal fails after the manifest went |
| `BackupPrune.PruneIsIdempotentIff` | src/llm_manager/infrastructure/backup.py:369-389 | pruning the reloaded host again at the same time does nothing, however it is listed, exactly when no unprotected survivor can fall behind the kept generations by a tie |
| `BackupPrune.PruneIsIdempotent` | src/llm_manager/infrastructure/backup.py:369-389 | so it does nothing when no two backups are of the same time |
| `BackupPrune.TiedPairIsNotTieProof` | src/llm_manager/infrastructure/backup.py:369-389 | the input: an unprotected and a protected backup of one time, one generation to keep |
| `BackupPrune.StrictListSucceedsIff` | src/llm_manager/infrastructure/backup.py:289-320 | strict listing succeeds exactly when every entry of the host's directory is a readable backup of the host with allowed targets |
| `BackupPrune.StrictListingAgrees` | src/llm_manager/infrastructure/backup.py:289-320 | what strict listing shows is a listing that plain listing could show |
| `BackupPrune.ListingsAgree` | src/llm_manager/infrastructure/backup.py:279-320 | two listings of one host differ only in the order of backups of one time |
| `BackupLocalStore.LocalBackupStore.constructor` | src/llm_manager/infrastructure/backup.py:43-47 | a new store object starts coherent with an empty cache |
| `BackupLocalStore.LocalBackupStore.Create` | src/llm_manager/infrastructure/backup.py:49-78 | the capture and write loops refine create, partial directories included |
| `BackupLocalStore.LocalBackupStore.PersistCaptured` | src/llm_manager/infrastructure/backup.py:89-177 | refines persisting, with a stop while the directories are made, at any item and at the manifest; only a stray entry or an existing items folder refuses it |
| `BackupLocalStore.LocalBackupStore.Verify` | src/llm_manager/infrastructure/backup.py:179-223 | the loop computes all checks |
| `BackupLocalStore.LocalBackupStore.Restore` | src/llm_manager/infrastructure/backup.py:225-253 | nothing is restored unless all checks pass; then items go last to first |
| `BackupLocalStore.LocalBackupStore.ListManifests` | src/llm_manager/infrastructure/backup.py:279-287 | the host's cached manifests, once each, newest first |
| `BackupLocalStore.LocalBackupStore.ListManifestsStrict` | src/llm_manager/infrastructure/backup.py:289-320 | the scanning loop refines strict listing and caches nothing |
| `BackupLocalStore.LocalBackupStore.SetProtected` | src/llm_manager/infrastructure/backup.py:340-351 | refines protecting on cache and disk, a rewrite that takes effect and then raises included |
| `BackupLocalStore.LocalBackupStore.Delete` | src/llm_manager/infrastructure/backup.py:353-367 | only an unprotected backup that verifies is removed, from disk and then cache; its tree can be left damaged, or be gone with an error |
| `BackupLocalStore.LocalBackupStore.Prune` | src/llm_manager/infrastructure/backup.py:369-389 | the loop from the oldest up refines pruning, partly removed trees included |
| `LocalRetention.ReportSplitsInventory` | src/llm_manager/infrastructure/backup_inventory.py:156-187 | a report other than UNKNOWN splits the earlier inventory without loss or overlap and calls nothing removed that is still listed |
| `LocalRetention.ReportIsValidIff` | src/llm_manager/infrastructure/backup_inventory.py:505-522 | the report passes its own validator exactly for identifier-shaped ids and a listing without repetitions, an earlier inventory repeating only what that listing still shows |
| `LocalRetention.CompletedIffAtMostOneRemovable` | src/llm_manager/infrastructure/backup_inventory.py:156-176 | on the local store a finished prune is reported COMPLETED exactly when at most one listed backup does not survive the policy |
| `BackupDeletion.EvidenceBeforeRemoval` | src/llm_manager/infrastructure/backup_deletion.py:203-252 | at every crash point a copy the run removed has its manifest evidence on disk, when evidence is configured |
| `BackupDeletion.RemoteBeforeLocal` | src/llm_manager/infrastructure/backup_deletion.py:217-232 | at every crash point, a lost local copy means the remote delete returned or reported the copy absent |
| `BackupDeletion.LocalNeverLostFirst` | src/llm_manager/infrastructure/backup_deletion.py:217-232 | with truthful ports the remote copy is gone whenever the run has removed the local one |
| `BackupDeletion.RecordIsValidIff` | src/llm_manager/infrastructure/backup_deletion.py:369-400 | the record passes its own validator exactly when the port error codes it repeats are identifiers |
| `BackupDeletion.FinishedIff` | src/llm_manager/infrastructure/backup_deletion.py:203-283 | exactly when a run finishes, what it answers, what it records and which copies it leaves, for every cancellation, port answer and failed write |
| `BackupDeletion.CancelledObservationGoesUnrecorded` | src/llm_manager/infrastructure/backup_deletion.py:255-283 | the input: observers cancelled after both deletes, so both copies are gone and nothing is recorded |
| `BackupDeletion.NoAttentionMeansBothGone` | src/llm_manager/infrastructure/backup_deletion.py:203-283 | no attention exactly when both deletes succeeded and both copies were observed; both copies are then gone |
| `BackupDeletion.ResultsChangeLast` | src/llm_manager/infrastructure/backup_deletion.py:239-252 | the result store changes only at the last step, by exactly the record of the run, and exactly when the run is recordable and the write is not refused |
| `BackupDeletion.SameRequestHash` | src/llm_manager/infrastructure/backup_deletion.py:335-366 | equal request hashes mean equal requests, or a collision |
| `BackupDeletion.SameResultHash` | src/llm_manager/infrastructure/backup_deletion.py:369-400 | equal result hashes mean equal results, or a collision |
| `BackupDeletion.CoordinatedBackupDeletion.Delete` | src/llm_manager/infrastructure/backup_deletion.py:203-252 | the coordinator passes through exactly the worlds of the specification, in order |
| `BackupReconciliation.ReconciliationSucceedsIff` | src/llm_manager/infrastructure/backup_reconciliation.py:243-273 | exactly when a reconciliation succeeds and when it writes; its record is valid, bound to its deletion, and calm only if both copies were seen alike |
| `BackupReconciliation.BackupReconciliationRunner.Reconcile` | src/llm_manager/infrastructure/backup_reconciliation.py:243-273 | the runner refines that on store and caller, failed and torn writes included |
| `BackupReconciliation.ObserversTellTheTruth` | src/llm_manager/infrastructure/backup_reconciliation.py:160-204 | over a truthful remote store the two observers never report a copy that is gone nor miss one that is there |
| `BackupReconciliation.CreatedIsSeen` | src/llm_manager/infrastructure/backup_reconciliation.py:164-182 | the local observer sees a backup just created as present |
| `BackupReconciliation.DeletedIsGone` | src/llm_manager/infrastructure/backup_reconciliation.py:164-182 | the local observer sees what was deleted as present before and absent after |
| `ReconciliationAction.ActionReconcilesNewest` | src/llm_manager/infrastructure/backup_reconciliation_action.py:34-78 | a successful action reconciles the newest deletion of the backup, from the live manifest or its evidence, with a valid bound record |
| `ReconciliationAction.ReconciledIsShown` | src/llm_manager/infrastructure/backup_evidence.py:58-82 | after a successful action the next load shows that deletion with this reconciliation or a newer one |
| `BackupEvidence.LoadedIsNewest` | src/llm_manager/infrastructure/backup_evidence.py:58-82 | each view is the newest deletion of its backup, every backup has one, and each shown reconciliation is the newest bound to its view |
| `BackupEvidence.LoadedIsAccepted` | src/llm_manager/infrastructure/backup_inventory.py:395-452 | whatever validated stores load, the inventory's joins accept, for any live listings |
| `BackupEvidence.ExecutionsListedIff` | src/llm_manager/infrastructure/backup_evidence_retention.py:210-249 | an undamaged ledger can be listed exactly when no request of the host was executed twice |
| `BackupEvidence.BackupEvidenceRepository.PickLatest` | src/llm_manager/infrastructure/backup_evidence.py:58-60 | the dictionary loop keeps the first listed result of each backup |
| `BackupEvidence.BackupEvidenceRepository.PickReconciliations` | src/llm_manager/infrastructure/backup_evidence.py:69-82 | the loop keeps the first listed reconciliation belonging to each view |
| `BackupEvidence.BackupEvidenceRepository.LoadForHost` | src/llm_manager/infrastructure/backup_evidence.py:39-92 | the loops refine loading, errors included |
| `BackupInventory.ListForHost` | src/llm_manager/infrastructure/backup_inventory.py:230-357 | exactly one item per known backup id; fails exactly on cancellation or a failed join |
| `BackupInventory.MutationOfferedIff` | src/llm_manager/infrastructure/backup_inventory.py:281-341 | exactly when each mutating action is offered: unprotected, both live copies observed, evidence execution absent or completed, and the copies and the recorded outcomes calling for it |
| `BackupInventory.AtMostOneMutation` | src/llm_manager/infrastructure/backup_inventory.py:455-490 | no item offers two mutating actions |
| `BackupInventory.ReconciliationUnlocksNothing` | src/llm_manager/infrastructure/backup_inventory.py:281-341 | a stored reconciliation changes what is shown, never what is offered |
| `RestorePipeline.ApprovalIff` | src/llm_manager/application/restore_preview.py:89-116 | exactly what can be approved; the approval never outlives the preview |
| `RestorePipeline.PipelineSucceedsIff` | src/llm_manager/application/restore_preflight.py:58-109 | preview, approval and preparation succeed exactly while both lifetimes run and the store holds the reviewed manifest, or a hash collides |
| `RestorePipeline.DefaultPipeline` | src/llm_manager/application/restore_preflight.py:58-109 | with default lifetimes: exactly before five minutes after the preview; the authorization expires with the preview and names the reviewed targets |
| `RestorePipeline.PreparedMeansReviewed` | src/llm_manager/application/restore_preflight.py:65-97 | however the pieces are combined, a prepared restore is of the approved preview and the reviewed manifest, or a hash collides |
| `CanonicalText.Base64RoundTrip` | src/llm_manager/infrastructure/backup_crypto.py:50-59 | decoding undoes encoding |
| `CanonicalText.StringReads` | src/llm_manager/infrastructure/backup_crypto.py:59-59 | an escaped JSON string ends exactly where it was closed, whatever follows |
| `CanonicalText.FillReads` | src/llm_manager/infrastructure/backup_crypto.py:50-59 | the values written into a canonical object read back, so different values have different texts |
| `BackupEnvelope.AadInjective` | src/llm_manager/infrastructure/backup_crypto.py:106-115 | different backup, host or target are authenticated with different texts |
| `BackupEnvelope.DecryptInvertsEncrypt` | src/llm_manager/infrastructure/backup_crypto.py:32-95 | what was encrypted decrypts to the same bytes under the same binding |
| `BackupEnvelope.RewrittenUnwraps` | src/llm_manager/infrastructure/backup_crypto.py:71-90 | an envelope whose version is rewritten as true or 1.0 is read as if it had not been touched |
| `BackupEnvelope.DecryptsUnderOneBinding` | src/llm_manager/infrastructure/backup_crypto.py:61-95 | no bytes decrypt under two bindings, unless the cipher itself confuses them |
| `BackupEnvelope.RenderLength` | src/llm_manager/infrastructure/backup_crypto.py:50-59 | the exact length of an envelope |
| `BackupEnvelope.EnvelopeFitsIff` | src/llm_manager/infrastructure/backup_crypto.py:20-20 | no plaintext up to 16 MiB gives an oversized envelope exactly when the escaped key reference and the scope have at most 3951 characters |
| `BackupEnvelope.EnvelopeCipherIsLawful` | src/llm_manager/infrastructure/backup.py:214-219 | with key references of at most 3900 escaped characters the store never refuses its own items and reads them back |

## Left out

- File metadata (mode bits and owners of stored files, symbolic links inside the
  stores, size limits of records, fsync, flock, temporary files): a file is
  either a record its loader accepts or a damaged entry.
- Error codes of damaged or foreign entries: the several codes one listing can
  raise are merged into one for damage and one for a changed fingerprint; the two
  codes of the deletion request's validator are merged too, and so are those of an
  envelope whose fields or version are not those it was written with (a version of
  true or 1.0, which equals 1 in the program, is read as the program reads it).
- Canonical JSON of the records and the reading of it: a record stands for its
  text; timestamps are integers, so naive timestamps and their refusal are absent.
- RetentionPlanProperties.OldOrSupersededIsCandidate: needs ten strictly newer records, because records completed at the same
  instant are ordered by the listing, not by the policy.
- RetentionSafety.EvidenceIsAlwaysASuffix: speaks of reconciliations observed at different instants and of a start whose
  files are intact, because ties are listed in directory order.
- RetentionResumable.ExecutorRecordIsResumableIff: speaks of reconciliations observed at different instants and of a
  start whose files are intact, because a later listing may order ties differently and damage refuses every listing;
  `TornStopIsRefused` needs neither.
- RetentionResumable.ResumedRecordIsResumableIff: the same.
- RetentionRecovery.InterruptedIsRecoverableIff: the same, and of a first run, whose deletion no stored execution speaks
  of yet.
- RetentionRecovery.InterruptedThenResumed: distinct observation times and an intact start, for the same reason.
- RetentionRecovery.InterruptedThenCleanedUp: the same.
- The listing order of equal timestamps beyond directory order, and the tie-break of
  executions by hash inside their store's listing.
- BackupDeletion.CoordinatedBackupDeletion.Delete: the staging cleanup after a saved result is left out, since whatever
  it raises is swallowed.
- Backup identifiers made of dots, setuid bits cleared by a change of owner, and files
  that grow while they are read.
- `restore_items`, `create_captured` beyond the precondition it passes, and
  `observe_restore_targets` (a parameter of the restore pipeline).
- Redaction and sanitization of audit fields, floating point values in them, and the
  lock around an append.
- The recovery service of deletions, which only dispatches to stores and ports.
- LocalRetention.ReportIsValidIff: the hash of a local retention result is left out, because the runner seals the
  result just before validating it.
- `LocalRetentionResultStore` and the remote retention stores: what they return is a
  parameter of loading.
- Remote backups, remote retention, the user interface, planning and optimization:
  they are not part of this model and appear as ports.
- Tokenization of OpenSSH configuration lines, glob expansion and path resolution:
  lines, expansions and paths are given.
- Randomness of nonces and identifiers: nonces are any twelve bytes.

