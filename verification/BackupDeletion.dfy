// Deleting both copies of a backup: evidence first, remote copy second, local
// copy third, then observe and record, without ever compensating.

module BackupDeletion {
  import opened Foundations
  import opened Records
  import opened EvidenceStores

  const DELETION_LIFETIME: int := 5 * MINUTES

  // `_validate_request`
  predicate ValidRequest(sha: Sha256, q: DeletionRequest, m: Manifest, now: int) {
    && IsIdentifier(q.requestId)
    && IsIdentifier(q.backupId)
    && IsIdentifier(q.hostId)
    && IsFingerprint(q.hostFingerprint)
    && IsDigest(q.manifestHash)
    && IsDigest(q.requestHash)
    && m.manifestHash == HashManifest(sha, m)
    && !m.protected
    && q.backupId == m.backupId && q.hostId == m.hostId
    && Some(q.hostFingerprint) == m.hostFingerprint && q.manifestHash == m.manifestHash
    && q.createdAt <= now <= q.expiresAt
    && q.expiresAt - q.createdAt <= DELETION_LIFETIME
    && q.requestHash == HashRequest(sha, q)
  }

  predicate OutcomeErrorValid(outcome: CopyDeleteOutcome, error: Option<string>) {
    match outcome
    case Deleted => error.None?
    case AlreadyAbsent => error.None?
    case Failed => error.Some?
    case OutcomeUnknown => error.Some?
    case NotAttempted => true
  }

  predicate NeedsAttention(state: DualCopyState, remote: CopyDeleteOutcome, local: CopyDeleteOutcome) {
    || !Settled(state)
    || remote.Failed? || remote.OutcomeUnknown?
    || local.Failed? || local.NotAttempted? || local.OutcomeUnknown?
  }

  predicate IsErrorCode(error: Option<string>) {
    error.Some? ==> IsIdentifier(error.value)
  }

  // `_validate_result`
  predicate ValidResult(sha: Sha256, r: DeletionResult) {
    && IsIdentifier(r.requestId)
    && IsDigest(r.requestHash)
    && IsIdentifier(r.backupId)
    && IsIdentifier(r.hostId)
    && IsFingerprint(r.hostFingerprint)
    && IsDigest(r.manifestHash)
    && r.state == CombinedState(r.localPresence, r.remotePresence)
    && !r.remoteOutcome.NotAttempted?
    && OutcomeErrorValid(r.remoteOutcome, r.remoteError)
    && OutcomeErrorValid(r.localOutcome, r.localError)
    && r.requiresAttention == NeedsAttention(r.state, r.remoteOutcome, r.localOutcome)
    && IsErrorCode(r.remoteError)
    && IsErrorCode(r.localError)
    && r.resultHash == HashResult(sha, r)
  }

  // What a copy's delete port does, as the coordinator sees it.
  datatype PortOutcome = PortReturned | PortCancelled | PortAdapterError(code: string) | PortOsError

  const REMOTE_ABSENT: string := "remote_backup_not_found"
  const LOCAL_ABSENT: string := "backup_not_found"

  // `_delete_copy`
  function Classify(outcome: PortOutcome, absent: string): (CopyDeleteOutcome, Option<string>) {
    match outcome
    case PortReturned => (Deleted, None)
    case PortCancelled => (OutcomeUnknown, Some("cancelled"))
    case PortAdapterError(code) => if code == absent then (AlreadyAbsent, None) else (Failed, Some(code))
    case PortOsError => (OutcomeUnknown, Some("delete_observation_failed"))
  }

  predicate Gone(outcome: CopyDeleteOutcome) {
    outcome.Deleted? || outcome.AlreadyAbsent?
  }

  // What looking at both copies meets: the cancellation flag before each look,
  // and what each observer answers.
  datatype Sighting = Sighting(
    cancelledFirst: bool,
    local: Outcome<CopyPresence>,
    cancelledBetween: bool,
    remote: Outcome<CopyPresence>
  )

  // Everything the outside does during one call: the two clock readings, each
  // reading of the cancellation flag, how the evidence and the result are
  // written, what the delete ports answer and whether the copy is gone
  // afterwards, and what looking at the copies meets.
  datatype Ports = Ports(
    now: int,
    cancelledAtStart: bool,
    evidenceWrite: Fault,
    cancelledBeforeRemote: bool,
    remoteDelete: PortOutcome,
    remoteGone: bool,
    cancelledBeforeLocal: bool,
    localDelete: PortOutcome,
    localGone: bool,
    cancelledBeforeReconcile: bool,
    sighting: Sighting,
    completedAt: int,
    resultWrite: Fault
  )

  // Which copies exist and what has been written.
  datatype World = World(
    local: bool,
    remote: bool,
    evidence: Directory<Manifest>,
    results: Directory<DeletionResult>
  )

  datatype Reply = Finished(result: DeletionResult) | Aborted(error: Error)

  // The states the outside passes through, one after each external step; a
  // crash leaves one of them behind.
  datatype Flow = Flow(worlds: seq<World>, reply: Reply)

  datatype Observation = Observation(local: CopyPresence, remote: CopyPresence)

  // `DualCopyDeletionReconciler.reconcile`
  function ObserveBoth(s: Sighting): Outcome<Observation> {
    if s.cancelledFirst then Raised(OperationCancelled)
    else if s.local.Raised? then Raised(s.local.error)
    else if s.cancelledBetween then Raised(OperationCancelled)
    else if s.remote.Raised? then Raised(s.remote.error)
    else Ok(Observation(s.local.value, s.remote.value))
  }

  // `_reconcile`: a cancellation raised by the observers escapes.
  function Reconcile(p: Ports): Outcome<Observation> {
    if p.cancelledBeforeReconcile then Ok(Observation(PresenceUnknown, PresenceUnknown))
    else match ObserveBoth(p.sighting)
         case Ok(seen) => Ok(seen)
         case Raised(error) =>
           if error.OperationCancelled? then Raised(error) else Ok(Observation(PresenceUnknown, PresenceUnknown))
  }

  // Whether the local delete is called at all.
  predicate TriesLocal(p: Ports) {
    Gone(Classify(p.remoteDelete, REMOTE_ABSENT).0) && !p.cancelledBeforeLocal
  }

  // What happened to the local copy, given the remote outcome.
  function LocalAttempt(p: Ports, remote: CopyDeleteOutcome): (CopyDeleteOutcome, Option<string>) {
    if !Gone(remote) then (NotAttempted, None)
    else if p.cancelledBeforeLocal then (NotAttempted, Some("cancelled"))
    else Classify(p.localDelete, LOCAL_ABSENT)
  }

  function Record(sha: Sha256, q: DeletionRequest, p: Ports, seen: Observation): DeletionResult {
    var (remote, remoteError) := Classify(p.remoteDelete, REMOTE_ABSENT);
    var (local, localError) := LocalAttempt(p, remote);
    var state := CombinedState(seen.local, seen.remote);
    var r := DeletionResult(q.requestId, q.requestHash, q.backupId, q.hostId, q.hostFingerprint, q.manifestHash,
                            remote, local, remoteError, localError, seen.local, seen.remote, state,
                            NeedsAttention(state, remote, local), p.completedAt, "");
    r.(resultHash := HashResult(sha, r))
  }

  // The worlds passed before any copy is touched, and what stopped the run.
  datatype Prepared = Prepared(worlds: seq<World>, refused: Option<Error>)

  // The guards and the evidence.
  function Prepare(
    sha: Sha256, q: DeletionRequest, m: Manifest, w: World, p: Ports, keepsEvidence: bool
  ): Prepared
  {
    if !ValidRequest(sha, q, m, p.now) then Prepared([w], Some(AdapterError("invalid_deletion_identity")))
    else if p.cancelledAtStart then Prepared([w], Some(OperationCancelled))
    else if !keepsEvidence then Prepared([w], None)
    else
      var (evidence, saved) := SaveEvidence(sha, w.evidence, q, m, p.evidenceWrite);
      Prepared([w, w.(evidence := evidence)], if saved.Raised? then Some(saved.error) else None)
  }

  function DeletionFlow(
    sha: Sha256, q: DeletionRequest, m: Manifest, w: World, p: Ports, keepsEvidence: bool
  ): Flow
  {
    var prepared := Prepare(sha, q, m, w, p, keepsEvidence);
    if prepared.refused.Some? then Flow(prepared.worlds, Aborted(prepared.refused.value))
    else DeleteCopies(sha, q, prepared.worlds, p)
  }

  function DeleteCopies(sha: Sha256, q: DeletionRequest, before: seq<World>, p: Ports): Flow
    requires before != []
  {
    var w := before[|before| - 1];
    if p.cancelledBeforeRemote then Flow(before, Aborted(OperationCancelled))
    else
      var remote := Classify(p.remoteDelete, REMOTE_ABSENT).0;
      var w1 := w.(remote := w.remote && !p.remoteGone);
      var w2 := if Gone(remote) && !p.cancelledBeforeLocal then w1.(local := w1.local && !p.localGone) else w1;
      match Reconcile(p)
      case Raised(error) => Flow(before + [w1, w2], Aborted(error))
      case Ok(seen) => SaveResult(sha, before + [w1, w2], Record(sha, q, p, seen), p.resultWrite)
  }

  function SaveResult(sha: Sha256, before: seq<World>, r: DeletionResult, fault: Fault): Flow
    requires before != []
  {
    var w := before[|before| - 1];
    var (results, saved) := SaveDeletion(w.results, r, ValidResult(sha, r), fault);
    Flow(before + [w.(results := results)], if saved.Ok? then Finished(r) else Aborted(saved.error))
  }

  // ---- Order of removal ----

  // What one world has lost against another.
  predicate LostLocal(w: World, now: World) { w.local && !now.local }

  predicate LostRemote(w: World, now: World) { w.remote && !now.remote }

  predicate RemoteAnswered(p: Ports) {
    p.remoteDelete == PortReturned || p.remoteDelete == PortAdapterError(REMOTE_ABSENT)
  }

  // The worlds of the deleting part, given the last world before it.
  ghost predicate Deleting(before: World, p: Ports, now: World) {
    && now.evidence == before.evidence
    && (now.local ==> before.local) && (now.remote ==> before.remote)
    && (before.local ==> now.local || RemoteAnswered(p))
    && (LostLocal(before, now) && p.remoteGone ==> !now.remote)
    && (LostLocal(before, now) ==> p.localGone)
  }

  lemma SaveResultWorlds(sha: Sha256, before: seq<World>, r: DeletionResult, fault: Fault, i: nat)
    requires before != []
    requires i < |SaveResult(sha, before, r, fault).worlds|
    ensures var now := SaveResult(sha, before, r, fault).worlds[i];
            if i < |before| then now == before[i]
            else var w := before[|before| - 1];
                 now.local == w.local && now.remote == w.remote && now.evidence == w.evidence
  {
  }

  lemma DeleteCopiesWorlds(sha: Sha256, q: DeletionRequest, before: seq<World>, p: Ports, i: nat)
    requires before != []
    requires i < |DeleteCopies(sha, q, before, p).worlds|
    ensures var now := DeleteCopies(sha, q, before, p).worlds[i];
            if i < |before| then now == before[i] else Deleting(before[|before| - 1], p, now)
  {
    if !p.cancelledBeforeRemote {
      var w := before[|before| - 1];
      var remote := Classify(p.remoteDelete, REMOTE_ABSENT).0;
      var w1 := w.(remote := w.remote && !p.remoteGone);
      var w2 := if Gone(remote) && !p.cancelledBeforeLocal then w1.(local := w1.local && !p.localGone) else w1;
      assert Deleting(w, p, w1) && Deleting(w, p, w2);
      if Reconcile(p).Ok? {
        SaveResultWorlds(sha, before + [w1, w2], Record(sha, q, p, Reconcile(p).value), p.resultWrite, i);
      }
    }
  }

  // Evidence is in place once it has been saved, or found to be there already.
  predicate EvidenceKept(q: DeletionRequest, m: Manifest, w: World, p: Ports) {
    if q.requestHash in w.evidence then w.evidence[q.requestHash] == Stored(m) else p.evidenceWrite == Smooth
  }

  // A run reaches the deleting part exactly with a valid request, not cancelled
  // and, when configured, with the evidence on disk.
  lemma PreparedIff(sha: Sha256, q: DeletionRequest, m: Manifest, w: World, p: Ports, keepsEvidence: bool)
    ensures var prepared := Prepare(sha, q, m, w, p, keepsEvidence);
            var last := prepared.worlds[|prepared.worlds| - 1];
            && (prepared.refused.None? <==> && ValidRequest(sha, q, m, p.now) && !p.cancelledAtStart
                                            && (keepsEvidence ==> EvidenceKept(q, m, w, p)))
            && prepared.worlds[0] == w && last == w.(evidence := last.evidence)
            && |prepared.worlds| <= 2
            && (prepared.refused.None? && keepsEvidence ==>
                  q.requestHash in last.evidence && last.evidence[q.requestHash] == Stored(m))
  {
  }

  // The worlds of a whole run.
  lemma FlowWorlds(sha: Sha256, q: DeletionRequest, m: Manifest, w: World, p: Ports, keepsEvidence: bool, i: nat)
    requires i < |DeletionFlow(sha, q, m, w, p, keepsEvidence).worlds|
    ensures var now := DeletionFlow(sha, q, m, w, p, keepsEvidence).worlds[i];
            && (now.local ==> w.local) && (now.remote ==> w.remote)
            && (LostLocal(w, now) ==> RemoteAnswered(p) && (p.remoteGone ==> !now.remote))
            && (keepsEvidence && (LostLocal(w, now) || LostRemote(w, now)) ==>
                  q.requestHash in now.evidence && now.evidence[q.requestHash] == Stored(m))
  {
    var prepared := Prepare(sha, q, m, w, p, keepsEvidence);
    PreparedIff(sha, q, m, w, p, keepsEvidence);
    if prepared.refused.None? {
      DeleteCopiesWorlds(sha, q, prepared.worlds, p, i);
    }
  }

  // At every crash point, a copy the run removed has its manifest evidence on
  // disk.
  lemma EvidenceBeforeRemoval(sha: Sha256, q: DeletionRequest, m: Manifest, w: World, p: Ports, i: nat)
    requires i < |DeletionFlow(sha, q, m, w, p, true).worlds|
    ensures var now := DeletionFlow(sha, q, m, w, p, true).worlds[i];
            LostLocal(w, now) || LostRemote(w, now) ==>
              q.requestHash in now.evidence && now.evidence[q.requestHash] == Stored(m)
  {
    FlowWorlds(sha, q, m, w, p, true, i);
  }

  // The local copy is only ever removed once the remote delete has returned or
  // reported the remote copy absent.
  lemma RemoteBeforeLocal(sha: Sha256, q: DeletionRequest, m: Manifest, w: World, p: Ports, keepsEvidence: bool, i: nat)
    requires i < |DeletionFlow(sha, q, m, w, p, keepsEvidence).worlds|
    ensures var now := DeletionFlow(sha, q, m, w, p, keepsEvidence).worlds[i];
            LostLocal(w, now) ==> RemoteAnswered(p) && (p.remoteGone ==> !now.remote)
  {
    FlowWorlds(sha, q, m, w, p, keepsEvidence, i);
  }

  // Ports that tell the truth: a delete that returned or reported the copy
  // absent leaves no copy.
  ghost predicate TruthfulPorts(w: World, p: Ports) {
    && (Gone(Classify(p.remoteDelete, REMOTE_ABSENT).0) ==> p.remoteGone || !w.remote)
    && (Gone(Classify(p.localDelete, LOCAL_ABSENT).0) ==> p.localGone || !w.local)
  }

  // With truthful ports no crash point has lost the local copy while the remote
  // one remains.
  lemma LocalNeverLostFirst(
    sha: Sha256, q: DeletionRequest, m: Manifest, w: World, p: Ports, keepsEvidence: bool, i: nat
  )
    requires TruthfulPorts(w, p)
    requires i < |DeletionFlow(sha, q, m, w, p, keepsEvidence).worlds|
    ensures var now := DeletionFlow(sha, q, m, w, p, keepsEvidence).worlds[i];
            LostLocal(w, now) ==> !now.remote
  {
    FlowWorlds(sha, q, m, w, p, keepsEvidence, i);
  }

  // ---- The record ----

  lemma StockCodesAreIdentifiers()
    ensures IsIdentifier("cancelled") && IsIdentifier("delete_observation_failed")
  {
  }

  predicate CodeRecorded(outcome: PortOutcome, absent: string) {
    outcome.PortAdapterError? && outcome.code != absent
  }

  // Every port error code that the record repeats has the shape of an identifier.
  predicate CodesAreIdentifiers(p: Ports) {
    && (CodeRecorded(p.remoteDelete, REMOTE_ABSENT) ==> IsIdentifier(p.remoteDelete.code))
    && (TriesLocal(p) && CodeRecorded(p.localDelete, LOCAL_ABSENT) ==> IsIdentifier(p.localDelete.code))
  }

  // The record passes its own validator exactly when every port error code it
  // repeats has the shape of an identifier; otherwise it is refused after the
  // copies have been deleted.
  lemma RecordIsValidIff(sha: Sha256, q: DeletionRequest, m: Manifest, p: Ports, seen: Observation)
    requires ValidRequest(sha, q, m, p.now)
    ensures ValidResult(sha, Record(sha, q, p, seen)) <==> CodesAreIdentifiers(p)
  {
    StockCodesAreIdentifiers();
    var r := Record(sha, q, p, seen);
    assert r.(resultHash := "") == r.(resultHash := HashResult(sha, r)).(resultHash := "");
  }

  // Observers that tell the truth about the copies they answer for.
  ghost predicate TruthfulObservers(w: World, p: Ports) {
    && (p.sighting.local == Ok(Present) ==> w.local) && (p.sighting.local == Ok(Absent) ==> !w.local)
    && (p.sighting.remote == Ok(Present) ==> w.remote) && (p.sighting.remote == Ok(Absent) ==> !w.remote)
  }

  function Last(f: Flow): World
    requires f.worlds != []
  {
    f.worlds[|f.worlds| - 1]
  }

  // The run gets as far as writing its record: a valid request, evidence in
  // place, no cancellation where it stops the run, error codes shaped like
  // identifiers, and no record under that id yet.
  predicate Recordable(sha: Sha256, q: DeletionRequest, m: Manifest, w: World, p: Ports, keepsEvidence: bool) {
    && ValidRequest(sha, q, m, p.now) && !p.cancelledAtStart
    && (keepsEvidence ==> EvidenceKept(q, m, w, p))
    && !p.cancelledBeforeRemote
    && (p.cancelledBeforeReconcile || ObserveBoth(p.sighting) != Raised(OperationCancelled))
    && CodesAreIdentifiers(p)
    && q.requestId !in w.results
  }

  // What a run records, when it gets that far.
  function RecordOf(sha: Sha256, q: DeletionRequest, p: Ports): DeletionResult {
    match Reconcile(p)
    case Ok(seen) => Record(sha, q, p, seen)
    case Raised(_) => Record(sha, q, p, Observation(PresenceUnknown, PresenceUnknown))
  }

  // The copies a run that was prepared leaves behind.
  ghost predicate LeavesCopies(w: World, p: Ports, last: World) {
    && last.remote == (w.remote && !p.remoteGone)
    && last.local == (w.local && !(TriesLocal(p) && p.localGone))
  }

  // Exactly when a run finishes, what it answers and what it leaves behind.
  lemma FinishedIff(sha: Sha256, q: DeletionRequest, m: Manifest, w: World, p: Ports, keepsEvidence: bool)
    ensures var f := DeletionFlow(sha, q, m, w, p, keepsEvidence);
            && f.worlds != []
            && (f.reply.Finished? <==> Recordable(sha, q, m, w, p, keepsEvidence) && p.resultWrite == Smooth)
            && (f.reply.Finished? ==> f.reply.result == RecordOf(sha, q, p) && ValidResult(sha, f.reply.result))
            && Last(f).results == (if Recordable(sha, q, m, w, p, keepsEvidence) && p.resultWrite != Refused
                                   then w.results[q.requestId := Stored(RecordOf(sha, q, p))] else w.results)
            && (Prepare(sha, q, m, w, p, keepsEvidence).refused.None? && !p.cancelledBeforeRemote ==>
                  LeavesCopies(w, p, Last(f)))
  {
    PreparedIff(sha, q, m, w, p, keepsEvidence);
    var prepared := Prepare(sha, q, m, w, p, keepsEvidence);
    if prepared.refused.None? {
      CopiesRecordedIff(sha, q, m, prepared.worlds, p);
    }
  }

  lemma CopiesRecordedIff(sha: Sha256, q: DeletionRequest, m: Manifest, before: seq<World>, p: Ports)
    requires before != [] && ValidRequest(sha, q, m, p.now)
    ensures var f := DeleteCopies(sha, q, before, p);
            var w := before[|before| - 1];
            var recordable := && !p.cancelledBeforeRemote
                              && (p.cancelledBeforeReconcile || ObserveBoth(p.sighting) != Raised(OperationCancelled))
                              && CodesAreIdentifiers(p) && q.requestId !in w.results;
            && f.worlds != []
            && (f.reply.Finished? <==> recordable && p.resultWrite == Smooth)
            && (f.reply.Finished? ==> f.reply.result == RecordOf(sha, q, p) && ValidResult(sha, f.reply.result))
            && Last(f).results == (if recordable && p.resultWrite != Refused
                                   then w.results[q.requestId := Stored(RecordOf(sha, q, p))] else w.results)
            && (!p.cancelledBeforeRemote ==> LeavesCopies(w, p, Last(f)))
  {
    if Reconcile(p).Ok? {
      RecordIsValidIff(sha, q, m, p, Reconcile(p).value);
    }
  }

  // Both copies are gone and nothing is recorded: a cancellation that reaches
  // the observers after the deletes escapes.
  lemma CancelledObservationGoesUnrecorded(
    sha: Sha256, q: DeletionRequest, m: Manifest, w: World, now: int, keepsEvidence: bool
  ) returns (p: Ports)
    requires ValidRequest(sha, q, m, now)
    requires q.requestHash in w.evidence ==> w.evidence[q.requestHash] == Stored(m)
    ensures var f := DeletionFlow(sha, q, m, w, p, keepsEvidence);
            && f.reply == Aborted(OperationCancelled)
            && !Last(f).local && !Last(f).remote && Last(f).results == w.results
  {
    p := Ports(now, false, Smooth, false, PortReturned, true, false, PortReturned, true, false,
               Sighting(true, Ok(Absent), false, Ok(Absent)), now, Smooth);
    FinishedIff(sha, q, m, w, p, keepsEvidence);
    PreparedIff(sha, q, m, w, p, keepsEvidence);
  }

  // A recorded deletion needs no attention exactly when both deletes succeeded
  // and both copies could be observed; then both copies are gone.
  lemma NoAttentionMeansBothGone(sha: Sha256, q: DeletionRequest, m: Manifest, w: World, p: Ports, keepsEvidence: bool)
    requires DeletionFlow(sha, q, m, w, p, keepsEvidence).reply.Finished?
    requires TruthfulPorts(w, p)
    requires DeletionFlow(sha, q, m, w, p, keepsEvidence).worlds != []
    requires TruthfulObservers(Last(DeletionFlow(sha, q, m, w, p, keepsEvidence)), p)
    ensures var f := DeletionFlow(sha, q, m, w, p, keepsEvidence);
            && (!f.reply.result.requiresAttention <==>
                  && Gone(Classify(p.remoteDelete, REMOTE_ABSENT).0)
                  && !p.cancelledBeforeLocal && Gone(Classify(p.localDelete, LOCAL_ABSENT).0)
                  && !p.cancelledBeforeReconcile
                  && ObserveBoth(p.sighting).Ok?
                  && !ObserveBoth(p.sighting).value.local.PresenceUnknown?
                  && !ObserveBoth(p.sighting).value.remote.PresenceUnknown?)
            && (!f.reply.result.requiresAttention ==>
                  !Last(f).local && !Last(f).remote && f.reply.result.state == BothDeleted)
  {
    FinishedIff(sha, q, m, w, p, keepsEvidence);
    PreparedIff(sha, q, m, w, p, keepsEvidence);
  }

  // Until its last step a run leaves the result store alone; the last step adds
  // exactly the record, whether or not the write is then reported as failed.
  lemma ResultsChangeLast(sha: Sha256, q: DeletionRequest, m: Manifest, w: World, p: Ports, keepsEvidence: bool, i: nat)
    requires i < |DeletionFlow(sha, q, m, w, p, keepsEvidence).worlds|
    ensures var f := DeletionFlow(sha, q, m, w, p, keepsEvidence);
            f.worlds[i].results
            == if i == |f.worlds| - 1 && Recordable(sha, q, m, w, p, keepsEvidence) && p.resultWrite != Refused
               then w.results[q.requestId := Stored(RecordOf(sha, q, p))] else w.results
  {
    FinishedIff(sha, q, m, w, p, keepsEvidence);
    PreparedIff(sha, q, m, w, p, keepsEvidence);
    var prepared := Prepare(sha, q, m, w, p, keepsEvidence);
    if prepared.refused.None? && i < |DeletionFlow(sha, q, m, w, p, keepsEvidence).worlds| - 1 {
      EarlierResults(sha, q, prepared.worlds, p, i);
    }
  }

  lemma EarlierResults(sha: Sha256, q: DeletionRequest, before: seq<World>, p: Ports, i: nat)
    requires before != [] && forall j | 0 <= j < |before| :: before[j].results == before[0].results
    requires i < |DeleteCopies(sha, q, before, p).worlds| - 1
    ensures DeleteCopies(sha, q, before, p).worlds[i].results == before[0].results
  {
  }

  // ---- Hashes identify records ----

  // Two recorded deletions with the same request hash came from the same
  // request, or the digest collides.
  lemma SameRequestHash(
    sha: Sha256, a: DeletionRequest, am: Manifest, anow: int, b: DeletionRequest, bm: Manifest, bnow: int
  )
    requires ValidRequest(sha, a, am, anow) && ValidRequest(sha, b, bm, bnow)
    requires a.requestHash == b.requestHash
    ensures a == b || Collision(sha, RequestText(a.(requestHash := "")), RequestText(b.(requestHash := "")))
  {
    if a != b {
      assert a == a.(requestHash := "").(requestHash := a.requestHash);
      assert b == b.(requestHash := "").(requestHash := b.requestHash);
    }
  }

  // Two valid results with the same hash are the same result, or the digest
  // collides.
  lemma SameResultHash(sha: Sha256, a: DeletionResult, b: DeletionResult)
    requires ValidResult(sha, a) && ValidResult(sha, b) && a.resultHash == b.resultHash
    ensures a == b || Collision(sha, ResultText(a.(resultHash := "")), ResultText(b.(resultHash := "")))
  {
    if a != b {
      assert a == a.(resultHash := "").(resultHash := a.resultHash);
      assert b == b.(resultHash := "").(resultHash := b.resultHash);
    }
  }

  // ---- The coordinator ----

  // The copies themselves are the two booleans; the ports act on them.
  class CoordinatedBackupDeletion {
    const sha: Sha256
    const results: DeletionResultStore
    const evidence: ManifestEvidenceStore
    const keepsEvidence: bool
    var local: bool
    var remote: bool
    ghost var trace: seq<World>

    constructor (
      sha: Sha256, local: bool, remote: bool, results: DeletionResultStore, evidence: ManifestEvidenceStore,
      keepsEvidence: bool
    )
      ensures this.sha == sha && this.local == local && this.remote == remote
      ensures this.results == results && this.evidence == evidence && this.keepsEvidence == keepsEvidence
    {
      this.sha, this.local, this.remote := sha, local, remote;
      this.results, this.evidence, this.keepsEvidence := results, evidence, keepsEvidence;
      this.trace := [];
    }

    ghost function Now(): World
      reads this, results, evidence
    {
      World(local, remote, evidence.files, results.files)
    }

    // The worlds passed through are recorded step by step in `trace`.
    method Delete(q: DeletionRequest, m: Manifest, p: Ports) returns (reply: Reply)
      modifies this, results, evidence
      ensures Flow(trace, reply) == DeletionFlow(sha, q, m, old(Now()), p, keepsEvidence)
    {
      var refused := PrepareEvidence(q, m, p);
      if refused.Some? {
        return Aborted(refused.value);
      }
      reply := DeleteBoth(q, p);
    }

    method PrepareEvidence(q: DeletionRequest, m: Manifest, p: Ports) returns (refused: Option<Error>)
      modifies this`trace, evidence
      ensures Prepared(trace, refused) == Prepare(sha, q, m, old(Now()), p, keepsEvidence)
      ensures trace != [] && trace[|trace| - 1] == Now()
    {
      trace := [Now()];
      if !ValidRequest(sha, q, m, p.now) {
        return Some(AdapterError("invalid_deletion_identity"));
      }
      if p.cancelledAtStart {
        return Some(OperationCancelled);
      }
      if keepsEvidence {
        var saved := evidence.Save(sha, q, m, p.evidenceWrite);
        trace := trace + [Now()];
        if saved.Raised? {
          return Some(saved.error);
        }
      }
      refused := None;
    }

    method DeleteBoth(q: DeletionRequest, p: Ports) returns (reply: Reply)
      requires trace != [] && trace[|trace| - 1] == Now()
      modifies this, results
      ensures Flow(trace, reply) == DeleteCopies(sha, q, old(trace), p)
    {
      if p.cancelledBeforeRemote {
        return Aborted(OperationCancelled);
      }
      remote := remote && !p.remoteGone;
      ghost var w1 := Now();
      var (outcome, error) := Classify(p.remoteDelete, REMOTE_ABSENT);
      if Gone(outcome) && !p.cancelledBeforeLocal {
        local := local && !p.localGone;
      }
      trace := trace + [w1, Now()];
      var seen := Reconcile(p);
      if seen.Raised? {
        return Aborted(seen.error);
      }
      reply := Save(Record(sha, q, p, seen.value), p.resultWrite);
    }

    method Save(r: DeletionResult, fault: Fault) returns (reply: Reply)
      requires trace != [] && trace[|trace| - 1] == Now()
      modifies this`trace, results
      ensures Flow(trace, reply) == SaveResult(sha, old(trace), r, fault)
    {
      var saved := results.Save(r, ValidResult(sha, r), fault);
      trace := trace + [Now()];
      reply := if saved.Ok? then Finished(saved.value) else Aborted(saved.error);
    }
  }
}
