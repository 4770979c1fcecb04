// The removal protocol as a state machine, and what holds in every state that
// any sequence of executions and resumptions can reach.

module RetentionSafety {
  import opened Foundations
  import opened Records
  import opened Sorting
  import opened Machines
  import opened EvidenceStores
  import opened RetentionPlanner
  import opened RetentionPlanProperties
  import opened RetentionExecutor
  import opened RetentionCleanup
  import opened RetentionRuns

  lemma ShrunkIntact(s: Evidence, after: Evidence)
    requires Intact(s) && Shrunk(s, after)
    ensures Intact(after)
  {
  }

  // Listing the reconciliations of `d` finds exactly the kept ones.
  lemma ListingIsExact(s: Evidence, order: seq<string>, d: DeletionResult, values: seq<ReconciliationResult>)
    requires IntactReconciliations(s.reconciliations) && Enumerates(s.reconciliations, order)
    requires ListForDeletion(s.reconciliations, order, d.resultHash, d.hostId, d.hostFingerprint) == Ok(values)
    ensures forall r :: r in values <==> KeepsReconciliation(s, d, r)
    ensures NewestFirst(values)
    ensures Distinct(values)
  {
    ListHostExact(s.reconciliations, order, ReconciliationStamp, d.hostId, d.hostFingerprint);
    ListHostDistinct(s.reconciliations, order, ReconciliationStamp, d.hostId, d.hostFingerprint);
    var all := ListHost(s.reconciliations, order, ReconciliationStamp, d.hostId, d.hostFingerprint).value;
    assert NewestFirst(all);
    SourcedFromMembers(all, d.resultHash);
    SourcedFromOrdered(all, d.resultHash);
    SourcedFromDistinct(all, d.resultHash);
    forall r ensures r in values <==> KeepsReconciliation(s, d, r) {
      if KeepsReconciliation(s, d, r) {
        assert OnHost(s.reconciliations, ReconciliationStamp, d.hostId, r);
      }
    }
  }

  lemma {:induction false} FindRecordFinds(plan: seq<RetentionRecord>, requestHash: string)
    ensures match FindRecord(plan, requestHash)
            case None => forall r | r in plan :: r.requestHash != requestHash
            case Some(r) => r in plan && r.requestHash == requestHash
  {
    if plan != [] {
      FindRecordFinds(plan[1..], requestHash);
    }
  }

  lemma {:induction false} FindDeletionFinds(results: seq<DeletionResult>, resultHash: string)
    ensures match FindDeletion(results, resultHash)
            case None => forall d | d in results :: d.resultHash != resultHash
            case Some(d) => d in results && d.resultHash == resultHash
  {
    if results != [] {
      FindDeletionFinds(results[1..], resultHash);
    }
  }

  // `execute` starts removing only a finished, unprotected candidate with all
  // of its evidence present.
  lemma SelectIsRemoval(s: Evidence, orders: Orders, reconciliationOrder: seq<string>, t: Target)
    requires Intact(s)
    requires ListsBoth(s.deletions, s.manifests, orders) && Enumerates(s.reconciliations, reconciliationOrder)
    requires Select(s, orders, reconciliationOrder, t).Ok?
    ensures var c := Select(s, orders, reconciliationOrder, t).value;
            && Removal(s, c.deletion, c.reconciliations, true)
            && c.deletion.requestHash == t.requestHash
            && c.deletion.hostId == t.hostId && c.deletion.hostFingerprint == t.fingerprint
            && c.deletion.state == BothDeleted && !c.deletion.requiresAttention
            && Distinct(c.reconciliations)
            && AllOps(c.reconciliations, c.deletion) == LeftOver(c.reconciliations, Some(c.deletion), true)
  {
    var record := SelectedRecord(s, orders, reconciliationOrder, t);
    var d, m := CandidateIsRemovable(s.deletions, s.manifests, orders, t.hostId, t.fingerprint, t.now, record);
    SelectedDeletion(s, record, d, reconciliationOrder, t);
  }

  lemma SelectedRecord(s: Evidence, orders: Orders, reconciliationOrder: seq<string>, t: Target)
    returns (record: RetentionRecord)
    requires ListsBoth(s.deletions, s.manifests, orders) && Enumerates(s.reconciliations, reconciliationOrder)
    requires Select(s, orders, reconciliationOrder, t).Ok?
    ensures var plan := Plan(s.deletions, s.manifests, orders, t.hostId, t.fingerprint, t.now);
            plan.Ok? && record in plan.value
    ensures record.requestHash == t.requestHash && record.disposition == Candidate
    ensures SelectRecord(s, record, reconciliationOrder, t) == Select(s, orders, reconciliationOrder, t)
  {
    var plan := Plan(s.deletions, s.manifests, orders, t.hostId, t.fingerprint, t.now).value;
    FindRecordFinds(plan, t.requestHash);
    record := FindRecord(plan, t.requestHash).value;
  }

  lemma SelectedDeletion(
    s: Evidence, record: RetentionRecord, d: DeletionResult, reconciliationOrder: seq<string>, t: Target
  )
    requires Intact(s) && Enumerates(s.reconciliations, reconciliationOrder)
    requires OnHost(s.deletions, DeletionStamp, t.hostId, d) && d.hostFingerprint == t.fingerprint
    requires d.requestHash in s.manifests && record.deletionRequestId == Some(d.requestId)
    requires SelectRecord(s, record, reconciliationOrder, t).Ok?
    ensures var c := SelectRecord(s, record, reconciliationOrder, t).value;
            && c.deletion == d && d.hostId == t.hostId
            && Removal(s, d, c.reconciliations, true)
            && Distinct(c.reconciliations)
            && AllOps(c.reconciliations, d) == LeftOver(c.reconciliations, Some(d), true)
  {
    assert StoredDeletion(s, d) && LoadDeletion(s.deletions, d.requestId) == Ok(d);
    var c := SelectRecord(s, record, reconciliationOrder, t).value;
    assert ListForDeletion(s.reconciliations, reconciliationOrder, d.resultHash, t.hostId, t.fingerprint)
        == Ok(c.reconciliations);
    ListingIsExact(s, reconciliationOrder, d, c.reconciliations);
  }

  // `resume` starts removing only what the record it resumes left behind.
  lemma AdmitIsRemoval(
    sha: Sha256, s: Evidence, deletionOrder: seq<string>, reconciliationOrder: seq<string>, e: Execution,
    r: CleanupRequest
  ) returns (d: DeletionResult, values: seq<ReconciliationResult>, withManifest: bool)
    requires Intact(s) && Truthful(s, e)
    requires Enumerates(s.deletions, deletionOrder) && Enumerates(s.reconciliations, reconciliationOrder)
    requires Admit(sha, s, deletionOrder, reconciliationOrder, e, r).Ok?
    ensures Removal(s, d, values, withManifest)
    ensures Admit(sha, s, deletionOrder, reconciliationOrder, e, r) == Ok(LeftOver(values, Some(d), withManifest))
    ensures d.resultHash == e.deletionResultHash && d.hostId == e.hostId && d.hostFingerprint == e.hostFingerprint
    ensures Hashes(values) == From(e.reconciliationResultHashes, CountReconciliations(e.removedKinds))
    ensures Kinds(LeftOver(values, Some(d), withManifest)) == e.remainingKinds
    ensures Distinct(values)
  {
    var results := ListHost(s.deletions, deletionOrder, DeletionStamp, e.hostId, e.hostFingerprint).value;
    ListHostExact(s.deletions, deletionOrder, DeletionStamp, e.hostId, e.hostFingerprint);
    FindDeletionFinds(results, e.deletionResultHash);
    var deletion := FindDeletion(results, e.deletionResultHash);
    assert e.remainingKinds[|e.remainingKinds| - 1] == DeletionKind;
    d := deletion.value;
    assert DeletionStamp(d).hostFingerprint == e.hostFingerprint && DeletionStamp(d).hostId == e.hostId;
    assert StoredDeletion(s, d);
    values := ListForDeletion(s.reconciliations, reconciliationOrder, e.deletionResultHash, e.hostId,
                              e.hostFingerprint).value;
    ListingIsExact(s, reconciliationOrder, d, values);
    withManifest := ManifestKind in e.remainingKinds;
    var ops := LeftOver(values, Some(d), withManifest);
    if !withManifest {
      OnlyDeletionLeft(e.remainingKinds);
      assert |Kinds(ops)| == 1;
    }
  }

  lemma OnlyDeletionLeft(kinds: seq<Kind>)
    requires TailShape(kinds)
    ensures ManifestKind in kinds || kinds == [DeletionKind]
  {
    if |kinds| >= 2 {
      assert kinds[|kinds| - 2] == ManifestKind;
    }
  }

  // `e` is what a loop over the evidence of `d` records.
  ghost predicate RecordsLoop(
    s: Evidence, d: DeletionResult, values: seq<ReconciliationResult>, withManifest: bool, ticks: Schedule, e: Execution
  )
  {
    var ops := LeftOver(values, Some(d), withManifest);
    var p := Advance(s, ops, ticks);
    && e.deletionResultHash == d.resultHash
    && e.remainingKinds == if p.error.None? then [] else Kinds(ops)[p.removed..]
  }

  // Every loop over a deletion's evidence, however it ends, keeps the order of
  // removal, and its record is truthful.
  lemma LoopIsSafe(
    start: Evidence, s: Evidence, d: DeletionResult, values: seq<ReconciliationResult>,
    withManifest: bool, ticks: Schedule, e: Execution
  ) returns (n: nat)
    requires Intact(start) && Shrunk(start, s) && Orderly(start, s)
    requires Removal(s, d, values, withManifest) && RecordsLoop(s, d, values, withManifest, ticks, e)
    ensures var after := Advance(s, LeftOver(values, Some(d), withManifest), ticks).evidence;
            && Shrunk(s, after) && Shrunk(start, after) && Orderly(start, after) && Truthful(after, e)
            && n <= |LeftOver(values, Some(d), withManifest)|
            && after == After(s, d, values, withManifest, n)
  {
    n := LoopKeepsOrder(start, s, d, values, withManifest, ticks);
    LoopIsTruthful(start, s, d, values, withManifest, ticks, e, n);
  }

  lemma LoopKeepsOrder(
    start: Evidence, s: Evidence, d: DeletionResult, values: seq<ReconciliationResult>, withManifest: bool,
    ticks: Schedule
  ) returns (n: nat)
    requires Intact(start) && Shrunk(start, s) && Orderly(start, s) && Removal(s, d, values, withManifest)
    ensures var p := Advance(s, LeftOver(values, Some(d), withManifest), ticks);
            && p.removed <= n <= |LeftOver(values, Some(d), withManifest)|
            && p.evidence == After(s, d, values, withManifest, n)
            && Shrunk(s, p.evidence) && Shrunk(start, p.evidence) && Orderly(start, p.evidence)
  {
    n := AdvanceRemovesPrefix(s, LeftOver(values, Some(d), withManifest), ticks);
    WithoutIsAfter(s, d, values, withManifest, n);
    RemovalKeepsOrder(start, s, d, values, withManifest, n);
  }

  lemma LoopIsTruthful(
    start: Evidence, s: Evidence, d: DeletionResult, values: seq<ReconciliationResult>, withManifest: bool,
    ticks: Schedule, e: Execution, n: nat
  )
    requires Intact(start) && Shrunk(start, s) && Removal(s, d, values, withManifest)
    requires RecordsLoop(s, d, values, withManifest, ticks, e)
    requires var p := Advance(s, LeftOver(values, Some(d), withManifest), ticks);
             && p.removed <= n <= |LeftOver(values, Some(d), withManifest)|
             && p.evidence == After(s, d, values, withManifest, n) && Shrunk(start, p.evidence)
    ensures Truthful(After(s, d, values, withManifest, n), e)
  {
    var p := Advance(s, LeftOver(values, Some(d), withManifest), ticks);
    LeftOverShape(values, d, withManifest, p.removed);
    if e.remainingKinds == [DeletionKind] {
      OnlyDeletionIsTruthful(start, s, d, values, withManifest, n, e);
    }
  }

  // When only the deletion result is left to remove, its manifest is gone.
  lemma OnlyDeletionIsTruthful(
    start: Evidence, s: Evidence, d: DeletionResult, values: seq<ReconciliationResult>, withManifest: bool, n: nat,
    e: Execution
  )
    requires Intact(start) && Shrunk(start, s) && Removal(s, d, values, withManifest)
    requires Shrunk(start, After(s, d, values, withManifest, n)) && e.deletionResultHash == d.resultHash
    requires |LeftOver(values, Some(d), withManifest)| <= n + 1
    ensures var after := After(s, d, values, withManifest, n);
            forall c | StoredDeletion(after, c) && c.resultHash == e.deletionResultHash ::
              c.requestHash !in after.manifests
  {
    var after := After(s, d, values, withManifest, n);
    forall c | StoredDeletion(after, c) && c.resultHash == e.deletionResultHash
      ensures c.requestHash !in after.manifests
    {
      assert StoredDeletion(start, c) && StoredDeletion(start, d);
      if c != d { DistinctDeletions(start, d, c); }
    }
  }

  // The kinds left over from any point of a loop are a tail of the order.
  lemma LeftOverShape(values: seq<ReconciliationResult>, d: DeletionResult, withManifest: bool, removed: nat)
    requires !withManifest ==> values == []
    requires removed <= |LeftOver(values, Some(d), withManifest)|
    ensures var rest := Kinds(LeftOver(values, Some(d), withManifest))[removed..];
            && (removed < |LeftOver(values, Some(d), withManifest)| ==> TailShape(rest))
            && (rest == [DeletionKind] ==> removed + 1 == |LeftOver(values, Some(d), withManifest)|)
  {
    var ops := LeftOver(values, Some(d), withManifest);
    var rest := Kinds(ops)[removed..];
    assert forall i | 0 <= i < |rest| :: rest[i] == ops[removed + i].Kind();
  }

  // ---- The state machine ----

  // Evidence on disk, recorded executions, and every execution handed back to a
  // caller, whether it could be recorded or not.
  datatype System = System(evidence: Evidence, ledger: Ledger, issued: set<Execution>)

  datatype Step =
    | ExecuteStep(orders: Orders, reconciliationOrder: seq<string>, target: Target, cancelled: bool,
                  ticks: Schedule, save: Fault)
    | ResumeStep(deletionOrder: seq<string>, reconciliationOrder: seq<string>, source: Execution,
                 request: CleanupRequest, ticks: Schedule, save: Fault, at: int)

  // Directories are listed completely; only a handed-back record is resumed.
  ghost predicate Enabled(sys: System, step: Step) {
    match step
    case ExecuteStep(orders, reconciliationOrder, _, _, _, _) =>
      && ListsBoth(sys.evidence.deletions, sys.evidence.manifests, orders)
      && Enumerates(sys.evidence.reconciliations, reconciliationOrder)
    case ResumeStep(deletionOrder, reconciliationOrder, source, _, _, _, _) =>
      && Enumerates(sys.evidence.deletions, deletionOrder)
      && Enumerates(sys.evidence.reconciliations, reconciliationOrder)
      && source in sys.issued
  }

  function HandedBack(reply: Reply): set<Execution> {
    match reply
    case Returned(e) => {e}
    case Unpersisted(e, _) => {e}
    case Rejected(_) => {}
  }

  ghost function EffectOf(sha: Sha256, sys: System, step: Step): Effect
    requires Enabled(sys, step)
  {
    match step
    case ExecuteStep(orders, reconciliationOrder, target, cancelled, ticks, save) =>
      ExecuteEffect(sha, sys.evidence, sys.ledger, orders, reconciliationOrder, target, cancelled, ticks, save)
    case ResumeStep(deletionOrder, reconciliationOrder, source, request, ticks, save, at) =>
      ResumeEffect(sha, sys.evidence, sys.ledger, deletionOrder, reconciliationOrder, source, request, ticks, save, at)
  }

  ghost function Next(sys: System, effect: Effect): System {
    System(effect.evidence, effect.ledger, sys.issued + HandedBack(effect.reply))
  }

  // One call of `execute` or `resume`, whatever the environment does.
  ghost predicate Moves(sha: Sha256, sys: System, after: System) {
    exists step: Step :: Enabled(sys, step) && after == Next(sys, EffectOf(sha, sys, step))
  }

  ghost function MovesOf(sha: Sha256): (System, System) -> bool {
    (a: System, b: System) => Moves(sha, a, b)
  }

  ghost predicate AllTruthful(s: Evidence, issued: set<Execution>) {
    forall e | e in issued :: Truthful(s, e)
  }

  ghost predicate Safe(start: Evidence, sys: System) {
    && Shrunk(start, sys.evidence)
    && Orderly(start, sys.evidence)
    && AllTruthful(sys.evidence, sys.issued)
  }

  lemma TruthStays(s: Evidence, after: Evidence, issued: set<Execution>, e: Execution)
    requires Shrunk(s, after) && AllTruthful(s, issued) && Truthful(after, e)
    ensures AllTruthful(after, issued) && AllTruthful(after, issued + {e})
  {
    forall x | x in issued ensures Truthful(after, x) {
      forall d | StoredDeletion(after, d) ensures StoredDeletion(s, d) {}
    }
  }

  // A loop over one deletion's evidence, followed by handing back its record.
  lemma LoopKeepsSafe(
    start: Evidence, sys: System, d: DeletionResult, values: seq<ReconciliationResult>, withManifest: bool,
    ticks: Schedule, e: Execution, effect: Effect
  )
    requires Intact(start) && Safe(start, sys)
    requires Removal(sys.evidence, d, values, withManifest)
    requires RecordsLoop(sys.evidence, d, values, withManifest, ticks, e)
    requires effect.evidence == Advance(sys.evidence, LeftOver(values, Some(d), withManifest), ticks).evidence
    requires HandedBack(effect.reply) <= {e}
    ensures Safe(start, Next(sys, effect))
  {
    var n := LoopIsSafe(start, sys.evidence, d, values, withManifest, ticks, e);
    TruthStays(sys.evidence, effect.evidence, sys.issued, e);
  }

  // Whether or not it could be recorded, the execution is handed back.
  lemma PersistHandsBack(sha: Sha256, ledger: Ledger, e: Execution, save: Fault)
    ensures HandedBack(Persist(sha, ledger, e, save).0) == {e}
  {
  }

  // What a call of `execute` amounts to.
  lemma CarryOutShape(
    sha: Sha256, s: Evidence, ledger: Ledger, chosen: Outcome<Selection>, t: Target, ticks: Schedule, save: Fault
  )
    ensures var effect := CarryOut(sha, s, ledger, chosen, t, ticks, save);
            if chosen.Raised? then effect == Effect(Rejected(chosen.error), s, ledger)
            else
              var p := Advance(s, AllOps(chosen.value.reconciliations, chosen.value.deletion), ticks);
              && effect.evidence == p.evidence
              && HandedBack(effect.reply) == {ExecutionOf(sha, t, chosen.value, p)}
  {
    if chosen.Ok? {
      var p := Advance(s, AllOps(chosen.value.reconciliations, chosen.value.deletion), ticks);
      PersistHandsBack(sha, ledger, ExecutionOf(sha, t, chosen.value, p), save);
    }
  }

  lemma ExecuteIsSafe(
    sha: Sha256, start: Evidence, sys: System, orders: Orders, reconciliationOrder: seq<string>, t: Target,
    cancelled: bool, ticks: Schedule, save: Fault
  )
    requires Intact(start) && Safe(start, sys)
    requires ListsBoth(sys.evidence.deletions, sys.evidence.manifests, orders)
    requires Enumerates(sys.evidence.reconciliations, reconciliationOrder)
    ensures Safe(start, Next(sys, ExecuteEffect(sha, sys.evidence, sys.ledger, orders, reconciliationOrder, t,
                                                cancelled, ticks, save)))
  {
    var chosen := Select(sys.evidence, orders, reconciliationOrder, t);
    ShrunkIntact(start, sys.evidence);
    if !cancelled && chosen.Ok? {
      SelectIsRemoval(sys.evidence, orders, reconciliationOrder, t);
      CarryOutIsSafe(sha, start, sys, chosen.value, t, ticks, save);
    }
  }

  lemma CarryOutIsSafe(
    sha: Sha256, start: Evidence, sys: System, c: Selection, t: Target, ticks: Schedule, save: Fault
  )
    requires Intact(start) && Safe(start, sys)
    requires Removal(sys.evidence, c.deletion, c.reconciliations, true)
    requires AllOps(c.reconciliations, c.deletion) == LeftOver(c.reconciliations, Some(c.deletion), true)
    ensures Safe(start, Next(sys, CarryOut(sha, sys.evidence, sys.ledger, Ok(c), t, ticks, save)))
  {
    CarryOutShape(sha, sys.evidence, sys.ledger, Ok(c), t, ticks, save);
    var p := Advance(sys.evidence, AllOps(c.reconciliations, c.deletion), ticks);
    LoopKeepsSafe(start, sys, c.deletion, c.reconciliations, true, ticks, ExecutionOf(sha, t, c, p),
                  CarryOut(sha, sys.evidence, sys.ledger, Ok(c), t, ticks, save));
  }

  // What a call of `resume` amounts to.
  lemma CarryOnShape(
    sha: Sha256, s: Evidence, ledger: Ledger, admitted: Outcome<seq<Operation>>, source: Execution,
    request: CleanupRequest, ticks: Schedule, save: Fault, at: int
  )
    ensures var effect := CarryOn(sha, s, ledger, admitted, source, request, ticks, save, at);
            if admitted.Raised? then effect == Effect(Rejected(admitted.error), s, ledger)
            else
              var p := Advance(s, admitted.value, ticks);
              && effect.evidence == p.evidence
              && HandedBack(effect.reply) == {ResumeRecord(sha, source, request, admitted.value, p, at)}
  {
    if admitted.Ok? {
      var p := Advance(s, admitted.value, ticks);
      PersistHandsBack(sha, ledger, ResumeRecord(sha, source, request, admitted.value, p, at), save);
    }
  }

  lemma ResumeIsSafe(
    sha: Sha256, start: Evidence, sys: System, deletionOrder: seq<string>, reconciliationOrder: seq<string>,
    source: Execution, request: CleanupRequest, ticks: Schedule, save: Fault, at: int
  )
    requires Intact(start) && Safe(start, sys)
    requires Enumerates(sys.evidence.deletions, deletionOrder)
    requires Enumerates(sys.evidence.reconciliations, reconciliationOrder)
    requires source in sys.issued
    ensures Safe(start, Next(sys, ResumeEffect(sha, sys.evidence, sys.ledger, deletionOrder, reconciliationOrder,
                                               source, request, ticks, save, at)))
  {
    var admitted := Admit(sha, sys.evidence, deletionOrder, reconciliationOrder, source, request);
    ShrunkIntact(start, sys.evidence);
    if admitted.Ok? {
      var d, values, withManifest :=
        AdmitIsRemoval(sha, sys.evidence, deletionOrder, reconciliationOrder, source, request);
      CarryOnIsSafe(sha, start, sys, d, values, withManifest, source, request, ticks, save, at);
    }
  }

  lemma CarryOnIsSafe(
    sha: Sha256, start: Evidence, sys: System, d: DeletionResult, values: seq<ReconciliationResult>, withManifest: bool,
    source: Execution, request: CleanupRequest, ticks: Schedule, save: Fault, at: int
  )
    requires Intact(start) && Safe(start, sys)
    requires Removal(sys.evidence, d, values, withManifest) && source.deletionResultHash == d.resultHash
    ensures Safe(start, Next(sys, CarryOn(sha, sys.evidence, sys.ledger, Ok(LeftOver(values, Some(d), withManifest)),
                                          source, request, ticks, save, at)))
  {
    var ops := LeftOver(values, Some(d), withManifest);
    CarryOnShape(sha, sys.evidence, sys.ledger, Ok(ops), source, request, ticks, save, at);
    var p := Advance(sys.evidence, ops, ticks);
    LoopKeepsSafe(start, sys, d, values, withManifest, ticks, ResumeRecord(sha, source, request, ops, p, at),
                  CarryOn(sha, sys.evidence, sys.ledger, Ok(ops), source, request, ticks, save, at));
  }

  lemma MoveIsSafe(sha: Sha256, start: Evidence, sys: System, after: System)
    requires Intact(start) && Safe(start, sys) && Moves(sha, sys, after)
    ensures Safe(start, after)
  {
    var step: Step :| Enabled(sys, step) && after == Next(sys, EffectOf(sha, sys, step));
    match step {
      case ExecuteStep(orders, reconciliationOrder, target, cancelled, ticks, save) =>
        ExecuteIsSafe(sha, start, sys, orders, reconciliationOrder, target, cancelled, ticks, save);
      case ResumeStep(deletionOrder, reconciliationOrder, source, request, ticks, save, at) =>
        ResumeIsSafe(sha, start, sys, deletionOrder, reconciliationOrder, source, request, ticks, save, at);
    }
  }

  // In every reachable state, nothing has been added, no deletion result has
  // gone before its manifest, and no manifest before its reconciliations;
  // reconciliations go newest first; every record ever handed back is truthful.
  lemma EveryRunIsSafe(sha: Sha256, start: Evidence, ledger: Ledger, states: seq<System>)
    requires Intact(start)
    requires Run(states, MovesOf(sha)) && states[0] == System(start, ledger, {})
    ensures forall i | 0 <= i < |states| :: Safe(start, states[i])
  {
    var safe := (sys: System) => Safe(start, sys);
    forall a, b | safe(a) && MovesOf(sha)(a, b) ensures safe(b) {
      MoveIsSafe(sha, start, a, b);
    }
    HoldsAlongRun(states, MovesOf(sha), safe);
    assert forall i | 0 <= i < |states| :: safe(states[i]);
  }

  // A run never creates an orphan: manifest evidence or reconciliations whose
  // deletion result it removed.
  lemma RunsNeverOrphan(sha: Sha256, start: Evidence, ledger: Ledger, states: seq<System>, i: nat, d: DeletionResult)
    requires Intact(start)
    requires Run(states, MovesOf(sha)) && states[0] == System(start, ledger, {})
    requires i < |states| && StoredDeletion(start, d) && !StoredDeletion(states[i].evidence, d)
    ensures d.requestHash !in states[i].evidence.manifests
    ensures forall r :: !KeepsReconciliation(states[i].evidence, d, r)
  {
    EveryRunIsSafe(sha, start, ledger, states);
    assert Phased(start, states[i].evidence, d);
  }

  // ---- The exact suffix ----

  // Whether the file an operation would remove is still there.
  ghost predicate Remains(s: Evidence, op: Operation) {
    match op
    case RemoveReconciliation(r) => r.reconciliationId in s.reconciliations
    case RemoveManifest(d) => d.requestHash in s.manifests
    case RemoveDeletion(d) => d.requestId in s.deletions
  }

  // The deletion's reconciliations at the start, newest first, no two observed
  // at the same instant.
  ghost predicate ListedAtStart(start: Evidence, d: DeletionResult, listed: seq<ReconciliationResult>) {
    && (forall r :: r in listed <==> KeepsReconciliation(start, d, r))
    && forall i, j | 0 <= i < j < |listed| :: listed[i].observedAt > listed[j].observedAt
  }

  // In every state of a run, what is left of a deletion's evidence is a suffix
  // of its reconciliations in listed order, its manifest and its result.
  lemma EvidenceIsAlwaysASuffix(
    sha: Sha256, start: Evidence, ledger: Ledger, states: seq<System>, i: nat, d: DeletionResult,
    listed: seq<ReconciliationResult>
  ) returns (k: nat)
    requires Intact(start)
    requires Run(states, MovesOf(sha)) && states[0] == System(start, ledger, {})
    requires i < |states|
    requires StoredDeletion(start, d) && d.requestHash in start.manifests && ListedAtStart(start, d, listed)
    ensures k <= |AllOps(listed, d)|
    ensures forall j | 0 <= j < |AllOps(listed, d)| :: Remains(states[i].evidence, AllOps(listed, d)[j]) <==> j >= k
  {
    EveryRunIsSafe(sha, start, ledger, states);
    k := SuffixStart(start, states[i].evidence, d, listed);
  }

  lemma OlderStays(start: Evidence, s: Evidence, d: DeletionResult, listed: seq<ReconciliationResult>, k: nat, i: nat)
    requires OldestLast(start, s, d) && ListedAtStart(start, d, listed)
    requires k <= i < |listed| && KeepsReconciliation(s, d, listed[k])
    ensures KeepsReconciliation(s, d, listed[i])
  {
    assert listed[i] in listed;
    assert k < i ==> listed[k].observedAt > listed[i].observedAt;
  }

  // The first listed reconciliation still kept; everything after it is kept.
  lemma FirstKept(start: Evidence, s: Evidence, d: DeletionResult, listed: seq<ReconciliationResult>) returns (k: nat)
    requires OldestLast(start, s, d) && ListedAtStart(start, d, listed)
    ensures k <= |listed|
    ensures forall i | 0 <= i < |listed| :: KeepsReconciliation(s, d, listed[i]) <==> i >= k
  {
    k := 0;
    while k < |listed| && !KeepsReconciliation(s, d, listed[k])
      invariant k <= |listed|
      invariant forall i | 0 <= i < k :: !KeepsReconciliation(s, d, listed[i])
    {
      k := k + 1;
    }
    forall i | k <= i < |listed| ensures KeepsReconciliation(s, d, listed[i]) {
      OlderStays(start, s, d, listed, k, i);
    }
  }

  lemma SuffixStart(start: Evidence, s: Evidence, d: DeletionResult, listed: seq<ReconciliationResult>) returns (k: nat)
    requires Intact(start) && Shrunk(start, s)
    requires Phased(start, s, d) && OldestLast(start, s, d)
    requires StoredDeletion(start, d) && d.requestHash in start.manifests && ListedAtStart(start, d, listed)
    ensures k <= |AllOps(listed, d)|
    ensures forall i | 0 <= i < |AllOps(listed, d)| :: Remains(s, AllOps(listed, d)[i]) <==> i >= k
  {
    var ops, m := AllOps(listed, d), |listed|;
    assert ops[m] == RemoveManifest(d) && ops[m + 1] == RemoveDeletion(d);
    assert StoredDeletion(s, d) <==> d.requestId in s.deletions;
    k := FirstKept(start, s, d, listed);
    forall i | 0 <= i < m ensures ops[i] == RemoveReconciliation(listed[i])
                                  && (Remains(s, ops[i]) <==> KeepsReconciliation(s, d, listed[i]))
    {
      assert listed[i] in listed;
      assert KeepsReconciliation(start, d, listed[i]);
    }
    if d.requestId !in s.deletions {
      k := m + 2;
    } else if d.requestHash !in s.manifests {
      k := m + 1;
    }
  }
}
