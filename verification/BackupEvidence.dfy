// The evidence read back after a restart: the latest deletion of each backup,
// the reconciliation that still belongs to it, and the retention executions.

module BackupEvidence {
  import opened Foundations
  import opened Sorting
  import opened Records
  import opened EvidenceStores
  import opened RetentionPlanProperties
  import opened RetentionExecutor
  import opened RetentionCleanup
  import opened BackupDeletion
  import opened BackupReconciliation
  import opened BackupInventory

  // The directories the repository reads; the last two may not be configured.
  datatype Stores = Stores(
    deletions: Directory<DeletionResult>,
    reconciliations: Option<Directory<ReconciliationResult>>,
    executions: Option<Ledger>
  )

  // The order in which each directory happens to be listed.
  datatype Orders = Orders(deletions: seq<string>, reconciliations: seq<string>, executions: seq<string>)

  ghost predicate Lists(s: Stores, o: Orders) {
    && Enumerates(s.deletions, o.deletions)
    && (s.reconciliations.Some? ==> Enumerates(s.reconciliations.value, o.reconciliations))
    && (s.executions.Some? ==> Enumerates(s.executions.value, o.executions))
  }

  // Whether remote staging is left over from a deletion, or the error of asking.
  type Pending = DeletionResult -> Outcome<bool>

  predicate Shows(results: seq<DeletionResult>, backupId: string) {
    exists i | 0 <= i < |results| :: results[i].backupId == backupId
  }

  // `latest.setdefault` over the listed results
  function Latest(results: seq<DeletionResult>): seq<DeletionResult> {
    if results == [] then []
    else
      var kept, last := Latest(results[..|results| - 1]), results[|results| - 1];
      if Shows(kept, last.backupId) then kept else kept + [last]
  }

  function ViewsOf(results: seq<DeletionResult>, pending: Pending): Outcome<seq<DeletionView>> {
    if results == [] then Ok([])
    else AddView(ViewsOf(results[..|results| - 1], pending), results[|results| - 1], pending)
  }

  function AddView(views: Outcome<seq<DeletionView>>, d: DeletionResult, pending: Pending): Outcome<seq<DeletionView>> {
    match views
    case Raised(e) => Raised(e)
    case Ok(before) =>
      match pending(d)
      case Raised(e) => Raised(e)
      case Ok(left) => Ok(before + [DeletionView(d, left)])
  }

  predicate ViewBefore(a: DeletionView, b: DeletionView) {
    a.result.completedAt > b.result.completedAt
  }

  predicate BelongsTo(r: ReconciliationResult, d: DeletionResult) {
    && r.backupId == d.backupId
    && r.sourceDeletionResultHash == d.resultHash
    && r.manifestHash == d.manifestHash
  }

  predicate BelongsToView(r: ReconciliationResult, views: seq<DeletionView>) {
    exists i | 0 <= i < |views| :: BelongsTo(r, views[i].result)
  }

  predicate Reconciled(values: seq<ReconciliationResult>, backupId: string) {
    exists i | 0 <= i < |values| :: values[i].backupId == backupId
  }

  // The first listed reconciliation that belongs to each view.
  function Current(views: seq<DeletionView>, values: seq<ReconciliationResult>): seq<ReconciliationResult> {
    if values == [] then []
    else
      var kept, last := Current(views, values[..|values| - 1]), values[|values| - 1];
      if BelongsToView(last, views) && !Reconciled(kept, last.backupId) then kept + [last] else kept
  }

  function SortedViews(
    s: Stores, o: Orders, hostId: string, fingerprint: string, pending: Pending
  ): Outcome<seq<DeletionView>>
    requires Elements(o.deletions) <= s.deletions.Keys
  {
    match ListHost(s.deletions, o.deletions, DeletionStamp, hostId, fingerprint)
    case Raised(e) => Raised(e)
    case Ok(results) =>
      match ViewsOf(Latest(results), pending)
      case Raised(e) => Raised(e)
      case Ok(views) => Ok(Sort(views, ViewBefore))
  }

  function CurrentReconciliations(
    s: Stores, o: Orders, hostId: string, fingerprint: string, views: seq<DeletionView>
  ): Outcome<seq<ReconciliationResult>>
    requires s.reconciliations.Some? ==> Elements(o.reconciliations) <= s.reconciliations.value.Keys
  {
    if s.reconciliations.None? then Ok([])
    else match ListHost(s.reconciliations.value, o.reconciliations, ReconciliationStamp, hostId, fingerprint)
         case Raised(e) => Raised(e)
         case Ok(values) => Ok(Current(views, values))
  }

  function StoredExecutions(s: Stores, o: Orders, hostId: string, fingerprint: string): Outcome<seq<Execution>>
    requires s.executions.Some? ==> Elements(o.executions) <= s.executions.value.Keys
  {
    if s.executions.None? then Ok([]) else ListExecutions(s.executions.value, o.executions, hostId, fingerprint)
  }

  // `load_for_host`; `retention` is what the two retention stores answered.
  function Loaded(
    s: Stores, o: Orders, hostId: string, fingerprint: string, retention: Outcome<RetentionEvidence>, pending: Pending
  ): Outcome<BackupInventory.Evidence>
    requires Elements(o.deletions) <= s.deletions.Keys
    requires s.reconciliations.Some? ==> Elements(o.reconciliations) <= s.reconciliations.value.Keys
    requires s.executions.Some? ==> Elements(o.executions) <= s.executions.value.Keys
  {
    match retention
    case Raised(e) => Raised(e)
    case Ok(runs) =>
      match SortedViews(s, o, hostId, fingerprint, pending)
      case Raised(e) => Raised(e)
      case Ok(views) =>
        match CurrentReconciliations(s, o, hostId, fingerprint, views)
        case Raised(e) => Raised(e)
        case Ok(reconciliations) =>
          match StoredExecutions(s, o, hostId, fingerprint)
          case Raised(e) => Raised(e)
          case Ok(executions) => Ok(BackupInventory.Evidence(runs, views, reconciliations, executions))
  }

  // ---- What the loops find ----

  function BackupOf(d: DeletionResult): string { d.backupId }

  function ViewBackup(v: DeletionView): string { v.result.backupId }

  function ReconciledBackup(r: ReconciliationResult): string { r.backupId }

  ghost predicate NewestDeletionsFirst(results: seq<DeletionResult>) {
    forall i, j | 0 <= i < j < |results| :: results[i].completedAt >= results[j].completedAt
  }

  // Some kept deletion of the same backup, no older than `d`.
  ghost predicate Superseded(kept: seq<DeletionResult>, d: DeletionResult) {
    exists v :: v in kept && v.backupId == d.backupId && v.completedAt >= d.completedAt
  }

  lemma {:induction false} LatestFacts(results: seq<DeletionResult>)
    ensures forall d | d in Latest(results) :: d in results
    ensures Keyed(Latest(results), BackupOf)
  {
    if results != [] {
      var init, last := results[..|results| - 1], results[|results| - 1];
      LatestFacts(init);
      assert results == init + [last];
      var kept := Latest(init);
      if !Shows(kept, last.backupId) {
        assert forall v | v in kept :: BackupOf(v) != BackupOf(last);
        KeyedExtend(kept, last, BackupOf);
      }
    }
  }

  lemma {:induction false} LatestCovers(results: seq<DeletionResult>, d: DeletionResult)
    requires NewestDeletionsFirst(results) && d in results
    ensures Superseded(Latest(results), d)
  {
    var n := |results| - 1;
    var init, last := results[..n], results[n];
    assert results == init + [last];
    var kept := Latest(init);
    if d in init {
      LatestCovers(init, d);
      var v :| v in kept && v.backupId == d.backupId && v.completedAt >= d.completedAt;
      assert v in Latest(results);
    } else if Shows(kept, d.backupId) {
      var i :| 0 <= i < |kept| && kept[i].backupId == d.backupId;
      LatestFacts(init);
      assert kept[i] in kept && kept[i] in init;
      var j :| 0 <= j < n && results[j] == kept[i];
      assert results[j].completedAt >= results[n].completedAt;
      assert kept[i] in Latest(results);
    } else {
      assert Latest(results) == kept + [d];
      assert d in kept + [d];
    }
  }

  lemma {:induction false} ViewsOfFacts(results: seq<DeletionResult>, pending: Pending)
    requires ViewsOf(results, pending).Ok?
    ensures var views := ViewsOf(results, pending).value;
            |views| == |results| && forall i | 0 <= i < |views| :: views[i].result == results[i]
  {
    if results != [] {
      ViewsOfFacts(results[..|results| - 1], pending);
    }
  }

  // The views show exactly one deletion of each backup with one, its newest.
  ghost predicate NewestViews(s: Stores, hostId: string, fingerprint: string, views: seq<DeletionView>) {
    && Keyed(views, ViewBackup)
    && (forall v | v in views :: OnHost(s.deletions, DeletionStamp, hostId, v.result)
                                 && v.result.hostFingerprint == fingerprint)
    && (forall i, j | 0 <= i < j < |views| :: views[i].result.completedAt >= views[j].result.completedAt)
    && (forall d | OnHost(s.deletions, DeletionStamp, hostId, d) :: HasNewestView(views, d))
  }

  ghost predicate HasNewestView(views: seq<DeletionView>, d: DeletionResult) {
    exists v :: v in views && v.result.backupId == d.backupId && v.result.completedAt >= d.completedAt
  }

  lemma SortedViewsAreNewest(s: Stores, o: Orders, hostId: string, fingerprint: string, pending: Pending)
    requires Lists(s, o)
    requires SortedViews(s, o, hostId, fingerprint, pending).Ok?
    ensures NewestViews(s, hostId, fingerprint, SortedViews(s, o, hostId, fingerprint, pending).value)
  {
    ListHostExact(s.deletions, o.deletions, DeletionStamp, hostId, fingerprint);
    var results := ListHost(s.deletions, o.deletions, DeletionStamp, hostId, fingerprint).value;
    forall i, j | 0 <= i < j < |results| ensures results[i].completedAt >= results[j].completedAt {
      assert DeletionStamp(results[i]).at >= DeletionStamp(results[j]).at;
    }
    ViewsShowLatest(results, pending);
    var views := Sort(ViewsOf(Latest(results), pending).value, ViewBefore);
    forall v | v in views ensures v.result.hostFingerprint == fingerprint {
      assert DeletionStamp(v.result).hostFingerprint == fingerprint;
    }
  }

  // The sorted views of the latest of some results.
  lemma ViewsShowLatest(results: seq<DeletionResult>, pending: Pending)
    requires NewestDeletionsFirst(results) && ViewsOf(Latest(results), pending).Ok?
    ensures var views := Sort(ViewsOf(Latest(results), pending).value, ViewBefore);
            && Keyed(views, ViewBackup)
            && (forall v | v in views :: v.result in results)
            && (forall i, j | 0 <= i < j < |views| :: views[i].result.completedAt >= views[j].result.completedAt)
            && (forall d | d in results :: HasNewestView(views, d))
  {
    LatestFacts(results);
    forall d | d in results ensures Superseded(Latest(results), d) {
      LatestCovers(results, d);
    }
    ViewsOfFacts(Latest(results), pending);
    var unsorted := ViewsOf(Latest(results), pending).value;
    ViewsKeyed(Latest(results), unsorted);
    SortViews(unsorted);
    SameBag(Sort(unsorted, ViewBefore), unsorted);
    ViewsCover(results, Latest(results), unsorted, Sort(unsorted, ViewBefore));
  }

  lemma ViewsCover(
    results: seq<DeletionResult>, latest: seq<DeletionResult>, unsorted: seq<DeletionView>, views: seq<DeletionView>
  )
    requires |unsorted| == |latest| && forall i | 0 <= i < |unsorted| :: unsorted[i].result == latest[i]
    requires forall v :: v in views <==> v in unsorted
    requires forall d | d in latest :: d in results
    requires forall d | d in results :: Superseded(latest, d)
    ensures forall v | v in views :: v.result in results
    ensures forall d | d in results :: HasNewestView(views, d)
  {
    forall v | v in views ensures v.result in results {
      var i :| 0 <= i < |unsorted| && unsorted[i] == v;
      assert latest[i] in results;
    }
    forall d | d in results ensures HasNewestView(views, d) {
      assert Superseded(latest, d);
      var k :| 0 <= k < |latest| && latest[k].backupId == d.backupId && latest[k].completedAt >= d.completedAt;
      assert unsorted[k] in views;
    }
  }

  lemma SortViews(unsorted: seq<DeletionView>)
    requires Keyed(unsorted, ViewBackup)
    ensures var views := Sort(unsorted, ViewBefore);
            && Keyed(views, ViewBackup)
            && forall i, j | 0 <= i < j < |views| :: views[i].result.completedAt >= views[j].result.completedAt
  {
    SortKeyed(unsorted, ViewBefore, ViewBackup);
    SortOrdered(unsorted, ViewBefore);
    var views := Sort(unsorted, ViewBefore);
    forall i, j | 0 <= i < j < |views| ensures views[i].result.completedAt >= views[j].result.completedAt {
      assert !ViewBefore(views[j], views[i]);
    }
  }

  lemma ViewsKeyed(latest: seq<DeletionResult>, views: seq<DeletionView>)
    requires Keyed(latest, BackupOf)
    requires |views| == |latest| && forall i | 0 <= i < |views| :: views[i].result == latest[i]
    ensures Keyed(views, ViewBackup)
  {
    forall i, j | 0 <= i < j < |views| ensures ViewBackup(views[i]) != ViewBackup(views[j]) {
      assert BackupOf(latest[i]) != BackupOf(latest[j]);
    }
  }

  ghost predicate HasNewest(kept: seq<ReconciliationResult>, r: ReconciliationResult) {
    exists c :: c in kept && c.backupId == r.backupId && c.observedAt >= r.observedAt
  }

  lemma {:induction false} CurrentFacts(views: seq<DeletionView>, values: seq<ReconciliationResult>)
    ensures forall r | r in Current(views, values) :: r in values && BelongsToView(r, views)
    ensures Keyed(Current(views, values), ReconciledBackup)
  {
    if values != [] {
      var init, last := values[..|values| - 1], values[|values| - 1];
      CurrentFacts(views, init);
      assert values == init + [last];
      var kept := Current(views, init);
      if BelongsToView(last, views) && !Reconciled(kept, last.backupId) {
        assert forall c | c in kept :: ReconciledBackup(c) != ReconciledBackup(last);
        KeyedExtend(kept, last, ReconciledBackup);
      }
    }
  }

  lemma {:induction false} CurrentCovers(
    views: seq<DeletionView>, values: seq<ReconciliationResult>, r: ReconciliationResult
  )
    requires NewestFirst(values) && r in values && BelongsToView(r, views)
    ensures HasNewest(Current(views, values), r)
  {
    var n := |values| - 1;
    var init, last := values[..n], values[n];
    assert values == init + [last];
    var kept := Current(views, init);
    if r in init {
      CurrentCovers(views, init, r);
      var c :| c in kept && c.backupId == r.backupId && c.observedAt >= r.observedAt;
      assert c in Current(views, values);
    } else if Reconciled(kept, r.backupId) {
      var i :| 0 <= i < |kept| && kept[i].backupId == r.backupId;
      CurrentFacts(views, init);
      assert kept[i] in kept && kept[i] in init;
      var j :| 0 <= j < n && values[j] == kept[i];
      assert values[j].observedAt >= values[n].observedAt;
      assert kept[i] in Current(views, values);
    } else {
      assert Current(views, values) == kept + [r];
      assert r in kept + [r];
    }
  }

  // Every shown reconciliation belongs to the shown deletion of its backup and
  // is the newest such, and a deletion with one always shows it.
  ghost predicate NewestReconciliations(
    s: Stores, hostId: string, fingerprint: string, views: seq<DeletionView>, shown: seq<ReconciliationResult>
  )
  {
    && Keyed(shown, ReconciledBackup)
    && (forall r | r in shown :: BelongsToView(r, views) && r.hostId == hostId && r.hostFingerprint == fingerprint
                                 && s.reconciliations.Some?
                                 && OnHost(s.reconciliations.value, ReconciliationStamp, hostId, r))
    && (s.reconciliations.Some? ==>
          forall r | OnHost(s.reconciliations.value, ReconciliationStamp, hostId, r) && BelongsToView(r, views) ::
            HasNewest(shown, r))
  }

  lemma CurrentAreNewest(s: Stores, o: Orders, hostId: string, fingerprint: string, views: seq<DeletionView>)
    requires Lists(s, o)
    requires CurrentReconciliations(s, o, hostId, fingerprint, views).Ok?
    ensures NewestReconciliations(s, hostId, fingerprint, views,
                                  CurrentReconciliations(s, o, hostId, fingerprint, views).value)
  {
    if s.reconciliations.Some? {
      ListHostExact(s.reconciliations.value, o.reconciliations, ReconciliationStamp, hostId, fingerprint);
      var values := ListHost(s.reconciliations.value, o.reconciliations, ReconciliationStamp, hostId,
                             fingerprint).value;
      assert NewestFirst(values) by {
        forall i, j | 0 <= i < j < |values| ensures values[i].observedAt >= values[j].observedAt {
          assert ReconciliationStamp(values[i]).at >= ReconciliationStamp(values[j]).at;
        }
      }
      CurrentFacts(views, values);
      forall r | r in values && BelongsToView(r, views) ensures HasNewest(Current(views, values), r) {
        CurrentCovers(views, values, r);
      }
      forall r | r in Current(views, values) ensures r.hostId == hostId && r.hostFingerprint == fingerprint {
        assert ReconciliationStamp(r).hostId == hostId && ReconciliationStamp(r).hostFingerprint == fingerprint;
      }
    }
  }

  // What is loaded: one view per backup, its newest deletion; and the newest
  // reconciliation still bound to that view.
  lemma LoadedIsNewest(
    s: Stores, o: Orders, hostId: string, fingerprint: string, retention: Outcome<RetentionEvidence>, pending: Pending
  )
    requires Lists(s, o)
    requires Loaded(s, o, hostId, fingerprint, retention, pending).Ok?
    ensures var e := Loaded(s, o, hostId, fingerprint, retention, pending).value;
            && NewestViews(s, hostId, fingerprint, e.views)
            && NewestReconciliations(s, hostId, fingerprint, e.views, e.reconciliations)
  {
    SortedViewsAreNewest(s, o, hostId, fingerprint, pending);
    CurrentAreNewest(s, o, hostId, fingerprint, SortedViews(s, o, hostId, fingerprint, pending).value);
  }

  // ---- The inventory accepts it ----

  // What the stores' `load` has validated.
  ghost predicate Validated(sha: Sha256, s: Stores) {
    && (forall k | k in s.deletions && s.deletions[k].Stored? :: ValidResult(sha, s.deletions[k].value))
    && (s.reconciliations.Some? ==>
          forall k | k in s.reconciliations.value && s.reconciliations.value[k].Stored? ::
            ValidReconciliation(sha, s.reconciliations.value[k].value))
    && (s.executions.Some? ==>
          forall k | k in s.executions.value && s.executions.value[k].Stored? ::
            ValidExecution(sha, s.executions.value[k].value))
  }

  lemma KeyedApart<T>(init: seq<T>, last: T, key: T -> string)
    requires Keyed(init + [last], key)
    ensures Keyed(init, key)
    ensures forall x | x in init :: key(x) != key(last)
  {
    var xs := init + [last];
    forall i, j | 0 <= i < j < |init| ensures key(init[i]) != key(init[j]) {
      assert key(xs[i]) != key(xs[j]);
    }
    forall x | x in init ensures key(x) != key(last) {
      var i :| 0 <= i < |init| && init[i] == x;
      assert key(xs[i]) != key(xs[|init|]);
    }
  }

  predicate AcceptableView(sha: Sha256, hostId: string, fingerprint: string, v: DeletionView) {
    ValidResult(sha, v.result) && v.result.hostId == hostId && v.result.hostFingerprint == fingerprint
  }

  // Adding one acceptable view of a new backup.
  lemma ViewAccepted(
    sha: Sha256, hostId: string, fingerprint: string, views: seq<DeletionView>, v: DeletionView,
    m: map<string, DeletionView>
  )
    requires ViewsById(sha, hostId, fingerprint, views) == Ok(m)
    requires AcceptableView(sha, hostId, fingerprint, v) && v.result.backupId !in m
    ensures ViewsById(sha, hostId, fingerprint, views + [v]) == Ok(m[v.result.backupId := v])
  {
    assert (views + [v])[..|views|] == views;
  }

  lemma {:induction false} ViewsByIdAccepts(sha: Sha256, hostId: string, fingerprint: string, views: seq<DeletionView>)
    requires Keyed(views, ViewBackup)
    requires forall v | v in views :: AcceptableView(sha, hostId, fingerprint, v)
    ensures var r := ViewsById(sha, hostId, fingerprint, views);
            r.Ok? && Indexes(views, r.value)
  {
    if views != [] {
      var init, last := views[..|views| - 1], views[|views| - 1];
      assert views == init + [last];
      KeyedApart(init, last, ViewBackup);
      ViewsByIdAccepts(sha, hostId, fingerprint, init);
      var m := ViewsById(sha, hostId, fingerprint, init).value;
      assert last.result.backupId !in m by {
        assert forall v | v in init :: ViewBackup(v) != ViewBackup(last);
      }
      ViewAccepted(sha, hostId, fingerprint, init, last, m);
      IndexesOneMore(init, last, m);
    }
  }

  // `m` holds exactly the given views, each under its backup.
  ghost predicate Indexes(views: seq<DeletionView>, m: map<string, DeletionView>) {
    && (forall v | v in views :: v.result.backupId in m && m[v.result.backupId] == v)
    && forall id | id in m :: m[id] in views && m[id].result.backupId == id
  }

  lemma IndexesOneMore(views: seq<DeletionView>, v: DeletionView, m: map<string, DeletionView>)
    requires Indexes(views, m) && v.result.backupId !in m
    ensures Indexes(views + [v], m[v.result.backupId := v])
  {
  }

  lemma {:induction false} ReconciliationsByIdAccepts(
    sha: Sha256, hostId: string, fingerprint: string, views: map<string, DeletionView>,
    values: seq<ReconciliationResult>
  )
    requires Keyed(values, ReconciledBackup)
    requires forall r | r in values :: ValidReconciliation(sha, r) && r.hostId == hostId
                                       && r.hostFingerprint == fingerprint && BoundToView(r, views)
    ensures var r := ReconciliationsById(sha, hostId, fingerprint, views, values);
            r.Ok? && r.value.Keys == (set v | v in values :: ReconciledBackup(v))
  {
    if values != [] {
      var init, last := values[..|values| - 1], values[|values| - 1];
      assert values == init + [last];
      KeyedApart(init, last, ReconciledBackup);
      ReconciliationsByIdAccepts(sha, hostId, fingerprint, views, init);
      assert forall r | r in init :: r.backupId != last.backupId;
    }
  }

  lemma {:induction false} ExecutionsByIdAccepts(
    sha: Sha256, hostId: string, fingerprint: string, executions: seq<Execution>
  )
    requires forall x | x in executions ::
             ValidExecution(sha, x) && x.hostId == hostId && x.hostFingerprint == fingerprint
    ensures ExecutionsById(sha, hostId, fingerprint, executions).Ok?
  {
    if executions != [] {
      ExecutionsByIdAccepts(sha, hostId, fingerprint, executions[..|executions| - 1]);
    }
  }

  // Whatever a validated set of stores loads, the inventory accepts, for any
  // live listings, as soon as the retention runs belong to the host.
  lemma LoadedIsAccepted(
    sha: Sha256, s: Stores, o: Orders, hostId: string, fingerprint: string, retention: Outcome<RetentionEvidence>,
    pending: Pending, local: Outcome<seq<Manifest>>, remote: Outcome<seq<RemoteRecord>>
  )
    requires Lists(s, o) && Validated(sha, s)
    requires Loaded(s, o, hostId, fingerprint, retention, pending).Ok?
    requires RetentionAcceptable(hostId, fingerprint, retention.value)
    ensures Join(sha, hostId, fingerprint, local, remote,
                 Loaded(s, o, hostId, fingerprint, retention, pending).value).Ok?
  {
    var e := Loaded(s, o, hostId, fingerprint, retention, pending).value;
    LoadedIsNewest(s, o, hostId, fingerprint, retention, pending);
    LoadedViews(sha, s, hostId, fingerprint, e.views);
    var views := ViewsById(sha, hostId, fingerprint, e.views).value;
    LoadedReconciliations(sha, s, hostId, fingerprint, e.views, e.reconciliations, views);
    LoadedExecutions(sha, s, o, hostId, fingerprint);
  }

  lemma LoadedViews(sha: Sha256, s: Stores, hostId: string, fingerprint: string, views: seq<DeletionView>)
    requires Validated(sha, s) && NewestViews(s, hostId, fingerprint, views)
    ensures var r := ViewsById(sha, hostId, fingerprint, views);
            && r.Ok?
            && (forall v | v in views :: v.result.backupId in r.value && r.value[v.result.backupId] == v)
  {
    forall v | v in views ensures AcceptableView(sha, hostId, fingerprint, v) {
      assert OnHost(s.deletions, DeletionStamp, hostId, v.result);
    }
    ViewsByIdAccepts(sha, hostId, fingerprint, views);
  }

  lemma LoadedReconciliations(
    sha: Sha256, s: Stores, hostId: string, fingerprint: string, views: seq<DeletionView>,
    shown: seq<ReconciliationResult>, byId: map<string, DeletionView>
  )
    requires Validated(sha, s) && NewestReconciliations(s, hostId, fingerprint, views, shown)
    requires forall v | v in views :: v.result.backupId in byId && byId[v.result.backupId] == v
    ensures ReconciliationsById(sha, hostId, fingerprint, byId, shown).Ok?
  {
    forall r | r in shown ensures ValidReconciliation(sha, r) && BoundToView(r, byId) {
      assert OnHost(s.reconciliations.value, ReconciliationStamp, hostId, r);
      var i :| 0 <= i < |views| && BelongsTo(r, views[i].result);
      assert views[i] in views;
    }
    ReconciliationsByIdAccepts(sha, hostId, fingerprint, byId, shown);
  }

  lemma LoadedExecutions(sha: Sha256, s: Stores, o: Orders, hostId: string, fingerprint: string)
    requires Lists(s, o) && Validated(sha, s)
    requires StoredExecutions(s, o, hostId, fingerprint).Ok?
    ensures ExecutionsById(sha, hostId, fingerprint, StoredExecutions(s, o, hostId, fingerprint).value).Ok?
  {
    var executions := StoredExecutions(s, o, hostId, fingerprint).value;
    if s.executions.Some? {
      ListHostExact(s.executions.value, o.executions, ExecutionStamp, hostId, fingerprint);
      forall x | x in executions
        ensures ValidExecution(sha, x) && x.hostId == hostId && x.hostFingerprint == fingerprint
      {
        assert OnHost(s.executions.value, ExecutionStamp, hostId, x);
        assert ExecutionStamp(x).hostId == hostId && ExecutionStamp(x).hostFingerprint == fingerprint;
      }
    }
    ExecutionsByIdAccepts(sha, hostId, fingerprint, executions);
  }

  // ---- When executions can be listed at all ----

  // Two files of the ledger holding executions of one request.
  ghost predicate RequestRepeated(ledger: Ledger, hostId: string, j: string, k: string) {
    && j in ledger && k in ledger && j != k && ledger[j].Stored? && ledger[k].Stored?
    && ledger[j].value.hostId == hostId && ledger[k].value.hostId == hostId
    && ledger[j].value.requestHash == ledger[k].value.requestHash
  }

  // Running a request again after a failure stores a second execution of it,
  // and from then on the host's executions cannot be listed: an undamaged ledger
  // is listed exactly when no request of the host was executed twice.
  lemma ExecutionsListedIff(ledger: Ledger, order: seq<string>, hostId: string, fingerprint: string)
    requires Enumerates(ledger, order) && NamedByHash(ledger)
    requires forall k | k in ledger ::
               ledger[k].Stored?
               && (ledger[k].value.hostId == hostId ==> ledger[k].value.hostFingerprint == fingerprint)
    ensures ListExecutions(ledger, order, hostId, fingerprint).Ok?
            <==> !exists j, k :: RequestRepeated(ledger, hostId, j, k)
  {
    forall k | k in ledger && ExecutionStamp(ledger[k].value).hostId == hostId
      ensures ExecutionStamp(ledger[k].value).hostFingerprint == fingerprint {}
    ScanHostSucceeds(ledger, order, ExecutionStamp, hostId, fingerprint);
    ListHostExact(ledger, order, ExecutionStamp, hostId, fingerprint);
    ListHostDistinct(ledger, order, ExecutionStamp, hostId, fingerprint);
    var executions := ListHost(ledger, order, ExecutionStamp, hostId, fingerprint).value;
    if j, k :| RequestRepeated(ledger, hostId, j, k) {
      RepeatedIsListed(ledger, hostId, j, k, executions);
    }
    if !UniqueRequests(executions) {
      ListedIsRepeated(ledger, hostId, executions);
    }
  }

  lemma RepeatedIsListed(ledger: Ledger, hostId: string, j: string, k: string, executions: seq<Execution>)
    requires NamedByHash(ledger) && RequestRepeated(ledger, hostId, j, k)
    requires forall v :: v in executions <==> OnHost(ledger, ExecutionStamp, hostId, v)
    ensures !UniqueRequests(executions)
  {
    assert OnHost(ledger, ExecutionStamp, hostId, ledger[j].value);
    assert OnHost(ledger, ExecutionStamp, hostId, ledger[k].value);
    var a :| 0 <= a < |executions| && executions[a] == ledger[j].value;
    var b :| 0 <= b < |executions| && executions[b] == ledger[k].value;
    assert a != b;
  }

  lemma ListedIsRepeated(ledger: Ledger, hostId: string, executions: seq<Execution>)
    requires Distinct(executions) && !UniqueRequests(executions)
    requires forall v | v in executions :: OnHost(ledger, ExecutionStamp, hostId, v)
    ensures exists j, k :: RequestRepeated(ledger, hostId, j, k)
  {
    var a, b :| 0 <= a < b < |executions| && executions[a].requestHash == executions[b].requestHash;
    assert OnHost(ledger, ExecutionStamp, hostId, executions[a])
           && OnHost(ledger, ExecutionStamp, hostId, executions[b]);
    var j :| j in ledger && ledger[j] == Stored(executions[a]);
    var k :| k in ledger && ledger[k] == Stored(executions[b]);
    assert RequestRepeated(ledger, hostId, j, k);
  }

  // ---- The repository ----

  class BackupEvidenceRepository {
    const deletions: DeletionResultStore
    const reconciliations: Option<ReconciliationResultStore>
    const executions: Option<ExecutionStore>

    constructor (
      deletions: DeletionResultStore, reconciliations: Option<ReconciliationResultStore>,
      executions: Option<ExecutionStore>
    )
      ensures this.deletions == deletions && this.reconciliations == reconciliations && this.executions == executions
    {
      this.deletions := deletions;
      this.reconciliations := reconciliations;
      this.executions := executions;
    }

    ghost function Contents(): Stores
      reads deletions, if reconciliations.Some? then {reconciliations.value} else {}
      reads if executions.Some? then {executions.value} else {}
    {
      Stores(deletions.files,
             if reconciliations.Some? then Some(reconciliations.value.files) else None,
             if executions.Some? then Some(executions.value.files) else None)
    }

    // The dictionary of latest results, kept in the order they were first seen.
    method PickLatest(results: seq<DeletionResult>) returns (latest: seq<DeletionResult>)
      ensures latest == Latest(results)
    {
      latest := [];
      var i := 0;
      while i < |results|
        invariant 0 <= i <= |results|
        invariant latest == Latest(results[..i])
      {
        assert results[..i + 1][..i] == results[..i];
        if !Shows(latest, results[i].backupId) {
          latest := latest + [results[i]];
        }
        i := i + 1;
      }
      assert results[..|results|] == results;
    }

    method MakeViews(latest: seq<DeletionResult>, pending: Pending) returns (views: Outcome<seq<DeletionView>>)
      ensures views == ViewsOf(latest, pending)
    {
      views := Ok([]);
      var i := 0;
      while i < |latest|
        invariant 0 <= i <= |latest|
        invariant views == ViewsOf(latest[..i], pending)
      {
        assert latest[..i + 1][..i] == latest[..i];
        views := AddView(views, latest[i], pending);
        i := i + 1;
      }
      assert latest[..|latest|] == latest;
    }

    method PickReconciliations(views: seq<DeletionView>, values: seq<ReconciliationResult>)
      returns (kept: seq<ReconciliationResult>)
      ensures kept == Current(views, values)
    {
      kept := [];
      var seen: set<string> := {};
      var i := 0;
      while i < |values|
        invariant 0 <= i <= |values|
        invariant kept == Current(views, values[..i])
        invariant forall id :: id in seen <==> Reconciled(kept, id)
      {
        assert values[..i + 1][..i] == values[..i];
        var value := values[i];
        if BelongsToView(value, views) && value.backupId !in seen {
          ReconciledExtend(kept, value);
          kept := kept + [value];
          seen := seen + {value.backupId};
        }
        i := i + 1;
      }
      assert values[..|values|] == values;
    }

    method LoadForHost(hostId: string, fingerprint: string, retention: Outcome<RetentionEvidence>, pending: Pending)
      returns (r: Outcome<BackupInventory.Evidence>, ghost o: Orders)
      ensures Lists(Contents(), o)
      ensures r == Loaded(Contents(), o, hostId, fingerprint, retention, pending)
    {
      var listed, deletionOrder := deletions.ListForHost(hostId, fingerprint);
      var values: Outcome<seq<ReconciliationResult>> := Ok([]);
      ghost var reconciliationOrder: seq<string> := [];
      if reconciliations.Some? {
        values, reconciliationOrder := ScanDirectory(reconciliations.value.files, ReconciliationStamp, hostId,
                                                     fingerprint);
      }
      var stored: Outcome<seq<Execution>> := Ok([]);
      ghost var executionOrder: seq<string> := [];
      if executions.Some? {
        stored, executionOrder := ScanDirectory(executions.value.files, ExecutionStamp, hostId, fingerprint);
        if stored.Ok? && !UniqueRequests(stored.value) {
          stored := Raised(AdapterError("evidence_retention_execution_binding_mismatch"));
        }
      }
      o := Orders(deletionOrder, reconciliationOrder, executionOrder);
      if retention.Raised? {
        return Raised(retention.error), o;
      }
      if listed.Raised? {
        return Raised(listed.error), o;
      }
      var latest := PickLatest(listed.value);
      var views := MakeViews(latest, pending);
      if views.Raised? {
        return Raised(views.error), o;
      }
      var sorted := Sort(views.value, ViewBefore);
      if values.Raised? {
        return Raised(values.error), o;
      }
      var kept := PickReconciliations(sorted, values.value);
      assert CurrentReconciliations(Contents(), o, hostId, fingerprint, sorted) == Ok(kept);
      if stored.Raised? {
        return Raised(stored.error), o;
      }
      r := Ok(BackupInventory.Evidence(retention.value, sorted, kept, stored.value));
    }
  }

  lemma ReconciledExtend(kept: seq<ReconciliationResult>, value: ReconciliationResult)
    ensures forall id :: Reconciled(kept + [value], id) <==> Reconciled(kept, id) || id == value.backupId
  {
    forall id | Reconciled(kept, id) ensures Reconciled(kept + [value], id) {
      var i :| 0 <= i < |kept| && kept[i].backupId == id;
      assert (kept + [value])[i] == kept[i];
    }
    assert (kept + [value])[|kept|] == value;
  }
}
