// The store object itself: its fields and the methods that update them.

module BackupLocalStore {
  import opened Foundations
  import opened Sorting
  import opened Records
  import opened EvidenceStores
  import opened BackupStore
  import opened BackupCatalog
  import opened BackupPrune

  class LocalBackupStore {
    const env: Environment
    var targets: Targets          // the files outside the store
    var disk: Disk
    var hostFolders: set<string>
    var cache: Cache              // `_manifests`

    constructor (env: Environment, targets: Targets, disk: Disk, hostFolders: set<string>)
      requires forall l | l in disk && l.Inside? :: l.component in hostFolders
      ensures this.env == env && this.targets == targets && State() == Store(disk, hostFolders, map[])
      ensures Rooted(env, State())
    {
      this.env, this.targets, this.disk, this.hostFolders, this.cache := env, targets, disk, hostFolders, map[];
    }

    ghost function State(): Store
      reads this
    {
      Store(disk, hostFolders, cache)
    }

    // The capture loop of `create`.
    method CaptureTargets(texts: seq<string>) returns (r: Outcome<seq<Captured>>)
      ensures r == CaptureAll(env, targets, texts)
    {
      var captured: seq<Captured> := [];
      for i := 0 to |texts|
        invariant CaptureAll(env, targets, texts[..i]) == Ok(captured)
      {
        assert texts[..i + 1][..i] == texts[..i];
        var one := CaptureOne(env, targets, texts[i]);
        if one.Raised? {
          CaptureStaysRefused(env, targets, texts, i + 1);
          return Raised(one.error);
        }
        captured := captured + [one.value];
      }
      assert texts[..|texts|] == texts;
      r := Ok(captured);
    }

    // The write loop of `_persist_captured`.
    method WriteCaptured(r: BackupRequest, captured: seq<Captured>, halt: Halt) returns (p: WriteProgress)
      ensures p == WriteItems(env, r, captured, halt)
    {
      p := WriteProgress(map[], None);
      for i := 0 to |captured|
        invariant p == WriteItems(env, r, captured[..i], halt)
      {
        assert captured[..i + 1][..i] == captured[..i];
        if p.error.None? {
          if halt == CancelledAt(i) {
            p := p.(error := Some(OperationCancelled));
          } else {
            p := WriteItem(env, r, i, captured[i], p.items, halt);
          }
        }
      }
      assert captured[..|captured|] == captured;
    }

    method Create(r: BackupRequest, halt: Halt, now: int) returns (m: Outcome<Manifest>)
      modifies this
      ensures (State(), m) == BackupStore.Create(env, old(State()), targets, r, halt, now)
      ensures targets == old(targets)
    {
      if halt.CancelledFirst? {
        return Raised(OperationCancelled);
      }
      if r.hostId != r.changeSetHost {
        return Raised(AdapterError("host_mismatch"));
      }
      if !SingleComponent(r.backupId) {
        return Raised(AdapterError("invalid_backup_id"));
      }
      var captured := CaptureTargets(TargetsOf(r.changes));
      if captured.Raised? {
        return Raised(captured.error);
      }
      m := PersistCaptured(r, captured.value, false, halt, now);
    }

    // `create_captured` passes `requirePrecondition`.
    method PersistCaptured(
      r: BackupRequest, captured: seq<Captured>, requirePrecondition: bool, halt: Halt, now: int
    ) returns (m: Outcome<Manifest>)
      modifies this
      ensures (State(), m) == Persist(env, old(State()), r, captured, requirePrecondition, halt, now)
      ensures targets == old(targets)
    {
      var location := LocationOf(env, r.hostId, r.backupId);
      if halt.CancelledFirst? {
        return Raised(OperationCancelled);
      }
      if r.hostId != r.changeSetHost {
        return Raised(AdapterError("host_mismatch"));
      }
      if !SingleComponent(r.backupId) {
        return Raised(AdapterError("invalid_backup_id"));
      }
      if !AllPersistable(env, r, captured, requirePrecondition) {
        return Raised(AdapterError("captured_backup_mismatch"));
      }
      if !CanMake(disk, location) {
        return Raised(OsError);
      }
      if halt.FolderHalt? {
        MakeHalf(env.component(r.hostId), location, halt.made);
        return Raised(OsError);
      }
      m := WriteBackup(r, captured, halt, now);
    }

    // The items folder, the items and the manifest.
    method WriteBackup(r: BackupRequest, captured: seq<Captured>, halt: Halt, now: int) returns (m: Outcome<Manifest>)
      modifies this`disk, this`hostFolders, this`cache
      ensures (State(), m) == FillBackup(env, old(State()), r, captured, halt, now)
    {
      var location := LocationOf(env, r.hostId, r.backupId);
      hostFolders := hostFolders + {env.component(r.hostId)};
      var entry := Ground(disk, location);
      entry := entry.(items := Items(map[], false));
      disk := disk[location := entry];
      var written := WriteCaptured(r, captured, halt);
      entry := entry.(items := Items(written.items, false));
      disk := disk[location := entry];
      assert disk == old(disk)[location := entry];
      if written.error.Some? || halt == ManifestHalt(false) {
        return Raised(written.error.GetOr(OsError));
      }
      var manifest := NewManifest(env, r, captured, now);
      entry := entry.(manifest := Some(Stored(manifest)));
      disk := disk[location := entry];
      assert disk == old(disk)[location := entry];
      if halt == ManifestHalt(true) {
        return Raised(OsError);
      }
      cache := cache[(manifest.hostId, manifest.backupId) := manifest];
      m := Ok(manifest);
    }

    // `item_dir.mkdir(parents=True)` and the modes after it, when one raises.
    method MakeHalf(component: string, location: Location, made: Made)
      modifies this`disk, this`hostFolders
      ensures State() == HalfMade(old(State()), component, location, made)
    {
      if made.NothingMade? {
        return;
      }
      hostFolders := hostFolders + {component};
      var entry := Ground(disk, location);
      match made {
        case BackupMade => disk := disk[location := entry];
        case ItemsMade => disk := disk[location := entry.(items := Items(map[], false))];
        case _ =>
      }
    }

    method Verify(m: Manifest) returns (checks: seq<Check>)
      ensures checks == Verification(env, disk, m)
    {
      checks := [ManifestCheck(ManifestPasses(env, disk, m))];
      if m.storageLocation.Outside? {
        return checks + [LocationCheck(false)];
      }
      for i := 0 to |m.items|
        invariant checks == [ManifestCheck(ManifestPasses(env, disk, m))] + ItemChecks(env, disk, m)[..i]
      {
        checks := checks + [ItemCheck(i, ItemPasses(env, disk, m, m.items[i]))];
      }
    }

    // Restores nothing unless every check passes; then last item first.
    method Restore(m: Manifest, ticks: RestoreSchedule) returns (verified: bool, p: RestoreProgress)
      modifies this`targets
      ensures verified <==> AllPassed(Verification(env, disk, m))
      ensures !verified ==> targets == old(targets)
      ensures verified ==> p == RestoreDown(env, disk, m, old(targets), ticks, 0) && targets == p.targets
    {
      var checks := Verify(m);
      verified := AllPassed(checks);
      p := RestoreProgress(targets, map[], false);
      if !verified {
        return;
      }
      var n: nat := |m.items|;
      while n > 0 && !p.cancelled
        invariant n <= |m.items| && targets == p.targets
        invariant p == RestoreDown(env, disk, m, old(targets), ticks, n)
        invariant p.cancelled ==> RestoreDown(env, disk, m, old(targets), ticks, 0) == p
        decreases n, !p.cancelled
      {
        if ticks(n - 1).cancelled {
          p := p.(cancelled := true);
          n := n - 1;
          CancelledStays(env, disk, m, old(targets), ticks, n, 0);
        } else {
          var (after, passed) := RestoreItem(env, disk, m, m.items[n - 1], targets, ticks(n - 1).fault);
          targets := after;
          p := RestoreProgress(after, p.passed[n - 1 := passed], false);
          n := n - 1;
        }
      }
    }

    // `_load_host_manifests`
    method LoadHost(hostId: string)
      modifies this`cache
      ensures State() == Load(env, old(State()), hostId)
    {
      if env.component(hostId) !in hostFolders {
        return;
      }
      var pending := disk.Keys;
      var loaded: Cache := map[];
      while pending != {}
        invariant pending <= disk.Keys
        invariant forall k :: k in loaded <==>
                    k.0 == hostId && Loadable(env, disk, hostId, Inside(env.component(hostId), k.1))
                    && Inside(env.component(hostId), k.1) !in pending
        invariant forall k | k in loaded ::
                    loaded[k] == ManifestAt(env, disk, hostId, Inside(env.component(hostId), k.1))
      {
        var location :| location in pending;
        pending := pending - {location};
        if Loadable(env, disk, hostId, location) {
          loaded := loaded[(hostId, location.name) := ManifestAt(env, disk, hostId, location)];
        }
      }
      forall k ensures k in loaded <==> k in Loaded(env, disk, hostId) {
        var l := Inside(env.component(hostId), k.1);
        if k in loaded {
          assert Loadable(env, disk, hostId, l) && l in disk;
          assert (hostId, l.name) in Loaded(env, disk, hostId);
        }
      }
      assert loaded == Loaded(env, disk, hostId);
      cache := OtherHosts(cache, hostId) + loaded;
    }

    // The cached manifests of a host, in no particular order.
    method CachedFor(hostId: string) returns (found: seq<Manifest>, ghost ids: seq<(string, string)>)
      ensures OnceEach(cache, hostId, ids, found)
    {
      var pending := cache.Keys;
      found, ids := [], [];
      while pending != {}
        invariant pending <= cache.Keys
        invariant |ids| == |found| && Distinct(ids)
        invariant forall i | 0 <= i < |ids| ::
                    ids[i] in cache && ids[i] !in pending && ids[i].0 == hostId && cache[ids[i]] == found[i]
        invariant forall k | k in cache && k !in pending && k.0 == hostId :: k in ids
      {
        var key :| key in pending;
        pending := pending - {key};
        if key.0 == hostId {
          found := found + [cache[key]];
          ids := ids + [key];
        }
      }
    }

    // The host's cached manifests, newest first.
    method ListManifests(hostId: string) returns (list: seq<Manifest>)
      modifies this`cache
      ensures State() == Load(env, old(State()), hostId)
      ensures Rooted(env, old(State())) ==> Listing(State(), hostId, list)
    {
      LoadHost(hostId);
      var found;
      ghost var ids;
      found, ids := CachedFor(hostId);
      list := Sort(found, NewerManifest());
      if Rooted(env, old(State())) {
        LoadIsExact(env, old(State()), hostId);
        assert OwnIds(cache, hostId) by {
          forall id | (hostId, id) in cache ensures cache[(hostId, id)].backupId == id {
            assert ValidEntry(env, disk, hostId, id, cache[(hostId, id)]);
          }
        }
        ListedOnce(State(), hostId, ids, found);
      }
    }

    method SetProtected(hostId: string, backupId: string, protected: bool, write: Fault) returns (m: Outcome<Manifest>)
      modifies this`disk, this`cache
      ensures (State(), m) == BackupCatalog.SetProtected(env, old(State()), hostId, backupId, protected, write)
    {
      LoadHost(hostId);
      var key := (hostId, backupId);
      if key !in cache {
        return Raised(AdapterError("backup_not_found"));
      }
      var updated := Labelled(env, cache[key], protected);
      if write == Refused || updated.storageLocation !in disk || !disk[updated.storageLocation].Backup? {
        return Raised(OsError);
      }
      disk := disk[updated.storageLocation := disk[updated.storageLocation].(manifest := Some(Stored(updated)))];
      if write == Torn {
        return Raised(OsError);
      }
      cache := cache[key := updated];
      m := Ok(updated);
    }

    method Delete(m: Manifest, cancelled: bool, fault: TreeFault) returns (error: Option<Error>)
      modifies this`disk, this`cache
      ensures (State(), error) == BackupCatalog.Delete(env, old(State()), m, cancelled, fault)
    {
      if cancelled {
        return Some(OperationCancelled);
      }
      if m.protected {
        return Some(AdapterError("protected_backup"));
      }
      if m.storageLocation !in disk {
        return Some(AdapterError("backup_not_found"));
      }
      var checks := Verify(m);
      if !AllPassed(checks) {
        return Some(AdapterError("invalid_backup"));
      }
      error := Discard(m, fault);
    }

    // Remove the tree, and forget the manifest once that is done.
    method Discard(m: Manifest, fault: TreeFault) returns (error: Option<Error>)
      modifies this`disk, this`cache
      ensures (State(), error) == Remove(old(State()), m, fault)
    {
      var (rest, raised) := RemoveTree(disk, m.storageLocation, fault);
      disk := rest;
      if raised.None? {
        cache := cache - {(m.hostId, m.backupId)};
      }
      error := raised;
    }

    method Prune(hostId: string, now: int, keep: nat, faults: TreeFaults)
      returns (removed: seq<string>, error: Option<Error>, ghost list: seq<Manifest>)
      modifies this`disk, this`cache
      ensures Rooted(env, old(State())) ==> Listing(Load(env, old(State()), hostId), hostId, list)
      ensures PruneProgress(State(), removed, error)
              == PruneDown(Load(env, old(State()), hostId), list, keep, now, faults, 0)
    {
      var manifests := ListManifests(hostId);
      list := manifests;
      removed, error := RemoveOldest(manifests, now, keep, faults);
    }

    // The loop of `prune`, from the oldest backup up.
    method RemoveOldest(manifests: seq<Manifest>, now: int, keep: nat, faults: TreeFaults)
      returns (removed: seq<string>, error: Option<Error>)
      modifies this`disk, this`cache
      ensures PruneProgress(State(), removed, error) == PruneDown(old(State()), manifests, keep, now, faults, 0)
    {
      removed, error := [], None;
      var n: nat := |manifests|;
      while n > 0 && error.None?
        invariant n <= |manifests|
        invariant error.None? ==>
                    PruneProgress(State(), removed, None) == PruneDown(old(State()), manifests, keep, now, faults, n)
        invariant error.Some? ==>
                    PruneProgress(State(), removed, error) == PruneDown(old(State()), manifests, keep, now, faults, 0)
        decreases n, error.None?
      {
        n := n - 1;
        if Removable(manifests, n, keep, now) && |manifests| - |removed| > 1 {
          error := Discard(manifests[n], faults(n));
          if error.None? {
            removed := removed + [manifests[n].backupId];
          } else {
            PruneStops(old(State()), manifests, keep, now, faults, n, 0);
          }
        }
      }
    }

    // `list_manifests_strict`: nothing is cached.
    method ListManifestsStrict(hostId: string) returns (r: Outcome<seq<Manifest>>, ghost order: seq<Location>)
      ensures HostOrder(env, disk, hostId, order)
      ensures r == StrictList(env, State(), hostId, order)
    {
      var found;
      found, order := ScanStrictly(hostId);
      if env.component(hostId) !in hostFolders {
        return Ok([]), order;
      }
      if found.Raised? {
        return found, order;
      }
      if !DistinctIds(found.value) {
        return Raised(AdapterError("invalid_backup_store")), order;
      }
      r := Ok(Sort(found.value, NewerManifest()));
    }

    // Its loop over the entries of the host's directory.
    method ScanStrictly(hostId: string) returns (found: Outcome<seq<Manifest>>, ghost order: seq<Location>)
      ensures HostOrder(env, disk, hostId, order)
      ensures found == StrictScan(env, disk, hostId, order)
    {
      var pending := set l | l in disk && l.Inside? && l.component == env.component(hostId);
      ghost var entries := pending;
      order := [];
      found := Ok([]);
      while pending != {}
        invariant Distinct(order) && Elements(order) !! pending && Elements(order) + pending == entries
        invariant found == StrictScan(env, disk, hostId, order)
      {
        var l :| l in pending;
        pending := pending - {l};
        VisitOne(order, pending, l);
        StrictScanNext(env, disk, hostId, order, l);
        order := order + [l];
        found := AddStrictly(env, disk, hostId, found, l);
      }
      assert forall l :: l in order <==> l in Elements(order);
    }
  }

  lemma VisitOne(order: seq<Location>, pending: set<Location>, l: Location)
    requires Distinct(order) && Elements(order) !! pending + {l}
    ensures Distinct(order + [l]) && Elements(order + [l]) == Elements(order) + {l}
  {
    assert l !in Elements(order);
  }

  lemma StrictScanNext(env: Environment, disk: Disk, hostId: string, order: seq<Location>, l: Location)
    ensures StrictScan(env, disk, hostId, order + [l])
         == AddStrictly(env, disk, hostId, StrictScan(env, disk, hostId, order), l)
  {
    assert (order + [l])[..|order|] == order;
  }

  lemma {:induction false} CaptureStaysRefused(env: Environment, targets: Targets, texts: seq<string>, i: nat)
    requires i <= |texts| && CaptureAll(env, targets, texts[..i]).Raised?
    ensures CaptureAll(env, targets, texts) == CaptureAll(env, targets, texts[..i])
  {
    if i < |texts| {
      var init := texts[..|texts| - 1];
      assert init[..i] == texts[..i];
      CaptureStaysRefused(env, targets, init, i);
    } else {
      assert texts[..i] == texts;
    }
  }

  lemma {:induction false} CancelledStays(
    env: Environment, disk: Disk, m: Manifest, targets: Targets, ticks: RestoreSchedule, n: nat, k: nat
  )
    requires k <= n <= |m.items| && RestoreDown(env, disk, m, targets, ticks, n).cancelled
    ensures RestoreDown(env, disk, m, targets, ticks, k) == RestoreDown(env, disk, m, targets, ticks, n)
    decreases n - k
  {
    if k < n {
      CancelledStays(env, disk, m, targets, ticks, n, k + 1);
    }
  }

  lemma {:induction false} PruneStops(
    s: Store, list: seq<Manifest>, keep: nat, now: int, faults: TreeFaults, n: nat, k: nat
  )
    requires k <= n <= |list| && PruneDown(s, list, keep, now, faults, n).error.Some?
    ensures PruneDown(s, list, keep, now, faults, k) == PruneDown(s, list, keep, now, faults, n)
    decreases n - k
  {
    if k < n {
      PruneStops(s, list, keep, now, faults, n, k + 1);
    }
  }

  // `found` holds each cached manifest of the host once, under `ids`.
  ghost predicate OnceEach(cache: Cache, hostId: string, ids: seq<(string, string)>, found: seq<Manifest>) {
    && |ids| == |found| && Distinct(ids)
    && (forall i | 0 <= i < |ids| :: ids[i] in cache && ids[i].0 == hostId && cache[ids[i]] == found[i])
    && (forall k | k in cache && k.0 == hostId :: k in ids)
  }

  lemma FoundExactly(cache: Cache, hostId: string, ids: seq<(string, string)>, found: seq<Manifest>, m: Manifest)
    requires OnceEach(cache, hostId, ids, found)
    ensures m in found <==> exists id :: (hostId, id) in cache && cache[(hostId, id)] == m
  {
    if m in found {
      var i :| 0 <= i < |found| && found[i] == m;
      assert (hostId, ids[i].1) == ids[i];
    }
    if id :| (hostId, id) in cache && cache[(hostId, id)] == m {
      assert (hostId, id) in ids;
      var i :| 0 <= i < |ids| && ids[i] == (hostId, id);
      assert found[i] == m;
    }
  }

  // The host's entries are cached under their own ids.
  ghost predicate OwnIds(cache: Cache, hostId: string) {
    forall id | (hostId, id) in cache :: cache[(hostId, id)].backupId == id
  }

  lemma FoundDistinct(cache: Cache, hostId: string, ids: seq<(string, string)>, found: seq<Manifest>)
    requires OwnIds(cache, hostId) && OnceEach(cache, hostId, ids, found)
    ensures forall i, j | 0 <= i < j < |found| :: found[i].backupId != found[j].backupId
  {
    forall i, j | 0 <= i < j < |found| ensures found[i].backupId != found[j].backupId {
      assert ids[i] != ids[j];
      assert ids[i] == (hostId, ids[i].1) && ids[j] == (hostId, ids[j].1);
    }
  }

  // Sorting the cached manifests of a host gives a listing of them.
  lemma ListedOnce(s: Store, hostId: string, ids: seq<(string, string)>, found: seq<Manifest>)
    requires OwnIds(s.cache, hostId) && OnceEach(s.cache, hostId, ids, found)
    ensures Listing(s, hostId, Sort(found, NewerManifest()))
  {
    var list := Sort(found, NewerManifest());
    FoundDistinct(s.cache, hostId, ids, found);
    SameBag(list, found);
    forall m ensures m in list <==> exists id :: (hostId, id) in s.cache && s.cache[(hostId, id)] == m {
      FoundExactly(s.cache, hostId, ids, found, m);
    }
    SortedOnce(found);
  }
}
