// The manifest cache of the local store beside the directory it mirrors.

module BackupCatalog {
  import opened Foundations
  import opened Machines
  import opened Sorting
  import opened Records
  import opened EvidenceStores
  import opened BackupStore

  // The manifest that `_read_manifest` accepts for one backup directory.
  predicate ValidEntry(env: Environment, disk: Disk, hostId: string, name: string, m: Manifest) {
    var location := Inside(env.component(hostId), name);
    && location in disk
    && disk[location].Backup?
    && disk[location].manifest == Some(Stored(m))
    && m.hostId == hostId
    && m.backupId == name
    && m.storageLocation == location
  }

  predicate Loadable(env: Environment, disk: Disk, hostId: string, location: Location) {
    && location in disk
    && location.Inside? && location.component == env.component(hostId)
    && disk[location].Backup?
    && disk[location].manifest.Some? && disk[location].manifest.value.Stored?
    && ValidEntry(env, disk, hostId, location.name, disk[location].manifest.value.value)
  }

  function ManifestAt(env: Environment, disk: Disk, hostId: string, location: Location): Manifest
    requires Loadable(env, disk, hostId, location)
  {
    disk[location].manifest.value.value
  }

  // `loaded` of `_load_host_manifests`
  function Loaded(env: Environment, disk: Disk, hostId: string): Cache {
    map location | location in disk && Loadable(env, disk, hostId, location)
      :: (hostId, location.name) := ManifestAt(env, disk, hostId, location)
  }

  function OtherHosts(cache: Cache, hostId: string): Cache {
    map k | k in cache && k.0 != hostId :: cache[k]
  }

  // `_load_host_manifests`: nothing happens while the host has no directory.
  function Load(env: Environment, s: Store, hostId: string): Store {
    if env.component(hostId) !in s.hostFolders then s
    else s.(cache := OtherHosts(s.cache, hostId) + Loaded(env, s.disk, hostId))
  }

  function SetProtected(
    env: Environment, s: Store, hostId: string, backupId: string, protected: bool, write: Fault
  ): (Store, Outcome<Manifest>)
  {
    Relabel(env, Load(env, s, hostId), (hostId, backupId), protected, write)
  }

  function Labelled(env: Environment, m: Manifest, protected: bool): Manifest {
    var blank := m.(protected := protected, manifestHash := "");
    blank.(manifestHash := HashManifest(env.sha, blank))
  }

  // The cache follows only once the manifest is safely on disk.
  function Relabel(
    env: Environment, loaded: Store, key: (string, string), protected: bool, write: Fault
  ): (Store, Outcome<Manifest>)
  {
    if key !in loaded.cache then (loaded, Raised(AdapterError("backup_not_found")))
    else
      var updated := Labelled(env, loaded.cache[key], protected);
      if write == Refused || updated.storageLocation !in loaded.disk || !loaded.disk[updated.storageLocation].Backup?
      then (loaded, Raised(OsError))
      else
        var entry := loaded.disk[updated.storageLocation].(manifest := Some(Stored(updated)));
        var rewritten := loaded.(disk := loaded.disk[updated.storageLocation := entry]);
        if write == Torn then (rewritten, Raised(OsError))
        else (rewritten.(cache := loaded.cache[key := updated]), Ok(updated))
  }

  // How removing a backup's tree goes: wholly, not at all, or stopped after some
  // of the item files, after the items folder, after the manifest, or after all
  // of it, with the last fsync raising.
  datatype TreeFault =
    | TreeGone
    | TreeRefused
    | TreePartly(kept: set<ItemRef>)
    | TreeItemless
    | TreeEmptied
    | TreeTorn

  // The manifest on disk goes although the removal is reported as failed.
  predicate Damages(fault: TreeFault) {
    fault.TreeEmptied? || fault.TreeTorn?
  }

  // Something among the items keeps the folder from being emptied.
  predicate Foreign(items: ItemFolder) {
    items.Items? && items.foreign
  }

  // The folder once all item files but `kept` are gone.
  function Thinned(items: ItemFolder, kept: set<ItemRef>): ItemFolder {
    match items
    case NoItems => NoItems
    case Items(files, foreign) => Items(files - (files.Keys - kept), foreign)
  }

  // `_remove_backup_tree`: entries beside the items and the manifest are seen
  // before anything is removed, foreign ones among the items on the way.
  function RemoveTree(disk: Disk, location: Location, fault: TreeFault): (Disk, Option<Error>) {
    if location !in disk || !disk[location].Backup? || disk[location].unexpected
    then (disk, Some(AdapterError("invalid_backup")))
    else
      var entry := disk[location];
      var error := Some(if Foreign(entry.items) then AdapterError("invalid_backup") else OsError);
      match fault
      case TreeRefused => (disk, Some(OsError))
      case TreePartly(kept) => (disk[location := entry.(items := Thinned(entry.items, kept))], error)
      case _ => if Foreign(entry.items) then (disk, error) else RemoveWhole(disk, location, entry, fault)
  }

  function RemoveWhole(disk: Disk, location: Location, entry: Entry, fault: TreeFault): (Disk, Option<Error>)
    requires entry.Backup?
  {
    match fault
    case TreeGone => (disk - {location}, None)
    case TreeItemless => (disk[location := entry.(items := NoItems)], Some(OsError))
    case TreeEmptied => (disk[location := Backup(NoItems, None, false)], Some(OsError))
    case TreeTorn => (disk - {location}, Some(OsError))
    case _ => (disk, Some(OsError))
  }

  // Removing the tree, then forgetting the manifest.
  function Remove(s: Store, m: Manifest, fault: TreeFault): (Store, Option<Error>) {
    var (disk, error) := RemoveTree(s.disk, m.storageLocation, fault);
    (Store(disk, s.hostFolders, if error.None? then s.cache - {(m.hostId, m.backupId)} else s.cache), error)
  }

  function Delete(env: Environment, s: Store, m: Manifest, cancelled: bool, fault: TreeFault): (Store, Option<Error>) {
    if cancelled then (s, Some(OperationCancelled))
    else if m.protected then (s, Some(AdapterError("protected_backup")))
    else if m.storageLocation !in s.disk then (s, Some(AdapterError("backup_not_found")))
    else if !AllPassed(Verification(env, s.disk, m)) then (s, Some(AdapterError("invalid_backup")))
    else Remove(s, m, fault)
  }

  // ---- Pruning ----

  predicate Removable(list: seq<Manifest>, i: nat, keep: nat, now: int)
    requires i < |list|
  {
    && !list[i].protected
    && |list| > 1
    && (i >= keep || (list[i].retentionExpiresAt.Some? && list[i].retentionExpiresAt.value <= now))
  }

  // The loop of `prune` after the listed backups `n`, `n + 1`, ... have been
  // considered, oldest first: the ids removed so far, and what stopped it.
  datatype PruneProgress = PruneProgress(store: Store, removed: seq<string>, error: Option<Error>)

  type TreeFaults = nat -> TreeFault

  function PruneDown(
    s: Store, list: seq<Manifest>, keep: nat, now: int, faults: TreeFaults, n: nat
  ): PruneProgress
    requires n <= |list|
    decreases |list| - n
  {
    if n == |list| then PruneProgress(s, [], None)
    else
      var p := PruneDown(s, list, keep, now, faults, n + 1);
      if p.error.Some? || !Removable(list, n, keep, now) || |list| - |p.removed| <= 1 then p
      else
        var (after, error) := Remove(p.store, list[n], faults(n));
        PruneProgress(after, if error.None? then p.removed + [list[n].backupId] else p.removed, error)
  }

  // ---- The cache tells the truth ----

  // Every backup directory lies in a host directory, and nothing is cached for a
  // host without one.
  ghost predicate Rooted(env: Environment, s: Store) {
    && (forall l | l in s.disk && l.Inside? :: l.component in s.hostFolders)
    && (forall k | k in s.cache :: env.component(k.0) in s.hostFolders)
  }

  // Every cached manifest is the one on disk, except for the stale ones.
  ghost predicate TrueExcept(env: Environment, s: Store, stale: set<(string, string)>) {
    forall k | k in s.cache && k !in stale :: ValidEntry(env, s.disk, k.0, k.1, s.cache[k])
  }

  lemma LoadFinds(env: Environment, s: Store, hostId: string, name: string, m: Manifest)
    requires Rooted(env, s)
    ensures var after := Load(env, s, hostId);
            ValidEntry(env, s.disk, hostId, name, m)
            <==> (hostId, name) in after.cache && after.cache[(hostId, name)] == m
  {
    if ValidEntry(env, s.disk, hostId, name, m) {
      assert Loadable(env, s.disk, hostId, Inside(env.component(hostId), name));
      assert (hostId, name) in Loaded(env, s.disk, hostId);
    }
  }

  // Loading a host makes its cache exact, however stale it was: exactly the valid
  // backups on disk. Other hosts and the disk stay as they were.
  lemma LoadIsExact(env: Environment, s: Store, hostId: string)
    requires Rooted(env, s)
    ensures var after := Load(env, s, hostId);
            && Rooted(env, after)
            && after.disk == s.disk && after.hostFolders == s.hostFolders
            && (forall k: (string, string) | k.0 != hostId :: (k in after.cache <==> k in s.cache)
                                            && (k in s.cache ==> after.cache[k] == s.cache[k]))
            && (forall name, m :: ValidEntry(env, s.disk, hostId, name, m)
                                  <==> (hostId, name) in after.cache && after.cache[(hostId, name)] == m)
  {
    var after := Load(env, s, hostId);
    forall name, m ensures ValidEntry(env, s.disk, hostId, name, m)
                           <==> (hostId, name) in after.cache && after.cache[(hostId, name)] == m
    {
      LoadFinds(env, s, hostId, name, m);
    }
  }

  function Others(keys: set<(string, string)>, hostId: string): set<(string, string)> {
    set k | k in keys && k.0 != hostId
  }

  lemma LoadHeals(env: Environment, s: Store, hostId: string, stale: set<(string, string)>)
    requires Rooted(env, s) && TrueExcept(env, s, stale)
    ensures TrueExcept(env, Load(env, s, hostId), Others(stale, hostId))
  {
    LoadIsExact(env, s, hostId);
    var after := Load(env, s, hostId);
    forall k | k in after.cache && k !in Others(stale, hostId)
      ensures ValidEntry(env, after.disk, k.0, k.1, after.cache[k])
    {
      if k.0 == hostId {
        assert ValidEntry(env, s.disk, hostId, k.1, after.cache[k]);
      }
    }
  }

  // Changing one backup directory leaves the entries of the others valid.
  lemma OtherEntriesStay(
    env: Environment, before: Disk, after: Disk, location: Location, hostId: string, name: string, m: Manifest
  )
    requires ValidEntry(env, before, hostId, name, m) && m.storageLocation != location
    requires forall l | l != location :: (l in after <==> l in before) && (l in before ==> after[l] == before[l])
    ensures ValidEntry(env, after, hostId, name, m)
  {
  }

  // The create gets as far as writing its manifest.
  predicate WritesManifest(
    env: Environment, s: Store, r: BackupRequest, captured: seq<Captured>, requirePrecondition: bool, halt: Halt
  )
  {
    && !halt.CancelledFirst? && r.hostId == r.changeSetHost && SingleComponent(r.backupId)
    && AllPersistable(env, r, captured, requirePrecondition)
    && CanMake(s.disk, LocationOf(env, r.hostId, r.backupId)) && !halt.FolderHalt?
    && WriteItems(env, r, captured, halt).error.None? && halt != ManifestHalt(false)
  }

  // The cached backups kept in the directory that a create uses: its own, and
  // those of hosts whose directory names collide.
  ghost function Housed(env: Environment, s: Store, r: BackupRequest): set<(string, string)> {
    set k | k in s.cache && LocationOf(env, k.0, k.1) == LocationOf(env, r.hostId, r.backupId)
  }

  // Those whose manifest a create replaces without their entry following.
  ghost function Overwritten(
    env: Environment, s: Store, r: BackupRequest, captured: seq<Captured>, requirePrecondition: bool, halt: Halt
  ): set<(string, string)>
  {
    if !WritesManifest(env, s, r, captured, requirePrecondition, halt) then {}
    else if halt == ManifestHalt(true) then Housed(env, s, r)
    else Housed(env, s, r) - {(r.hostId, r.backupId)}
  }

  // Exactly when a create leaves a true entry stale: it replaces the manifest in
  // a directory that had lost its items folder, and the write then raises, or the
  // entry is another host's.
  lemma CreateLeavesStaleIff(
    env: Environment, s: Store, r: BackupRequest, captured: seq<Captured>, requirePrecondition: bool, halt: Halt,
    created: int, k: (string, string)
  )
    requires k in s.cache && ValidEntry(env, s.disk, k.0, k.1, s.cache[k])
    ensures var after := Persist(env, s, r, captured, requirePrecondition, halt, created).0;
            && k in after.cache
            && (!ValidEntry(env, after.disk, k.0, k.1, after.cache[k])
                <==> && k in Overwritten(env, s, r, captured, requirePrecondition, halt)
                     && NewManifest(env, r, captured, created) != s.cache[k])
  {
    if WritesManifest(env, s, r, captured, requirePrecondition, halt) {
      FilledEntry(env, s, r, captured, halt, created, k);
    } else {
      UnwrittenEntry(env, s, r, captured, requirePrecondition, halt, created, k);
    }
  }

  lemma FilledEntry(
    env: Environment, s: Store, r: BackupRequest, captured: seq<Captured>, halt: Halt, created: int, k: (string, string)
  )
    requires k in s.cache && ValidEntry(env, s.disk, k.0, k.1, s.cache[k])
    requires WriteItems(env, r, captured, halt).error.None? && halt != ManifestHalt(false)
    ensures var after := FillBackup(env, s, r, captured, halt, created).0;
            && k in after.cache
            && (!ValidEntry(env, after.disk, k.0, k.1, after.cache[k])
                <==> && LocationOf(env, k.0, k.1) == LocationOf(env, r.hostId, r.backupId)
                     && (k == (r.hostId, r.backupId) ==> halt == ManifestHalt(true))
                     && NewManifest(env, r, captured, created) != s.cache[k])
  {
  }

  lemma UnwrittenEntry(
    env: Environment, s: Store, r: BackupRequest, captured: seq<Captured>, requirePrecondition: bool, halt: Halt,
    created: int, k: (string, string)
  )
    requires k in s.cache && ValidEntry(env, s.disk, k.0, k.1, s.cache[k])
    requires !WritesManifest(env, s, r, captured, requirePrecondition, halt)
    ensures var after := Persist(env, s, r, captured, requirePrecondition, halt, created).0;
            && after.cache == s.cache
            && ValidEntry(env, after.disk, k.0, k.1, s.cache[k])
  {
  }

  // Only its own entry can be new.
  lemma PersistStaysRooted(
    env: Environment, s: Store, r: BackupRequest, captured: seq<Captured>, requirePrecondition: bool, halt: Halt,
    created: int
  )
    requires Rooted(env, s)
    ensures var after := Persist(env, s, r, captured, requirePrecondition, halt, created).0;
            && Rooted(env, after)
            && forall k | k in after.cache && k !in s.cache :: ValidEntry(env, after.disk, k.0, k.1, after.cache[k])
  {
    var (after, outcome) := Persist(env, s, r, captured, requirePrecondition, halt, created);
    if after != s {
      if halt.FolderHalt? {
        HalfStaysRooted(env, s, r, halt.made);
      } else {
        FillStaysRooted(env, s, r, captured, halt, created);
      }
    }
  }

  lemma HalfStaysRooted(env: Environment, s: Store, r: BackupRequest, made: Made)
    requires Rooted(env, s)
    ensures Rooted(env, HalfMade(s, env.component(r.hostId), LocationOf(env, r.hostId, r.backupId), made))
  {
  }

  lemma FillStaysRooted(
    env: Environment, s: Store, r: BackupRequest, captured: seq<Captured>, halt: Halt, created: int
  )
    requires Rooted(env, s)
    ensures var after := FillBackup(env, s, r, captured, halt, created).0;
            && Rooted(env, after)
            && forall k | k in after.cache && k !in s.cache :: ValidEntry(env, after.disk, k.0, k.1, after.cache[k])
  {
  }

  lemma PersistKeepsTruth(
    env: Environment, s: Store, r: BackupRequest, captured: seq<Captured>, requirePrecondition: bool, halt: Halt,
    created: int, stale: set<(string, string)>
  )
    requires Rooted(env, s) && TrueExcept(env, s, stale)
    ensures var after := Persist(env, s, r, captured, requirePrecondition, halt, created).0;
            && Rooted(env, after)
            && TrueExcept(env, after, stale + Overwritten(env, s, r, captured, requirePrecondition, halt))
  {
    PersistStaysRooted(env, s, r, captured, requirePrecondition, halt, created);
    var after := Persist(env, s, r, captured, requirePrecondition, halt, created).0;
    var doubtful := stale + Overwritten(env, s, r, captured, requirePrecondition, halt);
    forall k | k in after.cache && k !in doubtful ensures ValidEntry(env, after.disk, k.0, k.1, after.cache[k]) {
      if k in s.cache && k !in stale {
        CreateLeavesStaleIff(env, s, r, captured, requirePrecondition, halt, created, k);
      }
    }
  }

  // A torn rewrite leaves the old manifest in the cache: that one entry is stale.
  lemma RelabelKeepsTruth(
    env: Environment, loaded: Store, key: (string, string), protected: bool, write: Fault, stale: set<(string, string)>
  )
    requires Rooted(env, loaded) && TrueExcept(env, loaded, stale) && key !in stale
    ensures var after := Relabel(env, loaded, key, protected, write).0;
            Rooted(env, after) && TrueExcept(env, after, if write == Torn then stale + {key} else stale)
  {
    var after := Relabel(env, loaded, key, protected, write).0;
    if after.disk != loaded.disk {
      var location := loaded.cache[key].storageLocation;
      forall k | k in after.cache && k !in stale && k != key
        ensures ValidEntry(env, after.disk, k.0, k.1, after.cache[k])
      {
        if loaded.cache[k].storageLocation != location {
          OtherEntriesStay(env, loaded.disk, after.disk, location, k.0, k.1, loaded.cache[k]);
        }
      }
    }
  }

  lemma LabelChanges(env: Environment, m: Manifest, protected: bool)
    ensures Labelled(env, m, protected) == m <==> m.protected == protected && m.manifestHash == HashManifest(env.sha, m)
  {
    var blank := m.(protected := protected, manifestHash := "");
    assert blank.(manifestHash := "") == blank;
    if m.protected == protected {
      assert blank == m.(manifestHash := "");
    }
  }

  // Exactly when protecting leaves a stale entry behind: the rewrite is torn and
  // changes the manifest.
  lemma TornProtectionIsStale(
    env: Environment, s: Store, hostId: string, backupId: string, protected: bool, write: Fault
  )
    requires Rooted(env, s) && (hostId, backupId) in Load(env, s, hostId).cache
    ensures var after := SetProtected(env, s, hostId, backupId, protected, write).0;
            var m := Load(env, s, hostId).cache[(hostId, backupId)];
            && (hostId, backupId) in after.cache
            && (!ValidEntry(env, after.disk, hostId, backupId, after.cache[(hostId, backupId)])
                <==> write == Torn && (m.protected != protected || m.manifestHash != HashManifest(env.sha, m)))
  {
    var loaded := Load(env, s, hostId);
    var m := loaded.cache[(hostId, backupId)];
    LoadIsExact(env, s, hostId);
    assert ValidEntry(env, s.disk, hostId, backupId, m);
    LabelChanges(env, m, protected);
    RelabelledEntry(env, loaded, (hostId, backupId), protected, write);
  }

  lemma RelabelledEntry(env: Environment, loaded: Store, key: (string, string), protected: bool, write: Fault)
    requires key in loaded.cache && ValidEntry(env, loaded.disk, key.0, key.1, loaded.cache[key])
    ensures var after := Relabel(env, loaded, key, protected, write).0;
            && key in after.cache
            && (!ValidEntry(env, after.disk, key.0, key.1, after.cache[key])
                <==> write == Torn && Labelled(env, loaded.cache[key], protected) != loaded.cache[key])
  {
  }

  lemma RemoveKeepsTruth(env: Environment, s: Store, m: Manifest, fault: TreeFault, stale: set<(string, string)>)
    requires Rooted(env, s) && TrueExcept(env, s, stale)
    requires m.storageLocation in s.disk && s.disk[m.storageLocation].Backup? ==>
               s.disk[m.storageLocation].manifest == Some(Stored(m))
    ensures var after := Remove(s, m, fault).0;
            && Rooted(env, after)
            && TrueExcept(env, after, if Damages(fault) then stale + {(m.hostId, m.backupId)} else stale)
  {
    var (after, error) := Remove(s, m, fault);
    if after.disk != s.disk {
      forall k | k in after.cache && k !in stale && !(Damages(fault) && k == (m.hostId, m.backupId))
        ensures ValidEntry(env, after.disk, k.0, k.1, after.cache[k])
      {
        assert k in s.cache;
        if s.cache[k].storageLocation != m.storageLocation {
          OtherEntriesStay(env, s.disk, after.disk, m.storageLocation, k.0, k.1, s.cache[k]);
        }
      }
    }
  }

  // Something in the directory keeps its tree from being removed.
  predicate Obstructed(disk: Disk, l: Location) {
    l in disk && disk[l].Backup? && (disk[l].unexpected || Foreign(disk[l].items))
  }

  // Exactly when a removal leaves a stale entry behind: it fails after the
  // manifest went.
  lemma RemovalLeavesStaleIff(env: Environment, s: Store, m: Manifest, fault: TreeFault)
    requires (m.hostId, m.backupId) in s.cache && s.cache[(m.hostId, m.backupId)] == m
    requires ValidEntry(env, s.disk, m.hostId, m.backupId, m)
    ensures var after := Remove(s, m, fault).0;
            (m.hostId, m.backupId) in after.cache && !ValidEntry(env, after.disk, m.hostId, m.backupId, m)
            <==> Damages(fault) && !Obstructed(s.disk, m.storageLocation)
  {
  }

  // The same of `delete`, which first asks for an unprotected backup that
  // verifies.
  lemma DeletionLeavesStaleIff(env: Environment, s: Store, m: Manifest, cancelled: bool, fault: TreeFault)
    requires (m.hostId, m.backupId) in s.cache && s.cache[(m.hostId, m.backupId)] == m
    requires ValidEntry(env, s.disk, m.hostId, m.backupId, m)
    ensures var after := Delete(env, s, m, cancelled, fault).0;
            (m.hostId, m.backupId) in after.cache && !ValidEntry(env, after.disk, m.hostId, m.backupId, m)
            <==> && !cancelled && !m.protected && AllPassed(Verification(env, s.disk, m))
                 && Damages(fault) && !Obstructed(s.disk, m.storageLocation)
  {
    RemovalLeavesStaleIff(env, s, m, fault);
  }

  // The input: a delete that fails between the items folder and the manifest,
  // and a create of the same id whose new manifest is written and then raises.
  // Nothing else was torn, and the old manifest stays in the cache.
  lemma RecreatedBackupGoesStale(
    env: Environment, s: Store, m: Manifest, r: BackupRequest, captured: seq<Captured>, requirePrecondition: bool,
    created: int
  )
    requires (m.hostId, m.backupId) in s.cache && s.cache[(m.hostId, m.backupId)] == m
    requires ValidEntry(env, s.disk, m.hostId, m.backupId, m) && !Obstructed(s.disk, m.storageLocation)
    requires !m.protected && AllPassed(Verification(env, s.disk, m))
    requires r.hostId == m.hostId == r.changeSetHost && r.backupId == m.backupId && SingleComponent(r.backupId)
    requires AllPersistable(env, r, captured, requirePrecondition) && created != m.createdAt
    requires WriteItems(env, r, captured, ManifestHalt(true)).error.None?
    ensures var itemless := Delete(env, s, m, false, TreeItemless).0;
            var (after, outcome) := Persist(env, itemless, r, captured, requirePrecondition, ManifestHalt(true),
                                            created);
            && ValidEntry(env, itemless.disk, m.hostId, m.backupId, m)
            && outcome.Raised?
            && (m.hostId, m.backupId) in after.cache && after.cache[(m.hostId, m.backupId)] == m
            && !ValidEntry(env, after.disk, m.hostId, m.backupId, m)
  {
    var itemless := Delete(env, s, m, false, TreeItemless).0;
    CreateLeavesStaleIff(env, itemless, r, captured, requirePrecondition, ManifestHalt(true), created,
                         (m.hostId, m.backupId));
  }

  lemma DeleteKeepsTruth(
    env: Environment, s: Store, m: Manifest, cancelled: bool, fault: TreeFault, stale: set<(string, string)>
  )
    requires Rooted(env, s) && TrueExcept(env, s, stale)
    ensures var after := Delete(env, s, m, cancelled, fault).0;
            && Rooted(env, after)
            && TrueExcept(env, after, if Damages(fault) then stale + {(m.hostId, m.backupId)} else stale)
  {
    VerificationPassesIff(env, s.disk, m);
    if AllPassed(Verification(env, s.disk, m)) {
      RemoveKeepsTruth(env, s, m, fault, stale);
    }
  }

  // A listing of one host: its cached manifests, newest first.
  ghost predicate Listing(s: Store, hostId: string, list: seq<Manifest>) {
    && (forall i, j | 0 <= i < j < |list| ::
        list[i].backupId != list[j].backupId && list[i].createdAt >= list[j].createdAt)
    && (forall m :: m in list <==> exists id :: (hostId, id) in s.cache && s.cache[(hostId, id)] == m)
  }

  // Newest first
  function NewerManifest(): (Manifest, Manifest) -> bool {
    (a: Manifest, b: Manifest) => a.createdAt > b.createdAt
  }

  lemma SortedOnce(found: seq<Manifest>)
    requires Distinct(found) && forall a, b | a in found && b in found && a.backupId == b.backupId :: a == b
    ensures var list := Sort(found, NewerManifest());
            forall i, j | 0 <= i < j < |list| ::
              list[i].backupId != list[j].backupId && list[i].createdAt >= list[j].createdAt
  {
    var list := Sort(found, NewerManifest());
    SortOrdered(found, NewerManifest());
    SameBag(list, found);
    SortDistinct(found, NewerManifest());
    forall i, j | 0 <= i < j < |list|
      ensures list[i].backupId != list[j].backupId && list[i].createdAt >= list[j].createdAt
    {
      assert !NewerManifest()(list[j], list[i]);
      assert list[i] in found && list[j] in found && list[i] != list[j];
    }
  }

  // A removal whose fault damages the tree, of one of the listed backups.
  ghost function Damaged(hostId: string, list: seq<Manifest>, faults: TreeFaults): set<(string, string)> {
    set i | 0 <= i < |list| && Damages(faults(i)) :: (hostId, list[i].backupId)
  }

  lemma RemoveListed(
    env: Environment, s: Store, hostId: string, list: seq<Manifest>, n: nat, faults: TreeFaults,
    stale: set<(string, string)>
  )
    requires n < |list| && Rooted(env, s) && TrueExcept(env, s, stale) && Damaged(hostId, list, faults) <= stale
    requires forall i | 0 <= i <= n :: ValidEntry(env, s.disk, hostId, list[i].backupId, list[i])
    requires forall i | 0 <= i < n :: list[i].backupId != list[n].backupId
    ensures var after := Remove(s, list[n], faults(n)).0;
            && Rooted(env, after) && TrueExcept(env, after, stale) && after.hostFolders == s.hostFolders
            && forall i | 0 <= i < n :: ValidEntry(env, after.disk, hostId, list[i].backupId, list[i])
  {
    RemoveKeepsTruth(env, s, list[n], faults(n), stale);
    assert Damages(faults(n)) ==> stale + {(hostId, list[n].backupId)} == stale;
    var after := Remove(s, list[n], faults(n)).0;
    forall i | 0 <= i < n ensures ValidEntry(env, after.disk, hostId, list[i].backupId, list[i]) {
      OtherEntriesStay(env, s.disk, after.disk, list[n].storageLocation, hostId, list[i].backupId, list[i]);
    }
  }

  // What is left to prune stays as listed while older backups go.
  lemma {:induction false} PruneKeepsTruth(
    env: Environment, s: Store, hostId: string, list: seq<Manifest>, keep: nat, now: int, faults: TreeFaults, n: nat,
    stale: set<(string, string)>
  )
    requires n <= |list| && Rooted(env, s) && TrueExcept(env, s, stale)
    requires forall i | 0 <= i < |list| :: ValidEntry(env, s.disk, hostId, list[i].backupId, list[i])
    requires forall i, j | 0 <= i < j < |list| :: list[i].backupId != list[j].backupId
    ensures var p := PruneDown(s, list, keep, now, faults, n);
            && Rooted(env, p.store) && TrueExcept(env, p.store, stale + Damaged(hostId, list, faults))
            && p.store.hostFolders == s.hostFolders
            && (forall i | 0 <= i < n :: ValidEntry(env, p.store.disk, hostId, list[i].backupId, list[i]))
    decreases |list| - n
  {
    if n < |list| {
      PruneKeepsTruth(env, s, hostId, list, keep, now, faults, n + 1, stale);
      var p := PruneDown(s, list, keep, now, faults, n + 1);
      RemoveListed(env, p.store, hostId, list, n, faults, stale + Damaged(hostId, list, faults));
    }
  }

  // ---- Whole runs ----

  // The store, and the cache entries that a torn operation left behind since
  // their host was last listed.
  datatype Catalog = Catalog(store: Store, stale: set<(string, string)>)

  // One call of an operation, however it goes.
  datatype Step =
    | CreateStep(request: BackupRequest, captured: seq<Captured>, requirePrecondition: bool, halt: Halt, created: int)
    | ListStep(hostId: string)
    | ProtectStep(hostId: string, backupId: string, protected: bool, write: Fault)
    | DeleteStep(m: Manifest, cancelled: bool, fault: TreeFault)
    | PruneStep(hostId: string, list: seq<Manifest>, keep: nat, now: int, faults: TreeFaults)

  // A prune works on a listing of its host.
  ghost predicate Enabled(env: Environment, s: Store, step: Step) {
    step.PruneStep? ==> Listing(Load(env, s, step.hostId), step.hostId, step.list)
  }

  ghost function Next(env: Environment, c: Catalog, step: Step): Catalog {
    match step
    case CreateStep(request, captured, requirePrecondition, halt, created) =>
      Catalog(Persist(env, c.store, request, captured, requirePrecondition, halt, created).0,
              c.stale + Overwritten(env, c.store, request, captured, requirePrecondition, halt))
    case ListStep(hostId) => Catalog(Load(env, c.store, hostId), Others(c.stale, hostId))
    case ProtectStep(hostId, backupId, protected, write) =>
      Catalog(SetProtected(env, c.store, hostId, backupId, protected, write).0,
              Others(c.stale, hostId) + if write == Torn then {(hostId, backupId)} else {})
    case DeleteStep(m, cancelled, fault) =>
      Catalog(Delete(env, c.store, m, cancelled, fault).0,
              c.stale + if Damages(fault) then {(m.hostId, m.backupId)} else {})
    case PruneStep(hostId, list, keep, now, faults) =>
      Catalog(PruneDown(Load(env, c.store, hostId), list, keep, now, faults, 0).store,
              Others(c.stale, hostId) + Damaged(hostId, list, faults))
  }

  ghost predicate Moves(env: Environment, c: Catalog, after: Catalog) {
    exists step :: Enabled(env, c.store, step) && after == Next(env, c, step)
  }

  ghost predicate Sound(env: Environment, c: Catalog) {
    Rooted(env, c.store) && TrueExcept(env, c.store, c.stale)
  }

  lemma ListedAreValid(env: Environment, s: Store, hostId: string, list: seq<Manifest>)
    requires Rooted(env, s) && Listing(Load(env, s, hostId), hostId, list)
    ensures forall m :: m in list <==> ValidEntry(env, s.disk, hostId, m.backupId, m)
  {
    LoadIsExact(env, s, hostId);
    var after := Load(env, s, hostId);
    forall m ensures m in list <==> ValidEntry(env, s.disk, hostId, m.backupId, m) {
      if m in list {
        var id :| (hostId, id) in after.cache && after.cache[(hostId, id)] == m;
        assert ValidEntry(env, s.disk, hostId, id, m);
      }
      if ValidEntry(env, s.disk, hostId, m.backupId, m) {
        assert (hostId, m.backupId) in after.cache && after.cache[(hostId, m.backupId)] == m;
      }
    }
  }

  lemma PruneStepIsSound(
    env: Environment, c: Catalog, hostId: string, list: seq<Manifest>, keep: nat, now: int, faults: TreeFaults
  )
    requires Sound(env, c) && Listing(Load(env, c.store, hostId), hostId, list)
    ensures Sound(env, Next(env, c, PruneStep(hostId, list, keep, now, faults)))
  {
    LoadIsExact(env, c.store, hostId);
    LoadHeals(env, c.store, hostId, c.stale);
    ListedAreValid(env, c.store, hostId, list);
    forall i | 0 <= i < |list| ensures ValidEntry(env, c.store.disk, hostId, list[i].backupId, list[i]) {
      assert list[i] in list;
    }
    PruneKeepsTruth(env, Load(env, c.store, hostId), hostId, list, keep, now, faults, 0, Others(c.stale, hostId));
  }

  lemma ProtectStepIsSound(
    env: Environment, c: Catalog, hostId: string, backupId: string, protected: bool, write: Fault
  )
    requires Sound(env, c)
    ensures Sound(env, Next(env, c, ProtectStep(hostId, backupId, protected, write)))
  {
    LoadIsExact(env, c.store, hostId);
    LoadHeals(env, c.store, hostId, c.stale);
    RelabelKeepsTruth(env, Load(env, c.store, hostId), (hostId, backupId), protected, write, Others(c.stale, hostId));
  }

  lemma StepIsSound(env: Environment, c: Catalog, step: Step)
    requires Sound(env, c) && Enabled(env, c.store, step)
    ensures Sound(env, Next(env, c, step))
  {
    match step {
      case CreateStep(request, captured, requirePrecondition, halt, created) =>
        PersistKeepsTruth(env, c.store, request, captured, requirePrecondition, halt, created, c.stale);
      case ListStep(hostId) =>
        LoadIsExact(env, c.store, hostId);
        LoadHeals(env, c.store, hostId, c.stale);
      case ProtectStep(hostId, backupId, protected, write) =>
        ProtectStepIsSound(env, c, hostId, backupId, protected, write);
      case DeleteStep(m, cancelled, fault) =>
        DeleteKeepsTruth(env, c.store, m, cancelled, fault, c.stale);
      case PruneStep(hostId, list, keep, now, faults) =>
        PruneStepIsSound(env, c, hostId, list, keep, now, faults);
    }
  }

  // In every run of create, list, protect, delete and prune, over any directory
  // contents at the start and with any operation torn or stopped halfway, each
  // cached manifest equals the one on disk, except for those whose own rewrite,
  // removal or new creation was torn, or whose directory another host's backup
  // took over, since their host was last listed.
  lemma EveryRunIsCoherent(env: Environment, states: seq<Catalog>)
    requires Run(states, (a, b) => Moves(env, a, b))
    requires states[0].store.cache == map[]
    requires forall l | l in states[0].store.disk && l.Inside? :: l.component in states[0].store.hostFolders
    ensures forall i | 0 <= i < |states| :: Sound(env, states[i])
  {
    var moves, sound := (a, b) => Moves(env, a, b), (c: Catalog) => Sound(env, c);
    assert Run(states, moves) by {
      forall i | 0 <= i < |states| - 1 ensures moves(states[i], states[i + 1]) {}
    }
    forall a, b | sound(a) && moves(a, b) ensures sound(b) {
      var step :| Enabled(env, a.store, step) && b == Next(env, a, step);
      StepIsSound(env, a, step);
    }
    HoldsAlongRun(states, moves, sound);
    forall i | 0 <= i < |states| ensures Sound(env, states[i]) {
      assert sound(states[i]);
    }
  }

  // Nothing of this step was torn, and a create uses no other host's directory.
  ghost predicate Whole(env: Environment, s: Store, step: Step) {
    match step
    case CreateStep(request, _, _, halt, _) =>
      halt != ManifestHalt(true) && Housed(env, s, request) <= {(request.hostId, request.backupId)}
    case ProtectStep(_, _, _, write) => write != Torn
    case DeleteStep(_, _, fault) => !Damages(fault)
    case PruneStep(_, list, _, _, faults) => forall i | 0 <= i < |list| :: !Damages(faults(i))
    case _ => true
  }

  // Without torn operations no entry is ever stale: the cache is the disk's.
  lemma WholeStepsStayExact(env: Environment, c: Catalog, step: Step)
    requires Sound(env, c) && c.stale == {} && Enabled(env, c.store, step) && Whole(env, c.store, step)
    ensures Next(env, c, step).stale == {} && TrueExcept(env, Next(env, c, step).store, {})
  {
    StepIsSound(env, c, step);
    assert Next(env, c, step).stale == {};
  }
}
