// What pruning keeps, and what listing a host strictly shows.

module BackupPrune {
  import opened Foundations
  import opened Sorting
  import opened Records
  import opened EvidenceStores
  import opened BackupStore
  import opened BackupCatalog

  predicate DistinctIds(list: seq<Manifest>) {
    forall i, j | 0 <= i < j < |list| :: list[i].backupId != list[j].backupId
  }

  // All of the listed backups from `n` on are removable.
  predicate AllRemovable(list: seq<Manifest>, keep: nat, now: int, n: nat) {
    forall i | n <= i < |list| :: Removable(list, i, keep, now)
  }

  // A backup stays unless it is removable; the newest stays when all are.
  predicate Survives(list: seq<Manifest>, i: nat, keep: nat, now: int)
    requires i < |list|
  {
    !Removable(list, i, keep, now) || (i == 0 && AllRemovable(list, keep, now, 0))
  }

  // While a newer backup is listed, pruning removes every removable one.
  lemma {:induction false} PruneTail(s: Store, list: seq<Manifest>, keep: nat, now: int, faults: TreeFaults, n: nat)
    requires 0 < n <= |list| && DistinctIds(list)
    requires PruneDown(s, list, keep, now, faults, n).error.None?
    ensures var removed := PruneDown(s, list, keep, now, faults, n).removed;
            && |removed| <= |list| - n
            && (|removed| == |list| - n <==> AllRemovable(list, keep, now, n))
            && (forall id | id in removed :: exists i :: n <= i < |list| && list[i].backupId == id)
            && (forall i | n <= i < |list| :: list[i].backupId in removed <==> Removable(list, i, keep, now))
    decreases |list| - n
  {
    if n < |list| {
      PruneTail(s, list, keep, now, faults, n + 1);
      var before := PruneDown(s, list, keep, now, faults, n + 1).removed;
      assert list[n].backupId !in before;
      assert AllRemovable(list, keep, now, n)
             <==> AllRemovable(list, keep, now, n + 1) && Removable(list, n, keep, now);
    }
  }

  // A prune that finishes removes exactly the backups that do not survive.
  lemma PruneKeepsExactly(s: Store, list: seq<Manifest>, keep: nat, now: int, faults: TreeFaults)
    requires DistinctIds(list)
    requires PruneDown(s, list, keep, now, faults, 0).error.None?
    ensures var removed := PruneDown(s, list, keep, now, faults, 0).removed;
            && (forall id | id in removed :: exists i :: 0 <= i < |list| && list[i].backupId == id)
            && (forall i | 0 <= i < |list| :: list[i].backupId in removed <==> !Survives(list, i, keep, now))
  {
    if list != [] {
      PruneTail(s, list, keep, now, faults, 1);
      var before := PruneDown(s, list, keep, now, faults, 1).removed;
      assert list[0].backupId !in before;
      assert AllRemovable(list, keep, now, 0) <==> AllRemovable(list, keep, now, 1) && Removable(list, 0, keep, now);
    }
  }

  // How the directory changed over the listed backups from `n` on: the removed
  // backups' trees are gone, the one that failed may be damaged, and nothing else
  // changed.
  ghost predicate Touched(
    before: Disk, after: Disk, list: seq<Manifest>, n: nat, removed: seq<string>, failed: Option<nat>
  )
  {
    && (forall l | l in after :: l in before)
    && (forall l | l in before :: Kept(before, after, l) || Blamed(list, n, removed, failed, l))
    && (forall id | id in removed :: RemovedFrom(after, list, n, id))
  }

  predicate Kept(before: Disk, after: Disk, l: Location) {
    l in before && l in after && after[l] == before[l]
  }

  predicate Blamed(list: seq<Manifest>, n: nat, removed: seq<string>, failed: Option<nat>, l: Location) {
    exists i | n <= i < |list| :: list[i].storageLocation == l && (list[i].backupId in removed || failed == Some(i))
  }

  predicate RemovedFrom(after: Disk, list: seq<Manifest>, n: nat, id: string) {
    exists i | n <= i < |list| :: list[i].backupId == id && list[i].storageLocation !in after
  }

  lemma RemoveTouches(s: Store, m: Manifest, fault: TreeFault)
    ensures var (after, error) := Remove(s, m, fault);
            && (forall l | l in after.disk :: l in s.disk)
            && (forall l | l in s.disk && l != m.storageLocation :: Kept(s.disk, after.disk, l))
            && (error.None? ==> m.storageLocation !in after.disk)
  {
  }

  lemma TouchedFurther(
    start: Disk, before: Disk, after: Disk, list: seq<Manifest>, n: nat, removed: seq<string>, error: Option<Error>
  )
    requires n < |list| && Touched(start, before, list, n + 1, removed, None)
    requires forall l | l in after :: l in before
    requires forall l | l in before && l != list[n].storageLocation :: Kept(before, after, l)
    requires error.None? ==> list[n].storageLocation !in after
    ensures Touched(start, after, list, n, if error.None? then removed + [list[n].backupId] else removed,
                    if error.None? then None else Some(n))
  {
    var now := if error.None? then removed + [list[n].backupId] else removed;
    var failed := if error.None? then None else Some(n);
    forall l | l in start ensures Kept(start, after, l) || Blamed(list, n, now, failed, l) {
      if Blamed(list, n + 1, removed, None, l) {
        var i :| n + 1 <= i < |list| && list[i].storageLocation == l && list[i].backupId in removed;
        assert list[i].backupId in now;
      } else if l == list[n].storageLocation {
        assert list[n].backupId in now || failed == Some(n);
      }
    }
    forall id | id in now ensures RemovedFrom(after, list, n, id) {
      if id in removed {
        var i :| n + 1 <= i < |list| && list[i].backupId == id && list[i].storageLocation !in before;
      }
    }
  }

  lemma TouchedEarlier(
    start: Disk, after: Disk, list: seq<Manifest>, n: nat, removed: seq<string>, failed: Option<nat>
  )
    requires n < |list| && Touched(start, after, list, n + 1, removed, failed)
    ensures Touched(start, after, list, n, removed, failed)
  {
    forall l | l in start ensures Kept(start, after, l) || Blamed(list, n, removed, failed, l) {
      if Blamed(list, n + 1, removed, failed, l) {
        var i :| n + 1 <= i < |list| && list[i].storageLocation == l
                 && (list[i].backupId in removed || failed == Some(i));
      }
    }
    forall id | id in removed ensures RemovedFrom(after, list, n, id) {
      var i :| n + 1 <= i < |list| && list[i].backupId == id && list[i].storageLocation !in after;
    }
  }

  lemma NotRemovedYet(after: Disk, list: seq<Manifest>, n: nat)
    requires n < |list| && DistinctIds(list)
    ensures !RemovedFrom(after, list, n + 1, list[n].backupId)
  {
  }

  // What a prune does to the directory, finished or not.
  lemma {:induction false} PruneTouches(
    s: Store, list: seq<Manifest>, keep: nat, now: int, faults: TreeFaults, n: nat
  ) returns (failed: Option<nat>)
    requires n <= |list| && DistinctIds(list)
    ensures var p := PruneDown(s, list, keep, now, faults, n);
            && (failed.Some? <==> p.error.Some?)
            && (failed.Some? ==> n <= failed.value < |list| && list[failed.value].backupId !in p.removed)
            && Touched(s.disk, p.store.disk, list, n, p.removed, failed)
    decreases |list| - n
  {
    failed := None;
    if n < |list| {
      failed := PruneTouches(s, list, keep, now, faults, n + 1);
      var before := PruneDown(s, list, keep, now, faults, n + 1);
      NotRemovedYet(before.store.disk, list, n);
      assert list[n].backupId !in before.removed;
      if before.error.Some? || !Removable(list, n, keep, now) || |list| - |before.removed| <= 1 {
        TouchedEarlier(s.disk, before.store.disk, list, n, before.removed, failed);
      } else {
        RemoveTouches(before.store, list[n], faults(n));
        var (after, error) := Remove(before.store, list[n], faults(n));
        TouchedFurther(s.disk, before.store.disk, after.disk, list, n, before.removed, error);
        failed := if error.None? then None else Some(n);
      }
    }
  }

  // ---- What the store still holds ----

  lemma ListedApart(env: Environment, s: Store, hostId: string, list: seq<Manifest>)
    requires Rooted(env, s) && Listing(Load(env, s, hostId), hostId, list)
    ensures DistinctIds(list)
    ensures forall i | 0 <= i < |list| :: list[i].storageLocation == LocationOf(env, hostId, list[i].backupId)
    ensures forall i | 0 <= i < |list| :: ValidEntry(env, s.disk, hostId, list[i].backupId, list[i])
  {
    ListedAreValid(env, s, hostId, list);
    forall i | 0 <= i < |list| ensures ValidEntry(env, s.disk, hostId, list[i].backupId, list[i]) {
      assert list[i] in list;
    }
  }

  // The store after a prune of its host.
  function Pruned(
    env: Environment, s: Store, hostId: string, list: seq<Manifest>, keep: nat, now: int, faults: TreeFaults
  ): PruneProgress
  {
    PruneDown(Load(env, s, hostId), list, keep, now, faults, 0)
  }

  // Finished or not, a prune leaves every protected backup, and some backup of a
  // host that had one, valid on disk.
  lemma PruneNeverEmpties(
    env: Environment, s: Store, hostId: string, list: seq<Manifest>, keep: nat, now: int, faults: TreeFaults
  )
    requires Rooted(env, s) && Listing(Load(env, s, hostId), hostId, list) && list != []
    ensures var disk := Pruned(env, s, hostId, list, keep, now, faults).store.disk;
            && (forall m | m in list && m.protected :: ValidEntry(env, disk, hostId, m.backupId, m))
            && (exists m :: m in list && ValidEntry(env, disk, hostId, m.backupId, m))
  {
    LoadIsExact(env, s, hostId);
    ListedApart(env, s, hostId, list);
    var i := SomeIsLeft(env, Load(env, s, hostId), hostId, list, keep, now, faults, 0);
    assert list[i] in list;
  }

  lemma {:induction false} SomeIsLeft(
    env: Environment, s: Store, hostId: string, list: seq<Manifest>, keep: nat, now: int, faults: TreeFaults, n: nat
  ) returns (left: nat)
    requires n <= |list| && list != [] && DistinctIds(list)
    requires forall i | 0 <= i < |list| :: ValidEntry(env, s.disk, hostId, list[i].backupId, list[i])
    ensures var p := PruneDown(s, list, keep, now, faults, n);
            && left < |list| && ValidEntry(env, p.store.disk, hostId, list[left].backupId, list[left])
            && (forall i | 0 <= i < |list| && (i < n || list[i].protected) ::
                  ValidEntry(env, p.store.disk, hostId, list[i].backupId, list[i]))
            && (p.error.None? ==>
                  && |p.removed| <= |list| - n
                  && (|p.removed| == |list| - n || exists i :: n <= i < |list| && Stays(env, hostId, list, p, i)))
    decreases |list| - n
  {
    left := 0;
    if n < |list| {
      left := SomeIsLeft(env, s, hostId, list, keep, now, faults, n + 1);
      var before, p := PruneDown(s, list, keep, now, faults, n + 1), PruneDown(s, list, keep, now, faults, n);
      if p.store != before.store || p.error != before.error {
        RemoveSparesOthers(env, before.store, hostId, list, n, faults(n));
        if n == 0 {
          var i :| n + 1 <= i < |list| && Stays(env, hostId, list, before, i);
          left := i;
          assert p.error.None? ==> Stays(env, hostId, list, p, i);
        } else {
          left := 0;
          if i :| n + 1 <= i < |list| && Stays(env, hostId, list, before, i) {
            assert p.error.None? ==> Stays(env, hostId, list, p, i);
          }
        }
      } else if p.error.None? {
        assert Stays(env, hostId, list, p, n);
      }
    }
  }

  // Backup `i` is still there.
  ghost predicate Stays(env: Environment, hostId: string, list: seq<Manifest>, p: PruneProgress, i: nat)
    requires i < |list|
  {
    ValidEntry(env, p.store.disk, hostId, list[i].backupId, list[i])
  }

  lemma RemoveSparesOthers(
    env: Environment, s: Store, hostId: string, list: seq<Manifest>, n: nat, fault: TreeFault
  )
    requires n < |list| && DistinctIds(list)
    requires list[n].storageLocation == LocationOf(env, hostId, list[n].backupId)
    ensures forall i | 0 <= i < |list| && i != n && ValidEntry(env, s.disk, hostId, list[i].backupId, list[i]) ::
              ValidEntry(env, Remove(s, list[n], fault).0.disk, hostId, list[i].backupId, list[i])
  {
    forall i | 0 <= i < |list| && i != n && ValidEntry(env, s.disk, hostId, list[i].backupId, list[i])
      ensures ValidEntry(env, Remove(s, list[n], fault).0.disk, hostId, list[i].backupId, list[i])
    {
      assert list[i].backupId != list[n].backupId;
    }
  }

  // ---- What the cache still says ----

  // The listed backup `i` is cached although its manifest is not on disk.
  ghost predicate StaleAt(env: Environment, s: Store, hostId: string, list: seq<Manifest>, i: nat)
    requires i < |list|
  {
    (hostId, list[i].backupId) in s.cache && !ValidEntry(env, s.disk, hostId, list[i].backupId, list[i])
  }

  // Exactly which entries a prune leaves stale: the one it stopped at, when its
  // removal fails after the manifest went.
  lemma PruneLeavesStaleIff(
    env: Environment, s: Store, hostId: string, list: seq<Manifest>, keep: nat, now: int, faults: TreeFaults
  ) returns (failed: Option<nat>)
    requires Rooted(env, s) && Listing(Load(env, s, hostId), hostId, list)
    ensures var p := Pruned(env, s, hostId, list, keep, now, faults);
            && (failed.Some? <==> p.error.Some?)
            && forall i | 0 <= i < |list| ::
                 StaleAt(env, p.store, hostId, list, i)
                 <==> failed == Some(i) && Damages(faults(i)) && !Obstructed(s.disk, list[i].storageLocation)
  {
    LoadIsExact(env, s, hostId);
    ListedApart(env, s, hostId, list);
    failed := PruneDownStales(env, Load(env, s, hostId), hostId, list, keep, now, faults, 0);
  }

  // A listed backup is as it was, on disk and in the cache.
  ghost predicate AsListed(env: Environment, start: Disk, s: Store, hostId: string, m: Manifest) {
    && ValidEntry(env, s.disk, hostId, m.backupId, m)
    && m.storageLocation in start && s.disk[m.storageLocation] == start[m.storageLocation]
    && (hostId, m.backupId) in s.cache && s.cache[(hostId, m.backupId)] == m
  }

  ghost predicate Pending(env: Environment, start: Disk, s: Store, hostId: string, list: seq<Manifest>, n: nat)
    requires n <= |list|
  {
    forall i | 0 <= i < n :: AsListed(env, start, s, hostId, list[i])
  }

  lemma {:induction false} PruneDownStales(
    env: Environment, s: Store, hostId: string, list: seq<Manifest>, keep: nat, now: int, faults: TreeFaults, n: nat
  ) returns (failed: Option<nat>)
    requires n <= |list| && DistinctIds(list) && Pending(env, s.disk, s, hostId, list, |list|)
    requires forall i | 0 <= i < |list| :: list[i].storageLocation == LocationOf(env, hostId, list[i].backupId)
    ensures var p := PruneDown(s, list, keep, now, faults, n);
            && (failed.Some? <==> p.error.Some?)
            && Pending(env, s.disk, p.store, hostId, list, n)
            && forall i | 0 <= i < |list| ::
                 StaleAt(env, p.store, hostId, list, i)
                 <==> failed == Some(i) && Damages(faults(i)) && !Obstructed(s.disk, list[i].storageLocation)
    decreases |list| - n
  {
    failed := None;
    if n < |list| {
      failed := PruneDownStales(env, s, hostId, list, keep, now, faults, n + 1);
      var p := PruneDown(s, list, keep, now, faults, n + 1);
      if p.error.None? && Removable(list, n, keep, now) && |list| - |p.removed| > 1 {
        RemoveStales(env, s.disk, p.store, hostId, list, n, faults(n));
        failed := if Remove(p.store, list[n], faults(n)).1.None? then None else Some(n);
      }
    }
  }

  lemma RemoveStales(
    env: Environment, start: Disk, s: Store, hostId: string, list: seq<Manifest>, n: nat, fault: TreeFault
  )
    requires n < |list| && DistinctIds(list) && Pending(env, start, s, hostId, list, n + 1)
    requires forall i | 0 <= i < |list| :: list[i].storageLocation == LocationOf(env, hostId, list[i].backupId)
    requires forall i | 0 <= i < |list| :: !StaleAt(env, s, hostId, list, i)
    ensures var (after, error) := Remove(s, list[n], fault);
            && Pending(env, start, after, hostId, list, n)
            && forall i | 0 <= i < |list| ::
                 StaleAt(env, after, hostId, list, i)
                 <==> error.Some? && i == n && Damages(fault) && !Obstructed(start, list[n].storageLocation)
  {
    RemovalLeavesStaleIff(env, s, list[n], fault);
    var after := Remove(s, list[n], fault).0;
    assert AsListed(env, start, s, hostId, list[n]);
    forall i | 0 <= i < |list| && i != n
      ensures !StaleAt(env, after, hostId, list, i) && (i < n ==> AsListed(env, start, after, hostId, list[i]))
    {
      assert list[i].backupId != list[n].backupId;
      assert i < n ==> AsListed(env, start, s, hostId, list[i]);
      assert !StaleAt(env, s, hostId, list, i);
      RemoveElsewhere(env, start, s, hostId, list[n], fault, list[i]);
    }
  }

  lemma RemoveElsewhere(
    env: Environment, start: Disk, s: Store, hostId: string, m: Manifest, fault: TreeFault, other: Manifest
  )
    requires m.hostId == hostId && other.backupId != m.backupId && other.storageLocation != m.storageLocation
    ensures var after := Remove(s, m, fault).0;
            && ((hostId, other.backupId) in after.cache <==> (hostId, other.backupId) in s.cache)
            && (ValidEntry(env, s.disk, hostId, other.backupId, other) ==>
                  ValidEntry(env, after.disk, hostId, other.backupId, other))
            && (AsListed(env, start, s, hostId, other) ==> AsListed(env, start, after, hostId, other))
  {
  }

  // ---- Pruning again ----

  // The backups that a finished prune leaves.
  ghost function Survivors(list: seq<Manifest>, keep: nat, now: int): set<Manifest> {
    set i | 0 <= i < |list| && Survives(list, i, keep, now) :: list[i]
  }

  // A finished prune: which listed backups went, and the directory with them.
  ghost predicate Finished(
    env: Environment, before: Disk, p: PruneProgress, hostId: string, list: seq<Manifest>, keep: nat, now: int
  )
  {
    && DistinctIds(list)
    && (forall i | 0 <= i < |list| :: list[i].storageLocation == LocationOf(env, hostId, list[i].backupId))
    && (forall i | 0 <= i < |list| :: list[i].backupId in p.removed <==> !Survives(list, i, keep, now))
    && Touched(before, p.store.disk, list, 0, p.removed, None)
  }

  lemma PruneFinishes(
    env: Environment, s: Store, hostId: string, list: seq<Manifest>, keep: nat, now: int, faults: TreeFaults
  )
    requires Rooted(env, s) && Listing(Load(env, s, hostId), hostId, list)
    requires Pruned(env, s, hostId, list, keep, now, faults).error.None?
    ensures Finished(env, s.disk, Pruned(env, s, hostId, list, keep, now, faults), hostId, list, keep, now)
  {
    LoadIsExact(env, s, hostId);
    ListedApart(env, s, hostId, list);
    PruneKeepsExactly(Load(env, s, hostId), list, keep, now, faults);
    var failed := PruneTouches(Load(env, s, hostId), list, keep, now, faults, 0);
  }

  // A backup is on disk after a finished prune exactly when it was before and its
  // own entry was kept.
  lemma EntryAfter(
    env: Environment, before: Disk, p: PruneProgress, hostId: string, list: seq<Manifest>, keep: nat, now: int,
    m: Manifest
  )
    requires Finished(env, before, p, hostId, list, keep, now)
    ensures ValidEntry(env, p.store.disk, hostId, m.backupId, m)
            <==> && ValidEntry(env, before, hostId, m.backupId, m)
                 && m.backupId !in p.removed
  {
    var l := LocationOf(env, hostId, m.backupId);
    assert m.backupId in p.removed ==> RemovedFrom(p.store.disk, list, 0, m.backupId);
    assert l in before ==> Kept(before, p.store.disk, l) || Blamed(list, 0, p.removed, None, l);
  }

  // A finished prune leaves exactly its survivors valid on disk.
  lemma SurvivorsStay(
    env: Environment, s: Store, hostId: string, list: seq<Manifest>, keep: nat, now: int, faults: TreeFaults,
    m: Manifest
  )
    requires Rooted(env, s) && Listing(Load(env, s, hostId), hostId, list)
    requires Pruned(env, s, hostId, list, keep, now, faults).error.None?
    ensures ValidEntry(env, Pruned(env, s, hostId, list, keep, now, faults).store.disk, hostId, m.backupId, m)
            <==> m in Survivors(list, keep, now)
  {
    PruneFinishes(env, s, hostId, list, keep, now, faults);
    EntryAfter(env, s.disk, Pruned(env, s, hostId, list, keep, now, faults), hostId, list, keep, now, m);
    ListedAreValid(env, s, hostId, list);
    SurvivorsAreNotRemoved(list, keep, now, Pruned(env, s, hostId, list, keep, now, faults).removed, m);
  }

  lemma SurvivorsAreNotRemoved(list: seq<Manifest>, keep: nat, now: int, removed: seq<string>, m: Manifest)
    requires forall i | 0 <= i < |list| :: list[i].backupId in removed <==> !Survives(list, i, keep, now)
    ensures m in Survivors(list, keep, now) <==> m in list && m.backupId !in removed
  {
    if m in list && m.backupId !in removed {
      var i :| 0 <= i < |list| && list[i] == m;
      assert Survives(list, i, keep, now);
    }
  }

  // The host listed after a finished prune: its survivors, in some order that
  // keeps the newest first.
  lemma Relisted(
    env: Environment, s: Store, hostId: string, list: seq<Manifest>, keep: nat, now: int, faults: TreeFaults
  )
    requires Rooted(env, s) && Listing(Load(env, s, hostId), hostId, list)
    requires Pruned(env, s, hostId, list, keep, now, faults).error.None?
    ensures var after := Pruned(env, s, hostId, list, keep, now, faults).store;
            forall again: seq<Manifest> :: Listing(Load(env, after, hostId), hostId, again)
                            <==> Arranged(again) && Elements(again) == Survivors(list, keep, now)
  {
    LoadIsExact(env, s, hostId);
    ListedApart(env, s, hostId, list);
    var loaded, after := Load(env, s, hostId), Pruned(env, s, hostId, list, keep, now, faults).store;
    PruneKeepsTruth(env, loaded, hostId, list, keep, now, faults, 0, loaded.cache.Keys);
    forall m: Manifest ensures ValidEntry(env, after.disk, hostId, m.backupId, m) <==> m in Survivors(list, keep, now) {
      SurvivorsStay(env, s, hostId, list, keep, now, faults, m);
    }
    forall again: seq<Manifest> ensures Listing(Load(env, after, hostId), hostId, again)
                         <==> Arranged(again) && Elements(again) == Survivors(list, keep, now)
    {
      ListingIff(env, after, hostId, again);
    }
  }

  // Distinct backups, newest first.
  ghost predicate Arranged(list: seq<Manifest>) {
    forall i, j | 0 <= i < j < |list| :: list[i].backupId != list[j].backupId && list[i].createdAt >= list[j].createdAt
  }

  lemma ListingIff(env: Environment, s: Store, hostId: string, list: seq<Manifest>)
    requires Rooted(env, s)
    ensures Listing(Load(env, s, hostId), hostId, list)
            <==> Arranged(list) && forall m: Manifest :: m in list <==> ValidEntry(env, s.disk, hostId, m.backupId, m)
  {
    LoadIsExact(env, s, hostId);
    if Listing(Load(env, s, hostId), hostId, list) {
      ListedAreValid(env, s, hostId, list);
    }
    var cache := Load(env, s, hostId).cache;
    forall m: Manifest ensures ValidEntry(env, s.disk, hostId, m.backupId, m)
                     <==> exists id :: (hostId, id) in cache && cache[(hostId, id)] == m
    {
      if id :| (hostId, id) in cache && cache[(hostId, id)] == m {
        assert ValidEntry(env, s.disk, hostId, id, m);
      }
    }
  }

  // The other members that are no older than `x`.
  ghost function IdsNoOlder(members: set<Manifest>, x: Manifest): set<string> {
    set y | y in members && y != x && y.createdAt >= x.createdAt :: y.backupId
  }

  // However ties are listed, no unprotected member comes at position `keep` or
  // later; a single member is never pruned.
  ghost predicate TieProof(members: set<Manifest>, keep: nat) {
    |members| <= 1 || forall x | x in members && !x.protected :: |IdsNoOlder(members, x)| < keep
  }

  // The first `n` of a list without repeated ids.
  lemma {:induction false} FirstIds(list: seq<Manifest>, n: nat)
    requires n <= |list| && DistinctIds(list)
    ensures |set j | 0 <= j < n :: list[j].backupId| == n
  {
    if n > 0 {
      FirstIds(list, n - 1);
      assert (set j | 0 <= j < n :: list[j].backupId)
          == (set j | 0 <= j < n - 1 :: list[j].backupId) + {list[n - 1].backupId};
    }
  }

  lemma MembersCount(list: seq<Manifest>)
    requires Arranged(list)
    ensures |Elements(list)| == |list|
  {
    DistinctCardinality(list);
  }

  lemma OneSurvivor(list: seq<Manifest>, keep: nat, now: int)
    requires list != [] && AllRemovable(list, keep, now, 0)
    ensures |Survivors(list, keep, now)| == 1
  {
    assert Survives(list, 0, keep, now);
    assert Survivors(list, keep, now) == {list[0]};
  }

  // Unless it is alone, an unprotected survivor has not expired.
  lemma SurvivorIsFresh(list: seq<Manifest>, keep: nat, now: int, x: Manifest)
    requires Arranged(list) && x in Survivors(list, keep, now) && |Survivors(list, keep, now)| > 1 && !x.protected
    ensures !(x.retentionExpiresAt.Some? && x.retentionExpiresAt.value <= now)
    ensures exists i :: 0 <= i < |list| && list[i] == x && i < keep
  {
    var i :| 0 <= i < |list| && Survives(list, i, keep, now) && list[i] == x;
    if AllRemovable(list, keep, now, 0) {
      OneSurvivor(list, keep, now);
      assert false;
    }
    assert Survivors(list, keep, now) <= Elements(list);
    SubsetCardinality(Survivors(list, keep, now), Elements(list));
    MembersCount(list);
    assert !Removable(list, i, keep, now);
  }

  lemma TieProofHasNoRemovable(list: seq<Manifest>, keep: nat, now: int, again: seq<Manifest>, i: nat)
    requires Arranged(list) && Arranged(again) && Elements(again) == Survivors(list, keep, now)
    requires TieProof(Survivors(list, keep, now), keep) && i < |again|
    ensures !Removable(again, i, keep, now)
  {
    MembersCount(again);
    var x := again[i];
    assert x in Elements(again);
    if |again| > 1 && !x.protected {
      SurvivorIsFresh(list, keep, now, x);
      FirstIds(again, i);
      var ahead := set j | 0 <= j < i :: again[j].backupId;
      forall id | id in ahead ensures id in IdsNoOlder(Elements(again), x) {
        var j :| 0 <= j < i && again[j].backupId == id;
        assert again[j] in Elements(again) && again[j] != x;
      }
      SubsetCardinality(ahead, IdsNoOlder(Elements(again), x));
    }
  }

  // `x` last among those of its own time.
  function Behind(x: Manifest): (Manifest, Manifest) -> bool {
    (a: Manifest, b: Manifest) => a.createdAt > b.createdAt || (a.createdAt == b.createdAt && a != x && b == x)
  }

  // Members that are not tie-proof can be listed with a removable one.
  lemma TiedArrangement(members: set<Manifest>, keep: nat, now: int) returns (again: seq<Manifest>, i: nat)
    requires !TieProof(members, keep)
    requires forall a, b | a in members && b in members && a.backupId == b.backupId :: a == b
    ensures Arranged(again) && Elements(again) == members
    ensures i < |again| && Removable(again, i, keep, now)
  {
    var x :| x in members && !x.protected && |IdsNoOlder(members, x)| >= keep;
    var some := Arrange(members);
    again := Sort(some, Behind(x));
    SortOrdered(some, Behind(x));
    SortDistinct(some, Behind(x));
    SameBag(again, some);
    assert forall m :: m in again <==> m in Elements(some);
    forall a, b | 0 <= a < b < |again|
      ensures again[a].backupId != again[b].backupId && again[a].createdAt >= again[b].createdAt
    {
      assert again[a] in again && again[b] in again && !Behind(x)(again[b], again[a]);
    }
    i :| 0 <= i < |again| && again[i] == x;
    PlacedBehind(members, again, x, i);
    MembersCount(again);
  }

  lemma PlacedBehind(members: set<Manifest>, again: seq<Manifest>, x: Manifest, i: nat)
    requires i < |again| && again[i] == x && Arranged(again) && Elements(again) == members
    requires Ordered(again, Behind(x))
    ensures |IdsNoOlder(members, x)| <= i
  {
    FirstIds(again, i);
    var ahead := set j | 0 <= j < i :: again[j].backupId;
    forall id | id in IdsNoOlder(members, x) ensures id in ahead {
      var y :| y in members && y != x && y.createdAt >= x.createdAt && y.backupId == id;
      var j :| 0 <= j < |again| && again[j] == y;
      assert Behind(x)(again[j], again[i]);
    }
    SubsetCardinality(IdsNoOlder(members, x), ahead);
  }

  lemma {:induction false} NothingToPrune(
    s: Store, list: seq<Manifest>, keep: nat, now: int, faults: TreeFaults, n: nat
  )
    requires n <= |list| && forall j | 0 <= j < |list| :: !Removable(list, j, keep, now)
    ensures PruneDown(s, list, keep, now, faults, n) == PruneProgress(s, [], None)
    decreases |list| - n
  {
    if n < |list| {
      NothingToPrune(s, list, keep, now, faults, n + 1);
    }
  }

  // When every removal is refused, a prune that finds something to remove fails.
  lemma {:induction false} RefusedPruneFails(
    s: Store, list: seq<Manifest>, keep: nat, now: int, faults: TreeFaults, n: nat, i: nat
  )
    requires n <= i < |list| && Removable(list, i, keep, now) && forall j: nat :: faults(j) == TreeRefused
    ensures PruneDown(s, list, keep, now, faults, n).error.Some?
    decreases |list| - n
  {
    if n < i {
      RefusedPruneFails(s, list, keep, now, faults, n + 1, i);
    } else {
      RefusedRemovesNothing(s, list, keep, now, faults, n + 1);
    }
  }

  lemma {:induction false} RefusedRemovesNothing(
    s: Store, list: seq<Manifest>, keep: nat, now: int, faults: TreeFaults, n: nat
  )
    requires n <= |list| && forall j: nat :: faults(j) == TreeRefused
    ensures PruneDown(s, list, keep, now, faults, n).removed == []
    decreases |list| - n
  {
    if n < |list| {
      RefusedRemovesNothing(s, list, keep, now, faults, n + 1);
    }
  }

  // However the host is listed again at the same time, and whatever the file
  // system does then, a second prune finds nothing to do.
  ghost predicate PrunedForGood(env: Environment, after: Store, hostId: string, keep: nat, now: int) {
    forall again, faults | Listing(Load(env, after, hostId), hostId, again) ::
      Pruned(env, after, hostId, again, keep, now, faults) == PruneProgress(Load(env, after, hostId), [], None)
  }

  // Exactly when pruning is idempotent: whichever way the survivors' ties are
  // listed, no unprotected one falls behind the kept generations.
  lemma PruneIsIdempotentIff(
    env: Environment, s: Store, hostId: string, list: seq<Manifest>, keep: nat, now: int, faults: TreeFaults
  )
    requires Rooted(env, s) && Listing(Load(env, s, hostId), hostId, list)
    requires Pruned(env, s, hostId, list, keep, now, faults).error.None?
    ensures PrunedForGood(env, Pruned(env, s, hostId, list, keep, now, faults).store, hostId, keep, now)
            <==> TieProof(Survivors(list, keep, now), keep)
  {
    var after := Pruned(env, s, hostId, list, keep, now, faults).store;
    Relisted(env, s, hostId, list, keep, now, faults);
    ListedApart(env, s, hostId, list);
    if TieProof(Survivors(list, keep, now), keep) {
      TieProofIsForGood(env, after, hostId, list, keep, now);
    } else {
      TiedIsNotForGood(env, after, hostId, list, keep, now);
    }
  }

  lemma TieProofIsForGood(env: Environment, after: Store, hostId: string, list: seq<Manifest>, keep: nat, now: int)
    requires Arranged(list) && TieProof(Survivors(list, keep, now), keep)
    requires forall again: seq<Manifest> :: Listing(Load(env, after, hostId), hostId, again)
                             <==> Arranged(again) && Elements(again) == Survivors(list, keep, now)
    ensures PrunedForGood(env, after, hostId, keep, now)
  {
    forall again, faults | Listing(Load(env, after, hostId), hostId, again)
      ensures Pruned(env, after, hostId, again, keep, now, faults) == PruneProgress(Load(env, after, hostId), [], None)
    {
      forall i | 0 <= i < |again| ensures !Removable(again, i, keep, now) {
        TieProofHasNoRemovable(list, keep, now, again, i);
      }
      NothingToPrune(Load(env, after, hostId), again, keep, now, faults, 0);
    }
  }

  lemma TiedIsNotForGood(env: Environment, after: Store, hostId: string, list: seq<Manifest>, keep: nat, now: int)
    requires Arranged(list) && !TieProof(Survivors(list, keep, now), keep)
    requires forall again: seq<Manifest> :: Listing(Load(env, after, hostId), hostId, again)
                             <==> Arranged(again) && Elements(again) == Survivors(list, keep, now)
    ensures !PrunedForGood(env, after, hostId, keep, now)
  {
    var again, i := TiedArrangement(Survivors(list, keep, now), keep, now);
    RemovableIsNotForGood(env, after, hostId, again, i, keep, now);
  }

  lemma RemovableIsNotForGood(
    env: Environment, after: Store, hostId: string, again: seq<Manifest>, i: nat, keep: nat, now: int
  )
    requires Listing(Load(env, after, hostId), hostId, again)
    requires i < |again| && Removable(again, i, keep, now)
    ensures !PrunedForGood(env, after, hostId, keep, now)
  {
    var faults: TreeFaults := _ => TreeRefused;
    RefusedPruneFails(Load(env, after, hostId), again, keep, now, faults, 0, i);
    assert Pruned(env, after, hostId, again, keep, now, faults).error.Some?;
  }

  // Backups of different times are always tie-proof, so pruning them is idempotent.
  lemma PruneIsIdempotent(
    env: Environment, s: Store, hostId: string, list: seq<Manifest>, keep: nat, now: int, faults: TreeFaults
  )
    requires Rooted(env, s) && Listing(Load(env, s, hostId), hostId, list)
    requires forall i, j | 0 <= i < j < |list| :: list[i].createdAt > list[j].createdAt
    requires Pruned(env, s, hostId, list, keep, now, faults).error.None?
    ensures PrunedForGood(env, Pruned(env, s, hostId, list, keep, now, faults).store, hostId, keep, now)
  {
    PruneIsIdempotentIff(env, s, hostId, list, keep, now, faults);
    var members := Survivors(list, keep, now);
    if |members| > 1 {
      forall x | x in members && !x.protected ensures |IdsNoOlder(members, x)| < keep {
        SurvivorIsFresh(list, keep, now, x);
        var i :| 0 <= i < |list| && list[i] == x && i < keep;
        OnlyEarlierAreNoOlder(list, members, i);
      }
    }
  }

  lemma OnlyEarlierAreNoOlder(list: seq<Manifest>, members: set<Manifest>, i: nat)
    requires i < |list| && DistinctIds(list) && members <= Elements(list)
    requires forall a, b | 0 <= a < b < |list| :: list[a].createdAt > list[b].createdAt
    ensures |IdsNoOlder(members, list[i])| <= i
  {
    var ahead := set j | 0 <= j < i :: list[j].backupId;
    FirstIds(list, i);
    forall id | id in IdsNoOlder(members, list[i]) ensures id in ahead {
      var y :| y in members && y != list[i] && y.createdAt >= list[i].createdAt && y.backupId == id;
      assert y in Elements(list);
      var j :| 0 <= j < |list| && list[j] == y;
    }
    SubsetCardinality(IdsNoOlder(members, list[i]), ahead);
  }

  // A tie that matters: an unprotected backup and a protected one of the
  // same time, with one generation to keep. Both survive while the unprotected
  // one is listed first; listed last, it is removed.
  lemma TiedPairIsNotTieProof(a: Manifest, b: Manifest, now: int)
    requires a.backupId != b.backupId && a.createdAt == b.createdAt && !a.protected && b.protected
    requires a.retentionExpiresAt.Some? ==> now < a.retentionExpiresAt.value
    ensures Survivors([a, b], 1, now) == {a, b}
    ensures !TieProof({a, b}, 1)
    ensures Removable([b, a], 1, 1, now)
  {
    var list := [a, b];
    assert Survives(list, 0, 1, now) && Survives(list, 1, 1, now);
    assert list[0] in Survivors(list, 1, now) && list[1] in Survivors(list, 1, now);
    assert IdsNoOlder({a, b}, a) == {b.backupId};
  }

  // ---- Strict listing ----

  // The host's directory read entry by entry; anything but a readable backup of
  // the host with allowed targets is refused.
  function StrictScan(env: Environment, disk: Disk, hostId: string, order: seq<Location>): Outcome<seq<Manifest>> {
    if order == [] then Ok([])
    else AddStrictly(env, disk, hostId, StrictScan(env, disk, hostId, order[..|order| - 1]), order[|order| - 1])
  }

  function AddStrictly(
    env: Environment, disk: Disk, hostId: string, found: Outcome<seq<Manifest>>, l: Location
  ): Outcome<seq<Manifest>>
  {
    if found.Raised? then found
    else if !Loadable(env, disk, hostId, l) then Raised(AdapterError("invalid_backup_store"))
    else if !TargetsAllowed(env, ManifestAt(env, disk, hostId, l)) then Raised(AdapterError("target_not_allowed"))
    else Ok(found.value + [ManifestAt(env, disk, hostId, l)])
  }

  predicate TargetsAllowed(env: Environment, m: Manifest) {
    forall i | 0 <= i < |m.items| :: env.resolve(m.items[i].target).Some?
  }

  // `list_manifests_strict`
  function StrictList(env: Environment, s: Store, hostId: string, order: seq<Location>): Outcome<seq<Manifest>> {
    if env.component(hostId) !in s.hostFolders then Ok([])
    else
      match StrictScan(env, s.disk, hostId, order)
      case Raised(e) => Raised(e)
      case Ok(found) =>
        if DistinctIds(found) then Ok(Sort(found, NewerManifest()))
        else Raised(AdapterError("invalid_backup_store"))
  }

  // The entries of the host's directory, in some order.
  ghost predicate HostOrder(env: Environment, disk: Disk, hostId: string, order: seq<Location>) {
    && Distinct(order)
    && forall l :: l in order <==> l in disk && l.Inside? && l.component == env.component(hostId)
  }

  // Every entry of the host's directory is a readable backup of that host whose
  // targets are allowed.
  ghost predicate StrictlyListable(env: Environment, disk: Disk, hostId: string) {
    forall l | l in disk && l.Inside? && l.component == env.component(hostId) ::
      Accepted(env, disk, hostId, l)
  }

  // The entry at `l` is a readable backup of the host with allowed targets.
  ghost predicate Accepted(env: Environment, disk: Disk, hostId: string, l: Location) {
    Loadable(env, disk, hostId, l) && TargetsAllowed(env, ManifestAt(env, disk, hostId, l))
  }

  // `found` is what the entries of `order` hold.
  ghost predicate FoundAt(
    env: Environment, disk: Disk, hostId: string, order: seq<Location>, found: seq<Manifest>
  )
  {
    && |found| == |order|
    && forall i | 0 <= i < |order| ::
         Accepted(env, disk, hostId, order[i]) && found[i] == ManifestAt(env, disk, hostId, order[i])
  }

  lemma {:induction false} StrictScanFinds(env: Environment, disk: Disk, hostId: string, order: seq<Location>)
    ensures var found := StrictScan(env, disk, hostId, order);
            && (found.Ok? <==> forall l | l in order :: Accepted(env, disk, hostId, l))
            && (found.Ok? ==> FoundAt(env, disk, hostId, order, found.value))
  {
    if order != [] {
      var init, last := order[..|order| - 1], order[|order| - 1];
      assert order == init + [last];
      StrictScanFinds(env, disk, hostId, init);
      AddedStrictly(env, disk, hostId, init, StrictScan(env, disk, hostId, init), last);
    }
  }

  lemma AddedStrictly(
    env: Environment, disk: Disk, hostId: string, init: seq<Location>, found: Outcome<seq<Manifest>>, last: Location
  )
    requires found.Ok? ==> FoundAt(env, disk, hostId, init, found.value)
    ensures var more := AddStrictly(env, disk, hostId, found, last);
            && (more.Ok? <==> found.Ok? && Accepted(env, disk, hostId, last))
            && (more.Ok? ==> FoundAt(env, disk, hostId, init + [last], more.value))
  {
  }

  // Strict listing succeeds exactly when nothing in the host's directory is
  // damaged or foreign; a repeated identity never happens.
  lemma StrictListSucceedsIff(env: Environment, s: Store, hostId: string, order: seq<Location>)
    requires Rooted(env, s) && HostOrder(env, s.disk, hostId, order)
    ensures StrictList(env, s, hostId, order).Ok? <==> StrictlyListable(env, s.disk, hostId)
  {
    StrictScanFinds(env, s.disk, hostId, order);
    var found := StrictScan(env, s.disk, hostId, order);
    if found.Ok? {
      forall i, j | 0 <= i < j < |found.value| ensures found.value[i].backupId != found.value[j].backupId {
        assert order[i] in order && order[j] in order && order[i] != order[j];
      }
    }
    if env.component(hostId) in s.hostFolders && found.Ok? {
      forall l | l in s.disk && l.Inside? && l.component == env.component(hostId)
        ensures Accepted(env, s.disk, hostId, l)
      {
        assert l in order;
      }
    }
  }

  // What strict listing shows is a plain listing of the host.
  lemma StrictListingAgrees(env: Environment, s: Store, hostId: string, order: seq<Location>)
    requires Rooted(env, s) && HostOrder(env, s.disk, hostId, order)
    requires StrictList(env, s, hostId, order).Ok?
    ensures Listing(Load(env, s, hostId), hostId, StrictList(env, s, hostId, order).value)
  {
    if env.component(hostId) in s.hostFolders {
      StrictScanIsValid(env, s.disk, hostId, order);
    }
    ListingIff(env, s, hostId, StrictList(env, s, hostId, order).value);
  }

  lemma StrictScanIsValid(env: Environment, disk: Disk, hostId: string, order: seq<Location>)
    requires HostOrder(env, disk, hostId, order) && StrictScan(env, disk, hostId, order).Ok?
    ensures var list := Sort(StrictScan(env, disk, hostId, order).value, NewerManifest());
            Arranged(list) && forall m: Manifest :: m in list <==> ValidEntry(env, disk, hostId, m.backupId, m)
  {
    var found := StrictScan(env, disk, hostId, order).value;
    StrictScanFinds(env, disk, hostId, order);
    ScannedAreValid(env, disk, hostId, order, found);
    SortedOnce(found);
    SameBag(Sort(found, NewerManifest()), found);
  }

  lemma ScannedAreValid(env: Environment, disk: Disk, hostId: string, order: seq<Location>, found: seq<Manifest>)
    requires HostOrder(env, disk, hostId, order) && FoundAt(env, disk, hostId, order, found)
    ensures forall m: Manifest :: m in found <==> ValidEntry(env, disk, hostId, m.backupId, m)
    ensures DistinctIds(found) && Distinct(found)
  {
    forall i, j | 0 <= i < j < |found| ensures found[i].backupId != found[j].backupId {
      assert order[i] != order[j];
    }
    forall m: Manifest ensures m in found <==> ValidEntry(env, disk, hostId, m.backupId, m) {
      if ValidEntry(env, disk, hostId, m.backupId, m) {
        var l := Inside(env.component(hostId), m.backupId);
        assert l in order;
        var i :| 0 <= i < |order| && order[i] == l;
        assert found[i] == m;
      }
    }
  }

  // Two listings of one host differ only in the order of backups of one time.
  lemma ListingsAgree(s: Store, hostId: string, a: seq<Manifest>, b: seq<Manifest>)
    requires Listing(s, hostId, a) && Listing(s, hostId, b)
    ensures |a| == |b| && Elements(a) == Elements(b)
    ensures forall i | 0 <= i < |a| :: a[i].createdAt == b[i].createdAt
    ensures (forall i, j | 0 <= i < j < |a| :: a[i].createdAt > a[j].createdAt) ==> a == b
  {
    assert Elements(a) == Elements(b);
    MembersCount(a);
    MembersCount(b);
    forall i | 0 <= i < |a| ensures a[i].createdAt == b[i].createdAt {
      NoEarlier(a, b, i);
      NoEarlier(b, a, i);
    }
    if forall i, j | 0 <= i < j < |a| :: a[i].createdAt > a[j].createdAt {
      forall i | 0 <= i < |a| ensures a[i] == b[i] {
        assert b[i] in Elements(a);
      }
    }
  }

  lemma NoEarlier(a: seq<Manifest>, b: seq<Manifest>, i: nat)
    requires Arranged(a) && Arranged(b) && Elements(a) == Elements(b) && i < |a| && i < |b|
    ensures a[i].createdAt <= b[i].createdAt
  {
    if a[i].createdAt > b[i].createdAt {
      FirstIds(a, i + 1);
      FirstIds(b, i);
      var first, ahead := set j | 0 <= j < i + 1 :: a[j].backupId, set j | 0 <= j < i :: b[j].backupId;
      forall id | id in first ensures id in ahead {
        var j :| 0 <= j < i + 1 && a[j].backupId == id;
        assert a[j].createdAt >= a[i].createdAt && a[j] in Elements(b);
        var k :| 0 <= k < |b| && b[k] == a[j];
      }
      SubsetCardinality(first, ahead);
    }
  }
}
