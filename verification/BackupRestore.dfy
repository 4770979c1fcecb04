// What a restore brings back.

module BackupRestore {
  import opened Foundations
  import opened Records
  import opened EvidenceStores
  import opened BackupStore

  ghost predicate SmoothRestore(ticks: RestoreSchedule) {
    forall i: nat :: ticks(i) == RestoreTick(false, NoFault)
  }

  // The target can be written or removed: a regular file or absent.
  ghost predicate Replaceable(env: Environment, targets: Targets, item: BackupItem) {
    && env.resolve(item.target).Some?
    && (env.resolve(item.target).value in targets ==> targets[env.resolve(item.target).value].Regular?)
  }

  lemma RestoreItemSmooth(env: Environment, disk: Disk, m: Manifest, item: BackupItem, targets: Targets)
    requires Replaceable(env, targets, item)
    requires item.existed ==> ItemContent(env, disk, m, item).Some?
    ensures RestoreItem(env, disk, m, item, targets, NoFault).1
  {
  }

  // Restoring the items after `n` leaves the target of item `n` alone.
  lemma TargetUntouched(
    env: Environment, disk: Disk, m: Manifest, targets: Targets, ticks: RestoreSchedule, n: nat
  )
    requires n < |m.items| && SeparateTargets(env, m) && Replaceable(env, targets, m.items[n])
    ensures Replaceable(env, RestoreDown(env, disk, m, targets, ticks, n + 1).targets, m.items[n])
  {
    RestoreIsFaithful(env, disk, m, targets, ticks, n + 1);
    var path := env.resolve(m.items[n].target).value;
    assert forall j | n + 1 <= j < |m.items| :: env.resolve(m.items[j].target) != Some(path);
  }

  // Without faults, every item whose target is replaceable is restored.
  lemma {:induction false} SmoothRestorePasses(
    env: Environment, disk: Disk, m: Manifest, targets: Targets, ticks: RestoreSchedule, n: nat
  )
    requires n <= |m.items| && SeparateTargets(env, m) && SmoothRestore(ticks)
    requires forall i | 0 <= i < |m.items| :: Replaceable(env, targets, m.items[i])
    requires forall i | 0 <= i < |m.items| && m.items[i].existed :: ItemContent(env, disk, m, m.items[i]).Some?
    ensures var p := RestoreDown(env, disk, m, targets, ticks, n);
            && !p.cancelled
            && forall j | n <= j < |m.items| :: j in p.passed && p.passed[j]
    decreases |m.items| - n
  {
    if n < |m.items| {
      SmoothRestorePasses(env, disk, m, targets, ticks, n + 1);
      TargetUntouched(env, disk, m, targets, ticks, n);
      var p := RestoreDown(env, disk, m, targets, ticks, n + 1);
      RestoreItemSmooth(env, disk, m, m.items[n], p.targets);
      assert ticks(n) == RestoreTick(false, NoFault);
    }
  }

  // Restoring puts every target in its snapshot's state and leaves every other
  // file alone.
  lemma SmoothRestoreMatches(env: Environment, disk: Disk, m: Manifest, targets: Targets, ticks: RestoreSchedule)
    requires SeparateTargets(env, m) && SmoothRestore(ticks)
    requires forall i | 0 <= i < |m.items| :: Replaceable(env, targets, m.items[i])
    requires AllPassed(Verification(env, disk, m))
    ensures var p := RestoreDown(env, disk, m, targets, ticks, 0);
            && !p.cancelled
            && (forall i | 0 <= i < |m.items| :: MatchesSnapshot(env, disk, m, m.items[i], p.targets))
            && (forall q | (forall j | 0 <= j < |m.items| :: env.resolve(m.items[j].target) != Some(q)) ::
                  (q in p.targets <==> q in targets) && (q in targets ==> p.targets[q] == targets[q]))
  {
    VerificationPassesIff(env, disk, m);
    SmoothRestorePasses(env, disk, m, targets, ticks, 0);
    RestoreIsFaithful(env, disk, m, targets, ticks, 0);
  }

  // ---- From capture to restore ----

  lemma {:induction false} TargetsOfDistinct(changes: seq<Change>)
    ensures Distinct(TargetsOf(changes))
  {
    if changes != [] {
      TargetsOfDistinct(changes[..|changes| - 1]);
    }
  }

  lemma {:induction false} CaptureAllFacts(env: Environment, targets: Targets, texts: seq<string>)
    requires CaptureAll(env, targets, texts).Ok?
    ensures var captured := CaptureAll(env, targets, texts).value;
            && |captured| == |texts|
            && forall i | 0 <= i < |texts| :: CaptureOne(env, targets, texts[i]) == Ok(captured[i])
  {
    if texts != [] {
      CaptureAllFacts(env, targets, texts[..|texts| - 1]);
    }
  }

  // What `create` recorded about each target: its own resolved path and the
  // node that was there.
  ghost predicate Recorded(env: Environment, targets: Targets, item: Captured) {
    && env.resolve(item.target) == Some(item.target)
    && (item.existed <==> item.target in targets)
    && (item.existed ==>
          && targets[item.target].Regular?
          && item.content == Some(targets[item.target].content)
          && item.mode == Some(targets[item.target].mode)
          && item.uid == Some(targets[item.target].uid)
          && item.gid == Some(targets[item.target].gid))
  }

  lemma CapturedIsRecorded(env: Environment, targets: Targets, text: string, item: Captured)
    requires CaptureOne(env, targets, text) == Ok(item) && item.target == text
    ensures Recorded(env, targets, item)
  {
  }

  lemma PersistedTargets(
    env: Environment, s: Store, r: BackupRequest, captured: seq<Captured>, halt: Halt, created: int
  )
    requires Persist(env, s, r, captured, false, halt, created).1.Ok?
    ensures |captured| == |TargetsOf(r.changes)|
    ensures forall i | 0 <= i < |captured| :: captured[i].target == TargetsOf(r.changes)[i]
  {
  }

  // `create` accepts a target only if its resolved path is its own name, so
  // distinct changes can never restore the same file.
  lemma CreateRecords(
    env: Environment, s: Store, targets: Targets, r: BackupRequest, halt: Halt, created: int
  ) returns (captured: seq<Captured>)
    requires Create(env, s, targets, r, halt, created).1.Ok?
    ensures CaptureAll(env, targets, TargetsOf(r.changes)) == Ok(captured)
    ensures Create(env, s, targets, r, halt, created) == Persist(env, s, r, captured, false, halt, created)
    ensures forall i | 0 <= i < |captured| :: captured[i].target == TargetsOf(r.changes)[i]
    ensures forall i | 0 <= i < |captured| :: Recorded(env, targets, captured[i])
    ensures |captured| == |TargetsOf(r.changes)|
  {
    captured := CaptureAll(env, targets, TargetsOf(r.changes)).value;
    CaptureAllFacts(env, targets, TargetsOf(r.changes));
    PersistedTargets(env, s, r, captured, halt, created);
    forall i | 0 <= i < |captured| ensures Recorded(env, targets, captured[i]) {
      CapturedIsRecorded(env, targets, TargetsOf(r.changes)[i], captured[i]);
    }
  }

  lemma CreatedTargetsSeparate(
    env: Environment, s: Store, targets: Targets, r: BackupRequest, halt: Halt, created: int
  )
    requires Create(env, s, targets, r, halt, created).1.Ok?
    ensures SeparateTargets(env, Create(env, s, targets, r, halt, created).1.value)
  {
    var captured := CreateRecords(env, s, targets, r, halt, created);
    var m := Create(env, s, targets, r, halt, created).1.value;
    TargetsOfDistinct(r.changes);
    forall i, j | 0 <= i < j < |m.items| && env.resolve(m.items[i].target).Some?
      ensures env.resolve(m.items[i].target) != env.resolve(m.items[j].target)
    {
      assert m.items[i].target == captured[i].target && m.items[j].target == captured[j].target;
      assert Recorded(env, targets, captured[i]) && Recorded(env, targets, captured[j]);
    }
  }

  // One target after the restore, compared with the target at creation.
  ghost predicate BroughtBack(original: Targets, restored: Targets, path: string) {
    && (path in restored <==> path in original)
    && (path in original ==>
          && original[path].Regular? && restored[path].Regular?
          && restored[path].content == original[path].content
          && restored[path].uid == original[path].uid
          && restored[path].gid == original[path].gid
          && (restored[path].mode == original[path].mode <==> original[path].mode != 0))
  }

  // Item `i` of a fresh backup is the recorded target, and can be put back over
  // any regular or missing file.
  lemma CreatedItem(
    env: Environment, s: Store, original: Targets, r: BackupRequest, halt: Halt, created: int,
    changed: Targets, captured: seq<Captured>, i: nat
  )
    requires Persist(env, s, r, captured, false, halt, created).1.Ok?
    requires i < |captured| && captured[i].target == TargetsOf(r.changes)[i] && Recorded(env, original, captured[i])
    requires |captured| == |TargetsOf(r.changes)|
    requires forall j | 0 <= j < |r.changes| :: r.changes[j].target in changed ==> changed[r.changes[j].target].Regular?
    ensures var m := Persist(env, s, r, captured, false, halt, created).1.value;
            && |m.items| == |captured| && m.items[i] == ItemOf(r, i, captured[i])
            && Replaceable(env, changed, m.items[i])
  {
    assert TargetsOf(r.changes)[i] in TargetsOf(r.changes);
    TargetIsChanged(r.changes, captured[i].target);
  }

  lemma CreatedItems(
    env: Environment, s: Store, original: Targets, r: BackupRequest, halt: Halt, created: int, changed: Targets,
    captured: seq<Captured>
  )
    requires Persist(env, s, r, captured, false, halt, created).1.Ok?
    requires |captured| == |TargetsOf(r.changes)|
    requires forall i | 0 <= i < |captured| ::
               captured[i].target == TargetsOf(r.changes)[i] && Recorded(env, original, captured[i])
    requires forall j | 0 <= j < |r.changes| :: r.changes[j].target in changed ==> changed[r.changes[j].target].Regular?
    ensures var m := Persist(env, s, r, captured, false, halt, created).1.value;
            && |m.items| == |captured|
            && forall i | 0 <= i < |captured| ::
                 && m.items[i] == ItemOf(r, i, captured[i]) && Replaceable(env, changed, m.items[i])
                 && env.resolve(m.items[i].target) == Some(TargetsOf(r.changes)[i])
  {
    forall i | 0 <= i < |captured|
      ensures var m := Persist(env, s, r, captured, false, halt, created).1.value;
              && |m.items| == |captured| && m.items[i] == ItemOf(r, i, captured[i])
              && Replaceable(env, changed, m.items[i])
    {
      CreatedItem(env, s, original, r, halt, created, changed, captured, i);
    }
  }

  // A target that matches the snapshot of what was recorded is back.
  lemma MatchBringsBack(
    env: Environment, disk: Disk, m: Manifest, r: BackupRequest, original: Targets, restored: Targets, i: nat,
    item: Captured
  )
    requires Recorded(env, original, item) && ItemOf(r, i, item).existed == item.existed
    requires item.existed ==> ItemContent(env, disk, m, ItemOf(r, i, item)) == item.content
    requires MatchesSnapshot(env, disk, m, ItemOf(r, i, item), restored)
    ensures BroughtBack(original, restored, item.target)
  {
  }

  predicate SameEntry(a: Disk, b: Disk, l: Location) {
    l in a && l in b && a[l] == b[l]
  }

  // Create, then change the targets in any way that leaves them regular files
  // or absent, then restore: existence, content, owner and non-zero mode of
  // every target come back, and no other file changes.
  lemma CreateThenRestore(
    env: Environment, s: Store, original: Targets, r: BackupRequest, halt: Halt, created: int,
    disk: Disk, changed: Targets, ticks: RestoreSchedule
  )
    requires LawfulCipher(env) && SmoothRestore(ticks)
    requires Create(env, s, original, r, halt, created).1.Ok?
    requires var (after, m) := Create(env, s, original, r, halt, created);
             SameEntry(after.disk, disk, m.value.storageLocation)
    requires forall i | 0 <= i < |r.changes| ::
               r.changes[i].target in changed ==> changed[r.changes[i].target].Regular?
    ensures var m := Create(env, s, original, r, halt, created).1.value;
            var p := RestoreDown(env, disk, m, changed, ticks, 0);
            && AllPassed(Verification(env, disk, m))
            && !p.cancelled
            && (forall t | t in TargetsOf(r.changes) :: BroughtBack(original, p.targets, t))
            && (forall q | q !in TargetsOf(r.changes) ::
                  (q in p.targets <==> q in changed) && (q in changed ==> p.targets[q] == changed[q]))
  {
    var captured := CreateRecords(env, s, original, r, halt, created);
    CreatedTargetsSeparate(env, s, original, r, halt, created);
    PersistThenRestore(env, s, original, r, captured, halt, created, disk, changed, ticks);
  }

  lemma PersistThenRestore(
    env: Environment, s: Store, original: Targets, r: BackupRequest, captured: seq<Captured>, halt: Halt,
    created: int, disk: Disk, changed: Targets, ticks: RestoreSchedule
  )
    requires LawfulCipher(env) && SmoothRestore(ticks)
    requires |captured| == |TargetsOf(r.changes)|
    requires forall i | 0 <= i < |captured| :: captured[i].target == TargetsOf(r.changes)[i]
    requires forall i | 0 <= i < |captured| :: Recorded(env, original, captured[i])
    requires Persist(env, s, r, captured, false, halt, created).1.Ok?
    requires var (after, m) := Persist(env, s, r, captured, false, halt, created);
             && SameEntry(after.disk, disk, m.value.storageLocation)
             && SeparateTargets(env, m.value)
    requires forall i | 0 <= i < |r.changes| ::
               r.changes[i].target in changed ==> changed[r.changes[i].target].Regular?
    ensures var m := Persist(env, s, r, captured, false, halt, created).1.value;
            var p := RestoreDown(env, disk, m, changed, ticks, 0);
            && AllPassed(Verification(env, disk, m))
            && !p.cancelled
            && (forall t | t in TargetsOf(r.changes) :: BroughtBack(original, p.targets, t))
            && (forall q | q !in TargetsOf(r.changes) ::
                  (q in p.targets <==> q in changed) && (q in changed ==> p.targets[q] == changed[q]))
  {
    var (after, created') := Persist(env, s, r, captured, false, halt, created);
    var m := created'.value;
    CreatedBackupVerifies(env, s, r, captured, false, halt, created);
    SameEntryVerifies(env, after.disk, disk, m);
    CreatedItems(env, s, original, r, halt, created, changed, captured);
    SmoothRestoreMatches(env, disk, m, changed, ticks);
    var p := RestoreDown(env, disk, m, changed, ticks, 0);
    forall t | t in TargetsOf(r.changes) ensures BroughtBack(original, p.targets, t) {
      var i :| 0 <= i < |captured| && TargetsOf(r.changes)[i] == t;
      ItemBroughtBack(env, s, original, r, captured, halt, created, disk, p.targets, i);
    }
  }

  lemma ItemBroughtBack(
    env: Environment, s: Store, original: Targets, r: BackupRequest, captured: seq<Captured>, halt: Halt, created: int,
    disk: Disk, restored: Targets, i: nat
  )
    requires LawfulCipher(env) && i < |captured| && Recorded(env, original, captured[i])
    requires Persist(env, s, r, captured, false, halt, created).1.Ok?
    requires var (after, m) := Persist(env, s, r, captured, false, halt, created);
             && SameEntry(after.disk, disk, m.value.storageLocation)
             && MatchesSnapshot(env, disk, m.value, ItemOf(r, i, captured[i]), restored)
    ensures BroughtBack(original, restored, captured[i].target)
  {
    var (after, m) := Persist(env, s, r, captured, false, halt, created);
    FreshItemContent(env, s, r, captured, false, halt, created, i);
    SameEntrySameContent(env, after.disk, disk, m.value, m.value.items[i]);
    MatchBringsBack(env, disk, m.value, r, original, restored, i, captured[i]);
  }

  lemma {:induction false} TargetIsChanged(changes: seq<Change>, target: string)
    requires target in TargetsOf(changes)
    ensures exists i :: 0 <= i < |changes| && changes[i].target == target
  {
    var n := |changes| - 1;
    if changes[n].target != target {
      TargetIsChanged(changes[..n], target);
      var i :| 0 <= i < n && changes[..n][i].target == target;
      assert changes[i].target == target;
    }
  }

  lemma SameEntrySameContent(env: Environment, a: Disk, b: Disk, m: Manifest, item: BackupItem)
    requires SameEntry(a, b, m.storageLocation)
    ensures ItemContent(env, a, m, item) == ItemContent(env, b, m, item)
  {
  }

  lemma SameEntryVerifies(env: Environment, a: Disk, b: Disk, m: Manifest)
    requires SameEntry(a, b, m.storageLocation)
    requires AllPassed(Verification(env, a, m))
    ensures AllPassed(Verification(env, b, m))
  {
    VerificationPassesIff(env, a, m);
    VerificationPassesIff(env, b, m);
    forall i | 0 <= i < |m.items| ensures ItemPasses(env, b, m, m.items[i]) {
      SameEntrySameContent(env, a, b, m, m.items[i]);
    }
  }
}
