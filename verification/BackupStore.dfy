// The local backup store: capturing targets, verifying a backup, restoring it.

module BackupStore {
  import opened Foundations
  import opened Records
  import opened EvidenceStores

  const MAX_ITEM_BYTES: nat := 16 * 1024 * 1024
  const MAX_ENVELOPE_BYTES: nat := ((16 * 1024 * 1024 + 16 + 2) / 3) * 4 + 4096
  const DEFAULT_MODE: nat := 384  // 0o600

  // What a path outside the store holds.
  datatype Node = Regular(content: string, mode: nat, uid: int, gid: int) | Symlink | Folder

  type Targets = map<string, Node>

  // What an encrypted item is bound to.
  datatype Binding = Binding(
    backupId: string, hostFingerprint: Option<string>, target: string, keyReference: string, keyScope: string
  )

  // Hashes, path resolution inside the allowed roots, the directory name of a
  // host (a truncated hash, so not assumed injective), the cipher, and the
  // owner of files the process creates.
  datatype Environment = Environment(
    sha: Sha256,
    sum: string -> Digest,
    resolve: string -> Option<string>,
    component: string -> string,
    encrypt: (string, Binding) -> Outcome<string>,
    decrypt: (string, Binding) -> Outcome<string>,
    processUid: int,
    processGid: int
  )

  // The cipher is lawful: what it encrypts it decrypts under the same binding,
  // and its envelopes are within the limit that `verify` enforces.
  ghost predicate LawfulCipher(env: Environment) {
    forall content, b | |content| <= MAX_ITEM_BYTES && env.encrypt(content, b).Ok? ::
      && env.decrypt(env.encrypt(content, b).value, b) == Ok(content)
      && |env.encrypt(content, b).value| <= MAX_ENVELOPE_BYTES
  }

  datatype Change = Change(target: string, beforeHash: Option<string>)

  datatype BackupRequest = BackupRequest(
    backupId: string,
    planId: string,
    hostId: string,
    hostFingerprint: Option<string>,
    changeSetHost: string,
    changeSetHash: string,
    changes: seq<Change>,
    encryption: Encryption
  )

  datatype Captured = Captured(
    target: string, existed: bool, content: Option<string>, sha256: Option<string>, mode: Option<int>,
    uid: Option<int>, gid: Option<int>
  )

  // `tuple(dict.fromkeys(...))`: first occurrences, in order.
  function TargetsOf(changes: seq<Change>): seq<string> {
    if changes == [] then []
    else
      var init := TargetsOf(changes[..|changes| - 1]);
      var last := changes[|changes| - 1].target;
      if last in init then init else init + [last]
  }

  // `Path(backup_id).name == backup_id` for a non-empty ID
  predicate SingleComponent(id: string) {
    id != "" && id != "." && '/' !in id
  }

  // Observe one target.
  function CaptureOne(env: Environment, targets: Targets, text: string): Outcome<Captured> {
    match env.resolve(text)
    case None => Raised(AdapterError("target_not_allowed"))
    case Some(path) =>
      if path !in targets then Ok(Captured(path, false, None, None, None, None, None))
      else match targets[path]
           case Symlink => Raised(AdapterError("symlink_rejected"))
           case Folder => Raised(AdapterError("unsupported_target"))
           case Regular(content, mode, uid, gid) =>
             if |content| > MAX_ITEM_BYTES then Raised(AdapterError("item_too_large"))
             else Ok(Captured(path, true, Some(content), Some(env.sum(content)), Some(mode), Some(uid), Some(gid)))
  }

  function CaptureAll(env: Environment, targets: Targets, texts: seq<string>): Outcome<seq<Captured>> {
    if texts == [] then Ok([])
    else
      match CaptureAll(env, targets, texts[..|texts| - 1])
      case Raised(e) => Raised(e)
      case Ok(before) =>
        match CaptureOne(env, targets, texts[|texts| - 1])
        case Raised(e) => Raised(e)
        case Ok(one) => Ok(before + [one])
  }

  // All changes of one target agree on the hash before.
  predicate OneBeforeHash(changes: seq<Change>, target: string) {
    forall i, j | 0 <= i < |changes| && 0 <= j < |changes|
                  && changes[i].target == target && changes[j].target == target ::
      changes[i].beforeHash == changes[j].beforeHash
  }

  predicate Expected(changes: seq<Change>, item: Captured) {
    forall i | 0 <= i < |changes| && changes[i].target == item.target :: changes[i].beforeHash == item.sha256
  }

  // What `_persist_captured` demands of each observed item.
  predicate Persistable(env: Environment, request: BackupRequest, item: Captured, requirePrecondition: bool) {
    && env.resolve(item.target).Some?
    && OneBeforeHash(request.changes, item.target)
    && (requirePrecondition ==> Expected(request.changes, item))
    && (if item.existed
        then item.content.Some? && item.sha256.Some? && |item.content.value| <= MAX_ITEM_BYTES
             && env.sum(item.content.value) == item.sha256.value
        else item.content.None? && item.sha256.None?)
  }

  predicate AllPersistable(
    env: Environment, request: BackupRequest, captured: seq<Captured>, requirePrecondition: bool
  )
  {
    && |captured| == |TargetsOf(request.changes)|
    && (forall i | 0 <= i < |captured| :: captured[i].target == TargetsOf(request.changes)[i])
    && forall i | 0 <= i < |captured| :: Persistable(env, request, captured[i], requirePrecondition)
  }

  // ---- The store's own directory ----

  // The items folder of a backup, and whether it holds anything but item files
  // (or is not a folder at all).
  datatype ItemFolder = NoItems | Items(files: map<ItemRef, string>, foreign: bool)

  // A directory below a host's directory, or anything else found there. Its
  // items folder, its manifest file if any, and whether it holds other entries.
  datatype Entry =
    | Backup(items: ItemFolder, manifest: Option<Document<Manifest>>, unexpected: bool)
    | Stray

  type Disk = map<Location, Entry>

  function LocationOf(env: Environment, hostId: string, backupId: string): Location {
    Inside(env.component(hostId), backupId)
  }

  function BindingOf(m: Manifest, target: string): Binding {
    Binding(m.backupId, m.hostFingerprint, target, m.encryption.keyReference.GetOr(""), m.encryption.keyScope.GetOr(""))
  }

  function RequestBinding(r: BackupRequest, target: string): Binding {
    Binding(r.backupId, r.hostFingerprint, target, r.encryption.keyReference.GetOr(""), r.encryption.keyScope.GetOr(""))
  }

  function Encode(env: Environment, content: string, enabled: bool, b: Binding): Outcome<string> {
    if enabled then env.encrypt(content, b) else Ok(content)
  }

  function Decode(env: Environment, stored: string, enabled: bool, b: Binding): Outcome<string> {
    if enabled then env.decrypt(stored, b) else Ok(stored)
  }

  function RefOf(r: BackupRequest, index: nat, item: Captured): Option<ItemRef> {
    if item.existed && item.sha256.Some? then Some(ItemRef(index, item.sha256.value, r.encryption.enabled)) else None
  }

  function ItemOf(r: BackupRequest, index: nat, item: Captured): BackupItem {
    BackupItem(item.target, item.existed, RefOf(r, index, item), item.sha256, item.mode, item.uid, item.gid)
  }

  function ItemsOf(r: BackupRequest, captured: seq<Captured>): seq<BackupItem> {
    seq(|captured|, i requires 0 <= i < |captured| => ItemOf(r, i, captured[i]))
  }

  // How much of a backup's directories exists when making them raises.
  datatype Made = NothingMade | HostMade | BackupMade | ItemsMade

  // What stops a create from outside: a cancellation, or a write that raises
  // before or after it took effect.
  datatype Halt =
    | NoHalt
    | CancelledFirst
    | FolderHalt(made: Made)
    | CancelledAt(index: nat)
    | ItemHalt(index: nat, written: bool)
    | ManifestHalt(written: bool)

  // The item files written so far, and what stopped the loop.
  datatype WriteProgress = WriteProgress(items: map<ItemRef, string>, error: Option<Error>)

  function WriteItems(
    env: Environment, r: BackupRequest, captured: seq<Captured>, halt: Halt
  ): WriteProgress
  {
    if captured == [] then WriteProgress(map[], None)
    else
      var n := |captured| - 1;
      var before := WriteItems(env, r, captured[..n], halt);
      if before.error.Some? then before
      else if halt == CancelledAt(n) then before.(error := Some(OperationCancelled))
      else WriteItem(env, r, n, captured[n], before.items, halt)
  }

  function WriteItem(
    env: Environment, r: BackupRequest, index: nat, item: Captured, items: map<ItemRef, string>, halt: Halt
  ): WriteProgress
  {
    if RefOf(r, index, item).None? || item.content.None? then WriteProgress(items, None)
    else
      match Encode(env, item.content.value, r.encryption.enabled, RequestBinding(r, item.target))
      case Raised(e) => WriteProgress(items, Some(e))
      case Ok(stored) =>
        if halt == ItemHalt(index, false) then WriteProgress(items, Some(OsError))
        else WriteProgress(items[RefOf(r, index, item).value := stored],
                           if halt == ItemHalt(index, true) then Some(OsError) else None)
  }

  const RETENTION_PERIOD: int := 30 * DAYS

  function NewManifest(env: Environment, r: BackupRequest, captured: seq<Captured>, created: int): Manifest {
    var m := Manifest(r.backupId, r.planId, r.changeSetHash, r.hostId, r.hostFingerprint, ItemsOf(r, captured), "",
                      LocationOf(env, r.hostId, r.backupId), r.encryption, false, created,
                      Some(created + RETENTION_PERIOD), true);
    m.(manifestHash := HashManifest(env.sha, m))
  }

  // ---- Verification ----

  datatype Check = ManifestCheck(passed: bool) | LocationCheck(passed: bool) | ItemCheck(index: nat, passed: bool)

  predicate ManifestPasses(env: Environment, disk: Disk, m: Manifest) {
    && m.complete
    && m.manifestHash == HashManifest(env.sha, m)
    && m.storageLocation in disk
    && disk[m.storageLocation].Backup?
    && disk[m.storageLocation].manifest == Some(Stored(m))
  }

  // The plaintext of a stored item, when it can be read.
  function ItemContent(env: Environment, disk: Disk, m: Manifest, item: BackupItem): Option<string> {
    if item.contentRef.None? || m.storageLocation !in disk || !disk[m.storageLocation].Backup?
       || disk[m.storageLocation].items.NoItems?
       || item.contentRef.value !in disk[m.storageLocation].items.files
    then None
    else
      var stored := disk[m.storageLocation].items.files[item.contentRef.value];
      if |stored| > (if m.encryption.enabled then MAX_ENVELOPE_BYTES else MAX_ITEM_BYTES) then None
      else match Decode(env, stored, m.encryption.enabled, BindingOf(m, item.target))
           case Raised(_) => None
           case Ok(content) => Some(content)
  }

  predicate ItemPasses(env: Environment, disk: Disk, m: Manifest, item: BackupItem) {
    if !item.existed then item.contentRef.None?
    else
      var content := ItemContent(env, disk, m, item);
      content.Some? && Some(env.sum(content.value)) == item.sha256
  }

  function ItemChecks(env: Environment, disk: Disk, m: Manifest): seq<Check> {
    seq(|m.items|, i requires 0 <= i < |m.items| => ItemCheck(i, ItemPasses(env, disk, m, m.items[i])))
  }

  function Verification(env: Environment, disk: Disk, m: Manifest): seq<Check> {
    [ManifestCheck(ManifestPasses(env, disk, m))]
    + (if m.storageLocation.Outside? then [LocationCheck(false)] else ItemChecks(env, disk, m))
  }

  predicate AllPassed(checks: seq<Check>) {
    forall i | 0 <= i < |checks| :: checks[i].passed
  }

  // Every check passes exactly when the manifest on disk is this one, in the
  // store, and every item decodes to content with the recorded hash.
  lemma VerificationPassesIff(env: Environment, disk: Disk, m: Manifest)
    ensures AllPassed(Verification(env, disk, m))
            <==> && ManifestPasses(env, disk, m)
                 && m.storageLocation.Inside?
                 && forall i | 0 <= i < |m.items| :: ItemPasses(env, disk, m, m.items[i])
  {
    var checks := Verification(env, disk, m);
    assert checks[0] == ManifestCheck(ManifestPasses(env, disk, m));
    if m.storageLocation.Inside? {
      assert forall i | 0 <= i < |m.items| :: checks[i + 1] == ItemCheck(i, ItemPasses(env, disk, m, m.items[i]));
    } else {
      assert checks[1] == LocationCheck(false);
    }
  }

  // ---- Restoring ----

  // What goes wrong while one item is restored.
  datatype RestoreFault =
    | NoFault
    | WriteRefused       // nothing was replaced or removed
    | WriteNotDurable    // replaced or removed, but the directory fsync raised
    | OwnerRefused       // replaced, but chown raised

  datatype RestoreTick = RestoreTick(cancelled: bool, fault: RestoreFault)

  type RestoreSchedule = nat -> RestoreTick

  // `item.mode or 0o600`
  function RestoredMode(mode: Option<int>): nat {
    if mode.Some? && mode.value > 0 then mode.value else DEFAULT_MODE
  }

  // The file a restored item leaves behind.
  function RestoredNode(env: Environment, item: BackupItem, content: string): Node {
    if item.uid.Some? && item.gid.Some?
    then Regular(content, RestoredMode(item.mode), item.uid.value, item.gid.value)
    else Regular(content, RestoredMode(item.mode), env.processUid, env.processGid)
  }

  // Restore one item; true when it is reported as passed.
  function RestoreItem(
    env: Environment, disk: Disk, m: Manifest, item: BackupItem, targets: Targets, fault: RestoreFault
  ): (Targets, bool)
  {
    match env.resolve(item.target)
    case None => (targets, false)
    case Some(path) =>
      if path in targets && targets[path].Symlink? then (targets, false)
      else if item.existed then RestoreContent(env, disk, m, item, path, targets, fault)
      else if path !in targets then (targets, true)
      else if targets[path].Folder? || fault == WriteRefused then (targets, false)
      else (targets - {path}, fault != WriteNotDurable)
  }

  function RestoreContent(
    env: Environment, disk: Disk, m: Manifest, item: BackupItem, path: string, targets: Targets, fault: RestoreFault
  ): (Targets, bool)
  {
    match ItemContent(env, disk, m, item)
    case None => (targets, false)
    case Some(content) =>
      var owned := RestoredNode(env, item, content);
      var written := owned.(uid := env.processUid, gid := env.processGid);
      if (path in targets && targets[path].Folder?) || fault == WriteRefused then (targets, false)
      else if fault == WriteNotDurable || (fault == OwnerRefused && item.uid.Some? && item.gid.Some?)
        then (targets[path := written], false)
      else (targets[path := owned], true)
  }

  // The state of the loop after items `n`, `n + 1`, ... have been handled; items
  // are restored last to first, and cancellation raises out of the loop.
  datatype RestoreProgress = RestoreProgress(targets: Targets, passed: map<nat, bool>, cancelled: bool)

  function RestoreDown(
    env: Environment, disk: Disk, m: Manifest, targets: Targets, ticks: RestoreSchedule, n: nat
  ): RestoreProgress
    requires n <= |m.items|
    decreases |m.items| - n
  {
    if n == |m.items| then RestoreProgress(targets, map[], false)
    else
      var p := RestoreDown(env, disk, m, targets, ticks, n + 1);
      if p.cancelled then p
      else if ticks(n).cancelled then p.(cancelled := true)
      else
        var (after, passed) := RestoreItem(env, disk, m, m.items[n], p.targets, ticks(n).fault);
        RestoreProgress(after, p.passed[n := passed], false)
  }

  // What a snapshot says one target should be.
  ghost predicate MatchesSnapshot(env: Environment, disk: Disk, m: Manifest, item: BackupItem, targets: Targets) {
    && env.resolve(item.target).Some?
    && var path := env.resolve(item.target).value;
       if item.existed
       then && ItemContent(env, disk, m, item).Some?
            && path in targets && targets[path] == RestoredNode(env, item, ItemContent(env, disk, m, item).value)
       else path !in targets
  }

  // No two items restore the same path.
  ghost predicate SeparateTargets(env: Environment, m: Manifest) {
    forall i, j | 0 <= i < j < |m.items| && env.resolve(m.items[i].target).Some? ::
      env.resolve(m.items[i].target) != env.resolve(m.items[j].target)
  }

  lemma RestoreItemTouchesOwnPath(
    env: Environment, disk: Disk, m: Manifest, item: BackupItem, targets: Targets, fault: RestoreFault
  )
    ensures var (after, passed) := RestoreItem(env, disk, m, item, targets, fault);
            && (forall q | Some(q) != env.resolve(item.target) ::
                  (q in after <==> q in targets) && (q in targets ==> after[q] == targets[q]))
            && (passed ==> MatchesSnapshot(env, disk, m, item, after))
  {
  }

  lemma SnapshotIgnoresOthers(
    env: Environment, disk: Disk, m: Manifest, item: BackupItem, before: Targets, after: Targets
  )
    requires MatchesSnapshot(env, disk, m, item, before)
    requires var path := env.resolve(item.target).value;
             (path in after <==> path in before) && (path in before ==> after[path] == before[path])
    ensures MatchesSnapshot(env, disk, m, item, after)
  {
  }

  // However the restore goes, every item reported as passed matches its
  // snapshot when the restore stops, and no other file is touched.
  lemma {:induction false} RestoreIsFaithful(
    env: Environment, disk: Disk, m: Manifest, targets: Targets, ticks: RestoreSchedule, n: nat
  )
    requires n <= |m.items| && SeparateTargets(env, m)
    ensures var p := RestoreDown(env, disk, m, targets, ticks, n);
            && (forall j | j in p.passed :: n <= j < |m.items|)
            && (forall j | j in p.passed && p.passed[j] :: MatchesSnapshot(env, disk, m, m.items[j], p.targets))
            && (forall q | (forall j | n <= j < |m.items| :: env.resolve(m.items[j].target) != Some(q)) ::
                  (q in p.targets <==> q in targets) && (q in targets ==> p.targets[q] == targets[q]))
    decreases |m.items| - n
  {
    if n < |m.items| {
      RestoreIsFaithful(env, disk, m, targets, ticks, n + 1);
      var p := RestoreDown(env, disk, m, targets, ticks, n + 1);
      if !p.cancelled && !ticks(n).cancelled {
        var (after, passed) := RestoreItem(env, disk, m, m.items[n], p.targets, ticks(n).fault);
        RestoreItemTouchesOwnPath(env, disk, m, m.items[n], p.targets, ticks(n).fault);
        forall j | j in p.passed && p.passed[j] ensures MatchesSnapshot(env, disk, m, m.items[j], after) {
          SnapshotIgnoresOthers(env, disk, m, m.items[j], p.targets, after);
        }
      }
    }
  }

  // ---- The store's state and `create` ----

  type Cache = map<(string, string), Manifest>

  datatype Store = Store(disk: Disk, hostFolders: set<string>, cache: Cache)

  // Whether `items` can be made: nothing is there yet, or a backup directory that
  // has lost its items folder.
  predicate CanMake(disk: Disk, location: Location) {
    location in disk ==> disk[location].Backup? && disk[location].items.NoItems?
  }

  // The backup directory as it is before its items folder is made.
  function Ground(disk: Disk, location: Location): (entry: Entry)
    ensures entry.Backup?
  {
    if location in disk && disk[location].Backup? then disk[location] else Backup(NoItems, None, false)
  }

  // What making the directories leaves behind when it raises.
  function HalfMade(s: Store, component: string, location: Location, made: Made): Store {
    var folders := s.hostFolders + {component};
    match made
    case NothingMade => s
    case HostMade => s.(hostFolders := folders)
    case BackupMade => Store(s.disk[location := Ground(s.disk, location)], folders, s.cache)
    case ItemsMade =>
      Store(s.disk[location := Ground(s.disk, location).(items := Items(map[], false))], folders, s.cache)
  }

  // The items folder, the items and the manifest; a manifest that was written but
  // not made durable is not cached.
  function FillBackup(
    env: Environment, s: Store, r: BackupRequest, captured: seq<Captured>, halt: Halt, created: int
  ): (Store, Outcome<Manifest>)
  {
    var location := LocationOf(env, r.hostId, r.backupId);
    var written := WriteItems(env, r, captured, halt);
    var m := NewManifest(env, r, captured, created);
    var folders := s.hostFolders + {env.component(r.hostId)};
    var entry := Ground(s.disk, location).(items := Items(written.items, false));
    if written.error.Some? || halt == ManifestHalt(false)
    then (Store(s.disk[location := entry], folders, s.cache), Raised(written.error.GetOr(OsError)))
    else
      var disk := s.disk[location := entry.(manifest := Some(Stored(m)))];
      if halt == ManifestHalt(true) then (Store(disk, folders, s.cache), Raised(OsError))
      else (Store(disk, folders, s.cache[(m.hostId, m.backupId) := m]), Ok(m))
  }

  // `_persist_captured`
  function Persist(
    env: Environment, s: Store, r: BackupRequest, captured: seq<Captured>, requirePrecondition: bool,
    halt: Halt, created: int
  ): (Store, Outcome<Manifest>)
  {
    var location := LocationOf(env, r.hostId, r.backupId);
    if halt.CancelledFirst? then (s, Raised(OperationCancelled))
    else if r.hostId != r.changeSetHost then (s, Raised(AdapterError("host_mismatch")))
    else if !SingleComponent(r.backupId) then (s, Raised(AdapterError("invalid_backup_id")))
    else if !AllPersistable(env, r, captured, requirePrecondition)
      then (s, Raised(AdapterError("captured_backup_mismatch")))
    else if !CanMake(s.disk, location) then (s, Raised(OsError))
    else if halt.FolderHalt? then (HalfMade(s, env.component(r.hostId), location, halt.made), Raised(OsError))
    else FillBackup(env, s, r, captured, halt, created)
  }

  function Create(
    env: Environment, s: Store, targets: Targets, r: BackupRequest, halt: Halt, created: int
  ): (Store, Outcome<Manifest>)
  {
    if halt.CancelledFirst? then (s, Raised(OperationCancelled))
    else if r.hostId != r.changeSetHost then (s, Raised(AdapterError("host_mismatch")))
    else if !SingleComponent(r.backupId) then (s, Raised(AdapterError("invalid_backup_id")))
    else
      match CaptureAll(env, targets, TargetsOf(r.changes))
      case Raised(e) => (s, Raised(e))
      case Ok(captured) => Persist(env, s, r, captured, false, halt, created)
  }

  // Item `i` of `captured` is among the written files, encoded.
  ghost predicate HasWritten(env: Environment, r: BackupRequest, items: map<ItemRef, string>, i: nat, item: Captured) {
    RefOf(r, i, item).Some? && item.content.Some? ==>
      var encoded := Encode(env, item.content.value, r.encryption.enabled, RequestBinding(r, item.target));
      var ref := RefOf(r, i, item).value;
      encoded.Ok? && ref in items && items[ref] == encoded.value
  }

  lemma {:induction false} WrittenItems(
    env: Environment, r: BackupRequest, captured: seq<Captured>, halt: Halt
  )
    requires WriteItems(env, r, captured, halt).error.None?
    ensures var items := WriteItems(env, r, captured, halt).items;
            && (forall ref | ref in items :: ref.index < |captured|)
            && forall i | 0 <= i < |captured| :: HasWritten(env, r, items, i, captured[i])
  {
    if captured != [] {
      var init := captured[..|captured| - 1];
      WrittenItems(env, r, init, halt);
      assert forall i | 0 <= i < |init| :: init[i] == captured[i];
      WrittenOneMore(env, r, captured, WriteItems(env, r, init, halt).items, halt);
    }
  }

  lemma WrittenOneMore(
    env: Environment, r: BackupRequest, captured: seq<Captured>, before: map<ItemRef, string>, halt: Halt
  )
    requires captured != [] && forall ref | ref in before :: ref.index < |captured| - 1
    requires forall i | 0 <= i < |captured| - 1 :: HasWritten(env, r, before, i, captured[i])
    requires WriteItem(env, r, |captured| - 1, captured[|captured| - 1], before, halt).error.None?
    ensures var items := WriteItem(env, r, |captured| - 1, captured[|captured| - 1], before, halt).items;
            && (forall ref | ref in items :: ref.index < |captured|)
            && forall i | 0 <= i < |captured| :: HasWritten(env, r, items, i, captured[i])
  {
  }

  // The item of a fresh backup decodes to the captured content.
  lemma FreshItemContent(
    env: Environment, s: Store, r: BackupRequest, captured: seq<Captured>, requirePrecondition: bool,
    halt: Halt, created: int, i: nat
  )
    requires LawfulCipher(env)
    requires Persist(env, s, r, captured, requirePrecondition, halt, created).1.Ok?
    requires i < |captured|
    ensures var (after, m) := Persist(env, s, r, captured, requirePrecondition, halt, created);
            && m.value.items == ItemsOf(r, captured)
            && (captured[i].existed ==>
                  ItemContent(env, after.disk, m.value, m.value.items[i]) == captured[i].content)
            && ItemPasses(env, after.disk, m.value, m.value.items[i])
  {
    var (after, created') := Persist(env, s, r, captured, requirePrecondition, halt, created);
    var m, item := created'.value, captured[i];
    WrittenItems(env, r, captured, halt);
    assert HasWritten(env, r, WriteItems(env, r, captured, halt).items, i, item);
    assert Persistable(env, r, item, requirePrecondition);
    assert m.items[i] == ItemOf(r, i, item);
    if item.existed {
      var encoded := Encode(env, item.content.value, r.encryption.enabled, RequestBinding(r, item.target));
      assert BindingOf(m, item.target) == RequestBinding(r, item.target);
      assert after.disk[m.storageLocation].items.files[RefOf(r, i, item).value] == encoded.value;
    }
  }

  // A backup that was just created passes every check of `verify`.
  lemma CreatedBackupVerifies(
    env: Environment, s: Store, r: BackupRequest, captured: seq<Captured>, requirePrecondition: bool,
    halt: Halt, created: int
  )
    requires LawfulCipher(env)
    requires Persist(env, s, r, captured, requirePrecondition, halt, created).1.Ok?
    ensures var (after, m) := Persist(env, s, r, captured, requirePrecondition, halt, created);
            AllPassed(Verification(env, after.disk, m.value))
  {
    var (after, created') := Persist(env, s, r, captured, requirePrecondition, halt, created);
    var m := created'.value;
    VerificationPassesIff(env, after.disk, m);
    assert m.(manifestHash := "") == m.(manifestHash := HashManifest(env.sha, m)).(manifestHash := "");
    forall i | 0 <= i < |m.items| ensures ItemPasses(env, after.disk, m, m.items[i]) {
      FreshItemContent(env, s, r, captured, requirePrecondition, halt, created, i);
    }
  }
}
