// The private directories that keep deletion results, reconciliation results,
// manifest evidence and retention executions, one canonical file per record.

module EvidenceStores {
  import opened Foundations
  import opened Records
  import opened Sorting

  // A directory entry: a record that the store's `load` accepts, or an entry it
  // refuses (unexpected name, unsafe metadata, not canonical, failed validation).
  datatype Document<+T> = Stored(value: T) | Damaged

  type Directory<T> = map<string, Document<T>>

  // Every entry once, in the order the file system happens to list them.
  ghost predicate Enumerates<T>(files: Directory<T>, order: seq<string>) {
    && Distinct(order)
    && Elements(order) == files.Keys
  }

  // Every directory can be listed in some order.
  lemma SomeOrder<T>(files: Directory<T>) returns (order: seq<string>)
    ensures Enumerates(files, order)
  {
    order := Arrange(files.Keys);
  }

  // How a record is bound to a host, and the time listings are sorted by.
  datatype Stamp = Stamp(hostId: string, hostFingerprint: string, at: int)

  function DeletionStamp(r: DeletionResult): Stamp {
    Stamp(r.hostId, r.hostFingerprint, r.completedAt)
  }

  function ReconciliationStamp(r: ReconciliationResult): Stamp {
    Stamp(r.hostId, r.hostFingerprint, r.observedAt)
  }

  function Newer<T>(stamp: T -> Stamp): (T, T) -> bool {
    (a: T, b: T) => stamp(a).at > stamp(b).at
  }

  lemma NewerIsWeakOrder<T(!new)>(stamp: T -> Stamp)
    ensures WeakOrder(Newer(stamp))
  {
  }

  // The unsorted part of `list_for_host`: read every entry, keep this host's.
  function ScanHost<T>(
    files: Directory<T>, order: seq<string>, stamp: T -> Stamp, hostId: string, fingerprint: string
  ): Outcome<seq<T>>
    requires Elements(order) <= files.Keys
  {
    if order == [] then Ok([])
    else
      var name := order[|order| - 1];
      assert name in Elements(order);
      match ScanHost(files, order[..|order| - 1], stamp, hostId, fingerprint)
      case Raised(e) => Raised(e)
      case Ok(found) =>
        match files[name]
        case Damaged => Raised(AdapterError("unsafe_entry"))
        case Stored(value) =>
          if stamp(value).hostId != hostId then Ok(found)
          else if stamp(value).hostFingerprint != fingerprint then Raised(AdapterError("binding_mismatch"))
          else Ok(found + [value])
  }

  // `list_for_host`: newest first.
  function ListHost<T>(
    files: Directory<T>, order: seq<string>, stamp: T -> Stamp, hostId: string, fingerprint: string
  ): Outcome<seq<T>>
    requires Elements(order) <= files.Keys
  {
    match ScanHost(files, order, stamp, hostId, fingerprint)
    case Raised(e) => Raised(e)
    case Ok(found) => Ok(Sort(found, Newer(stamp)))
  }

  ghost predicate OnHost<T(!new)>(files: Directory<T>, stamp: T -> Stamp, hostId: string, v: T) {
    exists k :: k in files && files[k] == Stored(v) && stamp(v).hostId == hostId
  }

  // A successful scan found no damage, and found exactly the host's records.
  lemma {:induction false} ScanHostFinds<T(!new)>(
    files: Directory<T>, order: seq<string>, stamp: T -> Stamp, hostId: string, fingerprint: string
  )
    requires Elements(order) <= files.Keys
    requires ScanHost(files, order, stamp, hostId, fingerprint).Ok?
    ensures forall k | k in order :: files[k].Stored?
    ensures var found := ScanHost(files, order, stamp, hostId, fingerprint).value;
            && (forall v :: v in found <==>
                  exists k :: k in order && files[k] == Stored(v) && stamp(v).hostId == hostId)
            && (forall v | v in found :: stamp(v).hostFingerprint == fingerprint)
  {
    if order != [] {
      var init, name := order[..|order| - 1], order[|order| - 1];
      assert name in Elements(order) && Elements(init) <= Elements(order);
      ScanHostFinds(files, init, stamp, hostId, fingerprint);
      assert forall k :: k in order <==> k in init || k == name;
    }
  }

  // `list_for_host` returns exactly the host's records, newest first, and only
  // when no entry of the directory is damaged or bound to another fingerprint.
  lemma ListHostExact<T(!new)>(
    files: Directory<T>, order: seq<string>, stamp: T -> Stamp, hostId: string, fingerprint: string
  )
    requires Enumerates(files, order)
    requires ListHost(files, order, stamp, hostId, fingerprint).Ok?
    ensures forall k | k in files :: files[k].Stored?
    ensures var list := ListHost(files, order, stamp, hostId, fingerprint).value;
            && (forall v :: v in list <==> OnHost(files, stamp, hostId, v))
            && (forall v | v in list :: stamp(v).hostId == hostId && stamp(v).hostFingerprint == fingerprint)
            && (forall i, j | 0 <= i < j < |list| :: stamp(list[i]).at >= stamp(list[j]).at)
  {
    ScanHostFinds(files, order, stamp, hostId, fingerprint);
    var found := ScanHost(files, order, stamp, hostId, fingerprint).value;
    var list := Sort(found, Newer(stamp));
    NewerIsWeakOrder(stamp);
    SortOrdered(found, Newer(stamp));
    SameBag(list, found);
    assert forall k :: k in order <==> k in Elements(order);
    forall i, j | 0 <= i < j < |list| ensures stamp(list[i]).at >= stamp(list[j]).at {
      assert !Newer(stamp)(list[j], list[i]);
    }
  }

  // When no entry is damaged or bound to another fingerprint, listing succeeds.
  lemma {:induction false} ScanHostSucceeds<T>(
    files: Directory<T>, order: seq<string>, stamp: T -> Stamp, hostId: string, fingerprint: string
  )
    requires Elements(order) <= files.Keys
    requires forall k | k in files :: files[k].Stored?
                     && (stamp(files[k].value).hostId == hostId
                         ==> stamp(files[k].value).hostFingerprint == fingerprint)
    ensures ScanHost(files, order, stamp, hostId, fingerprint).Ok?
  {
    if order != [] {
      assert order[|order| - 1] in Elements(order);
      ScanHostSucceeds(files, order[..|order| - 1], stamp, hostId, fingerprint);
    }
  }

  // Records stored once each are listed once each.
  lemma {:induction false} ScanHostDistinct<T(!new)>(
    files: Directory<T>, order: seq<string>, stamp: T -> Stamp, hostId: string, fingerprint: string
  )
    requires Distinct(order) && Elements(order) <= files.Keys
    requires forall i, j | i in files && j in files && files[i].Stored? && files[i] == files[j] :: i == j
    requires ScanHost(files, order, stamp, hostId, fingerprint).Ok?
    ensures Distinct(ScanHost(files, order, stamp, hostId, fingerprint).value)
  {
    if order != [] {
      var init, name := order[..|order| - 1], order[|order| - 1];
      assert name in Elements(order) && Elements(init) <= Elements(order);
      assert forall i, j | 0 <= i < j < |init| :: init[i] == order[i] && init[j] == order[j];
      ScanHostDistinct(files, init, stamp, hostId, fingerprint);
      ScanHostFinds(files, init, stamp, hostId, fingerprint);
      assert name !in init;
    }
  }

  lemma ListHostDistinct<T(!new)>(
    files: Directory<T>, order: seq<string>, stamp: T -> Stamp, hostId: string, fingerprint: string
  )
    requires Enumerates(files, order)
    requires forall i, j | i in files && j in files && files[i].Stored? && files[i] == files[j] :: i == j
    requires ListHost(files, order, stamp, hostId, fingerprint).Ok?
    ensures Distinct(ListHost(files, order, stamp, hostId, fingerprint).value)
  {
    ScanHostDistinct(files, order, stamp, hostId, fingerprint);
    SortDistinct(ScanHost(files, order, stamp, hostId, fingerprint).value, Newer(stamp));
  }

  // What can happen at an unlink or at an atomic write, each followed by the
  // directory fsync: it works, it changes nothing, or it takes effect and the
  // fsync raises.
  datatype Fault = Smooth | Refused | Torn

  // `load`, `delete` and the manifest binding, as functions of the directory.

  function LoadDeletion(files: Directory<DeletionResult>, requestId: string): Outcome<DeletionResult> {
    if !IsIdentifier(requestId) then Raised(AdapterError("invalid_deletion_identity"))
    else if requestId !in files then Raised(AdapterError("deletion_result_not_found"))
    else match files[requestId]
         case Damaged => Raised(AdapterError("invalid_deletion_result"))
         case Stored(value) => Ok(value)
  }

  function LoadReconciliation(
    files: Directory<ReconciliationResult>, reconciliationId: string
  ): Outcome<ReconciliationResult>
  {
    if !IsIdentifier(reconciliationId) then Raised(AdapterError("invalid_reconciliation_result"))
    else if reconciliationId !in files then Raised(AdapterError("reconciliation_result_not_found"))
    else match files[reconciliationId]
         case Damaged => Raised(AdapterError("invalid_reconciliation_result"))
         case Stored(value) => Ok(value)
  }

  // `_result_binding`
  predicate BoundTo(m: Manifest, d: DeletionResult) {
    && m.hostFingerprint == Some(d.hostFingerprint)
    && m.backupId == d.backupId
    && m.hostId == d.hostId
    && m.manifestHash == d.manifestHash
  }

  function LoadManifest(files: Directory<Manifest>, d: DeletionResult): Outcome<Manifest> {
    if !IsDigest(d.requestHash) then Raised(AdapterError("invalid_manifest_evidence"))
    else if d.requestHash !in files then Raised(AdapterError("manifest_evidence_not_found"))
    else match files[d.requestHash]
         case Damaged => Raised(AdapterError("unsafe_manifest_evidence"))
         case Stored(m) =>
           if BoundTo(m, d) then Ok(m) else Raised(AdapterError("manifest_evidence_binding_mismatch"))
  }

  // Unlink a file that `load` has just read, then fsync the directory.
  function Unlink<T>(files: Directory<T>, name: string, fault: Fault): (Directory<T>, Option<Error>) {
    match fault
    case Smooth => (files - {name}, None)
    case Refused => (files, Some(OsError))
    case Torn => (files - {name}, Some(OsError))
  }

  // Write a file atomically, then fsync the directory.
  function Write<T>(files: Directory<T>, name: string, value: T, fault: Fault): (Directory<T>, Outcome<T>) {
    match fault
    case Smooth => (files[name := Stored(value)], Ok(value))
    case Refused => (files, Raised(OsError))
    case Torn => (files[name := Stored(value)], Raised(OsError))
  }

  function DeleteDeletion(
    files: Directory<DeletionResult>, d: DeletionResult, fault: Fault
  ): (Directory<DeletionResult>, Option<Error>)
  {
    match LoadDeletion(files, d.requestId)
    case Raised(e) => (files, Some(e))
    case Ok(current) =>
      if current != d then (files, Some(AdapterError("deletion_result_binding_mismatch")))
      else Unlink(files, d.requestId, fault)
  }

  function DeleteReconciliation(
    files: Directory<ReconciliationResult>, r: ReconciliationResult, fault: Fault
  ): (Directory<ReconciliationResult>, Option<Error>)
  {
    match LoadReconciliation(files, r.reconciliationId)
    case Raised(e) => (files, Some(e))
    case Ok(current) =>
      if current != r then (files, Some(AdapterError("reconciliation_binding_mismatch")))
      else Unlink(files, r.reconciliationId, fault)
  }

  function DeleteManifest(
    files: Directory<Manifest>, d: DeletionResult, fault: Fault
  ): (Directory<Manifest>, Option<Error>)
  {
    match LoadManifest(files, d)
    case Raised(e) => (files, Some(e))
    case Ok(_) => Unlink(files, d.requestHash, fault)
  }

  // Read a directory entry by entry, as `list_for_host` does before sorting.
  method ScanDirectory<T>(files: Directory<T>, stamp: T -> Stamp, hostId: string, fingerprint: string)
    returns (r: Outcome<seq<T>>, ghost order: seq<string>)
    ensures Enumerates(files, order)
    ensures r == ListHost(files, order, stamp, hostId, fingerprint)
  {
    var pending := files.Keys;
    order := [];
    var found: Outcome<seq<T>> := Ok([]);
    while pending != {}
      invariant Distinct(order) && Elements(order) !! pending
      invariant Elements(order) + pending == files.Keys
      invariant found == ScanHost(files, order, stamp, hostId, fingerprint)
    {
      var name :| name in pending;
      pending := pending - {name};
      ghost var before := order;
      assert name !in Elements(order);
      order := order + [name];
      assert order[..|order| - 1] == before;
      assert Elements(order) == Elements(before) + {name};
      match found {
        case Raised(_) =>
        case Ok(values) =>
          match files[name] {
            case Damaged => found := Raised(AdapterError("unsafe_entry"));
            case Stored(value) =>
              if stamp(value).hostId == hostId {
                if stamp(value).hostFingerprint != fingerprint {
                  found := Raised(AdapterError("binding_mismatch"));
                } else {
                  found := Ok(values + [value]);
                }
              }
          }
      }
    }
    match found {
      case Raised(e) => r := Raised(e);
      case Ok(values) => r := Ok(Sort(values, Newer(stamp)));
    }
  }

  // `BackupDeletionResultStore.save`: results are immutable.
  function SaveDeletion(
    files: Directory<DeletionResult>, result: DeletionResult, valid: bool, fault: Fault
  ): (Directory<DeletionResult>, Outcome<DeletionResult>)
  {
    if !valid then (files, Raised(AdapterError("invalid_deletion_result")))
    else if !IsIdentifier(result.requestId) then (files, Raised(AdapterError("invalid_deletion_identity")))
    else if result.requestId in files then (files, Raised(AdapterError("deletion_result_exists")))
    else Write(files, result.requestId, result, fault)
  }

  class DeletionResultStore {
    var files: Directory<DeletionResult>

    constructor ()
      ensures files == map[]
    {
      files := map[];
    }

    // `valid` is the verdict of `_validate_result`.
    method Save(result: DeletionResult, valid: bool, fault: Fault) returns (r: Outcome<DeletionResult>)
      modifies this
      ensures (files, r) == SaveDeletion(old(files), result, valid, fault)
    {
      if !valid {
        return Raised(AdapterError("invalid_deletion_result"));
      }
      if !IsIdentifier(result.requestId) {
        return Raised(AdapterError("invalid_deletion_identity"));
      }
      if result.requestId in files {
        return Raised(AdapterError("deletion_result_exists"));
      }
      var (after, written) := Write(files, result.requestId, result, fault);
      files := after;
      if written.Raised? {
        return written;
      }
      r := LoadDeletion(files, result.requestId);
    }

    method ListForHost(hostId: string, fingerprint: string)
      returns (r: Outcome<seq<DeletionResult>>, ghost order: seq<string>)
      ensures Enumerates(files, order)
      ensures r == ListHost(files, order, DeletionStamp, hostId, fingerprint)
    {
      r, order := ScanDirectory(files, DeletionStamp, hostId, fingerprint);
    }

    method Delete(d: DeletionResult, fault: Fault) returns (error: Option<Error>)
      modifies this
      ensures (files, error) == DeleteDeletion(old(files), d, fault)
    {
      var current := LoadDeletion(files, d.requestId);
      if current.Raised? {
        return Some(current.error);
      }
      if current.value != d {
        return Some(AdapterError("deletion_result_binding_mismatch"));
      }
      var (rest, e) := Unlink(files, d.requestId, fault);
      files := rest;
      error := e;
    }
  }

  // `BackupReconciliationResultStore.save`: results are immutable.
  function SaveReconciliation(
    files: Directory<ReconciliationResult>, result: ReconciliationResult, valid: bool, fault: Fault
  ): (Directory<ReconciliationResult>, Outcome<ReconciliationResult>)
  {
    if !valid || !IsIdentifier(result.reconciliationId)
    then (files, Raised(AdapterError("invalid_reconciliation_result")))
    else if result.reconciliationId in files then (files, Raised(AdapterError("reconciliation_result_exists")))
    else Write(files, result.reconciliationId, result, fault)
  }

  class ReconciliationResultStore {
    var files: Directory<ReconciliationResult>

    constructor ()
      ensures files == map[]
    {
      files := map[];
    }

    // `valid` is the verdict of `_validate_result`.
    method Save(result: ReconciliationResult, valid: bool, fault: Fault) returns (r: Outcome<ReconciliationResult>)
      modifies this
      ensures (files, r) == SaveReconciliation(old(files), result, valid, fault)
    {
      if !valid || !IsIdentifier(result.reconciliationId) {
        return Raised(AdapterError("invalid_reconciliation_result"));
      }
      if result.reconciliationId in files {
        return Raised(AdapterError("reconciliation_result_exists"));
      }
      var (after, written) := Write(files, result.reconciliationId, result, fault);
      files := after;
      if written.Raised? {
        return written;
      }
      r := LoadReconciliation(files, result.reconciliationId);
    }

    method ListForDeletionResult(sourceHash: string, hostId: string, fingerprint: string)
      returns (r: Outcome<seq<ReconciliationResult>>, ghost order: seq<string>)
      ensures Enumerates(files, order)
      ensures r == ListForDeletion(files, order, sourceHash, hostId, fingerprint)
    {
      r, order := ScanDirectory(files, ReconciliationStamp, hostId, fingerprint);
      if !IsDigest(sourceHash) {
        r := Raised(AdapterError("invalid_reconciliation_result"));
      } else if r.Ok? {
        r := Ok(SourcedFrom(r.value, sourceHash));
      }
    }

    method Delete(v: ReconciliationResult, fault: Fault) returns (error: Option<Error>)
      modifies this
      ensures (files, error) == DeleteReconciliation(old(files), v, fault)
    {
      var current := LoadReconciliation(files, v.reconciliationId);
      if current.Raised? {
        return Some(current.error);
      }
      if current.value != v {
        return Some(AdapterError("reconciliation_binding_mismatch"));
      }
      var (rest, e) := Unlink(files, v.reconciliationId, fault);
      files := rest;
      error := e;
    }
  }

  function SourcedFrom(values: seq<ReconciliationResult>, sourceHash: string): seq<ReconciliationResult> {
    if values == [] then []
    else if values[0].sourceDeletionResultHash == sourceHash
      then [values[0]] + SourcedFrom(values[1..], sourceHash)
    else SourcedFrom(values[1..], sourceHash)
  }

  function ListForDeletion(
    files: Directory<ReconciliationResult>, order: seq<string>, sourceHash: string, hostId: string,
    fingerprint: string
  ): Outcome<seq<ReconciliationResult>>
    requires Elements(order) <= files.Keys
  {
    if !IsDigest(sourceHash) then Raised(AdapterError("invalid_reconciliation_result"))
    else match ListHost(files, order, ReconciliationStamp, hostId, fingerprint)
         case Raised(e) => Raised(e)
         case Ok(values) => Ok(SourcedFrom(values, sourceHash))
  }

  // Filtering keeps exactly the records of one deletion.
  lemma {:induction false} SourcedFromMembers(values: seq<ReconciliationResult>, sourceHash: string)
    ensures forall v :: v in SourcedFrom(values, sourceHash)
                        <==> v in values && v.sourceDeletionResultHash == sourceHash
  {
    if values != [] {
      SourcedFromMembers(values[1..], sourceHash);
      assert values == [values[0]] + values[1..];
    }
  }

  lemma {:induction false} SourcedFromDistinct(values: seq<ReconciliationResult>, sourceHash: string)
    requires Distinct(values)
    ensures Distinct(SourcedFrom(values, sourceHash))
  {
    if values != [] {
      var rest := values[1..];
      assert forall i, j | 0 <= i < j < |rest| :: rest[i] == values[i + 1] && rest[j] == values[j + 1];
      SourcedFromDistinct(rest, sourceHash);
      SourcedFromMembers(rest, sourceHash);
      assert values[0] !in rest;
      var tail := SourcedFrom(rest, sourceHash);
      assert forall i | 0 <= i < |tail| :: tail[i] in tail;
    }
  }

  ghost predicate NewestFirst(values: seq<ReconciliationResult>) {
    forall i, j | 0 <= i < j < |values| :: values[i].observedAt >= values[j].observedAt
  }

  lemma {:induction false} SourcedFromOrdered(values: seq<ReconciliationResult>, sourceHash: string)
    requires NewestFirst(values)
    ensures NewestFirst(SourcedFrom(values, sourceHash))
  {
    if values != [] {
      var rest := values[1..];
      assert NewestFirst(rest);
      SourcedFromOrdered(rest, sourceHash);
      SourcedFromMembers(rest, sourceHash);
      var tail := SourcedFrom(rest, sourceHash);
      forall i | 0 <= i < |tail| ensures values[0].observedAt >= tail[i].observedAt {
        assert tail[i] in tail;
        var j :| 0 <= j < |rest| && rest[j] == tail[i];
        assert values[j + 1] == rest[j];
      }
      assert NewestFirst([values[0]] + tail);
    }
  }

  // One file of manifest evidence and the request hash its name carries.
  datatype ManifestEntry = ManifestEntry(requestHash: string, manifest: Manifest)

  predicate EntryBefore(a: ManifestEntry, b: ManifestEntry) {
    a.manifest.createdAt > b.manifest.createdAt
    || (a.manifest.createdAt == b.manifest.createdAt && LexLess(b.requestHash, a.requestHash))
  }

  function ScanEntries(files: Directory<Manifest>, order: seq<string>): Outcome<seq<ManifestEntry>>
    requires Elements(order) <= files.Keys
  {
    if order == [] then Ok([])
    else
      var name := order[|order| - 1];
      assert name in Elements(order);
      AddEntry(ScanEntries(files, order[..|order| - 1]), name, files[name])
  }

  function AddEntry(
    found: Outcome<seq<ManifestEntry>>, name: string, file: Document<Manifest>
  ): Outcome<seq<ManifestEntry>>
  {
    if found.Raised? then found
    else if file.Damaged? then Raised(AdapterError("unsafe_manifest_evidence"))
    else Ok(found.value + [ManifestEntry(name, file.value)])
  }

  // `list_entries`
  function ListEntries(files: Directory<Manifest>, order: seq<string>): Outcome<seq<ManifestEntry>>
    requires Elements(order) <= files.Keys
  {
    match ScanEntries(files, order)
    case Raised(e) => Raised(e)
    case Ok(found) => Ok(Sort(found, EntryBefore))
  }

  lemma {:induction false} ScanEntriesFinds(files: Directory<Manifest>, order: seq<string>)
    requires Distinct(order) && Elements(order) <= files.Keys
    requires ScanEntries(files, order).Ok?
    ensures var found := ScanEntries(files, order).value;
            && |found| == |order|
            && (forall i | 0 <= i < |found| :: found[i].requestHash == order[i]
                                               && files[order[i]] == Stored(found[i].manifest))
  {
    if order != [] {
      var init := order[..|order| - 1];
      assert Elements(init) <= Elements(order);
      assert forall i, j | 0 <= i < j < |init| :: init[i] == order[i] && init[j] == order[j];
      ScanEntriesFinds(files, init);
    }
  }

  lemma {:induction false} ScanEntriesSucceedsIff(files: Directory<Manifest>, order: seq<string>)
    requires Elements(order) <= files.Keys
    ensures ScanEntries(files, order).Ok? <==> forall name | name in order :: files[name].Stored?
  {
    if order != [] {
      var init, name := order[..|order| - 1], order[|order| - 1];
      assert order == init + [name];
      assert name in Elements(order) && Elements(init) <= Elements(order);
      ScanEntriesSucceedsIff(files, init);
    }
  }

  // Manifest evidence can be listed exactly when no file is damaged.
  lemma ListEntriesSucceedsIff(files: Directory<Manifest>, order: seq<string>)
    requires Enumerates(files, order)
    ensures ListEntries(files, order).Ok? <==> forall name | name in files :: files[name].Stored?
  {
    ScanEntriesSucceedsIff(files, order);
    assert forall name :: name in order <==> name in Elements(order);
  }

  lemma EntryOrder()
    ensures WeakOrder(EntryBefore)
  {
    LexIsWeakOrder();
    forall a, b | EntryBefore(a, b) ensures !EntryBefore(b, a) {
      assert !(LexLess(b.requestHash, a.requestHash) && LexLess(a.requestHash, b.requestHash));
    }
    forall a, b, c | !EntryBefore(a, b) && !EntryBefore(b, c) ensures !EntryBefore(a, c) {
      if a.manifest.createdAt == c.manifest.createdAt {
        assert !LexLess(b.requestHash, a.requestHash) && !LexLess(c.requestHash, b.requestHash);
        LexNegativelyTransitive(c.requestHash, b.requestHash, a.requestHash);
      }
    }
  }

  // `list_entries` returns every file once, under its own name, newest first.
  lemma ListEntriesExact(files: Directory<Manifest>, order: seq<string>)
    requires Enumerates(files, order)
    requires ListEntries(files, order).Ok?
    ensures Ordered(ListEntries(files, order).value, EntryBefore)
    ensures var entries := ListEntries(files, order).value;
            && (forall e :: e in entries <==> e.requestHash in files && files[e.requestHash] == Stored(e.manifest))
            && Distinct(entries)
  {
    ScanEntriesFinds(files, order);
    var found := ScanEntries(files, order).value;
    assert Distinct(found) by {
      forall i, j | 0 <= i < j < |found| ensures found[i] != found[j] {
        assert order[i] != order[j];
      }
    }
    EntryOrder();
    SortOrdered(found, EntryBefore);
    SortDistinct(found, EntryBefore);
    SameBag(Sort(found, EntryBefore), found);
    forall e: ManifestEntry | e.requestHash in files && files[e.requestHash] == Stored(e.manifest) ensures e in found {
      assert e.requestHash in Elements(order);
      var i :| 0 <= i < |order| && order[i] == e.requestHash;
      assert found[i] == e;
    }
    forall e | e in found ensures e.requestHash in files && files[e.requestHash] == Stored(e.manifest) {
      var i :| 0 <= i < |found| && found[i] == e;
      assert order[i] in Elements(order);
    }
  }

  // `_request_binding`
  predicate RequestBinding(sha: Sha256, request: DeletionRequest, m: Manifest) {
    && HashRequest(sha, request) == request.requestHash
    && m.hostFingerprint == Some(request.hostFingerprint)
    && m.backupId == request.backupId
    && m.hostId == request.hostId
    && m.manifestHash == request.manifestHash
  }

  // `BackupManifestEvidenceStore.save`: saving the same manifest under the same
  // request again changes nothing; another manifest there is a collision.
  function SaveEvidence(
    sha: Sha256, files: Directory<Manifest>, request: DeletionRequest, manifest: Manifest, fault: Fault
  ): (Directory<Manifest>, Outcome<Manifest>)
  {
    if !RequestBinding(sha, request, manifest)
    then (files, Raised(AdapterError("manifest_evidence_binding_mismatch")))
    else if !IsDigest(request.requestHash) then (files, Raised(AdapterError("invalid_manifest_evidence")))
    else if request.requestHash !in files then Write(files, request.requestHash, manifest, fault)
    else if files[request.requestHash] == Damaged then (files, Raised(AdapterError("unsafe_manifest_evidence")))
    else if files[request.requestHash].value != manifest
      then (files, Raised(AdapterError("manifest_evidence_collision")))
    else (files, Ok(manifest))
  }

  class ManifestEvidenceStore {
    var files: Directory<Manifest>

    constructor ()
      ensures files == map[]
    {
      files := map[];
    }

    method Save(sha: Sha256, request: DeletionRequest, manifest: Manifest, fault: Fault)
      returns (r: Outcome<Manifest>)
      modifies this
      ensures (files, r) == SaveEvidence(sha, old(files), request, manifest, fault)
    {
      if !RequestBinding(sha, request, manifest) {
        return Raised(AdapterError("manifest_evidence_binding_mismatch"));
      }
      if !IsDigest(request.requestHash) {
        return Raised(AdapterError("invalid_manifest_evidence"));
      }
      if request.requestHash in files {
        if files[request.requestHash] == Damaged {
          return Raised(AdapterError("unsafe_manifest_evidence"));
        }
        if files[request.requestHash].value != manifest {
          return Raised(AdapterError("manifest_evidence_collision"));
        }
        return Ok(manifest);
      }
      var (after, written) := Write(files, request.requestHash, manifest, fault);
      files := after;
      r := written;
    }

    method ListAll() returns (r: Outcome<seq<ManifestEntry>>, ghost order: seq<string>)
      ensures Enumerates(files, order)
      ensures r == ListEntries(files, order)
    {
      var pending := files.Keys;
      order := [];
      var found: Outcome<seq<ManifestEntry>> := Ok([]);
      while pending != {}
        invariant Distinct(order) && Elements(order) !! pending
        invariant Elements(order) + pending == files.Keys
        invariant found == ScanEntries(files, order)
      {
        var name :| name in pending;
        pending := pending - {name};
        ghost var before := order;
        assert name !in Elements(order);
        order := order + [name];
        assert order[..|order| - 1] == before;
        assert Elements(order) == Elements(before) + {name};
        found := AddEntry(found, name, files[name]);
      }
      if found.Ok? {
        r := Ok(Sort(found.value, EntryBefore));
      } else {
        r := found;
      }
    }

    method Delete(d: DeletionResult, fault: Fault) returns (error: Option<Error>)
      modifies this
      ensures (files, error) == DeleteManifest(old(files), d, fault)
    {
      var current := LoadManifest(files, d);
      if current.Raised? {
        return Some(current.error);
      }
      var (rest, e) := Unlink(files, d.requestHash, fault);
      files := rest;
      error := e;
    }
  }
}
