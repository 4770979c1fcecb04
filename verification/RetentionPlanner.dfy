// Which evidence of finished deletions may be removed: the read-only plan.

module RetentionPlanner {
  import opened Foundations
  import opened Records
  import opened Sorting
  import opened EvidenceStores

  datatype Disposition = Keep | Candidate | Orphan | MissingManifest

  datatype RetentionRecord = RetentionRecord(
    requestHash: string,
    backupId: string,
    hostId: string,
    protected: Option<bool>,
    deletionRequestId: Option<string>,
    completedAt: Option<int>,
    disposition: Disposition,
    reason: string
  )

  const KEEP_GENERATIONS: nat := 10
  const RETENTION: int := 30 * DAYS

  type Index = map<string, DeletionResult>

  // `by_request_hash`: refused when two results of the host share a request.
  function IndexByRequest(results: seq<DeletionResult>): Outcome<Index> {
    if results == [] then Ok(map[])
    else
      match IndexByRequest(results[..|results| - 1])
      case Raised(e) => Raised(e)
      case Ok(index) =>
        var last := results[|results| - 1];
        if last.requestHash in index then Raised(AdapterError("evidence_retention_binding_mismatch"))
        else Ok(index[last.requestHash := last])
  }

  // A manifest evidence file with the deletion result it belongs to.
  datatype Link = Link(entry: ManifestEntry, result: DeletionResult)

  datatype Linking = Linking(orphans: seq<RetentionRecord>, linked: seq<Link>, matched: set<string>)

  function OrphanRecord(entry: ManifestEntry): RetentionRecord {
    RetentionRecord(entry.requestHash, entry.manifest.backupId, entry.manifest.hostId,
                    Some(entry.manifest.protected), None, None, Orphan, "missing_deletion_result")
  }

  function MissingRecord(result: DeletionResult): RetentionRecord {
    RetentionRecord(result.requestHash, result.backupId, result.hostId, None, Some(result.requestId),
                    Some(result.completedAt), MissingManifest, "missing_manifest_evidence")
  }

  // The planner's first loop, over the manifest evidence.
  function LinkEntries(
    entries: seq<ManifestEntry>, index: Index, manifests: Directory<Manifest>, hostId: string, fingerprint: string
  ): Outcome<Linking>
  {
    if entries == [] then Ok(Linking([], [], {}))
    else
      match LinkEntries(entries[..|entries| - 1], index, manifests, hostId, fingerprint)
      case Raised(e) => Raised(e)
      case Ok(sofar) => LinkOne(sofar, entries[|entries| - 1], index, manifests, hostId, fingerprint)
  }

  function LinkOne(
    sofar: Linking, entry: ManifestEntry, index: Index, manifests: Directory<Manifest>, hostId: string,
    fingerprint: string
  ): Outcome<Linking>
  {
    var manifest := entry.manifest;
    if manifest.hostId != hostId then Ok(sofar)
    else if manifest.hostFingerprint != Some(fingerprint)
      then Raised(AdapterError("evidence_retention_binding_mismatch"))
    else if entry.requestHash !in index then Ok(sofar.(orphans := sofar.orphans + [OrphanRecord(entry)]))
    else
      var result := index[entry.requestHash];
      match LoadManifest(manifests, result)
      case Raised(e) => Raised(e)
      case Ok(_) => Ok(sofar.(linked := sofar.linked + [Link(entry, result)],
                              matched := sofar.matched + {entry.requestHash}))
  }

  // The second loop, over the deletion results nothing was linked to.
  function MissingRecords(results: seq<DeletionResult>, matched: set<string>): seq<RetentionRecord> {
    if results == [] then []
    else
      var last := results[|results| - 1];
      MissingRecords(results[..|results| - 1], matched)
      + (if last.requestHash in matched then [] else [MissingRecord(last)])
  }

  function NewestLink(): (Link, Link) -> bool {
    (a: Link, b: Link) => a.result.completedAt > b.result.completedAt
  }

  // The third loop: the verdict on one linked deletion, given how many linked
  // deletions are listed before it.
  function Verdict(link: Link, rank: nat, now: int): (Disposition, string) {
    if link.entry.manifest.protected then (Keep, "protected")
    else if link.result.requiresAttention || link.result.state != BothDeleted then (Keep, "recovery_required")
    else if link.result.completedAt <= now - RETENTION then (Candidate, "older_than_30_days")
    else if rank >= KEEP_GENERATIONS then (Candidate, "beyond_10_generations")
    else (Keep, "within_policy")
  }

  function LinkedRecord(link: Link, rank: nat, now: int): RetentionRecord {
    var (disposition, reason) := Verdict(link, rank, now);
    RetentionRecord(link.entry.requestHash, link.entry.manifest.backupId, link.entry.manifest.hostId,
                    Some(link.entry.manifest.protected), Some(link.result.requestId),
                    Some(link.result.completedAt), disposition, reason)
  }

  function LinkedRecords(linked: seq<Link>, now: int): seq<RetentionRecord> {
    seq(|linked|, i requires 0 <= i < |linked| => LinkedRecord(linked[i], i, now))
  }

  predicate RecordBefore(a: RetentionRecord, b: RetentionRecord) {
    match (a.completedAt, b.completedAt)
    case (Some(_), None) => true
    case (None, Some(_)) => false
    case (None, None) => LexLess(b.requestHash, a.requestHash)
    case (Some(x), Some(y)) => x > y || (x == y && LexLess(b.requestHash, a.requestHash))
  }

  // Everything the planner computes once both directories have been listed.
  function PlanFrom(
    results: seq<DeletionResult>, entries: seq<ManifestEntry>, manifests: Directory<Manifest>, hostId: string,
    fingerprint: string, now: int
  ): Outcome<seq<RetentionRecord>>
  {
    match IndexByRequest(results)
    case Raised(e) => Raised(e)
    case Ok(index) =>
      match LinkEntries(entries, index, manifests, hostId, fingerprint)
      case Raised(e) => Raised(e)
      case Ok(l) =>
        Ok(Sort(l.orphans + MissingRecords(results, l.matched)
                + LinkedRecords(Sort(l.linked, NewestLink()), now), RecordBefore))
  }

  // The orders in which the two directories are listed.
  datatype Orders = Orders(deletions: seq<string>, manifests: seq<string>)

  function Plan(
    deletions: Directory<DeletionResult>, manifests: Directory<Manifest>, orders: Orders, hostId: string,
    fingerprint: string, now: int
  ): Outcome<seq<RetentionRecord>>
    requires Elements(orders.deletions) <= deletions.Keys && Elements(orders.manifests) <= manifests.Keys
  {
    match ListHost(deletions, orders.deletions, DeletionStamp, hostId, fingerprint)
    case Raised(e) => Raised(e)
    case Ok(results) =>
      if IndexByRequest(results).Raised? then Raised(IndexByRequest(results).error)
      else
        match ListEntries(manifests, orders.manifests)
        case Raised(e) => Raised(e)
        case Ok(entries) => PlanFrom(results, entries, manifests, hostId, fingerprint, now)
  }

  ghost predicate ListsBoth(
    deletions: Directory<DeletionResult>, manifests: Directory<Manifest>, orders: Orders
  )
  {
    Enumerates(deletions, orders.deletions) && Enumerates(manifests, orders.manifests)
  }

  class Planner {
    const manifests: ManifestEvidenceStore
    const deletions: DeletionResultStore

    constructor (manifests: ManifestEvidenceStore, deletions: DeletionResultStore)
      ensures this.manifests == manifests && this.deletions == deletions
    {
      this.manifests := manifests;
      this.deletions := deletions;
    }

    method PlanForHost(hostId: string, fingerprint: string, now: int, keepGenerations: int)
      returns (r: Outcome<seq<RetentionRecord>>, ghost orders: Orders)
      ensures ListsBoth(deletions.files, manifests.files, orders)
      ensures r == if keepGenerations != KEEP_GENERATIONS
                   then Raised(AdapterError("invalid_evidence_retention_policy"))
                   else Plan(deletions.files, manifests.files, orders, hostId, fingerprint, now)
    {
      var listed, deletionOrder := deletions.ListForHost(hostId, fingerprint);
      var entries, manifestOrder := manifests.ListAll();
      orders := Orders(deletionOrder, manifestOrder);
      if keepGenerations != KEEP_GENERATIONS {
        return Raised(AdapterError("invalid_evidence_retention_policy")), orders;
      }
      if listed.Raised? {
        return Raised(listed.error), orders;
      }
      var index := BuildIndex(listed.value);
      if index.Raised? {
        return Raised(index.error), orders;
      }
      if entries.Raised? {
        return Raised(entries.error), orders;
      }
      var linking := LinkAll(entries.value, index.value, hostId, fingerprint);
      if linking.Raised? {
        return Raised(linking.error), orders;
      }
      var records := Classify(listed.value, linking.value, now);
      r := Ok(Sort(records, RecordBefore));
    }

    static method BuildIndex(results: seq<DeletionResult>) returns (r: Outcome<Index>)
      ensures r == IndexByRequest(results)
    {
      var index: Index := map[];
      for i := 0 to |results|
        invariant IndexByRequest(results[..i]) == Ok(index)
      {
        var result := results[i];
        assert results[..i + 1][..i] == results[..i];
        if result.requestHash in index {
          IndexStaysRefused(results, i + 1);
          return Raised(AdapterError("evidence_retention_binding_mismatch"));
        }
        index := index[result.requestHash := result];
      }
      assert results[..|results|] == results;
      r := Ok(index);
    }

    method LinkAll(entries: seq<ManifestEntry>, index: Index, hostId: string, fingerprint: string)
      returns (r: Outcome<Linking>)
      ensures r == LinkEntries(entries, index, manifests.files, hostId, fingerprint)
    {
      var orphans: seq<RetentionRecord>, linked: seq<Link>, matched: set<string> := [], [], {};
      for i := 0 to |entries|
        invariant LinkEntries(entries[..i], index, manifests.files, hostId, fingerprint)
                  == Ok(Linking(orphans, linked, matched))
      {
        var entry := entries[i];
        assert entries[..i + 1][..i] == entries[..i];
        LinkingStaysRefused(entries, i + 1, index, manifests.files, hostId, fingerprint);
        if entry.manifest.hostId == hostId {
          if entry.manifest.hostFingerprint != Some(fingerprint) {
            return Raised(AdapterError("evidence_retention_binding_mismatch"));
          }
          if entry.requestHash !in index {
            orphans := orphans + [OrphanRecord(entry)];
          } else {
            var result := index[entry.requestHash];
            var loaded := LoadManifest(manifests.files, result);
            if loaded.Raised? {
              return Raised(loaded.error);
            }
            linked := linked + [Link(entry, result)];
            matched := matched + {entry.requestHash};
          }
        }
      }
      assert entries[..|entries|] == entries;
      r := Ok(Linking(orphans, linked, matched));
    }

    static method Classify(results: seq<DeletionResult>, l: Linking, now: int)
      returns (records: seq<RetentionRecord>)
      ensures records == l.orphans + MissingRecords(results, l.matched)
                         + LinkedRecords(Sort(l.linked, NewestLink()), now)
    {
      records := l.orphans;
      for i := 0 to |results|
        invariant records == l.orphans + MissingRecords(results[..i], l.matched)
      {
        assert results[..i + 1][..i] == results[..i];
        if results[i].requestHash !in l.matched {
          records := records + [MissingRecord(results[i])];
        }
      }
      assert results[..|results|] == results;
      var linked := Sort(l.linked, NewestLink());
      ghost var unlinked := records;
      for i := 0 to |linked|
        invariant records == unlinked + LinkedRecords(linked, now)[..i]
      {
        records := records + [LinkedRecord(linked[i], i, now)];
      }
    }
  }

  // A repeated request met early is still refused at the end.
  lemma {:induction false} IndexStaysRefused(results: seq<DeletionResult>, i: nat)
    requires i <= |results| && IndexByRequest(results[..i]).Raised?
    ensures IndexByRequest(results) == IndexByRequest(results[..i])
  {
    if i < |results| {
      var init := results[..|results| - 1];
      assert init[..i] == results[..i];
      IndexStaysRefused(init, i);
    } else {
      assert results[..i] == results;
    }
  }

  lemma {:induction false} LinkingStaysRefused(
    entries: seq<ManifestEntry>, i: nat, index: Index, manifests: Directory<Manifest>, hostId: string,
    fingerprint: string
  )
    requires i <= |entries|
    ensures LinkEntries(entries[..i], index, manifests, hostId, fingerprint).Raised?
            ==> LinkEntries(entries, index, manifests, hostId, fingerprint)
                == LinkEntries(entries[..i], index, manifests, hostId, fingerprint)
  {
    if i < |entries| {
      var init := entries[..|entries| - 1];
      assert init[..i] == entries[..i];
      LinkingStaysRefused(init, i, index, manifests, hostId, fingerprint);
    } else {
      assert entries[..i] == entries;
    }
  }
}
