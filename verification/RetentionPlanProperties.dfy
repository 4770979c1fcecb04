// What the retention plan promises about the evidence it classifies.

module RetentionPlanProperties {
  import opened Foundations
  import opened Records
  import opened Sorting
  import opened EvidenceStores
  import opened RetentionPlanner

  // No two members share a key.
  ghost predicate Keyed<T>(xs: seq<T>, key: T -> string) {
    forall i, j | 0 <= i < j < |xs| :: key(xs[i]) != key(xs[j])
  }

  lemma SortKeyed<T(!new)>(xs: seq<T>, before: (T, T) -> bool, key: T -> string)
    requires Keyed(xs, key)
    ensures Keyed(Sort(xs, before), key)
  {
    var r := Sort(xs, before);
    assert Distinct(xs);
    SortDistinct(xs, before);
    SameBag(r, xs);
    forall i, j | 0 <= i < j < |r| ensures key(r[i]) != key(r[j]) {
      assert r[i] in r && r[j] in r;
      assert r[i] in xs && r[j] in xs;
      var a :| 0 <= a < |xs| && xs[a] == r[i];
      var b :| 0 <= b < |xs| && xs[b] == r[j];
      assert a != b;
    }
  }

  function HashOf(r: RetentionRecord): string { r.requestHash }

  function LinkHash(x: Link): string { x.entry.requestHash }

  function ResultHash(d: DeletionResult): string { d.requestHash }

  function EntryHash(e: ManifestEntry): string { e.requestHash }

  lemma {:induction false} IndexFacts(results: seq<DeletionResult>)
    requires IndexByRequest(results).Ok?
    ensures var index := IndexByRequest(results).value;
            && (forall h | h in index :: index[h] in results && index[h].requestHash == h)
            && (forall d | d in results :: d.requestHash in index && index[d.requestHash] == d)
    ensures Keyed(results, ResultHash)
  {
    if results != [] {
      var init, last := results[..|results| - 1], results[|results| - 1];
      IndexFacts(init);
      assert results == init + [last];
      forall d | d in init ensures d.requestHash != last.requestHash {
        assert d.requestHash in IndexByRequest(init).value;
      }
      KeyedExtend(init, last, ResultHash);
    }
  }

  lemma KeyedExtend<T>(xs: seq<T>, x: T, key: T -> string)
    requires Keyed(xs, key) && forall y | y in xs :: key(y) != key(x)
    ensures Keyed(xs + [x], key)
  {
    forall i, j | 0 <= i < j < |xs + [x]| ensures key((xs + [x])[i]) != key((xs + [x])[j]) {
      assert (xs + [x])[i] == xs[i] && xs[i] in xs;
    }
  }

  // `l` holds exactly one orphan or one link for each of the host's entries.
  ghost predicate LinksEntries(l: Linking, entries: seq<ManifestEntry>, index: Index, hostId: string) {
    && (forall x | x in l.linked :: x.entry in entries && x.entry.manifest.hostId == hostId
                                    && x.entry.requestHash in index && x.result == index[x.entry.requestHash])
    && (forall o | o in l.orphans :: o.requestHash !in index
                                     && exists e :: e in entries && e.manifest.hostId == hostId && o == OrphanRecord(e))
    && (forall e | e in entries && e.manifest.hostId == hostId ::
          if e.requestHash in index then Link(e, index[e.requestHash]) in l.linked else OrphanRecord(e) in l.orphans)
    && l.matched == (set x | x in l.linked :: LinkHash(x))
    && Keyed(l.linked, LinkHash)
    && Keyed(l.orphans, HashOf)
  }

  lemma {:induction false} LinkEntriesFacts(
    entries: seq<ManifestEntry>, index: Index, manifests: Directory<Manifest>, hostId: string, fingerprint: string
  )
    requires Keyed(entries, EntryHash)
    requires LinkEntries(entries, index, manifests, hostId, fingerprint).Ok?
    ensures LinksEntries(LinkEntries(entries, index, manifests, hostId, fingerprint).value, entries, index, hostId)
    ensures forall x | x in LinkEntries(entries, index, manifests, hostId, fingerprint).value.linked ::
              LoadManifest(manifests, x.result).Ok?
  {
    if entries != [] {
      var init, last := entries[..|entries| - 1], entries[|entries| - 1];
      assert entries == init + [last];
      assert Keyed(init, EntryHash);
      LinkEntriesFacts(init, index, manifests, hostId, fingerprint);
      var before := LinkEntries(init, index, manifests, hostId, fingerprint).value;
      forall e | e in init ensures e.requestHash != last.requestHash {
        var i :| 0 <= i < |init| && init[i] == e;
        assert EntryHash(entries[i]) != EntryHash(entries[|init|]);
      }
      LinkOneFacts(before, init, last, index, manifests, hostId, fingerprint);
    }
  }

  lemma LinkOneFacts(
    before: Linking, init: seq<ManifestEntry>, last: ManifestEntry, index: Index, manifests: Directory<Manifest>,
    hostId: string, fingerprint: string
  )
    requires LinksEntries(before, init, index, hostId)
    requires forall e | e in init :: e.requestHash != last.requestHash
    requires LinkOne(before, last, index, manifests, hostId, fingerprint).Ok?
    ensures LinksEntries(LinkOne(before, last, index, manifests, hostId, fingerprint).value, init + [last], index,
                         hostId)
  {
    var after := LinkOne(before, last, index, manifests, hostId, fingerprint).value;
    if last.manifest.hostId == hostId {
      if last.requestHash in index {
        var x := Link(last, index[last.requestHash]);
        assert after.linked == before.linked + [x];
        assert forall y | y in before.linked :: y.entry in init;
        assert after.matched == (set y | y in after.linked :: LinkHash(y)) by {
          assert LinkHash(x) == last.requestHash;
          assert (set y | y in after.linked :: LinkHash(y))
                 == (set y | y in before.linked :: LinkHash(y)) + {LinkHash(x)};
        }
        assert forall y | y in before.linked :: LinkHash(y) != LinkHash(x);
        KeyedExtend(before.linked, x, LinkHash);
      } else {
        var o := OrphanRecord(last);
        assert after.orphans == before.orphans + [o];
        assert forall p | p in before.orphans :: HashOf(p) != HashOf(o);
        KeyedExtend(before.orphans, o, HashOf);
        assert forall p | p in after.orphans :: p in before.orphans || p == o;
      }
    }
  }

  lemma {:induction false} MissingFacts(results: seq<DeletionResult>, matched: set<string>)
    requires Keyed(results, ResultHash)
    ensures forall r :: r in MissingRecords(results, matched)
                        <==> exists d :: d in results && d.requestHash !in matched && r == MissingRecord(d)
    ensures Keyed(MissingRecords(results, matched), HashOf)
  {
    if results != [] {
      var init, last := results[..|results| - 1], results[|results| - 1];
      assert results == init + [last];
      assert Keyed(init, ResultHash);
      MissingFacts(init, matched);
      var before := MissingRecords(init, matched);
      forall d | d in init ensures d.requestHash != last.requestHash {
        var i :| 0 <= i < |init| && init[i] == d;
        assert ResultHash(results[i]) != ResultHash(results[|init|]);
      }
      if last.requestHash !in matched {
        var after := before + [MissingRecord(last)];
        assert MissingRecords(results, matched) == after;
        forall i, j | 0 <= i < j < |after| ensures HashOf(after[i]) != HashOf(after[j]) {
          assert after[i] in before;
        }
      }
    }
  }

  // The pieces of a plan, each a small predicate of its own.

  ghost predicate EntriesOf(entries: seq<ManifestEntry>, manifests: Directory<Manifest>) {
    forall e :: e in entries <==> e.requestHash in manifests && manifests[e.requestHash] == Stored(e.manifest)
  }

  // Linked deletions, most recently completed first.
  ghost predicate ByAge(sorted: seq<Link>) {
    && Keyed(sorted, LinkHash)
    && forall i, j | 0 <= i < j < |sorted| :: sorted[i].result.completedAt >= sorted[j].result.completedAt
  }

  ghost predicate SameMembers<T(!new)>(a: seq<T>, b: seq<T>) {
    forall x :: x in a <==> x in b
  }

  ghost predicate MadeOf(
    plan: seq<RetentionRecord>, orphans: seq<RetentionRecord>, missing: seq<RetentionRecord>,
    linked: seq<RetentionRecord>
  )
  {
    forall r :: r in plan <==> r in orphans || r in missing || r in linked
  }

  lemma SortLinks(linked: seq<Link>) returns (sorted: seq<Link>)
    requires Keyed(linked, LinkHash)
    ensures sorted == Sort(linked, NewestLink())
    ensures ByAge(sorted) && SameMembers(sorted, linked)
  {
    sorted := Sort(linked, NewestLink());
    SameBag(sorted, linked);
    SortKeyed(linked, NewestLink(), LinkHash);
    SortOrdered(linked, NewestLink());
    forall i, j | 0 <= i < j < |sorted| ensures sorted[i].result.completedAt >= sorted[j].result.completedAt {
      assert !NewestLink()(sorted[j], sorted[i]);
    }
  }

  lemma ConcatenationKeyed(
    orphans: seq<RetentionRecord>, missing: seq<RetentionRecord>, linked: seq<RetentionRecord>, matched: set<string>
  )
    requires Keyed(linked, HashOf) && Keyed(missing, HashOf) && Keyed(orphans, HashOf)
    requires forall r | r in linked :: r.requestHash in matched
    requires forall r | r in missing :: r.requestHash !in matched
    requires forall o | o in orphans :: o.requestHash !in matched
    requires forall r, o | r in missing && o in orphans :: r.requestHash != o.requestHash
    ensures Keyed(orphans + missing + linked, HashOf)
  {
    var all := orphans + missing + linked;
    forall i, j | 0 <= i < j < |all| ensures HashOf(all[i]) != HashOf(all[j]) {
      var a, b := |orphans|, |orphans + missing|;
      if j < a {
        assert HashOf(orphans[i]) != HashOf(orphans[j]);
      } else if j < b {
        assert all[j] == missing[j - a] && all[j] in missing;
        if i < a { assert all[i] in orphans; } else { assert HashOf(missing[i - a]) != HashOf(missing[j - a]); }
      } else {
        assert all[j] == linked[j - b] && all[j] in linked;
        if i < a { assert all[i] in orphans; }
        else if i < b { assert all[i] == missing[i - a] && all[i] in missing; }
        else { assert HashOf(linked[i - b]) != HashOf(linked[j - b]); }
      }
    }
  }

  lemma LinkedHashes(sorted: seq<Link>, now: int)
    requires ByAge(sorted)
    ensures Keyed(LinkedRecords(sorted, now), HashOf)
    ensures forall r | r in LinkedRecords(sorted, now) :: exists x :: x in sorted && LinkHash(x) == r.requestHash
  {
    var linked := LinkedRecords(sorted, now);
    forall i, j | 0 <= i < j < |linked| ensures HashOf(linked[i]) != HashOf(linked[j]) {
      assert LinkHash(sorted[i]) != LinkHash(sorted[j]);
    }
    forall r | r in linked ensures exists x :: x in sorted && LinkHash(x) == r.requestHash {
      var i :| 0 <= i < |linked| && linked[i] == r;
      assert sorted[i] in sorted && LinkHash(sorted[i]) == r.requestHash;
    }
  }

  lemma AssemblePlan(
    results: seq<DeletionResult>, index: Index, entries: seq<ManifestEntry>, hostId: string, l: Linking,
    sorted: seq<Link>, now: int, plan: seq<RetentionRecord>
  )
    requires IndexByRequest(results) == Ok(index)
    requires LinksEntries(l, entries, index, hostId)
    requires ByAge(sorted) && SameMembers(sorted, l.linked)
    requires plan == Sort(l.orphans + MissingRecords(results, l.matched) + LinkedRecords(sorted, now), RecordBefore)
    ensures MadeOf(plan, l.orphans, MissingRecords(results, l.matched), LinkedRecords(sorted, now))
    ensures Keyed(plan, HashOf)
  {
    PartsApart(results, index, entries, hostId, l, sorted, now);
    var all := l.orphans + MissingRecords(results, l.matched) + LinkedRecords(sorted, now);
    SortKeyed(all, RecordBefore, HashOf);
    SameBag(plan, all);
  }

  lemma PartsApart(
    results: seq<DeletionResult>, index: Index, entries: seq<ManifestEntry>, hostId: string, l: Linking,
    sorted: seq<Link>, now: int
  )
    requires IndexByRequest(results) == Ok(index)
    requires LinksEntries(l, entries, index, hostId)
    requires ByAge(sorted) && SameMembers(sorted, l.linked)
    ensures Keyed(l.orphans + MissingRecords(results, l.matched) + LinkedRecords(sorted, now), HashOf)
  {
    IndexFacts(results);
    MissingFacts(results, l.matched);
    LinkedHashes(sorted, now);
    var missing, linked := MissingRecords(results, l.matched), LinkedRecords(sorted, now);
    forall r | r in linked ensures r.requestHash in l.matched {
      var x :| x in sorted && LinkHash(x) == r.requestHash;
      assert x in l.linked;
    }
    ConcatenationKeyed(l.orphans, missing, linked, l.matched);
  }

  lemma PlanParts(
    deletions: Directory<DeletionResult>, manifests: Directory<Manifest>, orders: Orders, hostId: string,
    fingerprint: string, now: int
  ) returns (results: seq<DeletionResult>, entries: seq<ManifestEntry>, index: Index, l: Linking, sorted: seq<Link>)
    requires ListsBoth(deletions, manifests, orders)
    requires Plan(deletions, manifests, orders, hostId, fingerprint, now).Ok?
    ensures ListHost(deletions, orders.deletions, DeletionStamp, hostId, fingerprint) == Ok(results)
    ensures IndexByRequest(results) == Ok(index)
    ensures EntriesOf(entries, manifests)
    ensures LinksEntries(l, entries, index, hostId)
    ensures forall x | x in l.linked :: LoadManifest(manifests, x.result).Ok?
    ensures ByAge(sorted) && SameMembers(sorted, l.linked)
    ensures var plan := Plan(deletions, manifests, orders, hostId, fingerprint, now).value;
            MadeOf(plan, l.orphans, MissingRecords(results, l.matched), LinkedRecords(sorted, now))
            && Keyed(plan, HashOf)
  {
    results := ListHost(deletions, orders.deletions, DeletionStamp, hostId, fingerprint).value;
    entries := ListEntries(manifests, orders.manifests).value;
    index := IndexByRequest(results).value;
    ListEntriesExact(manifests, orders.manifests);
    assert Keyed(entries, EntryHash) by {
      forall i, j | 0 <= i < j < |entries| ensures EntryHash(entries[i]) != EntryHash(entries[j]) {
        assert entries[i] in entries && entries[j] in entries;
      }
    }
    l := LinkEntries(entries, index, manifests, hostId, fingerprint).value;
    LinkEntriesFacts(entries, index, manifests, hostId, fingerprint);
    sorted := SortLinks(l.linked);
    AssemblePlan(results, index, entries, hostId, l, sorted, now,
                 Plan(deletions, manifests, orders, hostId, fingerprint, now).value);
  }

  // The request hashes a host has evidence for: a deletion result or a manifest.
  ghost predicate HostHash(
    deletions: Directory<DeletionResult>, manifests: Directory<Manifest>, hostId: string, hash: string
  )
  {
    || (exists d :: OnHost(deletions, DeletionStamp, hostId, d) && d.requestHash == hash)
    || HostManifest(manifests, hostId, hash)
  }

  ghost predicate HostManifest(manifests: Directory<Manifest>, hostId: string, hash: string) {
    hash in manifests && manifests[hash].Stored? && manifests[hash].value.hostId == hostId
  }

  // The plan has exactly one record for each request hash of the host.
  lemma PlanPartitionsEvidence(
    deletions: Directory<DeletionResult>, manifests: Directory<Manifest>, orders: Orders, hostId: string,
    fingerprint: string, now: int
  )
    requires ListsBoth(deletions, manifests, orders)
    requires Plan(deletions, manifests, orders, hostId, fingerprint, now).Ok?
    ensures var plan := Plan(deletions, manifests, orders, hostId, fingerprint, now).value;
            && (forall i, j | 0 <= i < j < |plan| :: plan[i].requestHash != plan[j].requestHash)
            && (forall h :: HostHash(deletions, manifests, hostId, h) <==> exists r :: r in plan && r.requestHash == h)
  {
    var plan := Plan(deletions, manifests, orders, hostId, fingerprint, now).value;
    var results, entries, index, l, sorted := PlanParts(deletions, manifests, orders, hostId, fingerprint, now);
    ListHostExact(deletions, orders.deletions, DeletionStamp, hostId, fingerprint);
    assert forall i, j | 0 <= i < j < |plan| :: HashOf(plan[i]) != HashOf(plan[j]);
    forall h ensures HostHash(deletions, manifests, hostId, h) <==> exists r :: r in plan && r.requestHash == h {
      if HostManifest(manifests, hostId, h) {
        ManifestIsPlanned(entries, manifests, hostId, index, l, sorted, now, h);
      } else if d :| d in results && d.requestHash == h {
        DeletionIsPlanned(results, entries, manifests, hostId, index, l, d);
      }
      if r :| r in plan && r.requestHash == h {
        RecordHasEvidence(results, entries, manifests, hostId, index, l, sorted, now, r);
      }
    }
  }

  lemma LinkedIsPlanned(sorted: seq<Link>, now: int, x: Link) returns (rank: nat)
    requires x in sorted
    ensures rank < |sorted| && sorted[rank] == x && LinkedRecord(x, rank, now) in LinkedRecords(sorted, now)
  {
    rank :| 0 <= rank < |sorted| && sorted[rank] == x;
    assert LinkedRecords(sorted, now)[rank] == LinkedRecord(x, rank, now);
  }

  lemma ManifestIsPlanned(
    entries: seq<ManifestEntry>, manifests: Directory<Manifest>, hostId: string, index: Index, l: Linking,
    sorted: seq<Link>, now: int, h: string
  )
    requires EntriesOf(entries, manifests) && LinksEntries(l, entries, index, hostId)
    requires SameMembers(sorted, l.linked)
    requires HostManifest(manifests, hostId, h)
    ensures exists r :: (r in l.orphans || r in LinkedRecords(sorted, now)) && r.requestHash == h
  {
    var e := ManifestEntry(h, manifests[h].value);
    assert e in entries;
    if h in index {
      var rank := LinkedIsPlanned(sorted, now, Link(e, index[h]));
    } else {
      assert OrphanRecord(e) in l.orphans;
    }
  }

  lemma DeletionIsPlanned(
    results: seq<DeletionResult>, entries: seq<ManifestEntry>, manifests: Directory<Manifest>, hostId: string,
    index: Index, l: Linking, d: DeletionResult
  )
    requires IndexByRequest(results) == Ok(index)
    requires EntriesOf(entries, manifests) && LinksEntries(l, entries, index, hostId)
    requires d in results && !HostManifest(manifests, hostId, d.requestHash)
    ensures MissingRecord(d) in MissingRecords(results, l.matched)
  {
    IndexFacts(results);
    MissingFacts(results, l.matched);
    assert forall x | x in l.linked :: HostManifest(manifests, hostId, LinkHash(x));
  }

  lemma RecordHasEvidence(
    results: seq<DeletionResult>, entries: seq<ManifestEntry>, manifests: Directory<Manifest>, hostId: string,
    index: Index, l: Linking, sorted: seq<Link>, now: int, r: RetentionRecord
  )
    requires IndexByRequest(results) == Ok(index)
    requires EntriesOf(entries, manifests) && LinksEntries(l, entries, index, hostId)
    requires SameMembers(sorted, l.linked)
    requires r in l.orphans || r in MissingRecords(results, l.matched) || r in LinkedRecords(sorted, now)
    ensures (exists d :: d in results && d.requestHash == r.requestHash)
            || HostManifest(manifests, hostId, r.requestHash)
  {
    IndexFacts(results);
    MissingFacts(results, l.matched);
    if r in LinkedRecords(sorted, now) {
      var rank :| 0 <= rank < |sorted| && LinkedRecords(sorted, now)[rank] == r;
      assert sorted[rank] in sorted;
      assert index[LinkHash(sorted[rank])] in results;
    }
  }

  // The deletion and the manifest a plan record speaks about.
  ghost predicate Speaks(
    deletions: Directory<DeletionResult>, manifests: Directory<Manifest>, hostId: string, r: RetentionRecord,
    d: DeletionResult, m: Manifest
  )
  {
    && OnHost(deletions, DeletionStamp, hostId, d)
    && d.requestHash == r.requestHash
    && r.requestHash in manifests && manifests[r.requestHash] == Stored(m)
    && BoundTo(m, d)
    && r.deletionRequestId == Some(d.requestId)
    && r.completedAt == Some(d.completedAt)
  }

  // Ten other linked records of the plan, none older than `r`.
  ghost predicate TenNoOlder(plan: seq<RetentionRecord>, r: RetentionRecord, ahead: seq<RetentionRecord>) {
    && |ahead| == KEEP_GENERATIONS
    && Keyed(ahead, HashOf)
    && forall q | q in ahead :: NoOlder(plan, r, q)
  }

  ghost predicate NoOlder(plan: seq<RetentionRecord>, r: RetentionRecord, q: RetentionRecord) {
    && q in plan && q.requestHash != r.requestHash
    && q.protected.Some? && q.completedAt.Some? && r.completedAt.Some?
    && q.completedAt.value >= r.completedAt.value
  }

  lemma TenAhead(sorted: seq<Link>, now: int, rank: nat, plan: seq<RetentionRecord>)
    returns (ahead: seq<RetentionRecord>)
    requires ByAge(sorted) && KEEP_GENERATIONS <= rank < |sorted|
    requires forall q | q in LinkedRecords(sorted, now) :: q in plan
    ensures TenNoOlder(plan, LinkedRecord(sorted[rank], rank, now), ahead)
  {
    var all := LinkedRecords(sorted, now);
    ahead := all[..KEEP_GENERATIONS];
    forall i, j | 0 <= i < j < |ahead| ensures HashOf(ahead[i]) != HashOf(ahead[j]) {
      assert LinkHash(sorted[i]) != LinkHash(sorted[j]);
    }
    forall q | q in ahead ensures NoOlder(plan, LinkedRecord(sorted[rank], rank, now), q) {
      var i :| 0 <= i < KEEP_GENERATIONS && ahead[i] == q;
      assert all[i] == q;
      assert LinkHash(sorted[i]) != LinkHash(sorted[rank]);
    }
  }

  // Only linked deletions are kept by policy or removable.
  lemma RankOf(
    results: seq<DeletionResult>, entries: seq<ManifestEntry>, hostId: string, index: Index, l: Linking,
    sorted: seq<Link>, now: int, r: RetentionRecord
  ) returns (rank: nat)
    requires IndexByRequest(results) == Ok(index)
    requires LinksEntries(l, entries, index, hostId)
    requires r in l.orphans || r in MissingRecords(results, l.matched) || r in LinkedRecords(sorted, now)
    requires r.disposition == Candidate || r.disposition == Keep
    ensures rank < |sorted| && r == LinkedRecord(sorted[rank], rank, now)
  {
    IndexFacts(results);
    MissingFacts(results, l.matched);
    assert r in LinkedRecords(sorted, now);
    rank :| 0 <= rank < |sorted| && LinkedRecords(sorted, now)[rank] == r;
  }

  // A record kept by policy or removable comes from a linked deletion at some
  // rank, and the link is what the directories hold.
  lemma RankedLink(
    deletions: Directory<DeletionResult>, manifests: Directory<Manifest>, orders: Orders, hostId: string,
    fingerprint: string, now: int, r: RetentionRecord
  ) returns (sorted: seq<Link>, rank: nat)
    requires ListsBoth(deletions, manifests, orders)
    requires Plan(deletions, manifests, orders, hostId, fingerprint, now).Ok?
    requires r in Plan(deletions, manifests, orders, hostId, fingerprint, now).value
    requires r.disposition == Candidate || r.disposition == Keep
    ensures ByAge(sorted) && rank < |sorted| && r == LinkedRecord(sorted[rank], rank, now)
    ensures forall q | q in LinkedRecords(sorted, now) ::
              q in Plan(deletions, manifests, orders, hostId, fingerprint, now).value
    ensures Speaks(deletions, manifests, hostId, r, sorted[rank].result, sorted[rank].entry.manifest)
    ensures sorted[rank].result.hostFingerprint == fingerprint
  {
    var results, entries, index, l, links := PlanParts(deletions, manifests, orders, hostId, fingerprint, now);
    sorted := links;
    rank := RankOf(results, entries, hostId, index, l, sorted, now, r);
    LinkSpeaks(deletions, manifests, orders, hostId, fingerprint, results, entries, index, l, sorted, rank);
  }

  // Only finished, unprotected evidence that is old or superseded is removable.
  lemma CandidateIsRemovable(
    deletions: Directory<DeletionResult>, manifests: Directory<Manifest>, orders: Orders, hostId: string,
    fingerprint: string, now: int, r: RetentionRecord
  ) returns (d: DeletionResult, m: Manifest)
    requires ListsBoth(deletions, manifests, orders)
    requires Plan(deletions, manifests, orders, hostId, fingerprint, now).Ok?
    requires r in Plan(deletions, manifests, orders, hostId, fingerprint, now).value
    requires r.disposition == Candidate
    ensures Speaks(deletions, manifests, hostId, r, d, m)
    ensures d.hostFingerprint == fingerprint
    ensures !m.protected && !d.requiresAttention && d.state == BothDeleted
    ensures d.completedAt <= now - RETENTION
            || exists ahead :: TenNoOlder(Plan(deletions, manifests, orders, hostId, fingerprint, now).value, r, ahead)
  {
    var plan := Plan(deletions, manifests, orders, hostId, fingerprint, now).value;
    var sorted, rank := RankedLink(deletions, manifests, orders, hostId, fingerprint, now, r);
    d, m := sorted[rank].result, sorted[rank].entry.manifest;
    CandidateVerdict(sorted[rank], rank, now);
    if d.completedAt > now - RETENTION {
      var ahead := TenAhead(sorted, now, rank, plan);
    }
  }

  lemma CandidateVerdict(x: Link, rank: nat, now: int)
    requires Verdict(x, rank, now).0 == Candidate
    ensures !x.entry.manifest.protected && !x.result.requiresAttention && x.result.state == BothDeleted
    ensures x.result.completedAt <= now - RETENTION || rank >= KEEP_GENERATIONS
  {
  }

  lemma LinkSpeaks(
    deletions: Directory<DeletionResult>, manifests: Directory<Manifest>, orders: Orders, hostId: string,
    fingerprint: string, results: seq<DeletionResult>, entries: seq<ManifestEntry>, index: Index, l: Linking,
    sorted: seq<Link>, rank: nat
  )
    requires Enumerates(deletions, orders.deletions)
    requires ListHost(deletions, orders.deletions, DeletionStamp, hostId, fingerprint) == Ok(results)
    requires IndexByRequest(results) == Ok(index)
    requires EntriesOf(entries, manifests) && LinksEntries(l, entries, index, hostId)
    requires forall x | x in l.linked :: LoadManifest(manifests, x.result).Ok?
    requires SameMembers(sorted, l.linked) && rank < |sorted|
    ensures var x := sorted[rank];
            && OnHost(deletions, DeletionStamp, hostId, x.result)
            && x.result.hostFingerprint == fingerprint
            && x.result.requestHash == x.entry.requestHash
            && x.entry.requestHash in manifests
            && manifests[x.entry.requestHash] == Stored(x.entry.manifest)
            && BoundTo(x.entry.manifest, x.result)
  {
    ListHostExact(deletions, orders.deletions, DeletionStamp, hostId, fingerprint);
    IndexFacts(results);
    var x := sorted[rank];
    assert x in sorted;
    assert x.entry in entries;
    assert x.result in results;
    assert DeletionStamp(x.result).hostFingerprint == fingerprint;
  }

  lemma {:induction false} PrefixHashes(sorted: seq<Link>, n: nat)
    requires n <= |sorted|
    ensures |set i | 0 <= i < n :: LinkHash(sorted[i])| <= n
  {
    if n > 0 {
      PrefixHashes(sorted, n - 1);
      assert (set i | 0 <= i < n :: LinkHash(sorted[i]))
          == (set i | 0 <= i < n - 1 :: LinkHash(sorted[i])) + {LinkHash(sorted[n - 1])};
    }
  }

  // At most ten deletions are kept merely because they are recent.
  lemma AtMostTenWithinPolicy(
    deletions: Directory<DeletionResult>, manifests: Directory<Manifest>, orders: Orders, hostId: string,
    fingerprint: string, now: int
  )
    requires ListsBoth(deletions, manifests, orders)
    requires Plan(deletions, manifests, orders, hostId, fingerprint, now).Ok?
    ensures var plan := Plan(deletions, manifests, orders, hostId, fingerprint, now).value;
            |set r | r in plan && r.disposition == Keep && r.reason == "within_policy" :: r.requestHash|
            <= KEEP_GENERATIONS
  {
    var plan := Plan(deletions, manifests, orders, hostId, fingerprint, now).value;
    var results, entries, index, l, sorted := PlanParts(deletions, manifests, orders, hostId, fingerprint, now);
    var kept := set r | r in plan && r.disposition == Keep && r.reason == "within_policy" :: r.requestHash;
    var n := if |sorted| < KEEP_GENERATIONS then |sorted| else KEEP_GENERATIONS;
    var first := set i | 0 <= i < n :: LinkHash(sorted[i]);
    forall h | h in kept ensures h in first {
      var r :| r in plan && r.disposition == Keep && r.reason == "within_policy" && r.requestHash == h;
      var rank := RankOf(results, entries, hostId, index, l, sorted, now, r);
      VerdictWithinPolicy(sorted[rank], rank, now);
      assert LinkHash(sorted[rank]) == h;
    }
    SubsetCardinality(kept, first);
    PrefixHashes(sorted, n);
  }

  lemma VerdictWithinPolicy(x: Link, rank: nat, now: int)
    requires Verdict(x, rank, now).1 == "within_policy"
    ensures rank < KEEP_GENERATIONS
  {
    assert "protected"[0] == 'p' && "recovery_required"[0] == 'r' && "older_than_30_days"[0] == 'o'
           && "beyond_10_generations"[0] == 'b';
  }

  // The converse: finished, unprotected evidence with a bound manifest is a
  // candidate as soon as it is 30 days old or ten strictly newer linked
  // deletions exist.
  lemma OldOrSupersededIsCandidate(
    deletions: Directory<DeletionResult>, manifests: Directory<Manifest>, orders: Orders, hostId: string,
    fingerprint: string, now: int, r: RetentionRecord, d: DeletionResult, m: Manifest, newer: seq<RetentionRecord>
  )
    requires ListsBoth(deletions, manifests, orders)
    requires Plan(deletions, manifests, orders, hostId, fingerprint, now).Ok?
    requires r in Plan(deletions, manifests, orders, hostId, fingerprint, now).value
    requires Speaks(deletions, manifests, hostId, r, d, m)
    requires !m.protected && !d.requiresAttention && d.state == BothDeleted
    requires d.completedAt <= now - RETENTION
             || (TenNoOlder(Plan(deletions, manifests, orders, hostId, fingerprint, now).value, r, newer)
                 && forall q | q in newer :: q.completedAt.value > d.completedAt)
    ensures r.disposition == Candidate
  {
    var plan := Plan(deletions, manifests, orders, hostId, fingerprint, now).value;
    var results, entries, index, l, sorted := PlanParts(deletions, manifests, orders, hostId, fingerprint, now);
    var x := Link(ManifestEntry(r.requestHash, m), d);
    BoundIsLinked(deletions, manifests, orders, hostId, fingerprint, results, entries, index, l, x);
    var rank := LinkedIsPlanned(sorted, now, x);
    SameHashSameRecord(plan, r, LinkedRecord(x, rank, now));
    if d.completedAt > now - RETENTION {
      forall q | q in newer ensures exists i :: 0 <= i < rank && LinkHash(sorted[i]) == HashOf(q) {
        assert NoOlder(plan, r, q);
        var i := NewerIsAhead(results, entries, hostId, index, l, sorted, now, rank, q);
      }
      ManyAhead(sorted, rank, newer);
    }
  }

  lemma BoundIsLinked(
    deletions: Directory<DeletionResult>, manifests: Directory<Manifest>, orders: Orders, hostId: string,
    fingerprint: string, results: seq<DeletionResult>, entries: seq<ManifestEntry>, index: Index, l: Linking, x: Link
  )
    requires Enumerates(deletions, orders.deletions)
    requires ListHost(deletions, orders.deletions, DeletionStamp, hostId, fingerprint) == Ok(results)
    requires IndexByRequest(results) == Ok(index)
    requires EntriesOf(entries, manifests) && LinksEntries(l, entries, index, hostId)
    requires OnHost(deletions, DeletionStamp, hostId, x.result) && x.result.requestHash == x.entry.requestHash
    requires x.entry.requestHash in manifests && manifests[x.entry.requestHash] == Stored(x.entry.manifest)
    requires BoundTo(x.entry.manifest, x.result)
    ensures x in l.linked
  {
    ListHostExact(deletions, orders.deletions, DeletionStamp, hostId, fingerprint);
    IndexFacts(results);
    assert x.entry in entries && x.result in results && index[x.entry.requestHash] == x.result;
    assert x.entry.manifest.hostId == hostId;
    assert x == Link(x.entry, index[x.entry.requestHash]);
  }

  // A linked record strictly newer than the one at `rank` is listed before it.
  lemma NewerIsAhead(
    results: seq<DeletionResult>, entries: seq<ManifestEntry>, hostId: string, index: Index, l: Linking,
    sorted: seq<Link>, now: int, rank: nat, q: RetentionRecord
  ) returns (i: nat)
    requires IndexByRequest(results) == Ok(index)
    requires LinksEntries(l, entries, index, hostId)
    requires q in l.orphans || q in MissingRecords(results, l.matched) || q in LinkedRecords(sorted, now)
    requires q.protected.Some? && q.completedAt.Some?
    requires ByAge(sorted) && rank < |sorted|
    requires q.completedAt.value > sorted[rank].result.completedAt
    ensures i < rank && LinkHash(sorted[i]) == q.requestHash
  {
    IndexFacts(results);
    MissingFacts(results, l.matched);
    assert q in LinkedRecords(sorted, now);
    i :| 0 <= i < |sorted| && LinkedRecords(sorted, now)[i] == q;
  }

  lemma ManyAhead(sorted: seq<Link>, rank: nat, newer: seq<RetentionRecord>)
    requires rank <= |sorted| && Keyed(newer, HashOf)
    requires forall q | q in newer :: exists i :: 0 <= i < rank && LinkHash(sorted[i]) == HashOf(q)
    ensures |newer| <= rank
  {
    var ahead := set i | 0 <= i < rank :: LinkHash(sorted[i]);
    KeyedCardinality(newer);
    SubsetCardinality(set q | q in newer :: HashOf(q), ahead);
    PrefixHashes(sorted, rank);
  }

  lemma SameHashSameRecord(plan: seq<RetentionRecord>, a: RetentionRecord, b: RetentionRecord)
    requires Keyed(plan, HashOf) && a in plan && b in plan && a.requestHash == b.requestHash
    ensures a == b
  {
    var i :| 0 <= i < |plan| && plan[i] == a;
    var j :| 0 <= j < |plan| && plan[j] == b;
    assert i == j || HashOf(plan[i]) != HashOf(plan[j]);
  }

  lemma {:induction false} KeyedCardinality(records: seq<RetentionRecord>)
    requires Keyed(records, HashOf)
    ensures |set r | r in records :: HashOf(r)| == |records|
  {
    if records != [] {
      var init, last := records[..|records| - 1], records[|records| - 1];
      assert records == init + [last];
      assert Keyed(init, HashOf);
      KeyedCardinality(init);
      assert forall i | 0 <= i < |init| :: HashOf(records[i]) != HashOf(records[|init|]);
      assert (set r | r in records :: HashOf(r)) == (set r | r in init :: HashOf(r)) + {HashOf(last)};
    }
  }
}
