// What the local retention runner reports about a prune.

module LocalRetention {
  import opened Foundations
  import opened Records
  import opened BackupStore
  import opened BackupCatalog
  import opened BackupPrune

  datatype RetentionState = RetentionCompleted | RetentionPartial | RetentionFailed | RetentionUnknown

  datatype LocalRetentionResult = LocalRetentionResult(
    requestId: string,
    hostId: string,
    evaluatedAt: int,
    state: RetentionState,
    removedIds: seq<string>,
    remainingIds: seq<string>,
    errorCode: Option<string>
  )

  // The ids of `before` that are not in `remaining`, in order.
  function Missing(before: seq<string>, remaining: seq<string>): seq<string> {
    if before == [] then []
    else (if before[0] in remaining then [] else [before[0]]) + Missing(before[1..], remaining)
  }

  // The prune and the listing after it account for each other.
  predicate ListingUsable(before: seq<string>, pruned: Outcome<seq<string>>, listed: Outcome<seq<string>>) {
    && pruned.Ok? && listed.Ok? && |Elements(before)| == |before|
    && (forall i | 0 <= i < |listed.value| :: listed.value[i] in before)
    && pruned.value == Missing(before, listed.value)
  }

  // `LocalRetentionRunner.prune` after the earlier inventory has been read: the
  // outcome of the backend's prune, the listing after it, and the listing tried
  // again when anything was wrong.
  function Report(
    requestId: string, hostId: string, now: int, before: seq<string>, pruned: Outcome<seq<string>>,
    listed: Outcome<seq<string>>, relisted: Outcome<seq<string>>
  ): LocalRetentionResult
  {
    if ListingUsable(before, pruned, listed)
    then LocalRetentionResult(requestId, hostId, now, RetentionCompleted, pruned.value, listed.value, None)
    else
      var code := Some(if pruned.Raised? then CodeOf(pruned.error, "local_retention_failed")
                       else if listed.Raised? then CodeOf(listed.error, "local_retention_failed")
                       else "local_retention_reconciliation_mismatch");
      match relisted
      case Raised(_) => LocalRetentionResult(requestId, hostId, now, RetentionUnknown, [], [], code)
      case Ok(remaining) =>
        var removed := Missing(before, remaining);
        LocalRetentionResult(requestId, hostId, now, if removed == [] then RetentionFailed else RetentionPartial,
                             removed, remaining, code)
  }

  // `_validate_local_retention`
  predicate ValidReport(r: LocalRetentionResult) {
    && IsIdentifier(r.requestId)
    && IsIdentifier(r.hostId)
    && |Elements(r.removedIds)| == |r.removedIds|
    && |Elements(r.remainingIds)| == |r.remainingIds|
    && Elements(r.removedIds) * Elements(r.remainingIds) == {}
    && (r.state == RetentionCompleted <==> r.errorCode.None?)
    && (r.state == RetentionPartial ==> r.removedIds != [])
    && (r.state == RetentionFailed || r.state == RetentionUnknown ==> r.removedIds == [])
    && (r.state == RetentionUnknown ==> r.remainingIds == [])
  }

  lemma {:induction false} MissingAreBehind(before: seq<string>, remaining: seq<string>)
    ensures forall id :: id in Missing(before, remaining) <==> id in before && id !in remaining
    ensures Distinct(before) ==> Distinct(Missing(before, remaining))
  {
    if before != [] {
      MissingAreBehind(before[1..], remaining);
      var rest := Missing(before[1..], remaining);
      assert before == [before[0]] + before[1..];
      if Distinct(before) {
        assert forall i, j | 0 <= i < j < |before[1..]| ::
               before[1..][i] == before[i + 1] && before[1..][j] == before[j + 1];
        assert before[0] !in before[1..];
        assert forall i | 0 <= i < |rest| :: rest[i] in rest;
      }
    }
  }

  // Unless the state is unknown, the report splits the earlier inventory into
  // removed and remaining ids: nothing is lost, nothing is in both, and nothing
  // still listed is called removed.
  lemma ReportSplitsInventory(
    requestId: string, hostId: string, now: int, before: seq<string>, pruned: Outcome<seq<string>>,
    listed: Outcome<seq<string>>, relisted: Outcome<seq<string>>
  )
    ensures var r := Report(requestId, hostId, now, before, pruned, listed, relisted);
            && (r.state != RetentionUnknown ==>
                  && (forall id | id in before :: id in r.removedIds <==> id !in r.remainingIds)
                  && (forall id | id in r.removedIds :: id in before))
            && (r.state == RetentionCompleted ==> forall id | id in r.remainingIds :: id in before)
            && (r.state == RetentionUnknown ==> r.removedIds == [] && r.remainingIds == [])
  {
    if listed.Ok? { MissingAreBehind(before, listed.value); }
    if relisted.Ok? { MissingAreBehind(before, relisted.value); }
  }

  // The listing the report goes by, if any succeeded.
  function ListingUsed(
    before: seq<string>, pruned: Outcome<seq<string>>, listed: Outcome<seq<string>>, relisted: Outcome<seq<string>>
  ): Option<seq<string>>
  {
    if ListingUsable(before, pruned, listed) then Some(listed.value)
    else if relisted.Ok? then Some(relisted.value)
    else None
  }

  lemma {:induction false} MissingRepeats(before: seq<string>, remaining: seq<string>)
    ensures Distinct(Missing(before, remaining))
            <==> forall i, j | 0 <= i < j < |before| && before[i] == before[j] :: before[i] in remaining
  {
    if before != [] {
      var rest, first := before[1..], before[0];
      MissingRepeats(rest, remaining);
      MissingAreBehind(rest, remaining);
      assert before == [first] + rest;
      var missing := Missing(rest, remaining);
      if first !in remaining {
        assert Missing(before, remaining) == [first] + missing;
        if first in missing {
          var j :| 0 <= j < |rest| && rest[j] == first;
          assert before[0] == before[j + 1];
          var k :| 0 <= k < |missing| && missing[k] == first;
          assert ([first] + missing)[0] == ([first] + missing)[k + 1];
        } else {
          RepeatsBehind(before, remaining);
          DistinctBehind(first, missing);
        }
      } else {
        assert Missing(before, remaining) == missing;
        RepeatsBehind(before, remaining);
      }
    }
  }

  // An id is repeated in a list because of its head or behind it.
  lemma RepeatsBehind(before: seq<string>, remaining: seq<string>)
    requires before != [] && (before[0] in remaining || before[0] !in Missing(before[1..], remaining))
    ensures (forall i, j | 0 <= i < j < |before| && before[i] == before[j] :: before[i] in remaining)
            <==> forall i, j | 0 <= i < j < |before[1..]| && before[1..][i] == before[1..][j] ::
                 before[1..][i] in remaining
  {
    var rest := before[1..];
    MissingAreBehind(rest, remaining);
    assert forall i | 0 <= i < |rest| :: rest[i] == before[i + 1] && rest[i] in rest;
    if forall i, j | 0 <= i < j < |rest| && rest[i] == rest[j] :: rest[i] in remaining {
      forall i, j | 0 <= i < j < |before| && before[i] == before[j] ensures before[i] in remaining {
        assert before[j] == rest[j - 1];
        if i > 0 {
          assert before[i] == rest[i - 1];
        }
      }
    }
    if forall i, j | 0 <= i < j < |before| && before[i] == before[j] :: before[i] in remaining {
      forall i, j | 0 <= i < j < |rest| && rest[i] == rest[j] ensures rest[i] in remaining {
        assert before[i + 1] == before[j + 1];
      }
    }
  }

  lemma DistinctBehind(first: string, rest: seq<string>)
    requires first !in rest
    ensures Distinct([first] + rest) <==> Distinct(rest)
  {
    var all := [first] + rest;
    if Distinct(all) {
      forall i, j | 0 <= i < j < |rest| ensures rest[i] != rest[j] {
        assert all[i + 1] != all[j + 1];
      }
    }
  }

  // The report passes its own validator exactly when the request and host are
  // identifiers, the listing it goes by repeats no id, and the earlier inventory
  // repeated none that is missing from that listing.
  lemma ReportIsValidIff(
    requestId: string, hostId: string, now: int, before: seq<string>, pruned: Outcome<seq<string>>,
    listed: Outcome<seq<string>>, relisted: Outcome<seq<string>>
  )
    ensures var used := ListingUsed(before, pruned, listed, relisted);
            ValidReport(Report(requestId, hostId, now, before, pruned, listed, relisted))
            <==> && IsIdentifier(requestId) && IsIdentifier(hostId)
                 && (used.Some? ==>
                       && Distinct(used.value)
                       && forall i, j | 0 <= i < j < |before| && before[i] == before[j] :: before[i] in used.value)
  {
    var r := Report(requestId, hostId, now, before, pruned, listed, relisted);
    var used := ListingUsed(before, pruned, listed, relisted);
    DistinctCardinality(r.removedIds);
    DistinctCardinality(r.remainingIds);
    if used.Some? {
      assert r.removedIds == Missing(before, used.value) && r.remainingIds == used.value;
      MissingAreBehind(before, used.value);
      MissingRepeats(before, used.value);
    }
  }

  // ---- The runner on top of the local store ----

  function Ids(list: seq<Manifest>): seq<string> {
    seq(|list|, i requires 0 <= i < |list| => list[i].backupId)
  }

  function Reverse(xs: seq<string>): seq<string> {
    if xs == [] then [] else Reverse(xs[1..]) + [xs[0]]
  }

  lemma {:induction false} ReverseAppend(xs: seq<string>, x: string)
    ensures Reverse(xs + [x]) == [x] + Reverse(xs)
  {
    if xs == [] {
      assert [] + [x] == [x];
    } else {
      assert (xs + [x])[1..] == xs[1..] + [x];
      ReverseAppend(xs[1..], x);
    }
  }

  lemma {:induction false} ReverseEnds(xs: seq<string>)
    ensures |Reverse(xs)| == |xs|
    ensures xs != [] ==> Reverse(xs)[0] == xs[|xs| - 1]
  {
    if xs != [] {
      ReverseEnds(xs[1..]);
    }
  }

  // Pruning reports oldest first what the runner expects newest first.
  lemma {:induction false} PruneReportsOldestFirst(
    s: Store, list: seq<Manifest>, keep: nat, now: int, faults: TreeFaults, n: nat, remaining: seq<string>
  )
    requires n <= |list| && DistinctIds(list)
    requires PruneDown(s, list, keep, now, faults, n).error.None?
    requires forall i | n <= i < |list| ::
               list[i].backupId in remaining <==> list[i].backupId !in PruneDown(s, list, keep, now, faults, n).removed
    ensures Missing(Ids(list)[n..], remaining) == Reverse(PruneDown(s, list, keep, now, faults, n).removed)
    ensures forall id | id in PruneDown(s, list, keep, now, faults, n).removed ::
              exists i :: n <= i < |list| && list[i].backupId == id
    decreases |list| - n
  {
    if n < |list| {
      var after := PruneDown(s, list, keep, now, faults, n);
      var before := PruneDown(s, list, keep, now, faults, n + 1);
      RemovedComeFromTail(s, list, keep, now, faults, n + 1);
      assert Ids(list)[n..] == [list[n].backupId] + Ids(list)[n + 1..];
      PruneReportsOldestFirst(s, list, keep, now, faults, n + 1, remaining);
      if after.removed != before.removed {
        ReverseAppend(before.removed, list[n].backupId);
      } else {
        assert list[n].backupId !in before.removed;
      }
    }
  }

  lemma {:induction false} RemovedComeFromTail(
    s: Store, list: seq<Manifest>, keep: nat, now: int, faults: TreeFaults, n: nat
  )
    requires n <= |list|
    ensures forall id | id in PruneDown(s, list, keep, now, faults, n).removed ::
              exists i :: n <= i < |list| && list[i].backupId == id
    decreases |list| - n
  {
    if n < |list| {
      RemovedComeFromTail(s, list, keep, now, faults, n + 1);
    }
  }

  lemma {:induction false} RemovedAreDistinct(
    s: Store, list: seq<Manifest>, keep: nat, now: int, faults: TreeFaults, n: nat
  )
    requires n <= |list| && DistinctIds(list)
    ensures Distinct(PruneDown(s, list, keep, now, faults, n).removed)
    decreases |list| - n
  {
    if n < |list| {
      RemovedAreDistinct(s, list, keep, now, faults, n + 1);
      RemovedComeFromTail(s, list, keep, now, faults, n + 1);
      assert list[n].backupId !in PruneDown(s, list, keep, now, faults, n + 1).removed;
    }
  }

  // With the local store as backend and every listing read back correctly, a
  // prune that finished is reported as completed exactly when at most one of the
  // listed backups was to go: otherwise the two orders differ.
  lemma CompletedIffAtMostOneRemovable(
    s: Store, list: seq<Manifest>, keep: nat, now: int, faults: TreeFaults, requestId: string, hostId: string,
    remaining: seq<string>
  )
    requires DistinctIds(list)
    requires PruneDown(s, list, keep, now, faults, 0).error.None?
    requires forall i | 0 <= i < |list| :: list[i].backupId in remaining <==> Survives(list, i, keep, now)
    requires forall id | id in remaining :: id in Ids(list)
    ensures var removed := PruneDown(s, list, keep, now, faults, 0).removed;
            Report(requestId, hostId, now, Ids(list), Ok(removed), Ok(remaining), Ok(remaining)).state
            == RetentionCompleted
            <==> forall i, j | 0 <= i < |list| && 0 <= j < |list|
                               && !Survives(list, i, keep, now) && !Survives(list, j, keep, now) :: i == j
  {
    var removed := PruneDown(s, list, keep, now, faults, 0).removed;
    PruneKeepsExactly(s, list, keep, now, faults);
    assert Ids(list)[0..] == Ids(list);
    PruneReportsOldestFirst(s, list, keep, now, faults, 0, remaining);
    DistinctCardinality(Ids(list));
    assert Distinct(Ids(list));
    ReverseEnds(removed);
    RemovedAreDistinct(s, list, keep, now, faults, 0);
    AtMostOne(list, keep, now, removed);
    if |removed| <= 1 {
      assert Reverse(removed) == removed;
    } else {
      assert removed[0] != removed[|removed| - 1];
    }
  }

  lemma AtMostOne(list: seq<Manifest>, keep: nat, now: int, removed: seq<string>)
    requires DistinctIds(list) && Distinct(removed)
    requires forall id | id in removed :: exists i :: 0 <= i < |list| && list[i].backupId == id
    requires forall i | 0 <= i < |list| :: list[i].backupId in removed <==> !Survives(list, i, keep, now)
    ensures |removed| <= 1
            <==> forall i, j | 0 <= i < |list| && 0 <= j < |list|
                               && !Survives(list, i, keep, now) && !Survives(list, j, keep, now) :: i == j
  {
    if |removed| > 1 {
      assert removed[0] in removed && removed[1] in removed;
      var i :| 0 <= i < |list| && list[i].backupId == removed[0];
      var j :| 0 <= j < |list| && list[j].backupId == removed[1];
      assert i != j;
    }
  }
}
