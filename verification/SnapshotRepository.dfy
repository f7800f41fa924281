/** The part of the in-memory repository that stores, lists, archives and prunes host snapshots. */
module SnapshotRepository {
  import opened Prelude
  import opened KeysetCursor
  import opened Snapshots

  /** Every key above the one at `i` has been moved to `i` from the positions before `k`. */
  ghost predicate TopAt(all: seq<Snapshot>, i: nat, k: nat)
    requires i < |all| && k <= |all|
  {
    forall j | i < j < k :: !Above(KeyOf(all[j]), KeyOf(all[i]))
  }

  /** The first `i` items are in order and none of the others belongs before any of them. */
  ghost predicate SortedTo(all: seq<Snapshot>, i: nat)
    requires i <= |all|
  {
    forall x, y | 0 <= x < i && x < y < |all| :: !Above(KeyOf(all[y]), KeyOf(all[x]))
  }

  function Swapped(all: seq<Snapshot>, i: nat, j: nat): seq<Snapshot>
    requires i < |all| && j < |all|
  {
    all[i := all[j]][j := all[i]]
  }

  lemma SwapPermutes(all: seq<Snapshot>, i: nat, j: nat)
    requires i < j < |all|
    ensures multiset(Swapped(all, i, j)) == multiset(all)
  {
    assert all == all[..i] + [all[i]] + all[i + 1..j] + [all[j]] + all[j + 1..];
    assert Swapped(all, i, j) == all[..i] + [all[j]] + all[i + 1..j] + [all[i]] + all[j + 1..];
  }

  /** Swapping a higher key forward keeps what is known about the prefix and about position `i`. */
  lemma SwapKeeps(all: seq<Snapshot>, i: nat, j: nat)
    requires i < j < |all| && SortedTo(all, i) && TopAt(all, i, j)
    requires Above(KeyOf(all[j]), KeyOf(all[i]))
    ensures SortedTo(Swapped(all, i, j), i) && TopAt(Swapped(all, i, j), i, j + 1)
  {
    hide Less;
    var s := Swapped(all, i, j);
    forall k | i < k < j + 1 ensures !Above(KeyOf(s[k]), KeyOf(s[i])) {
      AboveTotal(KeyOf(all[j]), KeyOf(all[i]));
      AboveTotal(KeyOf(all[k]), KeyOf(all[j]));
      if k < j && Above(KeyOf(all[k]), KeyOf(all[j])) {
        AboveTransitive(KeyOf(all[k]), KeyOf(all[j]), KeyOf(all[i]));
      }
    }
  }

  /** The source's exchange sort: position by position, swap whenever a later item belongs first. */
  method SortDescending(all: array<Snapshot>)
    modifies all
    ensures multiset(all[..]) == multiset(old(all[..]))
    ensures SortedTo(all[..], all.Length)
  {
    var i := 0;
    while i < all.Length
      invariant i <= all.Length && SortedTo(all[..], i)
      invariant multiset(all[..]) == multiset(old(all[..]))
    {
      var j := i + 1;
      while j < all.Length
        invariant i < j <= all.Length && SortedTo(all[..], i) && TopAt(all[..], i, j)
        invariant multiset(all[..]) == multiset(old(all[..]))
      {
        ghost var s := all[..];
        if all[j].createdAt > all[i].createdAt
           || (all[j].createdAt == all[i].createdAt && Less(all[i].id, all[j].id)) {
          SwapKeeps(s, i, j);
          SwapPermutes(s, i, j);
          all[i], all[j] := all[j], all[i];
          assert all[..] == Swapped(s, i, j);
        }
        j := j + 1;
      }
      i := i + 1;
    }
  }

  /** Items with distinct IDs that are sorted are strictly descending. */
  lemma SortedIsDescending(all: seq<Snapshot>)
    requires SortedTo(all, |all|)
    requires forall i, j | 0 <= i < j < |all| :: all[i].id != all[j].id
    ensures Descending(all)
  {
    hide Above;
    forall i, j | 0 <= i < j < |all| ensures Above(KeyOf(all[i]), KeyOf(all[j])) {
      AboveTotal(KeyOf(all[i]), KeyOf(all[j]));
    }
  }

  ghost predicate DistinctIDs(all: seq<Snapshot>) {
    forall i, j | 0 <= i < j < |all| :: all[i].id != all[j].id
  }

  /** The selected snapshots, each once, in the order in which the map was walked. */
  ghost predicate IsCollection(all: seq<Snapshot>, store: Store, tenantID: string, hostID: string) {
    && DistinctIDs(all)
    && (forall s | s in all :: s.id in store && store[s.id] == s && Selected(s, tenantID, hostID))
    && (forall id | id in store && Selected(store[id], tenantID, hostID) :: store[id] in all)
  }

  lemma {:induction false} DistinctCount(all: seq<Snapshot>, s: Snapshot)
    requires DistinctIDs(all)
    ensures multiset(all)[s] <= 1
  {
    if all != [] {
      var n := |all| - 1;
      assert all == all[..n] + [all[n]];
      DistinctCount(all[..n], s);
      if all[n] == s {
        assert s !in all[..n];
      }
    }
  }

  lemma RepeatedCount(all: seq<Snapshot>, i: nat, j: nat)
    requires i < j < |all| && all[i] == all[j]
    ensures multiset(all)[all[i]] >= 2
  {
    assert all == all[..i] + [all[i]] + all[i + 1..j] + [all[j]] + all[j + 1..];
  }

  lemma SortedCollectionIsListing(all: seq<Snapshot>, sorted: seq<Snapshot>, store: Store, tenantID: string, hostID: string)
    requires WellKeyed(store) && IsCollection(all, store, tenantID, hostID)
    requires multiset(sorted) == multiset(all) && SortedTo(sorted, |sorted|)
    ensures IsListing(sorted, store, tenantID, hostID)
  {
    forall s ensures s in sorted <==> s in all {
      assert s in sorted <==> s in multiset(sorted);
      assert s in all <==> s in multiset(all);
    }
    forall i, j | 0 <= i < j < |sorted| ensures sorted[i].id != sorted[j].id {
      assert sorted[i] in all && sorted[j] in all;
      if sorted[i].id == sorted[j].id {
        RepeatedCount(sorted, i, j);
        DistinctCount(all, sorted[i]);
      }
    }
    SortedIsDescending(sorted);
  }

  class Repository {
    var snapshots: Store

    ghost predicate Valid()
      reads this
    {
      WellKeyed(snapshots)
    }

    constructor ()
      ensures Valid() && snapshots == map[]
    {
      snapshots := map[];
    }

    /** Stores a snapshot; a missing ID or time is filled in first. */
    method SaveSnapshot(entry: Snapshot, hasTime: bool, uuid: Bytes, now: Nanos)
      requires Valid()
      modifies this
      ensures Valid()
      ensures var saved := entry.(id := if entry.id == [] then uuid else entry.id,
                                  createdAt := if hasTime then entry.createdAt else now);
              snapshots == old(snapshots)[saved.id := saved]
    {
      var saved := entry;
      if saved.id == [] {
        saved := saved.(id := uuid);
      }
      if !hasTime {
        saved := saved.(createdAt := now);
      }
      snapshots := snapshots[saved.id := saved];
    }

    /** The loop that copies the selected snapshots out of the map. */
    method Collect(tenantID: string, hostID: string) returns (all: seq<Snapshot>)
      requires Valid()
      ensures IsCollection(all, snapshots, tenantID, hostID)
    {
      all := [];
      var todo := snapshots.Keys;
      while todo != {}
        invariant todo <= snapshots.Keys
        invariant DistinctIDs(all)
        invariant forall s | s in all ::
                    s.id in snapshots && s.id !in todo && snapshots[s.id] == s && Selected(s, tenantID, hostID)
        invariant forall id | id in snapshots && id !in todo && Selected(snapshots[id], tenantID, hostID) ::
                    snapshots[id] in all
        decreases |todo|
      {
        var id :| id in todo;
        var snap := snapshots[id];
        ghost var before := all;
        if Selected(snap, tenantID, hostID) {
          assert forall s | s in all :: s.id != id;
          all := all + [snap];
        }
        assert forall s | s in before :: s in all;
        todo := todo - {id};
      }
    }

    method ListAllSnapshotsForTenant(tenantID: string) returns (list: seq<Snapshot>)
      requires Valid()
      ensures IsCollection(list, snapshots, tenantID, "")
      ensures forall s :: s in list <==> s.id in snapshots && snapshots[s.id] == s && tenantID in {"", s.tenantID}
      ensures forall i, j | 0 <= i < j < |list| :: list[i].id != list[j].id
    {
      list := Collect(tenantID, "");
    }

    method ListSnapshotsKeyset(tenantID: string, hostID: string, req: PageRequest) returns (page: Page)
      requires Valid()
      ensures Answers(page, snapshots, tenantID, hostID, req)
      ensures HoldsOnly(page, snapshots, tenantID, hostID, req.limit)
      ensures DecodeCursor(req.cursor).Err? || req.cursor == "" ==> LeavesOnlyLater(page, snapshots, tenantID, hostID)
    {
      hide DecodeCursor, EncodeCursor, Above, Less, IsListing, HoldsOnly, LeavesOnlyLater;
      var all := SortedListing(tenantID, hostID);
      var startIndex := 0;
      if req.cursor != "" {
        match DecodeCursor(req.cursor)
        case Ok(Some(cursor)) =>
          startIndex := SearchCursor(all, cursor);
        case _ =>
      }
      NoCursorDecodes();
      assert startIndex == StartIndex(all, req.cursor);
      hide StartIndex, FirstBelow;

      var limit := req.limit;
      if limit <= 0 {
        limit := 20;
      } else if limit > 100 {
        limit := 100;
      }

      var items := [];
      var hasMore := false;
      var nextCursor := "";
      if startIndex < |all| {
        var endIndex := startIndex + limit;
        if endIndex < |all| {
          hasMore := true;
          items := all[startIndex..endIndex];
          var lastItem := items[|items| - 1];
          nextCursor := EncodeCursor(lastItem.createdAt, lastItem.id);
        } else {
          items := all[startIndex..];
        }
      }
      page := Page(items, nextCursor, hasMore, limit);
      assert page == PageOf(all, req);
      PageHolds(page, snapshots, tenantID, hostID, req);
    }

    /** Copies the selected snapshots out of the map and sorts them. */
    method SortedListing(tenantID: string, hostID: string) returns (all: seq<Snapshot>)
      requires Valid()
      ensures IsListing(all, snapshots, tenantID, hostID)
    {
      hide Above, Less;
      var collected := Collect(tenantID, hostID);
      var sorting := new Snapshot[|collected|](i requires 0 <= i < |collected| => collected[i]);
      assert sorting[..] == collected;
      SortDescending(sorting);
      all := sorting[..];
      SortedCollectionIsListing(collected, all, snapshots, tenantID, hostID);
    }

    method ArchiveSnapshotPayload(id: Bytes, archive: Archive, rawSize: int) returns (found: bool)
      requires Valid()
      modifies this
      ensures Valid() && found == (id in old(snapshots))
      ensures snapshots == if found then old(snapshots)[id := Archived(old(snapshots)[id], archive, rawSize)]
                           else old(snapshots)
    {
      if id !in snapshots {
        return false;
      }
      var snap := snapshots[id];
      snap := snap.(isArchived := true, archive := Some(archive), payloadSizeBytes := rawSize, payload := "");
      snapshots := snapshots[id := snap];
      return true;
    }

    method MarkSnapshotWeeklyRetained(id: Bytes) returns (found: bool)
      requires Valid()
      modifies this
      ensures Valid() && found == (id in old(snapshots))
      ensures snapshots == if found then old(snapshots)[id := old(snapshots)[id].(isDownsampleRetained := true)]
                           else old(snapshots)
    {
      if id !in snapshots {
        return false;
      }
      snapshots := snapshots[id := snapshots[id].(isDownsampleRetained := true)];
      return true;
    }

    method PruneDownsampledSnapshot(id: Bytes)
      requires Valid()
      modifies this
      ensures Valid() && snapshots == old(snapshots) - {id}
    {
      snapshots := snapshots - {id};
    }
  }

  /** An archived snapshot has lost its payload and records the payload's size. */
  function Archived(s: Snapshot, archive: Archive, rawSize: int): Snapshot {
    s.(isArchived := true, archive := Some(archive), payloadSizeBytes := rawSize, payload := "")
  }

  /** The loop that looks for the cursor's position; nothing below the cursor leaves it at zero. */
  method SearchCursor(all: seq<Snapshot>, cursor: Cursor) returns (startIndex: nat)
    ensures startIndex == if FirstBelow(all, cursor) < |all| then FirstBelow(all, cursor) else 0
    ensures startIndex <= |all|
  {
    startIndex := 0;
    for i := 0 to |all|
      invariant startIndex == 0
      invariant forall k | 0 <= k < i :: !Above(cursor, KeyOf(all[k]))
    {
      var item := all[i];
      if item.createdAt < cursor.createdAt || (item.createdAt == cursor.createdAt && Less(item.id, cursor.id)) {
        return i;
      }
    }
  }
}
