/** The retention engine: the dry run that predicts a run's impact, and the run itself. */
module RetentionEngine {
  import opened Prelude
  import Strings
  import opened KeysetCursor
  import opened Snapshots
  import opened SnapshotRepository
  import opened RetentionSpec

  datatype Strategy = ArchiveStrategy | DownsampleStrategy

  /** Length of a payload's serialised form, or None when it cannot be serialised. */
  type Marshal = string -> Option<nat>

  datatype Impact = Impact(processed: nat, archived: nat, pruned: nat, retained: nat, reclaimedBytes: int)

  datatype RetentionError = InvalidStrategy | ContextCancelled

  datatype Request = Request(retentionDays: int, strategy: string)

  datatype DryRunReport = DryRunReport(evaluated: nat, impact: Impact, endpoints: set<string>)

  const DEFAULT_DAYS := 90

  /** Case and surrounding blanks do not matter; an empty strategy means archiving. */
  function StrategyOf(name: string): Option<Strategy> {
    var s := Strings.Lower(Strings.TrimSpace(name));
    if s == "" || s == "archive" then Some(ArchiveStrategy) else if s == "downsample" then Some(DownsampleStrategy) else None
  }

  /** The scope of a request: its days back from now, ninety if it names none. */
  function ScopeOf(req: Request, tenantID: string, daysBack: int -> int, calendar: Calendar): Scope {
    Scope(tenantID, daysBack(if req.retentionDays <= 0 then DEFAULT_DAYS else req.retentionDays), calendar)
  }

  ghost function SelectedIDs(store: Store, tenantID: string): set<Bytes> {
    set id | id in store && Selected(store[id], tenantID, "")
  }

  lemma {:induction false} CollectionSize(all: seq<Snapshot>, store: Store, tenantID: string)
    requires WellKeyed(store) && IsCollection(all, store, tenantID, "")
    ensures |all| == |SelectedIDs(store, tenantID)|
  {
    IDsSize(all);
    forall id | id in SelectedIDs(store, tenantID) ensures id in IDs(all) {
      assert store[id] in all;
    }
    assert IDs(all) == SelectedIDs(store, tenantID);
  }

  lemma {:induction false} IDsSize(snaps: seq<Snapshot>)
    requires DistinctIDs(snaps)
    ensures |IDs(snaps)| == |snaps|
  {
    if snaps != [] {
      var n := |snaps| - 1;
      assert snaps == snaps[..n] + [snaps[n]];
      IDsSize(snaps[..n]);
      assert IDs(snaps) == IDs(snaps[..n]) + {snaps[n].id};
      assert snaps[n].id !in IDs(snaps[..n]);
    }
  }

  function SerialisedLength(marshal: Marshal, s: Snapshot): int {
    match marshal(s.payload) { case None => 0 case Some(n) => n }
  }

  /** The recorded size if there is one, otherwise the serialised size. */
  function RecordedLength(marshal: Marshal, s: Snapshot): int {
    if s.payloadSizeBytes > 0 then s.payloadSizeBytes else SerialisedLength(marshal, s)
  }

  function SerialisedSize(marshal: Marshal): Snapshot -> int {
    (s: Snapshot) => SerialisedLength(marshal, s)
  }

  function RecordedSize(marshal: Marshal): Snapshot -> int {
    (s: Snapshot) => RecordedLength(marshal, s)
  }

  // ----- Sums over sets of snapshots --------------------------------------------------------

  ghost function SumOver(ids: set<Bytes>, store: Store, size: Snapshot -> int): int
    requires ids <= store.Keys
    decreases |ids|
  {
    if ids == {} then 0
    else
      var id :| id in ids;
      size(store[id]) + SumOver(ids - {id}, store, size)
  }

  lemma {:induction false} SumRemove(ids: set<Bytes>, store: Store, size: Snapshot -> int, id: Bytes)
    requires ids <= store.Keys && id in ids
    ensures SumOver(ids, store, size) == size(store[id]) + SumOver(ids - {id}, store, size)
    decreases |ids|
  {
    var x :| x in ids && SumOver(ids, store, size) == size(store[x]) + SumOver(ids - {x}, store, size);
    if x != id {
      SumRemove(ids - {x}, store, size, id);
      SumRemove(ids - {id}, store, size, x);
      assert ids - {x} - {id} == ids - {id} - {x};
    }
  }

  ghost function SumSeq(snaps: seq<Snapshot>, size: Snapshot -> int): int {
    if snaps == [] then 0 else SumSeq(snaps[..|snaps| - 1], size) + size(snaps[|snaps| - 1])
  }

  ghost function IDs(snaps: seq<Snapshot>): set<Bytes> {
    set s | s in snaps :: s.id
  }

  /** Adding distinct new snapshots one by one adds their sizes and their number. */
  lemma {:induction false} SumAdd(ids: set<Bytes>, snaps: seq<Snapshot>, store: Store, size: Snapshot -> int)
    requires ids <= store.Keys && DistinctIDs(snaps)
    requires forall s | s in snaps :: s.id in store && store[s.id] == s && s.id !in ids
    ensures ids + IDs(snaps) <= store.Keys
    ensures SumOver(ids + IDs(snaps), store, size) == SumOver(ids, store, size) + SumSeq(snaps, size)
    ensures |ids + IDs(snaps)| == |ids| + |snaps|
    decreases |snaps|
  {
    hide SumOver;
    if snaps == [] {
      assert ids + IDs(snaps) == ids;
    } else {
      var n := |snaps| - 1;
      var last := snaps[n];
      assert snaps == snaps[..n] + [last];
      SumAdd(ids, snaps[..n], store, size);
      assert last.id !in IDs(snaps[..n]);
      assert ids + IDs(snaps) == (ids + IDs(snaps[..n])) + {last.id};
      assert (ids + IDs(snaps)) - {last.id} == ids + IDs(snaps[..n]);
      SumRemove(ids + IDs(snaps), store, size, last.id);
    }
  }

  // ----- Grouping by host and week ----------------------------------------------------------

  /** The eligible snapshots of one bucket, in the order of the list. */
  function GroupOf(sc: Scope, list: seq<Snapshot>, b: Bucket): seq<Snapshot> {
    if list == [] then []
    else
      var s := list[|list| - 1];
      GroupOf(sc, list[..|list| - 1], b) + if Eligible(sc, s) && BucketOf(sc, s) == b then [s] else []
  }

  lemma {:induction false} GroupMembers(sc: Scope, list: seq<Snapshot>, b: Bucket)
    ensures forall s :: s in GroupOf(sc, list, b) <==> s in list && Eligible(sc, s) && BucketOf(sc, s) == b
    ensures DistinctIDs(list) ==> DistinctIDs(GroupOf(sc, list, b))
  {
    hide Eligible, BucketOf;
    if list != [] {
      var n := |list| - 1;
      assert list == list[..n] + [list[n]];
      GroupMembers(sc, list[..n], b);
      if DistinctIDs(list) {
        assert forall s | s in list[..n] :: s.id != list[n].id;
      }
    }
  }

  ghost predicate IsGrouping(groups: map<Bucket, seq<Snapshot>>, sc: Scope, list: seq<Snapshot>) {
    && (forall b | b in groups :: groups[b] == GroupOf(sc, list, b) && groups[b] != [])
    && (forall s | s in list && Eligible(sc, s) :: BucketOf(sc, s) in groups)
  }

  lemma GroupStep(sc: Scope, list: seq<Snapshot>, i: nat, b: Bucket)
    requires i < |list|
    ensures GroupOf(sc, list[..i + 1], b) ==
            GroupOf(sc, list[..i], b) + if Eligible(sc, list[i]) && BucketOf(sc, list[i]) == b then [list[i]] else []
  {
    assert list[..i + 1][..i] == list[..i];
  }

  /** Grouping the eligible snapshots, one at a time. */
  method GroupByHostWeek(list: seq<Snapshot>, sc: Scope) returns (hostWeeks: map<Bucket, seq<Snapshot>>)
    ensures IsGrouping(hostWeeks, sc, list)
  {
    hide Eligible, BucketOf, GroupOf;
    hostWeeks := map[];
    EmptyGroups(sc);
    for i := 0 to |list|
      invariant forall b :: GroupOf(sc, list[..i], b) == if b in hostWeeks then hostWeeks[b] else []
      invariant forall b | b in hostWeeks :: hostWeeks[b] != []
      invariant forall k | 0 <= k < i && Eligible(sc, list[k]) :: BucketOf(sc, list[k]) in hostWeeks
    {
      var snap := list[i];
      forall b ensures GroupOf(sc, list[..i + 1], b) ==
                       GroupOf(sc, list[..i], b) + if Eligible(sc, snap) && BucketOf(sc, snap) == b then [snap] else []
      {
        GroupStep(sc, list, i, b);
      }
      if Eligible(sc, snap) {
        var key := BucketOf(sc, snap);
        hostWeeks := hostWeeks[key := (if key in hostWeeks then hostWeeks[key] else []) + [snap]];
      }
    }
    assert list[..|list|] == list;
  }

  lemma EmptyGroups(sc: Scope)
    ensures forall list: seq<Snapshot>, b | list == [] :: GroupOf(sc, list, b) == []
  {
  }

  ghost predicate Ascending(snaps: seq<Snapshot>) {
    forall i, j | 0 <= i < j < |snaps| :: snaps[i].createdAt <= snaps[j].createdAt
  }

  /** A sort by creation time; like the library's, it promises nothing about ties. */
  method SortByTime(snaps: seq<Snapshot>) returns (sorted: seq<Snapshot>)
    requires DistinctIDs(snaps)
    ensures Ascending(sorted) && DistinctIDs(sorted) && |sorted| == |snaps|
    ensures forall s :: s in sorted <==> s in snaps
  {
    sorted := [];
    for i := 0 to |snaps|
      invariant Ascending(sorted) && DistinctIDs(sorted) && |sorted| == i
      invariant forall s :: s in sorted <==> s in snaps[..i]
    {
      assert forall s | s in snaps[..i] :: s.id != snaps[i].id;
      assert snaps[..i + 1] == snaps[..i] + [snaps[i]];
      sorted := InsertByTime(sorted, snaps[i]);
    }
    assert snaps[..|snaps|] == snaps;
  }

  method InsertByTime(sorted: seq<Snapshot>, x: Snapshot) returns (r: seq<Snapshot>)
    requires Ascending(sorted) && DistinctIDs(sorted)
    requires forall s | s in sorted :: s.id != x.id
    ensures Ascending(r) && DistinctIDs(r) && |r| == |sorted| + 1
    ensures forall s :: s in r <==> s in sorted || s == x
  {
    var k := |sorted|;
    while k > 0 && x.createdAt < sorted[k - 1].createdAt
      invariant 0 <= k <= |sorted|
      invariant forall j | k <= j < |sorted| :: x.createdAt < sorted[j].createdAt
    {
      k := k - 1;
    }
    r := Inserted(sorted, x, k);
    InsertedMembers(sorted, x, k);
    InsertedOrder(sorted, x, k);
  }

  function Inserted(sorted: seq<Snapshot>, x: Snapshot, k: nat): seq<Snapshot>
    requires k <= |sorted|
  {
    sorted[..k] + [x] + sorted[k..]
  }

  lemma InsertedMembers(sorted: seq<Snapshot>, x: Snapshot, k: nat)
    requires k <= |sorted|
    ensures forall s :: s in Inserted(sorted, x, k) <==> s in sorted || s == x
  {
    assert sorted == sorted[..k] + sorted[k..];
  }

  lemma InsertedOrder(sorted: seq<Snapshot>, x: Snapshot, k: nat)
    requires k <= |sorted| && Ascending(sorted) && DistinctIDs(sorted)
    requires forall j | k <= j < |sorted| :: x.createdAt < sorted[j].createdAt
    requires k > 0 ==> sorted[k - 1].createdAt <= x.createdAt
    requires forall s | s in sorted :: s.id != x.id
    ensures Ascending(Inserted(sorted, x, k)) && DistinctIDs(Inserted(sorted, x, k))
  {
    var r := Inserted(sorted, x, k);
    forall i, j | 0 <= i < j < |r| ensures r[i].createdAt <= r[j].createdAt && r[i].id != r[j].id {
      if i == k {
        assert r[j] == sorted[j - 1];
      } else if j == k {
        assert r[i] == sorted[i] && sorted[i].createdAt <= sorted[k - 1].createdAt;
      } else {
        assert r[i] == sorted[if i < k then i else i - 1] && r[j] == sorted[if j < k then j else j - 1];
      }
    }
  }

  // ----- The impact of a run ----------------------------------------------------------------

  ghost function PrunedIDs(sc: Scope, store: Store, choice: Choice): set<Bytes> {
    set id | id in store && Pruned(sc, choice, store[id])
  }

  /** What downsampling with this choice counts. */
  ghost function ChoiceImpact(sc: Scope, store: Store, choice: Choice, marshal: Marshal): Impact {
    var pruned := PrunedIDs(sc, store, choice);
    Impact(|pruned|, 0, |pruned|, |choice|, SumOver(pruned, store, RecordedSize(marshal)))
  }

  /** `impact` goes with the outcome `after` of downsampling `store`. */
  ghost predicate DownsampleImpact(sc: Scope, store: Store, marshal: Marshal, after: Store, impact: Impact) {
    exists choice: Choice :: FullChoice(sc, store, choice) && after == Applied(sc, store, choice)
                             && impact == ChoiceImpact(sc, store, choice, marshal)
  }

  /** The sorted eligible snapshots of one bucket of the store. */
  ghost predicate IsBucketList(snaps: seq<Snapshot>, sc: Scope, store: Store, key: Bucket) {
    && snaps != [] && Ascending(snaps) && DistinctIDs(snaps)
    && (forall s | s in snaps :: s.id in store && store[s.id] == s && Eligible(sc, s) && BucketOf(sc, s) == key)
    && (forall id | id in store && Eligible(sc, store[id]) && BucketOf(sc, store[id]) == key :: store[id] in snaps)
  }

  lemma SortedGroupIsBucketList(snaps: seq<Snapshot>, list: seq<Snapshot>, sc: Scope, store: Store, key: Bucket)
    requires WellKeyed(store) && IsCollection(list, store, sc.tenantID, "")
    requires Ascending(snaps) && DistinctIDs(snaps) && GroupOf(sc, list, key) != []
    requires forall s :: s in snaps <==> s in GroupOf(sc, list, key)
    ensures IsBucketList(snaps, sc, store, key)
  {
    GroupMembers(sc, list, key);
    assert GroupOf(sc, list, key)[0] in snaps;
    forall id | id in store && Eligible(sc, store[id]) && BucketOf(sc, store[id]) == key ensures store[id] in snaps {
      assert Selected(store[id], sc.tenantID, "");
    }
    hide Eligible, BucketOf, GroupOf;
  }

  /** Choosing the last snapshot of one more bucket prunes the others of that bucket. */
  lemma ChoiceGrows(sc: Scope, store: Store, choice: Choice, key: Bucket, snaps: seq<Snapshot>)
    requires WellKeyed(store) && GoodChoice(sc, store, choice) && key !in choice && IsBucketList(snaps, sc, store, key)
    ensures var last := |snaps| - 1;
            var choice' := choice[key := snaps[last].id];
            && GoodChoice(sc, store, choice')
            && PrunedIDs(sc, store, choice') == PrunedIDs(sc, store, choice) + IDs(snaps[..last])
            && (forall s | s in snaps[..last] :: s.id in store && store[s.id] == s && s.id !in PrunedIDs(sc, store, choice))
  {
    var last := |snaps| - 1;
    var choice' := choice[key := snaps[last].id];
    assert snaps == snaps[..last] + [snaps[last]];
    hide Eligible, BucketOf;
    forall id | id in store && Eligible(sc, store[id]) && BucketOf(sc, store[id]) == key
      ensures store[id].createdAt <= snaps[last].createdAt
    {
      assert store[id] in snaps;
    }
    LastIsNew(snaps);
    forall id | id in store ensures id in PrunedIDs(sc, store, choice') <==>
                                    id in PrunedIDs(sc, store, choice) || id in IDs(snaps[..last])
    {
      PrunedGrowsAt(sc, store, choice, key, snaps, id);
    }
    assert forall s | s in snaps[..last] :: s in snaps;
  }

  lemma LastIsNew(snaps: seq<Snapshot>)
    requires snaps != [] && DistinctIDs(snaps)
    ensures forall s | s in snaps[..|snaps| - 1] :: s.id != snaps[|snaps| - 1].id
  {
  }

  lemma PrunedGrowsAt(sc: Scope, store: Store, choice: Choice, key: Bucket, snaps: seq<Snapshot>, id: Bytes)
    requires WellKeyed(store) && key !in choice && IsBucketList(snaps, sc, store, key) && id in store
    ensures id in PrunedIDs(sc, store, choice[key := snaps[|snaps| - 1].id]) <==>
            id in PrunedIDs(sc, store, choice) || id in IDs(snaps[..|snaps| - 1])
  {
    var last := |snaps| - 1;
    assert snaps == snaps[..last] + [snaps[last]];
    LastIsNew(snaps);
    hide Eligible, BucketOf;
    if id in IDs(snaps[..last]) {
      var s :| s in snaps[..last] && s.id == id;
      assert s in snaps;
    }
    if Eligible(sc, store[id]) && BucketOf(sc, store[id]) == key && id != snaps[last].id {
      assert store[id] in snaps && store[id] in snaps[..last];
    }
  }

  lemma AppliedAt(sc: Scope, store: Store, choice: Choice, id: Bytes)
    requires id in store
    ensures id in Applied(sc, store, choice) <==> id !in PrunedIDs(sc, store, choice)
    ensures id in Applied(sc, store, choice) ==>
              Applied(sc, store, choice)[id] == if Kept(sc, choice, store[id]) then store[id].(isDownsampleRetained := true) else store[id]
    ensures Applied(sc, store, choice).Keys <= store.Keys
  {
    hide Pruned, Kept;
  }

  lemma KeptGrowsAt(sc: Scope, store: Store, choice: Choice, key: Bucket, snaps: seq<Snapshot>, id: Bytes)
    requires WellKeyed(store) && key !in choice && IsBucketList(snaps, sc, store, key) && id in store
    ensures Kept(sc, choice[key := snaps[|snaps| - 1].id], store[id]) <==> Kept(sc, choice, store[id]) || id == snaps[|snaps| - 1].id
    ensures id == snaps[|snaps| - 1].id ==>
              store[id] == snaps[|snaps| - 1] && !Kept(sc, choice, store[id]) && id !in PrunedIDs(sc, store, choice)
  {
    hide Eligible, BucketOf;
    var last := snaps[|snaps| - 1];
    assert last in snaps && store[last.id] == last && Eligible(sc, last) && BucketOf(sc, last) == key;
  }

  /** The store after one more bucket: its last snapshot is flagged and the others are gone. */
  lemma AppliedGrows(sc: Scope, store: Store, choice: Choice, key: Bucket, snaps: seq<Snapshot>)
    requires WellKeyed(store) && GoodChoice(sc, store, choice) && key !in choice && IsBucketList(snaps, sc, store, key)
    ensures var last := snaps[|snaps| - 1];
            var before := Applied(sc, store, choice);
            && last.id in before && before[last.id] == last
            && Applied(sc, store, choice[key := last.id])
               == before[last.id := last.(isDownsampleRetained := true)] - IDs(snaps[..|snaps| - 1])
  {
    LastIsNew(snaps) by { NonEmptyList(snaps, sc, store, key); }
    LastInStore(snaps, sc, store, key);
    hide GoodChoice, IsBucketList, Applied, Pruned, Kept, PrunedIDs, WellKeyed, IDs;
    var last := snaps[|snaps| - 1];
    var others := snaps[..|snaps| - 1];
    var before, after := Applied(sc, store, choice), Applied(sc, store, choice[key := last.id]);
    var expected := before[last.id := last.(isDownsampleRetained := true)] - IDs(others);
    forall id | id in store
      ensures (id in after <==> id in expected) && (id in after ==> after[id] == expected[id])
      ensures id == last.id ==> id in before && before[id] == last
    {
      PrunedGrowsAt(sc, store, choice, key, snaps, id);
      KeptGrowsAt(sc, store, choice, key, snaps, id);
      AppliedAt(sc, store, choice, id);
      AppliedAt(sc, store, choice[key := last.id], id);
    }
    AppliedAt(sc, store, choice, last.id);
    AppliedAt(sc, store, choice[key := last.id], last.id);
    assert after == expected;
  }

  lemma LastInStore(snaps: seq<Snapshot>, sc: Scope, store: Store, key: Bucket)
    requires IsBucketList(snaps, sc, store, key)
    ensures snaps[|snaps| - 1].id in store && snaps[|snaps| - 1].id !in IDs(snaps[..|snaps| - 1])
  {
    hide Eligible, BucketOf;
    assert snaps[|snaps| - 1] in snaps;
  }

  lemma {:induction false} InjectiveSize(choice: Choice)
    requires forall b1, b2 | b1 in choice && b2 in choice && choice[b1] == choice[b2] :: b1 == b2
    ensures |set b | b in choice :: choice[b]| == |choice|
    decreases |choice|
  {
    var image := set b | b in choice :: choice[b];
    if choice == map[] {
      assert image == {};
    } else {
      var b :| b in choice;
      var rest := choice - {b};
      InjectiveSize(rest);
      var restImage := set b' | b' in rest :: rest[b'];
      forall x | x in image ensures x in restImage + {choice[b]} {
        var b' :| b' in choice && choice[b'] == x;
        if b' != b { assert b' in rest && rest[b'] == x; }
      }
      assert forall b' | b' in rest :: rest[b'] == choice[b'] && b' != b;
      assert image == restImage + {choice[b]};
    }
  }

  /** The counts do not depend on how ties were broken. */
  lemma ImpactCounts(sc: Scope, store: Store, marshal: Marshal, after: Store, impact: Impact)
    requires WellKeyed(store) && DownsampleImpact(sc, store, marshal, after, impact)
    ensures impact.retained == |Buckets(sc, store)| && impact.archived == 0
    ensures impact.processed == impact.pruned == |EligibleIDs(sc, store)| - |Buckets(sc, store)|
    ensures after.Keys <= store.Keys && impact.pruned == |PrunedBy(store, after)|
  {
    var choice: Choice :| FullChoice(sc, store, choice) && after == Applied(sc, store, choice)
                          && impact == ChoiceImpact(sc, store, choice, marshal);
    ChoiceCounts(sc, store, choice);
    AppliedPrunes(sc, store, choice);
    hide Applied, PrunedIDs, GoodChoice, Buckets, EligibleIDs, DownsampleImpact;
    assert |choice| == |choice.Keys|;
  }

  lemma AppliedPrunes(sc: Scope, store: Store, choice: Choice)
    ensures var after := Applied(sc, store, choice);
            after.Keys <= store.Keys && PrunedBy(store, after) == PrunedIDs(sc, store, choice)
  {
    hide Pruned, Kept;
  }

  ghost function PrunedBy(store: Store, after: Store): set<Bytes> {
    store.Keys - after.Keys
  }

  lemma ChoiceCounts(sc: Scope, store: Store, choice: Choice)
    requires WellKeyed(store) && FullChoice(sc, store, choice)
    ensures |PrunedIDs(sc, store, choice)| + |choice| == |EligibleIDs(sc, store)|
  {
    var kept := set b | b in choice :: choice[b];
    forall id | id in EligibleIDs(sc, store) ensures BucketOf(sc, store[id]) in choice {
    }
    forall b | b in choice ensures choice[b] in EligibleIDs(sc, store) && BucketOf(sc, store[choice[b]]) == b {
      ChosenIs(sc, store, choice, b);
    }
    hide Eligible, BucketOf, FullChoice;
    InjectiveSize(choice);
    assert EligibleIDs(sc, store) == PrunedIDs(sc, store, choice) + kept;
    assert PrunedIDs(sc, store, choice) !! kept;
  }

  /** A dry run predicts the counts of any run, and everything when times within a bucket differ. */
  lemma DownsampleDryRunPredicts(sc: Scope, store: Store, marshal: Marshal, predicted: Store, dry: Impact,
                                 after: Store, run: Impact)
    requires WellKeyed(store)
    requires DownsampleImpact(sc, store, marshal, predicted, dry) && DownsampleImpact(sc, store, marshal, after, run)
    ensures dry.processed == run.processed && dry.pruned == run.pruned && dry.retained == run.retained
    ensures DistinctTimes(sc, store) ==> dry == run && predicted == after
  {
    ImpactCounts(sc, store, marshal, predicted, dry);
    ImpactCounts(sc, store, marshal, after, run);
    if DistinctTimes(sc, store) {
      hide Applied, FullChoice, DistinctTimes, ChoiceImpact;
      var c1: Choice :| FullChoice(sc, store, c1) && predicted == Applied(sc, store, c1)
                        && dry == ChoiceImpact(sc, store, c1, marshal);
      var c2: Choice :| FullChoice(sc, store, c2) && after == Applied(sc, store, c2)
                        && run == ChoiceImpact(sc, store, c2, marshal);
      ChoicesAgree(sc, store, c1, c2);
    }
  }

  // ----- Archiving --------------------------------------------------------------------------

  /** The eligible snapshots whose payload can be serialised. */
  ghost function ArchivableIDs(sc: Scope, store: Store, marshal: Marshal): set<Bytes> {
    set id | id in EligibleIDs(sc, store) && marshal(store[id].payload).Some?
  }

  /** The store once the given snapshots are archived; `record` says where and when. */
  ghost function WithArchived(store: Store, ids: set<Bytes>, marshal: Marshal, record: Snapshot -> Archive): Store {
    map id | id in store ::
      if id in ids then Archived(store[id], record(store[id]), SerialisedSize(marshal)(store[id])) else store[id]
  }

  ghost function ArchiveDryImpact(sc: Scope, store: Store, marshal: Marshal): Impact {
    var ids := EligibleIDs(sc, store);
    Impact(|ids|, |ids|, 0, 0, SumOver(ids, store, RecordedSize(marshal)))
  }

  ghost function ArchiveRunImpact(sc: Scope, store: Store, marshal: Marshal): Impact {
    var ids := ArchivableIDs(sc, store, marshal);
    Impact(|EligibleIDs(sc, store)|, |ids|, 0, 0, SumOver(ids, store, SerialisedSize(marshal)))
  }

  /** How far a snapshot's recorded size is from what archiving it really frees. */
  function SizeError(marshal: Marshal): Snapshot -> int {
    (s: Snapshot) => RecordedSize(marshal)(s) - SerialisedSize(marshal)(s)
  }

  lemma {:induction false} SumDifference(ids: set<Bytes>, store: Store, marshal: Marshal)
    requires ids <= store.Keys
    ensures SumOver(ids, store, RecordedSize(marshal)) - SumOver(ids, store, SerialisedSize(marshal))
         == SumOver(ids, store, SizeError(marshal))
    decreases |ids|
  {
    if ids != {} {
      var id :| id in ids;
      SumRemove(ids, store, RecordedSize(marshal), id);
      SumRemove(ids, store, SerialisedSize(marshal), id);
      SumRemove(ids, store, SizeError(marshal), id);
      SumDifference(ids - {id}, store, marshal);
    }
  }

  lemma {:induction false} SumSkipsZeros(ids: set<Bytes>, kept: set<Bytes>, store: Store, size: Snapshot -> int)
    requires kept <= ids <= store.Keys && forall id | id in ids - kept :: size(store[id]) == 0
    ensures SumOver(ids, store, size) == SumOver(kept, store, size)
    decreases |ids|
  {
    if ids == kept {
    } else {
      var id :| id in ids - kept;
      SumRemove(ids, store, size, id);
      SumSkipsZeros(ids - {id}, kept, store, size);
    }
  }

  /**
    For archiving the dry run predicts the count when every payload can be serialised. Its bytes are
    off by exactly the sum of the size errors, because the run counts serialised sizes and the dry
    run trusts recorded ones.
    */
  lemma ArchiveDryRunPredicts(sc: Scope, store: Store, marshal: Marshal)
    ensures var dry, run := ArchiveDryImpact(sc, store, marshal), ArchiveRunImpact(sc, store, marshal);
            && dry.processed == run.processed
            && (dry.archived == run.archived <==> forall id | id in EligibleIDs(sc, store) :: marshal(store[id].payload).Some?)
            && dry.reclaimedBytes - run.reclaimedBytes == SumOver(EligibleIDs(sc, store), store, SizeError(marshal))
  {
    var ids, ok := EligibleIDs(sc, store), ArchivableIDs(sc, store, marshal);
    SumDifference(ids, store, marshal);
    SumSkipsZeros(ids, ok, store, SerialisedSize(marshal));
    assert |ids| == |ok| + |ids - ok| by { assert ids == ok + (ids - ok); }
    assert ids - ok == {} <==> forall id | id in ids :: marshal(store[id].payload).Some?;
  }

  /** The recorded size is not used, or is what the payload serialises to (nothing, if it does not). */
  predicate RecordedRight(marshal: Marshal, s: Snapshot) {
    s.payloadSizeBytes <= 0 || s.payloadSizeBytes == SerialisedLength(marshal, s)
  }

  predicate Unarchived(tenantID: string, s: Snapshot) {
    Selected(s, tenantID, "") && !s.isArchived
  }

  ghost predicate BytesAgree(sc: Scope, store: Store, marshal: Marshal) {
    ArchiveDryImpact(sc, store, marshal).reclaimedBytes == ArchiveRunImpact(sc, store, marshal).reclaimedBytes
  }

  lemma BytesAgreeIf(sc: Scope, store: Store, marshal: Marshal)
    requires forall id | id in EligibleIDs(sc, store) :: RecordedRight(marshal, store[id])
    ensures BytesAgree(sc, store, marshal)
  {
    ArchiveDryRunPredicts(sc, store, marshal);
    SumSkipsZeros(EligibleIDs(sc, store), {}, store, SizeError(marshal));
  }

  /** Cutoffs just before and just after a snapshot's time show its own error. */
  lemma BytesAgreeOnlyIf(tenantID: string, calendar: Calendar, store: Store, marshal: Marshal, id: Bytes)
    requires id in store && Unarchived(tenantID, store[id])
    requires forall other | other in store && Unarchived(tenantID, store[other]) && store[other].createdAt == store[id].createdAt :: other == id
    requires BytesAgree(Scope(tenantID, store[id].createdAt, calendar), store, marshal)
    requires BytesAgree(Scope(tenantID, store[id].createdAt as int + 1, calendar), store, marshal)
    ensures RecordedRight(marshal, store[id])
  {
    hide Selected, RecordedRight, SumOver, EligibleIDs;
    var t: int := store[id].createdAt;
    var before, after := Scope(tenantID, t, calendar), Scope(tenantID, t + 1, calendar);
    ArchiveDryRunPredicts(before, store, marshal);
    ArchiveDryRunPredicts(after, store, marshal);
    OneMoreEligible(tenantID, calendar, store, id);
    SumRemove(EligibleIDs(after, store), store, SizeError(marshal), id);
    NoErrorIff(marshal, store[id]);
  }

  lemma OneMoreEligible(tenantID: string, calendar: Calendar, store: Store, id: Bytes)
    requires id in store && Unarchived(tenantID, store[id])
    requires forall other | other in store && Unarchived(tenantID, store[other]) && store[other].createdAt == store[id].createdAt :: other == id
    ensures var before, after := EligibleIDs(Scope(tenantID, store[id].createdAt, calendar), store),
                                 EligibleIDs(Scope(tenantID, store[id].createdAt as int + 1, calendar), store);
            after <= store.Keys && id in after && after - {id} == before
  {
    hide Selected;
    var t: int := store[id].createdAt;
    var before, after := Scope(tenantID, t, calendar), Scope(tenantID, t + 1, calendar);
    forall x | x in store ensures Eligible(after, store[x]) <==> Eligible(before, store[x]) || x == id {
    }
  }

  lemma NoErrorIff(marshal: Marshal, s: Snapshot)
    ensures SizeError(marshal)(s) == 0 <==> RecordedRight(marshal, s)
  {
    assert RecordedSize(marshal)(s) == RecordedLength(marshal, s) && SerialisedSize(marshal)(s) == SerialisedLength(marshal, s);
    assert SizeError(marshal)(s) == RecordedSize(marshal)(s) - SerialisedSize(marshal)(s);
  }

  /**
    When no two of a tenant's unarchived snapshots were made at the same time, the predicted bytes are right
    for every cutoff exactly when each of these snapshots has no recorded size or the right one.
  */
  lemma ArchiveBytesExactIff(tenantID: string, calendar: Calendar, store: Store, marshal: Marshal)
    requires forall id, other | id in store && other in store && Unarchived(tenantID, store[id])
                                && Unarchived(tenantID, store[other]) && store[other].createdAt == store[id].createdAt :: other == id
    ensures (forall cutoff: int :: BytesAgree(Scope(tenantID, cutoff, calendar), store, marshal))
            <==> forall id | id in store && Unarchived(tenantID, store[id]) :: RecordedRight(marshal, store[id])
  {
    hide BytesAgree, RecordedRight;
    if forall cutoff: int :: BytesAgree(Scope(tenantID, cutoff, calendar), store, marshal) {
      forall id | id in store && Unarchived(tenantID, store[id]) ensures RecordedRight(marshal, store[id]) {
        BytesAgreeOnlyIf(tenantID, calendar, store, marshal, id);
      }
    } else {
      var cutoff: int :| !BytesAgree(Scope(tenantID, cutoff, calendar), store, marshal);
      if forall id | id in store && Unarchived(tenantID, store[id]) :: RecordedRight(marshal, store[id]) {
        BytesAgreeIf(Scope(tenantID, cutoff, calendar), store, marshal);
      }
    }
  }

  /** One snapshot recorded at five bytes whose payload serialises to two: the dry run is not exact. */
  lemma ArchiveDryRunNotExact(sc: Scope, id: Bytes)
    requires sc.tenantID == "" && sc.cutoff > 0
    ensures exists store, marshal :: WellKeyed(store) && id in EligibleIDs(sc, store)
              && ArchiveDryImpact(sc, store, marshal).reclaimedBytes != ArchiveRunImpact(sc, store, marshal).reclaimedBytes
  {
    var s := Snapshot(id, "t", "h", 0, "{}", 5, false, None, false);
    var store: Store, marshal: Marshal := map[id := s], _ => Some(2);
    ArchiveDryRunPredicts(sc, store, marshal);
    assert EligibleIDs(sc, store) == {id};
    SumRemove({id}, store, SizeError(marshal), id);
    assert SumOver({id} - {id}, store, SizeError(marshal)) == 0;
    assert SumOver(EligibleIDs(sc, store), store, SizeError(marshal)) == 3;
  }

  /** An archived snapshot is out of reach: a second archiving finds only what could not be serialised. */
  lemma ArchivingLeaves(sc: Scope, store: Store, marshal: Marshal, record: Snapshot -> Archive)
    ensures var after := WithArchived(store, ArchivableIDs(sc, store, marshal), marshal, record);
            && after.Keys == store.Keys
            && EligibleIDs(sc, after) == EligibleIDs(sc, store) - ArchivableIDs(sc, store, marshal)
            && ArchivableIDs(sc, after, marshal) == {}
  {
  }

  // ----- Filtering a collection --------------------------------------------------------------

  /** The snapshots of a list that a run may act on; `ok` narrows them further. */
  function Filtered(list: seq<Snapshot>, ok: Snapshot -> bool): seq<Snapshot> {
    if list == [] then []
    else Filtered(list[..|list| - 1], ok) + if ok(list[|list| - 1]) then [list[|list| - 1]] else []
  }

  lemma {:induction false} FilteredMembers(list: seq<Snapshot>, ok: Snapshot -> bool)
    ensures forall s :: s in Filtered(list, ok) <==> s in list && ok(s)
    ensures DistinctIDs(list) ==> DistinctIDs(Filtered(list, ok))
  {
    if list != [] {
      var n := |list| - 1;
      assert list == list[..n] + [list[n]];
      FilteredMembers(list[..n], ok);
      if DistinctIDs(list) {
        assert forall s | s in list[..n] :: s.id != list[n].id;
      }
    }
  }

  lemma FilteredStep(list: seq<Snapshot>, i: nat, ok: Snapshot -> bool)
    requires i < |list|
    ensures Filtered(list[..i + 1], ok) == if ok(list[i]) then Filtered(list[..i], ok) + [list[i]] else Filtered(list[..i], ok)
  {
    assert list[..i + 1][..i] == list[..i];
  }

  lemma SumStep(snaps: seq<Snapshot>, s: Snapshot, size: Snapshot -> int)
    ensures SumSeq(snaps + [s], size) == SumSeq(snaps, size) + size(s)
  {
    assert (snaps + [s])[..|snaps|] == snaps;
  }

  function IsEligible(sc: Scope): Snapshot -> bool {
    (s: Snapshot) => Eligible(sc, s)
  }

  function IsArchivable(sc: Scope, marshal: Marshal): Snapshot -> bool {
    (s: Snapshot) => Eligible(sc, s) && marshal(s.payload).Some?
  }

  /** Counting and adding up a filtered collection is counting and adding up the set of its IDs. */
  lemma FilteredTotals(list: seq<Snapshot>, sc: Scope, store: Store, ok: Snapshot -> bool, ids: set<Bytes>, size: Snapshot -> int)
    requires WellKeyed(store) && IsCollection(list, store, sc.tenantID, "")
    requires ids <= EligibleIDs(sc, store) && forall id | id in EligibleIDs(sc, store) :: id in ids <==> ok(store[id])
    requires forall s | ok(s) :: Eligible(sc, s)
    ensures IDs(Filtered(list, ok)) == ids
    ensures |Filtered(list, ok)| == |ids| && SumSeq(Filtered(list, ok), size) == SumOver(ids, store, size)
  {
    var snaps := Filtered(list, ok);
    FilteredMembers(list, ok);
    forall id | id in ids ensures id in IDs(snaps) {
      assert Selected(store[id], sc.tenantID, "");
      assert store[id] in snaps;
    }
    forall id | id in IDs(snaps) ensures id in ids {
      var s :| s in snaps && s.id == id;
      assert s in list && id in EligibleIDs(sc, store);
    }
    SumAdd({}, snaps, store, size);
    assert {} + IDs(snaps) == ids;
  }

  // ----- Bookkeeping of the engine's loops ---------------------------------------------------

  ghost function Hosts(snaps: seq<Snapshot>): set<string> {
    set s | s in snaps :: s.hostID
  }

  lemma NothingFiltered(all: seq<Snapshot>, ok: Snapshot -> bool, size: Snapshot -> int)
    ensures Filtered(all[..0], ok) == [] && SumSeq([], size) == 0
  {
  }

  lemma IsEligibleIs(sc: Scope)
    ensures forall s :: IsEligible(sc)(s) <==> Eligible(sc, s)
  {
  }

  lemma EligibleAll(sc: Scope, store: Store)
    ensures forall id | id in EligibleIDs(sc, store) :: Eligible(sc, store[id])
    ensures EligibleIDs(sc, store) <= store.Keys
  {
    hide Eligible;
  }

  /** Looking at one more snapshot of the list in a dry run. */
  lemma FilteredNext(all: seq<Snapshot>, i: nat, sc: Scope, marshal: Marshal)
    requires i < |all|
    ensures var before, after := Filtered(all[..i], IsEligible(sc)), Filtered(all[..i + 1], IsEligible(sc));
            && (Eligible(sc, all[i]) ==>
                  && |after| == |before| + 1
                  && Hosts(after) == Hosts(before) + {all[i].hostID}
                  && SumSeq(after, RecordedSize(marshal)) == SumSeq(before, RecordedSize(marshal)) + RecordedLength(marshal, all[i]))
            && (!Eligible(sc, all[i]) ==> after == before)
  {
    hide Eligible, Filtered, SumSeq, RecordedLength;
    FilteredStep(all, i, IsEligible(sc));
    SumStep(Filtered(all[..i], IsEligible(sc)), all[i], RecordedSize(marshal));
  }

  lemma HostsOf(all: seq<Snapshot>, sc: Scope, store: Store)
    requires WellKeyed(store) && IsCollection(all, store, sc.tenantID, "")
    ensures Hosts(Filtered(all, IsEligible(sc))) == set id | id in EligibleIDs(sc, store) :: store[id].hostID
  {
    var hosts := Hosts(Filtered(all, IsEligible(sc)));
    FilteredMembers(all, IsEligible(sc));
    forall id | id in EligibleIDs(sc, store) ensures store[id].hostID in hosts {
      assert Selected(store[id], sc.tenantID, "");
      assert store[id] in Filtered(all, IsEligible(sc));
    }
    forall s | s in Filtered(all, IsEligible(sc)) ensures s.id in EligibleIDs(sc, store) && store[s.id] == s {
      assert s in all;
    }
    hide Eligible, Filtered;
    assert hosts == set id | id in EligibleIDs(sc, store) :: store[id].hostID;
  }

  lemma GroupsAreBuckets(hostWeeks: map<Bucket, seq<Snapshot>>, all: seq<Snapshot>, sc: Scope, store: Store)
    requires IsGrouping(hostWeeks, sc, all) && WellKeyed(store) && IsCollection(all, store, sc.tenantID, "")
    ensures hostWeeks.Keys == Buckets(sc, store)
  {
    forall b | b in hostWeeks ensures b in Buckets(sc, store) {
      GroupMembers(sc, all, b);
      var s := hostWeeks[b][0];
      assert s in hostWeeks[b] && s in all;
      assert s.id in EligibleIDs(sc, store);
    }
    forall b | b in Buckets(sc, store) ensures b in hostWeeks {
      var id :| id in EligibleIDs(sc, store) && BucketOf(sc, store[id]) == b;
      assert Selected(store[id], sc.tenantID, "");
      assert store[id] in all;
    }
  }

  lemma NoChoice(sc: Scope, store: Store, marshal: Marshal)
    ensures GoodChoice(sc, store, map[]) && Applied(sc, store, map[]) == store
    ensures ChoiceImpact(sc, store, map[], marshal) == Impact(0, 0, 0, 0, 0)
  {
    hide Eligible, BucketOf;
    assert PrunedIDs(sc, store, map[]) == {};
    assert Applied(sc, store, map[]) == store;
  }

  lemma ImpactGrows(sc: Scope, store: Store, choice: Choice, key: Bucket, snaps: seq<Snapshot>, marshal: Marshal)
    requires WellKeyed(store) && GoodChoice(sc, store, choice) && key !in choice && IsBucketList(snaps, sc, store, key)
    ensures var last := |snaps| - 1;
            var before, choice' := ChoiceImpact(sc, store, choice, marshal), choice[key := snaps[last].id];
            && GoodChoice(sc, store, choice')
            && ChoiceImpact(sc, store, choice', marshal)
               == Impact(before.processed + last, 0, before.pruned + last, before.retained + 1,
                         before.reclaimedBytes + SumSeq(snaps[..last], RecordedSize(marshal)))
  {
    hide Eligible, BucketOf, GoodChoice, PrunedIDs, SumOver, SumSeq, IDs, RecordedSize, IsBucketList, WellKeyed;
    NonEmptyList(snaps, sc, store, key);
    var last := |snaps| - 1;
    var choice' := choice[key := snaps[last].id];
    ChoiceGrows(sc, store, choice, key, snaps);
    PrunedInStore(sc, store, choice);
    SumAdd(PrunedIDs(sc, store, choice), snaps[..last], store, RecordedSize(marshal));
    assert |choice'| == |choice| + 1;
  }

  lemma PrunedInStore(sc: Scope, store: Store, choice: Choice)
    ensures PrunedIDs(sc, store, choice) <= store.Keys
  {
  }

  /** Every bucket that is no longer to do has its choice, and the choice's impact is counted. */
  ghost predicate Choosing(choice: Choice, keys: set<Bucket>, todo: set<Bucket>, sc: Scope, store: Store, marshal: Marshal,
                           impact: Impact) {
    choice.Keys == keys - todo && GoodChoice(sc, store, choice) && impact == ChoiceImpact(sc, store, choice, marshal)
  }

  ghost function NothingChosen(hostWeeks: map<Bucket, seq<Snapshot>>, all: seq<Snapshot>, sc: Scope, store: Store,
                               marshal: Marshal): (choice: Choice)
    ensures Choosing(choice, hostWeeks.Keys, hostWeeks.Keys, sc, store, marshal, Impact(0, 0, 0, 0, 0))
    ensures Applied(sc, store, choice) == store
  {
    NoChoice(sc, store, marshal);
    map[]
  }

  lemma ChosenNext(choice: Choice, keys: set<Bucket>, todo: set<Bucket>, sc: Scope, store: Store, marshal: Marshal,
                   before: Impact, key: Bucket, snaps: seq<Snapshot>)
    requires WellKeyed(store) && Choosing(choice, keys, todo, sc, store, marshal, before)
    requires key in todo && todo <= keys && IsBucketList(snaps, sc, store, key)
    ensures var last := |snaps| - 1;
            Choosing(choice[key := snaps[last].id], keys, todo - {key}, sc, store, marshal,
                     Impact(before.processed + last, 0, before.pruned + last, before.retained + 1,
                            before.reclaimedBytes + SumSeq(snaps[..last], RecordedSize(marshal))))
  {
    hide GoodChoice, ChoiceImpact, SumSeq, IsBucketList, RecordedSize, WellKeyed;
    NonEmptyList(snaps, sc, store, key);
    var choice' := choice[key := snaps[|snaps| - 1].id];
    ImpactGrows(sc, store, choice, key, snaps, marshal);
    KeysGrow(choice, keys, todo, key, snaps[|snaps| - 1].id);
  }

  lemma NonEmptyList(snaps: seq<Snapshot>, sc: Scope, store: Store, key: Bucket)
    requires IsBucketList(snaps, sc, store, key)
    ensures snaps != [] && DistinctIDs(snaps[..|snaps| - 1])
  {
    hide Eligible, BucketOf, Ascending;
  }

  lemma KeysGrow(choice: Choice, keys: set<Bucket>, todo: set<Bucket>, key: Bucket, id: Bytes)
    requires choice.Keys == keys - todo && key in todo && todo <= keys
    ensures choice[key := id].Keys == keys - (todo - {key})
  {
  }

  /** Flagging the checkpoint and removing the others brings the store in line with the extended choice. */
  lemma AppliedNext(choice: Choice, keys: set<Bucket>, todo: set<Bucket>, sc: Scope, store: Store, marshal: Marshal,
                    before: Impact, key: Bucket, snaps: seq<Snapshot>)
    requires WellKeyed(store) && Choosing(choice, keys, todo, sc, store, marshal, before)
    requires key in todo && todo <= keys && IsBucketList(snaps, sc, store, key)
    ensures var last := snaps[|snaps| - 1];
            var current := Applied(sc, store, choice);
            && last.id in current
            && Applied(sc, store, choice[key := last.id])
               == current[last.id := current[last.id].(isDownsampleRetained := true)] - IDs(snaps[..|snaps| - 1])
  {
    hide Eligible, BucketOf, GoodChoice, ChoiceImpact, IDs, Applied, IsBucketList;
    AppliedGrows(sc, store, choice, key, snaps);
  }

  lemma AllChosen(choice: Choice, hostWeeks: map<Bucket, seq<Snapshot>>, all: seq<Snapshot>, sc: Scope, store: Store,
                  marshal: Marshal, impact: Impact)
    requires WellKeyed(store) && IsCollection(all, store, sc.tenantID, "") && IsGrouping(hostWeeks, sc, all)
    requires Choosing(choice, hostWeeks.Keys, {}, sc, store, marshal, impact)
    ensures DownsampleImpact(sc, store, marshal, Applied(sc, store, choice), impact)
  {
    GroupsAreBuckets(hostWeeks, all, sc, store);
    hide GoodChoice, Applied, ChoiceImpact, Buckets;
    assert choice.Keys == hostWeeks.Keys;
    assert FullChoice(sc, store, choice);
  }

  lemma BucketHosts(sc: Scope, store: Store)
    ensures (set b | b in Buckets(sc, store) :: b.hostID) == set id | id in EligibleIDs(sc, store) :: store[id].hostID
  {
    hide Eligible;
    forall id | id in EligibleIDs(sc, store) ensures BucketOf(sc, store[id]) in Buckets(sc, store) {
    }
  }

  /** Where an archiving run stands: the store, and what it has counted. */
  datatype Progress = Progress(snapshots: Store, processed: nat, archived: nat, bytes: int)

  /** After `i` snapshots of the list, the serialisable ones among the eligible are archived and counted. */
  ghost predicate ArchiveProgress(p: Progress, all: seq<Snapshot>, i: nat, sc: Scope, store: Store, marshal: Marshal,
                                  record: Snapshot -> Archive)
    requires i <= |all|
  {
    var done := Filtered(all[..i], IsArchivable(sc, marshal));
    && p.processed == |Filtered(all[..i], IsEligible(sc))|
    && p.archived == |done|
    && p.bytes == SumSeq(done, SerialisedSize(marshal))
    && p.snapshots == WithArchived(store, IDs(done), marshal, record)
  }

  ghost function NoneLooked(sc: Scope, store: Store, marshal: Marshal, record: Snapshot -> Archive): (p: Progress)
    ensures p == Progress(store, 0, 0, 0)
    ensures forall all :: ArchiveProgress(p, all, 0, sc, store, marshal, record)
  {
    assert forall ids: set<Bytes> | ids == {} :: WithArchived(store, ids, marshal, record) == store;
    Progress(store, 0, 0, 0)
  }

  lemma LookedAtNext(p: Progress, all: seq<Snapshot>, i: nat, sc: Scope, store: Store, marshal: Marshal,
                     record: Snapshot -> Archive)
    requires i < |all| && WellKeyed(store) && IsCollection(all, store, sc.tenantID, "")
    requires ArchiveProgress(p, all, i, sc, store, marshal, record)
    ensures all[i].id in p.snapshots && p.snapshots[all[i].id] == all[i]
    ensures var s := all[i];
            var p1 := if Eligible(sc, s) then p.(processed := p.processed + 1) else p;
            ArchiveProgress(
              if Eligible(sc, s) && marshal(s.payload).Some? then
                Progress(p.snapshots[s.id := Archived(s, record(s), marshal(s.payload).value)],
                         p1.processed, p.archived + 1, p.bytes + marshal(s.payload).value)
              else p1,
              all, i + 1, sc, store, marshal, record)
  {
    hide Filtered, Eligible, WithArchived, IDs, SumSeq, IsEligible, IsArchivable, SerialisedSize, Archived;
    var s := all[i];
    var done := Filtered(all[..i], IsArchivable(sc, marshal));
    JudgedBy(sc, marshal, s);
    FilteredStep(all, i, IsEligible(sc));
    FilteredStep(all, i, IsArchivable(sc, marshal));
    SumStep(done, s, SerialisedSize(marshal));
    NotYetArchived(all, i, IsArchivable(sc, marshal));
    ArchivedNext(store, done, s, marshal, record);
    assert s in all;
    UntouchedAt(store, IDs(done), marshal, record, s.id);
    if Eligible(sc, s) && marshal(s.payload).Some? {
      assert Filtered(all[..i + 1], IsArchivable(sc, marshal)) == done + [s];
    }
  }

  lemma UntouchedAt(store: Store, ids: set<Bytes>, marshal: Marshal, record: Snapshot -> Archive, id: Bytes)
    requires id in store && id !in ids
    ensures id in WithArchived(store, ids, marshal, record) && WithArchived(store, ids, marshal, record)[id] == store[id]
  {
  }

  lemma JudgedBy(sc: Scope, marshal: Marshal, s: Snapshot)
    ensures IsEligible(sc)(s) == Eligible(sc, s)
    ensures IsArchivable(sc, marshal)(s) == (Eligible(sc, s) && marshal(s.payload).Some?)
    ensures SerialisedSize(marshal)(s) == SerialisedLength(marshal, s)
  {
  }

  lemma PartlyArchived(p: Progress, all: seq<Snapshot>, i: nat, sc: Scope, store: Store, marshal: Marshal,
                       record: Snapshot -> Archive)
    requires i <= |all| && WellKeyed(store) && IsCollection(all, store, sc.tenantID, "")
    requires ArchiveProgress(p, all, i, sc, store, marshal, record)
    ensures exists ids :: ids <= ArchivableIDs(sc, store, marshal) && p.snapshots == WithArchived(store, ids, marshal, record)
  {
    var done := Filtered(all[..i], IsArchivable(sc, marshal));
    FilteredMembers(all[..i], IsArchivable(sc, marshal));
    forall s | s in done ensures s.id in ArchivableIDs(sc, store, marshal) {
      assert s in all;
    }
    assert IDs(done) <= ArchivableIDs(sc, store, marshal);
  }

  lemma AllArchived(p: Progress, all: seq<Snapshot>, sc: Scope, store: Store, marshal: Marshal, record: Snapshot -> Archive)
    requires WellKeyed(store) && IsCollection(all, store, sc.tenantID, "")
    requires ArchiveProgress(p, all, |all|, sc, store, marshal, record)
    ensures p.snapshots == WithArchived(store, ArchivableIDs(sc, store, marshal), marshal, record)
    ensures Impact(p.processed, p.archived, 0, 0, p.bytes) == ArchiveRunImpact(sc, store, marshal)
  {
    assert all[..|all|] == all;
    FilteredTotals(all, sc, store, IsEligible(sc), EligibleIDs(sc, store), SerialisedSize(marshal));
    FilteredTotals(all, sc, store, IsArchivable(sc, marshal), ArchivableIDs(sc, store, marshal), SerialisedSize(marshal));
  }

  lemma NotYetArchived(all: seq<Snapshot>, i: nat, ok: Snapshot -> bool)
    requires i < |all| && DistinctIDs(all)
    ensures all[i].id !in IDs(Filtered(all[..i], ok)) && all[i] in all
  {
    FilteredMembers(all[..i], ok);
    assert forall s | s in all[..i] :: s.id != all[i].id;
  }

  lemma ArchivedNext(store: Store, done: seq<Snapshot>, snap: Snapshot, marshal: Marshal, record: Snapshot -> Archive)
    requires snap.id in store && store[snap.id] == snap && snap.id !in IDs(done)
    ensures var before := WithArchived(store, IDs(done), marshal, record);
            && before[snap.id] == snap
            && WithArchived(store, IDs(done + [snap]), marshal, record)
               == before[snap.id := Archived(snap, record(snap), SerialisedSize(marshal)(snap))]
  {
    assert IDs(done + [snap]) == IDs(done) + {snap.id} by {
      forall id | id in IDs(done) + {snap.id} ensures id in IDs(done + [snap]) {
        if id in IDs(done) {
          var s :| s in done && s.id == id;
          assert s in done + [snap];
        } else {
          assert snap in done + [snap];
        }
      }
    }
  }

  // ----- The engine -------------------------------------------------------------------------

  /**
    An archiving run ends in the context's error exactly when the context ends before all snapshots were
    looked at; then some of the snapshots to archive are archived. Otherwise all of them are.
  */
  ghost predicate ArchiveOutcome(sc: Scope, store: Store, marshal: Marshal, record: Snapshot -> Archive, cancelAfter: Option<nat>,
                                 after: Store, result: Result<Impact, RetentionError>) {
    && (result.Err? <==> cancelAfter.Some? && cancelAfter.value < |SelectedIDs(store, sc.tenantID)|)
    && match result
       case Ok(impact) =>
         && impact == ArchiveRunImpact(sc, store, marshal)
         && after == WithArchived(store, ArchivableIDs(sc, store, marshal), marshal, record)
       case Err(error) =>
         && error == ContextCancelled
         && exists ids :: ids <= ArchivableIDs(sc, store, marshal) && after == WithArchived(store, ids, marshal, record)
  }

  // ----- What a request asks for, in the request's and the snapshots' own fields -------------------

  /** Of the tenant, or of any tenant if none is named, made before the cutoff and not yet archived. */
  predicate IsDue(s: Snapshot, tenantID: string, cutoff: int) {
    tenantID in {"", s.tenantID} && cutoff > s.createdAt && !s.isArchived
  }

  lemma DueIsEligible(sc: Scope, s: Snapshot)
    ensures IsDue(s, sc.tenantID, sc.cutoff) <==> Eligible(sc, s)
  {
  }

  ghost function DueIDs(store: Store, tenantID: string, cutoff: int): set<Bytes> {
    set id | id in store && IsDue(store[id], tenantID, cutoff)
  }

  /** Only due snapshots that serialise change, and they change by being archived; all of them, if the run is complete. */
  ghost predicate OnlyArchives(before: Store, after: Store, tenantID: string, cutoff: int, marshal: Marshal,
                               record: Snapshot -> Archive, complete: bool) {
    && after.Keys == before.Keys
    && (forall id | id in before && after[id] != before[id] ::
          && IsDue(before[id], tenantID, cutoff) && marshal(before[id].payload).Some?
          && after[id] == before[id].(isArchived := true, archive := Some(record(before[id])), payload := "",
                                      payloadSizeBytes := marshal(before[id].payload).value))
    && (complete ==> forall id | id in before && IsDue(before[id], tenantID, cutoff) && marshal(before[id].payload).Some? ::
          after[id].isArchived)
  }

  predicate SameHostWeek(s: Snapshot, t: Snapshot, calendar: Calendar) {
    s.hostID == t.hostID && calendar(s.createdAt) == calendar(t.createdAt)
  }

  /** A due snapshot of the same host and week, as late as this one, is still there. */
  ghost predicate Outlived(id: Bytes, before: Store, after: Store, tenantID: string, cutoff: int, calendar: Calendar)
    requires id in before
  {
    exists kept :: kept in after && kept in before && IsDue(before[kept], tenantID, cutoff)
                   && SameHostWeek(before[kept], before[id], calendar) && before[id].createdAt <= before[kept].createdAt
  }

  /** Of the due snapshots of each host and week exactly one stays, flagged, and none of them is later; the rest is as it was. */
  ghost predicate OnlyThins(before: Store, after: Store, tenantID: string, cutoff: int, calendar: Calendar) {
    && after.Keys <= before.Keys
    && (forall id | id in before && !IsDue(before[id], tenantID, cutoff) :: id in after && after[id] == before[id])
    && (forall id | id in after && IsDue(before[id], tenantID, cutoff) :: after[id] == before[id].(isDownsampleRetained := true))
    && (forall id | id in before && IsDue(before[id], tenantID, cutoff) :: Outlived(id, before, after, tenantID, cutoff, calendar))
    && (forall id1, id2 | id1 in after && id2 in after && IsDue(before[id1], tenantID, cutoff) && IsDue(before[id2], tenantID, cutoff)
                          && SameHostWeek(before[id1], before[id2], calendar) :: id1 == id2)
  }

  lemma DueIDsAre(sc: Scope, store: Store)
    ensures DueIDs(store, sc.tenantID, sc.cutoff) == EligibleIDs(sc, store)
  {
    forall id | id in store ensures IsDue(store[id], sc.tenantID, sc.cutoff) <==> Eligible(sc, store[id]) {
      DueIsEligible(sc, store[id]);
    }
  }

  lemma ArchivingMeans(sc: Scope, store: Store, marshal: Marshal, record: Snapshot -> Archive, ids: set<Bytes>)
    requires ids <= ArchivableIDs(sc, store, marshal)
    ensures OnlyArchives(store, WithArchived(store, ids, marshal, record), sc.tenantID, sc.cutoff, marshal, record,
                         ids == ArchivableIDs(sc, store, marshal))
  {
    forall s: Snapshot ensures IsDue(s, sc.tenantID, sc.cutoff) <==> Eligible(sc, s) {
      DueIsEligible(sc, s);
    }
    hide IsDue, Eligible;
  }

  /** What an archiving run does, by its outcome. */
  lemma ArchiveOutcomeMeans(sc: Scope, store: Store, marshal: Marshal, record: Snapshot -> Archive, cancelAfter: Option<nat>,
                            after: Store, result: Result<Impact, RetentionError>)
    requires ArchiveOutcome(sc, store, marshal, record, cancelAfter, after, result)
    ensures OnlyArchives(store, after, sc.tenantID, sc.cutoff, marshal, record, result.Ok?)
    ensures result.Ok? ==> result.value.processed == |DueIDs(store, sc.tenantID, sc.cutoff)| && result.value.pruned == 0
  {
    hide OnlyArchives, WithArchived, ArchivableIDs, EligibleIDs, DueIDs;
    DueIDsAre(sc, store);
    if result.Ok? {
      ArchivingMeans(sc, store, marshal, record, ArchivableIDs(sc, store, marshal));
    } else {
      var ids :| ids <= ArchivableIDs(sc, store, marshal) && after == WithArchived(store, ids, marshal, record);
      ArchivingMeans(sc, store, marshal, record, ids);
      FewerArchived(store, after, sc, marshal, record, ids == ArchivableIDs(sc, store, marshal));
    }
  }

  // ----- What a dry run reports --------------------------------------------------------------------

  /** Every due snapshot is to be archived, none to be removed, and their hosts are affected. */
  ghost predicate PredictsArchiving(report: DryRunReport, store: Store, due: set<Bytes>)
    requires due <= store.Keys
  {
    && report.impact.processed == report.impact.archived == |due| && report.impact.pruned == report.impact.retained == 0
    && report.endpoints == set id | id in due :: store[id].hostID
  }

  /** None is to be archived; of the due ones all but the retained are to be removed, and their hosts are affected. */
  ghost predicate PredictsThinning(report: DryRunReport, store: Store, due: set<Bytes>)
    requires due <= store.Keys
  {
    && report.impact.archived == 0 && report.impact.processed == report.impact.pruned == |due| - report.impact.retained
    && report.endpoints == set id | id in due :: store[id].hostID
  }

  lemma ArchivePredictionMeans(sc: Scope, store: Store, marshal: Marshal, impact: Impact)
    requires impact == ArchiveDryImpact(sc, store, marshal)
    ensures var due := DueIDs(store, sc.tenantID, sc.cutoff);
            impact.processed == impact.archived == |due| && impact.pruned == impact.retained == 0
  {
    DueIDsAre(sc, store);
  }

  lemma DownsamplePredictionMeans(sc: Scope, store: Store, marshal: Marshal, after: Store, impact: Impact)
    requires WellKeyed(store) && DownsampleImpact(sc, store, marshal, after, impact)
    ensures impact.archived == 0 && impact.processed == impact.pruned == |DueIDs(store, sc.tenantID, sc.cutoff)| - impact.retained
  {
    hide DownsampleImpact, EligibleIDs, DueIDs, Buckets;
    DueIDsAre(sc, store);
    ImpactCounts(sc, store, marshal, after, impact);
  }

  lemma SelectedAre(store: Store, tenantID: string)
    ensures SelectedIDs(store, tenantID) == set id | id in store && tenantID in {"", store[id].tenantID}
  {
  }

  lemma CancelledOnlyWhenAsked(sc: Scope, store: Store, marshal: Marshal, record: Snapshot -> Archive, cancelAfter: Option<nat>,
                               after: Store, result: Result<Impact, RetentionError>)
    requires ArchiveOutcome(sc, store, marshal, record, cancelAfter, after, result)
    ensures result.Err? ==> result.error == ContextCancelled && cancelAfter.Some?
  {
  }

  lemma FewerArchived(store: Store, after: Store, sc: Scope, marshal: Marshal, record: Snapshot -> Archive, complete: bool)
    requires OnlyArchives(store, after, sc.tenantID, sc.cutoff, marshal, record, complete)
    ensures OnlyArchives(store, after, sc.tenantID, sc.cutoff, marshal, record, false)
  {
  }

  /** What a downsampling run does, by its outcome. */
  lemma DownsampleOutcomeMeans(sc: Scope, store: Store, marshal: Marshal, after: Store, impact: Impact)
    requires WellKeyed(store) && DownsampleImpact(sc, store, marshal, after, impact)
    ensures OnlyThins(store, after, sc.tenantID, sc.cutoff, sc.calendar)
    ensures impact.archived == 0 && impact.processed == impact.pruned == |store.Keys - after.Keys|
  {
    hide Downsampled, OnlyThins, FullChoice, Applied, ChoiceImpact;
    ImpactCounts(sc, store, marshal, after, impact);
    var choice := ChoiceBehind(sc, store, marshal, after, impact);
    ThinningMeans(sc, store, choice);
  }

  lemma ThinningMeans(sc: Scope, store: Store, choice: Choice)
    requires WellKeyed(store) && FullChoice(sc, store, choice)
    ensures OnlyThins(store, Applied(sc, store, choice), sc.tenantID, sc.cutoff, sc.calendar)
  {
    hide Eligible, Applied, FullChoice, BucketOf, Outlived, IsDue, SameHostWeek, WellKeyed;
    var after := Applied(sc, store, choice);
    AppliedMeans(sc, store, choice);
    forall s: Snapshot ensures IsDue(s, sc.tenantID, sc.cutoff) <==> Eligible(sc, s) {
      DueIsEligible(sc, s);
    }
    forall id | id in store && Eligible(sc, store[id]) ensures Outlived(id, store, after, sc.tenantID, sc.cutoff, sc.calendar) {
      OutlivedBy(sc, store, choice, id);
    }
    forall id1, id2 | id1 in after && id2 in after && Eligible(sc, store[id1]) && Eligible(sc, store[id2])
                      && SameHostWeek(store[id1], store[id2], sc.calendar) ensures id1 == id2 {
      HostWeekIsBucket(sc, store[id1], store[id2]);
    }
  }

  lemma HostWeekIsBucket(sc: Scope, s: Snapshot, t: Snapshot)
    ensures SameHostWeek(s, t, sc.calendar) <==> BucketOf(sc, s) == BucketOf(sc, t)
  {
  }

  lemma ChoiceBehind(sc: Scope, store: Store, marshal: Marshal, after: Store, impact: Impact) returns (choice: Choice)
    requires DownsampleImpact(sc, store, marshal, after, impact)
    ensures FullChoice(sc, store, choice) && after == Applied(sc, store, choice)
    ensures impact == ChoiceImpact(sc, store, choice, marshal)
  {
    hide FullChoice, Applied, ChoiceImpact;
    choice :| FullChoice(sc, store, choice) && after == Applied(sc, store, choice) && impact == ChoiceImpact(sc, store, choice, marshal);
  }

  lemma OutlivedBy(sc: Scope, store: Store, choice: Choice, id: Bytes)
    requires WellKeyed(store) && FullChoice(sc, store, choice) && id in store && Eligible(sc, store[id])
    ensures Outlived(id, store, Applied(sc, store, choice), sc.tenantID, sc.cutoff, sc.calendar)
  {
    AppliedMeans(sc, store, choice);
    var b := BucketOf(sc, store[id]);
    ChosenIs(sc, store, choice, b);
    var kept := choice[b];
    DueIsEligible(sc, store[kept]);
    assert SameHostWeek(store[kept], store[id], sc.calendar);
    hide Eligible, BucketOf, Applied, IsDue, SameHostWeek, FullChoice;
  }

  // ----- The bytes a run frees ---------------------------------------------------------------------

  /** Archiving one due snapshot: a dry run trusts a positive recorded size, a run never does. */
  lemma BytesOfOne(sc: Scope, marshal: Marshal, id: Bytes, s: Snapshot)
    requires IsDue(s, sc.tenantID, sc.cutoff)
    ensures var dry, run := ArchiveDryImpact(sc, map[id := s], marshal), ArchiveRunImpact(sc, map[id := s], marshal);
            && (s.payloadSizeBytes > 0 ==> dry.reclaimedBytes == s.payloadSizeBytes)
            && (s.payloadSizeBytes <= 0 && marshal(s.payload).Some? ==> dry.reclaimedBytes == marshal(s.payload).value)
            && (s.payloadSizeBytes <= 0 && marshal(s.payload).None? ==> dry.reclaimedBytes == 0)
            && (marshal(s.payload).Some? ==> run == Impact(1, 1, 0, 0, marshal(s.payload).value))
            && (marshal(s.payload).None? ==> run == Impact(1, 0, 0, 0, 0))
  {
    var store := map[id := s];
    DueIsEligible(sc, s);
    assert EligibleIDs(sc, store) == {id};
    assert ArchivableIDs(sc, store, marshal) == if marshal(s.payload).Some? then {id} else {};
    SumRemove({id}, store, RecordedSize(marshal), id);
    SumRemove({id}, store, SerialisedSize(marshal), id);
    assert {id} - {id} == {};
  }

  /** The bytes of two stores without a common ID add up. */
  lemma BytesAddUp(sc: Scope, marshal: Marshal, one: Store, two: Store)
    requires one.Keys !! two.Keys
    ensures ArchiveDryImpact(sc, one + two, marshal).reclaimedBytes
            == ArchiveDryImpact(sc, one, marshal).reclaimedBytes + ArchiveDryImpact(sc, two, marshal).reclaimedBytes
    ensures ArchiveRunImpact(sc, one + two, marshal).reclaimedBytes
            == ArchiveRunImpact(sc, one, marshal).reclaimedBytes + ArchiveRunImpact(sc, two, marshal).reclaimedBytes
  {
    hide Eligible, RecordedSize, SerialisedSize, SumOver;
    var both := one + two;
    assert EligibleIDs(sc, both) == EligibleIDs(sc, one) + EligibleIDs(sc, two);
    assert ArchivableIDs(sc, both, marshal) == ArchivableIDs(sc, one, marshal) + ArchivableIDs(sc, two, marshal);
    SumsAddUp(EligibleIDs(sc, one), EligibleIDs(sc, two), one, two, RecordedSize(marshal));
    SumsAddUp(ArchivableIDs(sc, one, marshal), ArchivableIDs(sc, two, marshal), one, two, SerialisedSize(marshal));
  }

  lemma SumsAddUp(ids: set<Bytes>, others: set<Bytes>, one: Store, two: Store, size: Snapshot -> int)
    requires one.Keys !! two.Keys && ids <= one.Keys && others <= two.Keys
    ensures ids + others <= (one + two).Keys
    ensures SumOver(ids + others, one + two, size) == SumOver(ids, one, size) + SumOver(others, two, size)
  {
    hide SumOver;
    SumSplits(ids, others, one + two, size);
    SameSum(ids, one, one + two, size);
    SameSum(others, two, one + two, size);
  }

  lemma {:induction false} SameSum(ids: set<Bytes>, store: Store, other: Store, size: Snapshot -> int)
    requires ids <= store.Keys && ids <= other.Keys
    requires forall id | id in ids :: size(store[id]) == size(other[id])
    ensures SumOver(ids, store, size) == SumOver(ids, other, size)
    decreases |ids|
  {
    if ids != {} {
      var id :| id in ids;
      SameSum(ids - {id}, store, other, size);
      SumRemove(ids, store, size, id);
      SumRemove(ids, other, size, id);
    }
  }

  /** What downsampling frees is what archiving would free before it, less what archiving would free after it. */
  lemma DownsampleBytes(sc: Scope, store: Store, marshal: Marshal, after: Store, impact: Impact)
    requires WellKeyed(store) && DownsampleImpact(sc, store, marshal, after, impact)
    ensures impact.reclaimedBytes
            == ArchiveDryImpact(sc, store, marshal).reclaimedBytes - ArchiveDryImpact(sc, after, marshal).reclaimedBytes
  {
    hide Eligible, BucketOf, DownsampleImpact, Applied, FullChoice, RecordedSize, SumOver;
    var choice := ChoiceBehind(sc, store, marshal, after, impact);
    var size := RecordedSize(marshal);
    var ids, kept, pruned := EligibleIDs(sc, store), EligibleIDs(sc, after), PrunedIDs(sc, store, choice);
    KeptAndPruned(sc, store, choice, marshal);
    SumSplits(pruned, kept, store, size);
    SameSum(kept, store, after, size);
  }

  lemma KeptAndPruned(sc: Scope, store: Store, choice: Choice, marshal: Marshal)
    requires WellKeyed(store) && FullChoice(sc, store, choice)
    ensures var after := Applied(sc, store, choice);
            var ids, kept, pruned := EligibleIDs(sc, store), EligibleIDs(sc, after), PrunedIDs(sc, store, choice);
            && kept <= store.Keys && pruned !! kept && ids == pruned + kept
            && forall id | id in kept :: RecordedSize(marshal)(store[id]) == RecordedSize(marshal)(after[id])
  {
    AppliedMeans(sc, store, choice);
    var after := Applied(sc, store, choice);
    forall s: Snapshot ensures RecordedSize(marshal)(s.(isDownsampleRetained := true)) == RecordedSize(marshal)(s) {
    }
    hide Eligible, BucketOf, Applied, FullChoice, RecordedSize;
    forall id | id in EligibleIDs(sc, store)
      ensures id in PrunedIDs(sc, store, choice) <==> id !in EligibleIDs(sc, after) {
    }
  }

  lemma {:induction false} SumSplits(ids: set<Bytes>, others: set<Bytes>, store: Store, size: Snapshot -> int)
    requires ids !! others && ids <= store.Keys && others <= store.Keys
    ensures SumOver(ids + others, store, size) == SumOver(ids, store, size) + SumOver(others, store, size)
    decreases |ids|
  {
    if ids == {} {
      assert ids + others == others;
    } else {
      var id :| id in ids;
      SumSplits(ids - {id}, others, store, size);
      assert (ids + others) - {id} == (ids - {id}) + others;
      SumRemove(ids + others, store, size, id);
      SumRemove(ids, store, size, id);
    }
  }

  class Engine {
    const repo: Repository

    constructor (repo: Repository)
      ensures this.repo == repo
    {
      this.repo := repo;
    }

    /** Changes nothing (no modifies clause) and returns the impact a run would have. */
    method DryRun(req: Request, tenantID: string, daysBack: int -> int, calendar: Calendar, marshal: Marshal)
      returns (r: Result<DryRunReport, RetentionError>)
      requires repo.Valid()
      ensures r.Err? <==> StrategyOf(req.strategy).None?
      ensures r.Err? ==> r.error == InvalidStrategy
      ensures r.Ok? ==>
                var sc := ScopeOf(req, tenantID, daysBack, calendar);
                && r.value.evaluated == |SelectedIDs(repo.snapshots, tenantID)|
                && r.value.endpoints == (set id | id in EligibleIDs(sc, repo.snapshots) :: repo.snapshots[id].hostID)
                && match StrategyOf(req.strategy).value
                   case ArchiveStrategy => r.value.impact == ArchiveDryImpact(sc, repo.snapshots, marshal)
                   case DownsampleStrategy => exists after :: DownsampleImpact(sc, repo.snapshots, marshal, after, r.value.impact)
      ensures var name := Strings.Lower(Strings.TrimSpace(req.strategy));
              var cutoff := daysBack(if req.retentionDays <= 0 then 90 else req.retentionDays);
              && (r.Err? <==> name !in {"", "archive", "downsample"})
              && (r.Ok? ==> r.value.evaluated == |set id | id in repo.snapshots && tenantID in {"", repo.snapshots[id].tenantID}|)
              && (r.Ok? && name in {"", "archive"} ==>
                    PredictsArchiving(r.value, repo.snapshots, DueIDs(repo.snapshots, tenantID, cutoff)))
              && (r.Ok? && name == "downsample" ==>
                    && PredictsThinning(r.value, repo.snapshots, DueIDs(repo.snapshots, tenantID, cutoff))
                    && exists after :: OnlyThins(repo.snapshots, after, tenantID, cutoff, calendar)
                                       && |repo.snapshots.Keys - after.Keys| == r.value.impact.pruned)
    {
      hide ArchiveDryImpact, DownsampleImpact, EligibleIDs, SelectedIDs, IsCollection, OnlyThins;
      var strategy := StrategyOf(req.strategy);
      if strategy.None? {
        return Err(InvalidStrategy);
      }
      var sc := ScopeOf(req, tenantID, daysBack, calendar);
      var all := repo.ListAllSnapshotsForTenant(tenantID);
      CollectionSize(all, repo.snapshots, tenantID);
      var impact: Impact, endpoints: set<string>;
      match strategy.value {
        case ArchiveStrategy =>
          impact, endpoints := DryRunArchive(all, sc, marshal);
          ArchivePredictionMeans(sc, repo.snapshots, marshal, impact);
        case DownsampleStrategy =>
          impact, endpoints := DryRunDownsample(all, sc, marshal);
          ghost var after :| DownsampleImpact(sc, repo.snapshots, marshal, after, impact);
          DownsampleOutcomeMeans(sc, repo.snapshots, marshal, after, impact);
          DownsamplePredictionMeans(sc, repo.snapshots, marshal, after, impact);
      }
      DueIDsAre(sc, repo.snapshots);
      SelectedAre(repo.snapshots, tenantID);
      return Ok(DryRunReport(|all|, impact, endpoints));
    }

    method DryRunArchive(all: seq<Snapshot>, sc: Scope, marshal: Marshal) returns (impact: Impact, endpoints: set<string>)
      requires repo.Valid() && IsCollection(all, repo.snapshots, sc.tenantID, "")
      ensures impact == ArchiveDryImpact(sc, repo.snapshots, marshal)
      ensures endpoints == set id | id in EligibleIDs(sc, repo.snapshots) :: repo.snapshots[id].hostID
    {
      hide Filtered, SumSeq, IsCollection, EligibleIDs, SumOver, IsEligible, RecordedSize;
      var eligibleCount: nat, totalReclaimedBytes := 0, 0;
      endpoints := {};
      ghost var store, ok, size := repo.snapshots, IsEligible(sc), RecordedSize(marshal);
      NothingFiltered(all, ok, size);
      for i := 0 to |all|
        invariant eligibleCount == |Filtered(all[..i], ok)|
        invariant totalReclaimedBytes == SumSeq(Filtered(all[..i], ok), size)
        invariant endpoints == Hosts(Filtered(all[..i], ok))
      {
        var snap := all[i];
        FilteredNext(all, i, sc, marshal);
        if Eligible(sc, snap) {
          eligibleCount := eligibleCount + 1;
          endpoints := endpoints + {snap.hostID};
          var bytes := snap.payloadSizeBytes;
          if bytes <= 0 {
            bytes := match marshal(snap.payload) { case None => 0 case Some(n) => n };
          }
          totalReclaimedBytes := totalReclaimedBytes + bytes;
        }
      }
      assert all[..|all|] == all;
      IsEligibleIs(sc);
      FilteredTotals(all, sc, store, ok, EligibleIDs(sc, store), size) by { EligibleAll(sc, store); }
      HostsOf(all, sc, store);
      impact := Impact(eligibleCount, eligibleCount, 0, 0, totalReclaimedBytes);
    }

    method DryRunDownsample(all: seq<Snapshot>, sc: Scope, marshal: Marshal) returns (impact: Impact, endpoints: set<string>)
      requires repo.Valid() && IsCollection(all, repo.snapshots, sc.tenantID, "")
      ensures exists after :: DownsampleImpact(sc, repo.snapshots, marshal, after, impact)
      ensures endpoints == set id | id in EligibleIDs(sc, repo.snapshots) :: repo.snapshots[id].hostID
    {
      hide Choosing, IsBucketList, IsGrouping, IsCollection, DownsampleImpact, EligibleIDs, Applied, SumSeq;
      ghost var store := repo.snapshots;
      var pruneCount: nat, weeklyRetainedCount: nat, totalReclaimedBytes := 0, 0, 0;
      endpoints := {};
      var hostWeeks := GroupByHostWeek(all, sc);
      var todo := hostWeeks.Keys;
      ghost var choice: Choice := NothingChosen(hostWeeks, all, sc, store, marshal);
      while todo != {}
        invariant Choosing(choice, hostWeeks.Keys, todo, sc, store, marshal,
                           Impact(pruneCount, 0, pruneCount, weeklyRetainedCount, totalReclaimedBytes))
        invariant todo <= hostWeeks.Keys && endpoints == set b | b in hostWeeks.Keys - todo :: b.hostID
        decreases |todo|
      {
        var key :| key in todo;
        assert hostWeeks.Keys - (todo - {key}) == (hostWeeks.Keys - todo) + {key};
        endpoints := endpoints + {key.hostID};
        var snaps := SortedBucket(hostWeeks, key, all, sc, store);
        var checkpointIdx := |snaps| - 1;
        ChosenNext(choice, hostWeeks.Keys, todo, sc, store, marshal,
                   Impact(pruneCount, 0, pruneCount, weeklyRetainedCount, totalReclaimedBytes), key, snaps);
        weeklyRetainedCount := weeklyRetainedCount + 1;
        var bytes := SumSizes(snaps, checkpointIdx, marshal);
        pruneCount := pruneCount + checkpointIdx;
        totalReclaimedBytes := totalReclaimedBytes + bytes;
        choice := choice[key := snaps[checkpointIdx].id];
        todo := todo - {key};
      }
      impact := Impact(pruneCount, 0, pruneCount, weeklyRetainedCount, totalReclaimedBytes);
      AllChosen(choice, hostWeeks, all, sc, store, marshal, impact);
      BucketHosts(sc, store);
      GroupsAreBuckets(hostWeeks, all, sc, store);
      assert hostWeeks.Keys - {} == hostWeeks.Keys;
    }

    /**
      Archives or downsamples; `cancelAfter` is how many snapshots are looked at before the context ends,
      if it does. Only archiving looks at the context.
    */
    method Execute(req: Request, tenantID: string, daysBack: int -> int, calendar: Calendar, marshal: Marshal,
                   record: Snapshot -> Archive, cancelAfter: Option<nat>)
      returns (result: Result<Impact, RetentionError>)
      requires repo.Valid()
      modifies repo
      ensures repo.Valid()
      ensures var strategy, sc := StrategyOf(req.strategy), ScopeOf(req, tenantID, daysBack, calendar);
              match strategy
              case None => result == Err(InvalidStrategy) && repo.snapshots == old(repo.snapshots)
              case Some(DownsampleStrategy) =>
                result.Ok? && DownsampleImpact(sc, old(repo.snapshots), marshal, repo.snapshots, result.value)
              case Some(ArchiveStrategy) => ArchiveOutcome(sc, old(repo.snapshots), marshal, record, cancelAfter, repo.snapshots, result)
      ensures var name := Strings.Lower(Strings.TrimSpace(req.strategy));
              var cutoff := daysBack(if req.retentionDays <= 0 then 90 else req.retentionDays);
              && (name in {"", "archive"} ==>
                    && OnlyArchives(old(repo.snapshots), repo.snapshots, tenantID, cutoff, marshal, record, result.Ok?)
                    && (result.Err? ==> result.error == ContextCancelled && cancelAfter.Some?))
              && (name == "downsample" ==>
                    result.Ok? && OnlyThins(old(repo.snapshots), repo.snapshots, tenantID, cutoff, calendar))
              && (name !in {"", "archive", "downsample"} ==>
                    result == Err(InvalidStrategy) && repo.snapshots == old(repo.snapshots))
    {
      hide ArchiveOutcome, DownsampleImpact, IsCollection, OnlyArchives, OnlyThins;
      ghost var before := repo.snapshots;
      var strategy := StrategyOf(req.strategy);
      if strategy.None? {
        return Err(InvalidStrategy);
      }
      var sc := ScopeOf(req, tenantID, daysBack, calendar);
      var all := repo.ListAllSnapshotsForTenant(tenantID);
      match strategy.value {
        case ArchiveStrategy =>
          result := ExecuteArchive(all, sc, marshal, record, cancelAfter);
          ArchiveOutcomeMeans(sc, before, marshal, record, cancelAfter, repo.snapshots, result);
          CancelledOnlyWhenAsked(sc, before, marshal, record, cancelAfter, repo.snapshots, result);
        case DownsampleStrategy =>
          var impact := ExecuteDownsample(all, sc, marshal);
          DownsampleOutcomeMeans(sc, before, marshal, repo.snapshots, impact);
          result := Ok(impact);
      }
    }

    method ExecuteArchive(all: seq<Snapshot>, sc: Scope, marshal: Marshal, record: Snapshot -> Archive, cancelAfter: Option<nat>)
      returns (result: Result<Impact, RetentionError>)
      requires repo.Valid() && IsCollection(all, repo.snapshots, sc.tenantID, "")
      modifies repo
      ensures repo.Valid()
      ensures ArchiveOutcome(sc, old(repo.snapshots), marshal, record, cancelAfter, repo.snapshots, result)
    {
      hide SelectedIDs, ArchivableIDs, WithArchived, ArchiveRunImpact, ArchiveProgress, IsCollection, Eligible, Archived;
      ghost var store := repo.snapshots;
      var processedCount: nat, archivedCount: nat, reclaimedBytes := 0, 0, 0;
      ghost var progress := NoneLooked(sc, store, marshal, record);
      for i := 0 to |all|
        invariant cancelAfter.Some? ==> i <= cancelAfter.value
        invariant repo.Valid() && ArchiveProgress(progress, all, i, sc, store, marshal, record)
        invariant progress == Progress(repo.snapshots, processedCount, archivedCount, reclaimedBytes)
      {
        if cancelAfter == Some(i) {
          PartlyArchived(progress, all, i, sc, store, marshal, record);
          CollectionSize(all, store, sc.tenantID);
          return Err(ContextCancelled);
        }
        var snap := all[i];
        LookedAtNext(progress, all, i, sc, store, marshal, record);
        if Eligible(sc, snap) {
          processedCount := processedCount + 1;
          match marshal(snap.payload) {
            case None =>
            case Some(rawSize) =>
              var found := repo.ArchiveSnapshotPayload(snap.id, record(snap), rawSize);
              archivedCount := archivedCount + 1;
              reclaimedBytes := reclaimedBytes + rawSize;
          }
        }
        progress := Progress(repo.snapshots, processedCount, archivedCount, reclaimedBytes);
      }
      AllArchived(progress, all, sc, store, marshal, record);
      CollectionSize(all, store, sc.tenantID);
      result := Ok(Impact(processedCount, archivedCount, 0, 0, reclaimedBytes));
    }

    method ExecuteDownsample(all: seq<Snapshot>, sc: Scope, marshal: Marshal) returns (impact: Impact)
      requires repo.Valid() && IsCollection(all, repo.snapshots, sc.tenantID, "")
      modifies repo
      ensures repo.Valid()
      ensures DownsampleImpact(sc, old(repo.snapshots), marshal, repo.snapshots, impact)
    {
      hide Choosing, IsBucketList, IsGrouping, IsCollection, DownsampleImpact, Applied, SumSeq;
      ghost var store := repo.snapshots;
      var downsampledCount: nat, weeklyRetainedCount: nat, reclaimedBytes := 0, 0, 0;
      var hostWeeks := GroupByHostWeek(all, sc);
      var todo := hostWeeks.Keys;
      ghost var choice: Choice := NothingChosen(hostWeeks, all, sc, store, marshal);
      while todo != {}
        invariant repo.Valid() && repo.snapshots == Applied(sc, store, choice)
        invariant Choosing(choice, hostWeeks.Keys, todo, sc, store, marshal,
                           Impact(downsampledCount, 0, downsampledCount, weeklyRetainedCount, reclaimedBytes))
        invariant todo <= hostWeeks.Keys
        decreases |todo|
      {
        var key :| key in todo;
        var snaps := SortedBucket(hostWeeks, key, all, sc, store);
        var checkpointIdx := |snaps| - 1;
        ChosenNext(choice, hostWeeks.Keys, todo, sc, store, marshal,
                   Impact(downsampledCount, 0, downsampledCount, weeklyRetainedCount, reclaimedBytes), key, snaps);
        AppliedNext(choice, hostWeeks.Keys, todo, sc, store, marshal,
                    Impact(downsampledCount, 0, downsampledCount, weeklyRetainedCount, reclaimedBytes), key, snaps);
        var found := repo.MarkSnapshotWeeklyRetained(snaps[checkpointIdx].id);
        weeklyRetainedCount := weeklyRetainedCount + 1;
        PruneOthers(snaps, checkpointIdx);
        var bytes := SumSizes(snaps, checkpointIdx, marshal);
        downsampledCount := downsampledCount + checkpointIdx;
        reclaimedBytes := reclaimedBytes + bytes;
        choice := choice[key := snaps[checkpointIdx].id];
        todo := todo - {key};
      }
      impact := Impact(downsampledCount, 0, downsampledCount, weeklyRetainedCount, reclaimedBytes);
      AllChosen(choice, hostWeeks, all, sc, store, marshal, impact);
    }

    /** Removes the snapshots before the checkpoint. */
    method PruneOthers(snaps: seq<Snapshot>, checkpointIdx: nat)
      requires repo.Valid() && checkpointIdx < |snaps|
      modifies repo
      ensures repo.Valid() && repo.snapshots == old(repo.snapshots) - IDs(snaps[..checkpointIdx])
    {
      for i := 0 to checkpointIdx
        invariant repo.Valid()
        invariant repo.snapshots == old(repo.snapshots) - IDs(snaps[..i])
      {
        repo.PruneDownsampledSnapshot(snaps[i].id);
        assert snaps[..i + 1] == snaps[..i] + [snaps[i]];
        assert IDs(snaps[..i + 1]) == IDs(snaps[..i]) + {snaps[i].id};
      }
    }
  }

  /** The bytes freed by the snapshots before the checkpoint. */
  method SumSizes(snaps: seq<Snapshot>, checkpointIdx: nat, marshal: Marshal) returns (bytes: int)
    requires checkpointIdx < |snaps|
    ensures bytes == SumSeq(snaps[..checkpointIdx], RecordedSize(marshal))
  {
    bytes := 0;
    for i := 0 to checkpointIdx
      invariant bytes == SumSeq(snaps[..i], RecordedSize(marshal))
    {
      var size := snaps[i].payloadSizeBytes;
      if size <= 0 {
        size := match marshal(snaps[i].payload) { case None => 0 case Some(n) => n };
      }
      assert size == RecordedLength(marshal, snaps[i]) == RecordedSize(marshal)(snaps[i]);
      SumStep(snaps[..i], snaps[i], RecordedSize(marshal));
      assert snaps[..i + 1] == snaps[..i] + [snaps[i]];
      bytes := bytes + size;
    }
  }

  method SortedBucket(hostWeeks: map<Bucket, seq<Snapshot>>, key: Bucket, all: seq<Snapshot>, sc: Scope, ghost store: Store)
    returns (snaps: seq<Snapshot>)
    requires key in hostWeeks && IsGrouping(hostWeeks, sc, all)
    requires WellKeyed(store) && IsCollection(all, store, sc.tenantID, "")
    ensures IsBucketList(snaps, sc, store, key) && snaps != []
  {
    GroupMembers(sc, all, key);
    snaps := SortByTime(hostWeeks[key]);
    SortedGroupIsBucketList(snaps, all, sc, store, key);
  }
}
