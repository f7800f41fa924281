/** What a retention run may do to a store of snapshots, and how two runs compose. */
module RetentionSpec {
  import opened Prelude
  import opened KeysetCursor
  import opened Snapshots
  import opened SnapshotRepository

  /** ISO year and week of a timestamp. */
  type Calendar = Nanos -> (int, int)

  datatype Bucket = Bucket(hostID: string, week: (int, int))

  /** What a run looks at: the tenant (empty for all), the cutoff and the calendar. */
  datatype Scope = Scope(tenantID: string, cutoff: int, calendar: Calendar)

  predicate Eligible(sc: Scope, s: Snapshot) {
    Selected(s, sc.tenantID, "") && s.createdAt < sc.cutoff && !s.isArchived
  }

  function BucketOf(sc: Scope, s: Snapshot): Bucket {
    Bucket(s.hostID, sc.calendar(s.createdAt))
  }

  ghost function EligibleIDs(sc: Scope, store: Store): set<Bytes> {
    set id | id in store && Eligible(sc, store[id])
  }

  ghost function Buckets(sc: Scope, store: Store): set<Bucket> {
    set id | id in EligibleIDs(sc, store) :: BucketOf(sc, store[id])
  }

  // ----- Weekly downsampling ---------------------------------------------------------------

  /** The snapshot kept for each bucket dealt with so far. */
  type Choice = map<Bucket, Bytes>

  /** Each bucket keeps one of its eligible snapshots, as late as any other of them. */
  ghost predicate GoodChoice(sc: Scope, store: Store, choice: Choice) {
    forall b | b in choice ::
      && choice[b] in store && Eligible(sc, store[choice[b]]) && BucketOf(sc, store[choice[b]]) == b
      && forall id | id in store && Eligible(sc, store[id]) && BucketOf(sc, store[id]) == b ::
           store[id].createdAt <= store[choice[b]].createdAt
  }

  /** Every bucket has its choice. */
  ghost predicate FullChoice(sc: Scope, store: Store, choice: Choice) {
    choice.Keys == Buckets(sc, store) && GoodChoice(sc, store, choice)
  }

  ghost predicate Pruned(sc: Scope, choice: Choice, s: Snapshot) {
    Eligible(sc, s) && BucketOf(sc, s) in choice && choice[BucketOf(sc, s)] != s.id
  }

  ghost predicate Kept(sc: Scope, choice: Choice, s: Snapshot) {
    Eligible(sc, s) && BucketOf(sc, s) in choice && choice[BucketOf(sc, s)] == s.id
  }

  /** The store once the chosen snapshots are flagged and the others of their buckets are removed. */
  ghost function Applied(sc: Scope, store: Store, choice: Choice): Store {
    map id | id in store && !Pruned(sc, choice, store[id]) ::
      if Kept(sc, choice, store[id]) then store[id].(isDownsampleRetained := true) else store[id]
  }

  /** `after` is a possible outcome of downsampling `store`. */
  ghost predicate Downsampled(sc: Scope, store: Store, after: Store) {
    exists choice: Choice :: FullChoice(sc, store, choice) && after == Applied(sc, store, choice)
  }

  /** Within each bucket the eligible snapshots have different times. */
  ghost predicate DistinctTimes(sc: Scope, store: Store) {
    forall id1, id2 | id1 in EligibleIDs(sc, store) && id2 in EligibleIDs(sc, store)
                      && BucketOf(sc, store[id1]) == BucketOf(sc, store[id2])
                      && store[id1].createdAt == store[id2].createdAt :: id1 == id2
  }

  /** The retained flag does not matter for eligibility. */
  lemma FlagIgnored(sc: Scope)
    ensures forall s: Snapshot :: Eligible(sc, s.(isDownsampleRetained := true)) <==> Eligible(sc, s)
    ensures forall s: Snapshot :: BucketOf(sc, s.(isDownsampleRetained := true)) == BucketOf(sc, s)
  {
  }

  /** Looking an outcome up, snapshot by snapshot. */
  lemma AppliedMeans(sc: Scope, store: Store, choice: Choice)
    requires WellKeyed(store) && FullChoice(sc, store, choice)
    ensures var after := Applied(sc, store, choice);
            && WellKeyed(after) && after.Keys <= store.Keys
            && (forall id | id in store && !Eligible(sc, store[id]) :: id in after && after[id] == store[id])
            && (forall id | id in store && Eligible(sc, store[id]) ::
                  && BucketOf(sc, store[id]) in choice
                  && (id in after <==> choice[BucketOf(sc, store[id])] == id)
                  && (id in after ==> after[id] == store[id].(isDownsampleRetained := true)))
            && (forall id | id in after :: Eligible(sc, after[id]) == Eligible(sc, store[id])
                                           && BucketOf(sc, after[id]) == BucketOf(sc, store[id]))
  {
    FlagIgnored(sc);
    forall id | id in store && Eligible(sc, store[id]) ensures BucketOf(sc, store[id]) in choice {
      assert id in EligibleIDs(sc, store);
    }
    hide Eligible, BucketOf, GoodChoice, EligibleIDs, Buckets, Snapshots.Selected;
  }

  ghost predicate LatestOfBucket(sc: Scope, store: Store, id: Bytes)
    requires id in store
  {
    forall other | other in store && Eligible(sc, store[other]) && BucketOf(sc, store[other]) == BucketOf(sc, store[id]) ::
      store[other].createdAt <= store[id].createdAt
  }

  /** What an outcome looks like: one snapshot per old host-week, its latest, flagged; the rest untouched. */
  lemma DownsampledMeans(sc: Scope, store: Store, after: Store)
    requires WellKeyed(store) && Downsampled(sc, store, after)
    ensures WellKeyed(after) && after.Keys <= store.Keys
    ensures forall id | id in store && !Eligible(sc, store[id]) :: id in after && after[id] == store[id]
    ensures forall id | id in after && Eligible(sc, store[id]) ::
              after[id] == store[id].(isDownsampleRetained := true) && LatestOfBucket(sc, store, id)
    ensures forall id1, id2 | id1 in after && id2 in after && Eligible(sc, store[id1]) && Eligible(sc, store[id2])
                              && BucketOf(sc, store[id1]) == BucketOf(sc, store[id2]) :: id1 == id2
    ensures Buckets(sc, after) == Buckets(sc, store)
  {
    var choice: Choice :| FullChoice(sc, store, choice) && after == Applied(sc, store, choice);
    AppliedMeans(sc, store, choice);
    SameBuckets(sc, store, after, choice);
    hide Eligible, BucketOf, Applied, EligibleIDs, Buckets, Downsampled;
    forall id | id in after && Eligible(sc, store[id]) ensures LatestOfBucket(sc, store, id) {
      assert choice[BucketOf(sc, store[id])] == id;
    }
  }

  lemma SameBuckets(sc: Scope, store: Store, after: Store, choice: Choice)
    requires WellKeyed(store) && FullChoice(sc, store, choice) && after == Applied(sc, store, choice)
    ensures Buckets(sc, after) == Buckets(sc, store)
  {
    AppliedMeans(sc, store, choice);
    hide Eligible, BucketOf, Applied;
    forall b | b in Buckets(sc, store) ensures b in Buckets(sc, after) {
      assert choice[b] in EligibleIDs(sc, after);
    }
    forall b | b in Buckets(sc, after) ensures b in Buckets(sc, store) {
      var id :| id in EligibleIDs(sc, after) && BucketOf(sc, after[id]) == b;
      assert id in EligibleIDs(sc, store);
    }
  }

  lemma ChosenIs(sc: Scope, store: Store, choice: Choice, b: Bucket)
    requires GoodChoice(sc, store, choice) && b in choice
    ensures choice[b] in EligibleIDs(sc, store) && BucketOf(sc, store[choice[b]]) == b
    ensures LatestOfBucket(sc, store, choice[b])
  {
    hide Eligible, BucketOf;
  }

  lemma LatestUnique(sc: Scope, store: Store, id1: Bytes, id2: Bytes)
    requires DistinctTimes(sc, store) && id1 in EligibleIDs(sc, store) && id2 in EligibleIDs(sc, store)
    requires BucketOf(sc, store[id1]) == BucketOf(sc, store[id2])
    requires LatestOfBucket(sc, store, id1) && LatestOfBucket(sc, store, id2)
    ensures id1 == id2
  {
    hide BucketOf, Eligible;
    assert store[id1].createdAt == store[id2].createdAt;
  }

  lemma ChoicesAgree(sc: Scope, store: Store, c1: Choice, c2: Choice)
    requires DistinctTimes(sc, store) && FullChoice(sc, store, c1) && FullChoice(sc, store, c2)
    ensures c1 == c2
  {
    hide Buckets, GoodChoice, EligibleIDs, DistinctTimes, LatestOfBucket, BucketOf, Eligible;
    forall b | b in c1 ensures c1[b] == c2[b] {
      ChosenIs(sc, store, c1, b);
      ChosenIs(sc, store, c2, b);
      LatestUnique(sc, store, c1[b], c2[b]);
    }
  }

  /** When no two snapshots of a bucket share a time, the outcome is determined. */
  lemma DownsampledUnique(sc: Scope, store: Store, after1: Store, after2: Store)
    requires DistinctTimes(sc, store) && Downsampled(sc, store, after1) && Downsampled(sc, store, after2)
    ensures after1 == after2
  {
    hide Applied, FullChoice, DistinctTimes;
    var c1: Choice :| FullChoice(sc, store, c1) && after1 == Applied(sc, store, c1);
    var c2: Choice :| FullChoice(sc, store, c2) && after2 == Applied(sc, store, c2);
    ChoicesAgree(sc, store, c1, c2);
  }

  ghost predicate Widens(sc1: Scope, sc2: Scope) {
    sc1.tenantID == sc2.tenantID && sc1.calendar == sc2.calendar && sc1.cutoff <= sc2.cutoff
  }

  /** The survivors of a bucket after the first run are as late as anything the first run removed. */
  lemma FirstRunKeepsLatest(sc1: Scope, sc2: Scope, store: Store, mid: Store, c1: Choice, id: Bytes)
    requires Widens(sc1, sc2) && WellKeyed(store)
    requires FullChoice(sc1, store, c1) && mid == Applied(sc1, store, c1)
    requires id in store && Eligible(sc2, store[id])
    ensures exists id' :: id' in mid && Eligible(sc2, mid[id']) && BucketOf(sc2, mid[id']) == BucketOf(sc2, store[id])
                          && store[id].createdAt <= mid[id'].createdAt
  {
    if id in mid {
      assert BucketOf(sc2, mid[id]) == BucketOf(sc2, store[id]);
    } else {
      var kept := c1[BucketOf(sc1, store[id])];
      assert kept in mid && BucketOf(sc2, mid[kept]) == BucketOf(sc2, store[id]);
    }
  }

  /** The second run's choice is also a choice for the original store. */
  lemma SecondChoiceIsGood(sc1: Scope, sc2: Scope, store: Store, mid: Store, c1: Choice, c2: Choice)
    requires Widens(sc1, sc2) && WellKeyed(store)
    requires FullChoice(sc1, store, c1) && mid == Applied(sc1, store, c1)
    requires FullChoice(sc2, mid, c2)
    ensures GoodChoice(sc2, store, c2) && Buckets(sc2, store) == Buckets(sc2, mid)
  {
    forall b | b in c2
      ensures c2[b] in store && Eligible(sc2, store[c2[b]]) && BucketOf(sc2, store[c2[b]]) == b
      ensures forall id | id in store && Eligible(sc2, store[id]) && BucketOf(sc2, store[id]) == b ::
                store[id].createdAt <= store[c2[b]].createdAt
    {
      forall id | id in store && Eligible(sc2, store[id]) && BucketOf(sc2, store[id]) == b
        ensures store[id].createdAt <= store[c2[b]].createdAt
      {
        FirstRunKeepsLatest(sc1, sc2, store, mid, c1, id);
      }
    }
    forall b | b in Buckets(sc2, store) ensures b in Buckets(sc2, mid) {
      var id :| id in EligibleIDs(sc2, store) && BucketOf(sc2, store[id]) == b;
      FirstRunKeepsLatest(sc1, sc2, store, mid, c1, id);
      var id' :| id' in mid && Eligible(sc2, mid[id']) && BucketOf(sc2, mid[id']) == b;
      assert id' in EligibleIDs(sc2, mid);
    }
    forall b | b in Buckets(sc2, mid) ensures b in Buckets(sc2, store) {
      var id :| id in EligibleIDs(sc2, mid) && BucketOf(sc2, mid[id]) == b;
      assert id in EligibleIDs(sc2, store);
    }
  }

  lemma WiderEligible(sc1: Scope, sc2: Scope)
    requires Widens(sc1, sc2)
    ensures forall s: Snapshot :: Eligible(sc1, s) ==> Eligible(sc2, s)
    ensures forall s: Snapshot :: BucketOf(sc1, s) == BucketOf(sc2, s)
  {
  }

  /** Downsampling at one cutoff and later at another is downsampling once at the later cutoff. */
  lemma DownsamplingComposes(sc1: Scope, sc2: Scope, store: Store, mid: Store, after: Store)
    requires Widens(sc1, sc2) && WellKeyed(store)
    requires Downsampled(sc1, store, mid) && Downsampled(sc2, mid, after)
    ensures Downsampled(sc2, store, after)
  {
    var c1: Choice :| FullChoice(sc1, store, c1) && mid == Applied(sc1, store, c1);
    var c2: Choice :| FullChoice(sc2, mid, c2) && after == Applied(sc2, mid, c2);
    SecondChoiceIsGood(sc1, sc2, store, mid, c1, c2);
    TwiceIsOnce(sc1, sc2, store, c1, c2);
    OutcomeOf(sc2, store, c2);
  }

  lemma TwiceIsOnce(sc1: Scope, sc2: Scope, store: Store, c1: Choice, c2: Choice)
    requires Widens(sc1, sc2) && WellKeyed(store)
    requires FullChoice(sc1, store, c1) && FullChoice(sc2, store, c2) && FullChoice(sc2, Applied(sc1, store, c1), c2)
    ensures Applied(sc2, Applied(sc1, store, c1), c2) == Applied(sc2, store, c2)
  {
    var mid, once := Applied(sc1, store, c1), Applied(sc2, store, c2);
    var after := Applied(sc2, mid, c2);
    forall id | id in store ensures (id in once <==> id in after) && (id in once && id in after ==> once[id] == after[id]) {
      TwiceIsOnceAt(sc1, sc2, store, c1, c2, id);
    }
    AppliedMeans(sc1, store, c1);
    AppliedMeans(sc2, mid, c2);
    AppliedMeans(sc2, store, c2);
    hide Eligible, BucketOf, Applied, FullChoice, WellKeyed, Widens;
    assert once.Keys <= store.Keys && after.Keys <= store.Keys;
    assert once == after;
  }

  lemma TwiceIsOnceAt(sc1: Scope, sc2: Scope, store: Store, c1: Choice, c2: Choice, id: Bytes)
    requires Widens(sc1, sc2) && WellKeyed(store) && id in store
    requires FullChoice(sc1, store, c1) && FullChoice(sc2, store, c2) && FullChoice(sc2, Applied(sc1, store, c1), c2)
    ensures var once, after := Applied(sc2, store, c2), Applied(sc2, Applied(sc1, store, c1), c2);
            (id in once <==> id in after) && (id in once ==> id in after && once[id] == after[id])
  {
    var mid := Applied(sc1, store, c1);
    var b := BucketOf(sc2, store[id]);
    WiderEligible(sc1, sc2);
    AppliedMeans(sc1, store, c1);
    AppliedMeans(sc2, mid, c2);
    AppliedMeans(sc2, store, c2);
    if b in c2 { ChosenIs(sc2, mid, c2, b); }
    hide Eligible, BucketOf, Applied, FullChoice, WellKeyed, Widens, EligibleIDs, LatestOfBucket;
  }

  lemma OutcomeOf(sc: Scope, store: Store, choice: Choice)
    requires FullChoice(sc, store, choice)
    ensures Downsampled(sc, store, Applied(sc, store, choice))
  {
    hide FullChoice, Applied;
  }

  // ----- Every outcome of one run is one of two runs ----------------------------------------------

  lemma {:induction false} LatestOf(ids: set<Bytes>, store: Store) returns (latest: Bytes)
    requires ids != {} && ids <= store.Keys
    ensures latest in ids && forall id | id in ids :: store[id].createdAt <= store[latest].createdAt
    decreases |ids|
  {
    latest :| latest in ids;
    if ids != {latest} {
      var rest := LatestOf(ids - {latest}, store);
      if store[rest].createdAt > store[latest].createdAt {
        latest := rest;
      }
    }
  }

  lemma LatestExists(sc: Scope, store: Store, b: Bucket)
    requires b in Buckets(sc, store)
    ensures exists id :: id in EligibleIDs(sc, store) && BucketOf(sc, store[id]) == b && LatestOfBucket(sc, store, id)
  {
    hide Eligible, BucketOf;
    var ids := set id | id in EligibleIDs(sc, store) && BucketOf(sc, store[id]) == b;
    var some :| some in EligibleIDs(sc, store) && BucketOf(sc, store[some]) == b;
    assert some in ids;
    var latest := LatestOf(ids, store);
    assert LatestOfBucket(sc, store, latest);
  }

  /** What the first run keeps of a bucket so that the second can keep what c2 does: the same, if it is old enough. */
  ghost function FirstPick(sc1: Scope, store: Store, c2: Choice, b: Bucket): (id: Bytes)
    requires b in Buckets(sc1, store)
    ensures id in EligibleIDs(sc1, store) && BucketOf(sc1, store[id]) == b
    ensures b in c2 && c2[b] in EligibleIDs(sc1, store) && BucketOf(sc1, store[c2[b]]) == b ==> id == c2[b]
    ensures !(b in c2 && c2[b] in EligibleIDs(sc1, store) && BucketOf(sc1, store[c2[b]]) == b) ==> LatestOfBucket(sc1, store, id)
  {
    LatestExists(sc1, store, b);
    if b in c2 && c2[b] in EligibleIDs(sc1, store) && BucketOf(sc1, store[c2[b]]) == b then c2[b]
    else var id :| id in EligibleIDs(sc1, store) && BucketOf(sc1, store[id]) == b && LatestOfBucket(sc1, store, id); id
  }

  ghost function FirstChoice(sc1: Scope, store: Store, c2: Choice): Choice {
    map b | b in Buckets(sc1, store) :: FirstPick(sc1, store, c2, b)
  }

  lemma FirstChoiceIsFull(sc1: Scope, sc2: Scope, store: Store, c2: Choice)
    requires Widens(sc1, sc2) && FullChoice(sc2, store, c2)
    ensures FullChoice(sc1, store, FirstChoice(sc1, store, c2))
  {
    var c1 := FirstChoice(sc1, store, c2);
    WiderEligible(sc1, sc2);
    forall b | b in c1
      ensures c1[b] in store && Eligible(sc1, store[c1[b]]) && BucketOf(sc1, store[c1[b]]) == b
      ensures forall id | id in store && Eligible(sc1, store[id]) && BucketOf(sc1, store[id]) == b ::
                store[id].createdAt <= store[c1[b]].createdAt
    {
      if b in c2 { ChosenIs(sc2, store, c2, b); }
    }
  }

  lemma SecondChoiceStays(sc1: Scope, sc2: Scope, store: Store, c2: Choice)
    requires Widens(sc1, sc2) && WellKeyed(store) && FullChoice(sc2, store, c2)
    ensures FullChoice(sc2, Applied(sc1, store, FirstChoice(sc1, store, c2)), c2)
  {
    var c1 := FirstChoice(sc1, store, c2);
    var mid := Applied(sc1, store, c1);
    FirstChoiceIsFull(sc1, sc2, store, c2);
    AppliedMeans(sc1, store, c1);
    WiderEligible(sc1, sc2);
    FlagIgnored(sc2);
    forall b | b in c2
      ensures c2[b] in mid && Eligible(sc2, mid[c2[b]]) && BucketOf(sc2, mid[c2[b]]) == b && c2[b] in EligibleIDs(sc2, mid)
    {
      ChosenIs(sc2, store, c2, b);
      PickedOrYoung(sc1, sc2, store, c2, b);
    }
    SmallerStore(sc2, store, mid, c2);
  }

  lemma PickedOrYoung(sc1: Scope, sc2: Scope, store: Store, c2: Choice, b: Bucket)
    requires Widens(sc1, sc2) && WellKeyed(store) && FullChoice(sc2, store, c2) && b in c2
    ensures c2[b] in store && c2[b] in Applied(sc1, store, FirstChoice(sc1, store, c2))
  {
    ChosenIs(sc2, store, c2, b);
    WiderEligible(sc1, sc2);
    var id := c2[b];
    if Eligible(sc1, store[id]) {
      assert id in EligibleIDs(sc1, store) && BucketOf(sc1, store[id]) == b;
    }
  }

  /** A choice that a smaller store still holds is a choice for it. */
  lemma SmallerStore(sc: Scope, store: Store, mid: Store, choice: Choice)
    requires FullChoice(sc, store, choice) && mid.Keys <= store.Keys
    requires forall id | id in mid :: mid[id].(isDownsampleRetained := store[id].isDownsampleRetained) == store[id]
    requires forall b | b in choice ::
      choice[b] in mid && Eligible(sc, mid[choice[b]]) && BucketOf(sc, mid[choice[b]]) == b && choice[b] in EligibleIDs(sc, mid)
    ensures FullChoice(sc, mid, choice)
  {
    forall id | id in mid ensures Eligible(sc, mid[id]) == Eligible(sc, store[id]) && BucketOf(sc, mid[id]) == BucketOf(sc, store[id])
                          ensures mid[id].createdAt == store[id].createdAt {
    }
    hide Eligible, BucketOf;
    forall b | b in Buckets(sc, mid) ensures b in Buckets(sc, store) {
      var id :| id in EligibleIDs(sc, mid) && BucketOf(sc, mid[id]) == b;
      assert id in EligibleIDs(sc, store);
    }
  }

  /** So one run at the later cutoff and two runs up to it have the same possible outcomes, ties or not. */
  lemma DownsamplingSplits(sc1: Scope, sc2: Scope, store: Store, after: Store)
    requires Widens(sc1, sc2) && WellKeyed(store)
    ensures Downsampled(sc2, store, after) <==> exists mid :: Downsampled(sc1, store, mid) && Downsampled(sc2, mid, after)
  {
    hide Applied, FullChoice, Widens, WellKeyed, FirstChoice, Downsampled;
    if Downsampled(sc2, store, after) {
      var c2 := ChoiceOf(sc2, store, after);
      var c1 := FirstChoice(sc1, store, c2);
      var mid := Applied(sc1, store, c1);
      FirstChoiceIsFull(sc1, sc2, store, c2);
      SecondChoiceStays(sc1, sc2, store, c2);
      TwiceIsOnce(sc1, sc2, store, c1, c2);
      OutcomeOf(sc1, store, c1);
      OutcomeOf(sc2, mid, c2);
    }
    forall mid | Downsampled(sc1, store, mid) && Downsampled(sc2, mid, after) ensures Downsampled(sc2, store, after) {
      DownsamplingComposes(sc1, sc2, store, mid, after);
    }
  }

  lemma ChoiceOf(sc: Scope, store: Store, after: Store) returns (choice: Choice)
    requires Downsampled(sc, store, after)
    ensures FullChoice(sc, store, choice) && after == Applied(sc, store, choice)
  {
    hide FullChoice, Applied;
    choice :| FullChoice(sc, store, choice) && after == Applied(sc, store, choice);
  }

  // ----- Tenants --------------------------------------------------------------------------------------

  /** Some snapshot of the same tenant, host and week as this one is kept. */
  ghost predicate TenantKept(sc: Scope, store: Store, after: Store, id: Bytes)
    requires id in store
  {
    exists kept :: kept in store && kept in after && Eligible(sc, store[kept]) && BucketOf(sc, store[kept]) == BucketOf(sc, store[id])
                   && store[kept].tenantID == store[id].tenantID
  }

  /** No two tenants have old snapshots of one host ID in the same week. */
  ghost predicate TenantsApart(sc: Scope, store: Store) {
    forall id, other | id in EligibleIDs(sc, store) && other in EligibleIDs(sc, store)
                       && BucketOf(sc, store[id]) == BucketOf(sc, store[other]) :: store[id].tenantID == store[other].tenantID
  }

  /** Every tenant keeps a snapshot of each of its old host-weeks exactly when no two tenants share one. */
  lemma EveryTenantKeepsIff(sc: Scope, store: Store, after: Store)
    requires WellKeyed(store) && Downsampled(sc, store, after)
    ensures (forall id | id in EligibleIDs(sc, store) :: TenantKept(sc, store, after, id)) <==> TenantsApart(sc, store)
    ensures sc.tenantID != "" ==> TenantsApart(sc, store)
  {
    OneTenantIsApart(sc, store);
    var choice := ChoiceOf(sc, store, after);
    AppliedMeans(sc, store, choice);
    EligibleIs(sc, store);
    hide Eligible, BucketOf, Applied, EligibleIDs, Downsampled;
    if TenantsApart(sc, store) {
      forall id | id in EligibleIDs(sc, store) ensures TenantKept(sc, store, after, id) {
        ChosenIs(sc, store, choice, BucketOf(sc, store[id]));
        assert choice[BucketOf(sc, store[id])] in after;
      }
    }
  }

  lemma EligibleIs(sc: Scope, store: Store)
    ensures forall id :: id in EligibleIDs(sc, store) <==> id in store && Eligible(sc, store[id])
  {
  }

  lemma OneTenantIsApart(sc: Scope, store: Store)
    ensures sc.tenantID != "" ==> TenantsApart(sc, store)
  {
  }

  /** So nightly runs with distinct times leave exactly what one run at the last cutoff would leave. */
  lemma NightlyRunsAgree(sc1: Scope, sc2: Scope, store: Store, mid: Store, after: Store, once: Store)
    requires Widens(sc1, sc2) && WellKeyed(store) && DistinctTimes(sc2, store)
    requires Downsampled(sc1, store, mid) && Downsampled(sc2, mid, after) && Downsampled(sc2, store, once)
    ensures after == once
  {
    DownsamplingComposes(sc1, sc2, store, mid, after);
    DownsampledUnique(sc2, store, after, once);
  }

  lemma IdempotentAt(sc: Scope, store: Store, c1: Choice, c2: Choice, id: Bytes)
    requires WellKeyed(store) && FullChoice(sc, store, c1) && FullChoice(sc, Applied(sc, store, c1), c2)
    requires id in Applied(sc, store, c1)
    ensures var after := Applied(sc, store, c1);
            var again := Applied(sc, after, c2);
            again.Keys <= after.Keys && id in again && again[id] == after[id]
  {
    var after := Applied(sc, store, c1);
    var b := BucketOf(sc, after[id]);
    AppliedMeans(sc, store, c1);
    AppliedMeans(sc, after, c2);
    if Eligible(sc, after[id]) { ChosenIs(sc, after, c2, b); }
    hide BucketOf, Applied, FullChoice, WellKeyed, LatestOfBucket, Eligible;
    if Eligible(sc, after[id]) {
      var kept := c2[b];
      assert kept in after && kept in store && Eligible(sc, store[kept]);
      assert c1[BucketOf(sc, store[kept])] == kept && c1[BucketOf(sc, store[id])] == id;
    }
  }

  /** A second run at the same cutoff changes nothing, distinct times or not. */
  lemma DownsamplingIdempotent(sc: Scope, store: Store, after: Store, again: Store)
    requires WellKeyed(store) && Downsampled(sc, store, after) && Downsampled(sc, after, again)
    ensures again == after
  {
    hide Applied, FullChoice, WellKeyed;
    var c1: Choice :| FullChoice(sc, store, c1) && after == Applied(sc, store, c1);
    var c2: Choice :| FullChoice(sc, after, c2) && again == Applied(sc, after, c2);
    forall id | id in after ensures id in again && again[id] == after[id] {
      IdempotentAt(sc, store, c1, c2, id);
    }
    ShrinksTo(sc, after, c2);
  }

  lemma ShrinksTo(sc: Scope, store: Store, choice: Choice)
    ensures Applied(sc, store, choice).Keys <= store.Keys
  {
  }
}
