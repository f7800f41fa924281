/** Host snapshots and the order in which they are listed. */
module Snapshots {
  import opened Prelude
  import opened KeysetCursor

  datatype Archive = Archive(location: string, checksum: string, strategy: string, at: Nanos)

  datatype Snapshot = Snapshot(
    id: Bytes,
    tenantID: string,
    hostID: string,
    createdAt: Nanos,
    payload: string,
    payloadSizeBytes: int,
    isArchived: bool,
    archive: Option<Archive>,
    isDownsampleRetained: bool)

  type Store = map<Bytes, Snapshot>

  /** Snapshots are stored under their own ID. */
  ghost predicate WellKeyed(store: Store) {
    forall id | id in store :: store[id].id == id
  }

  /** An empty tenant or host in the request selects all of them. */
  predicate Selected(s: Snapshot, tenantID: string, hostID: string) {
    (tenantID == "" || s.tenantID == tenantID) && (hostID == "" || s.hostID == hostID)
  }

  // ----- The listing order: newest first, then by descending ID ----------------------------

  /** Byte-wise string order. */
  predicate Less(a: Bytes, b: Bytes) {
    b != [] && (a == [] || a[0] < b[0] || (a[0] == b[0] && Less(a[1..], b[1..])))
  }

  lemma {:induction false} LessTotal(a: Bytes, b: Bytes)
    ensures a == b || Less(a, b) || Less(b, a)
    ensures Less(a, b) ==> a != b && !Less(b, a)
  {
    if a != [] && b != [] {
      LessTotal(a[1..], b[1..]);
      assert a == [a[0]] + a[1..] && b == [b[0]] + b[1..];
    }
  }

  lemma {:induction false} LessTransitive(a: Bytes, b: Bytes, c: Bytes)
    requires Less(a, b) && Less(b, c)
    ensures Less(a, c)
  {
    if a != [] && a[0] == b[0] && b[0] == c[0] {
      LessTransitive(a[1..], b[1..], c[1..]);
    }
  }

  function KeyOf(s: Snapshot): Cursor {
    Cursor(s.createdAt, s.id)
  }

  predicate Above(x: Cursor, y: Cursor) {
    x.createdAt > y.createdAt || (x.createdAt == y.createdAt && Less(y.id, x.id))
  }

  lemma AboveTotal(x: Cursor, y: Cursor)
    ensures x == y || Above(x, y) || Above(y, x)
    ensures Above(x, y) ==> x != y && !Above(y, x)
  {
    LessTotal(x.id, y.id);
  }

  lemma AboveTransitive(x: Cursor, y: Cursor, z: Cursor)
    requires Above(x, y) && Above(y, z)
    ensures Above(x, z)
  {
    if x.createdAt == z.createdAt {
      LessTransitive(z.id, y.id, x.id);
    }
  }

  ghost predicate Descending(all: seq<Snapshot>) {
    forall i, j | 0 <= i < j < |all| :: Above(KeyOf(all[i]), KeyOf(all[j]))
  }

  /** The selected snapshots of the store, each once, in listing order. */
  ghost predicate IsListing(all: seq<Snapshot>, store: Store, tenantID: string, hostID: string) {
    && Descending(all)
    && (forall s | s in all :: s.id in store && store[s.id] == s && Selected(s, tenantID, hostID))
    && (forall id | id in store && Selected(store[id], tenantID, hostID) :: store[id] in all)
  }

  lemma {:induction false} DescendingUnique(xs: seq<Snapshot>, ys: seq<Snapshot>)
    requires Descending(xs) && Descending(ys)
    requires forall s :: s in xs <==> s in ys
    ensures xs == ys
    decreases |xs|
  {
    hide Above;
    if xs == [] {
      assert forall i | 0 <= i < |ys| :: ys[i] in ys;
    } else {
      assert xs[0] in ys;
      assert xs[0] in xs && ys[0] in ys;
      if xs[0] != ys[0] {
        var i :| 0 <= i < |ys| && ys[i] == xs[0];
        var j :| 0 <= j < |xs| && xs[j] == ys[0];
        AboveTotal(KeyOf(xs[0]), KeyOf(ys[0]));
        assert false;
      }
      var x := xs[0];
      forall s ensures s in xs[1..] <==> s in ys[1..] {
        AboveTotal(KeyOf(x), KeyOf(s));
        TailMembers(xs, s);
        TailMembers(ys, s);
      }
      DescendingUnique(xs[1..], ys[1..]);
      assert xs == [x] + xs[1..] && ys == [x] + ys[1..];
    }
  }

  lemma TailMembers(xs: seq<Snapshot>, s: Snapshot)
    requires Descending(xs) && xs != []
    ensures s in xs[1..] <==> s in xs && s != xs[0]
  {
    AboveTotal(KeyOf(xs[0]), KeyOf(xs[0]));
    assert xs == [xs[0]] + xs[1..];
    if s in xs[1..] {
      var i :| 0 <= i < |xs[1..]| && xs[1..][i] == s;
      assert Above(KeyOf(xs[0]), KeyOf(xs[i + 1]));
    }
  }

  /** A store has one listing, whatever order its map was walked in. */
  lemma ListingUnique(xs: seq<Snapshot>, ys: seq<Snapshot>, store: Store, tenantID: string, hostID: string)
    requires IsListing(xs, store, tenantID, hostID) && IsListing(ys, store, tenantID, hostID)
    ensures xs == ys
  {
    DescendingUnique(xs, ys);
  }

  // ----- Pages ----------------------------------------------------------------------------

  datatype PageRequest = PageRequest(cursor: string, limit: int)

  datatype Page = Page(items: seq<Snapshot>, nextCursor: string, hasMore: bool, limit: int)

  function EffectiveLimit(limit: int): nat {
    if limit <= 0 then 20 else if limit > 100 then 100 else limit
  }

  /** The index of the first item below the cursor, or the length when there is none. */
  function FirstBelow(all: seq<Snapshot>, c: Cursor): (n: nat)
    ensures n <= |all| && forall i | 0 <= i < n :: !Above(c, KeyOf(all[i]))
    ensures n < |all| ==> Above(c, KeyOf(all[n]))
  {
    if all == [] || Above(c, KeyOf(all[0])) then 0 else 1 + FirstBelow(all[1..], c)
  }

  /** A cursor that does not decode, or has nothing below it, starts over at the top. */
  function StartIndex(all: seq<Snapshot>, cursor: string): (n: nat)
    ensures n <= |all|
  {
    match DecodeCursor(cursor)
    case Ok(Some(c)) => var n := FirstBelow(all, c); if n < |all| then n else 0
    case _ => 0
  }

  lemma NoCursorDecodes()
    ensures DecodeCursor("") == Ok(None)
  {
  }

  function PageOf(all: seq<Snapshot>, req: PageRequest): Page {
    var start, limit := StartIndex(all, req.cursor), EffectiveLimit(req.limit);
    if start + limit < |all| then
      var last := all[start + limit - 1];
      Page(all[start..start + limit], EncodeCursor(last.createdAt, last.id), true, limit)
    else Page(all[start..], "", false, limit)
  }

  /** The answer to a page request on a store. */
  ghost predicate Answers(page: Page, store: Store, tenantID: string, hostID: string, req: PageRequest) {
    exists all :: IsListing(all, store, tenantID, hostID) && page == PageOf(all, req)
  }

  // ----- The same in the snapshots' own fields ------------------------------------------------

  /** One string is below another when it is a proper prefix of it or has the smaller byte where they first differ. */
  lemma {:induction false} LessMeans(a: Bytes, b: Bytes)
    ensures Less(a, b) <==> exists k :: SplitsAt(a, b, k)
  {
    if Less(a, b) {
      if a != [] && a[0] == b[0] {
        LessMeans(a[1..], b[1..]);
        var k :| SplitsAt(a[1..], b[1..], k);
        assert a == [a[0]] + a[1..] && b == [b[0]] + b[1..];
        assert a[..k + 1] == [a[0]] + a[1..][..k] && b[..k + 1] == [b[0]] + b[1..][..k];
        assert SplitsAt(a, b, k + 1);
      } else {
        assert SplitsAt(a, b, 0);
      }
    }
    forall k | SplitsAt(a, b, k) ensures Less(a, b) {
      if k > 0 {
        assert a[..k][0] == a[0] && b[..k][0] == b[0];
        assert a[1..][..k - 1] == a[..k][1..] && b[1..][..k - 1] == b[..k][1..];
        assert SplitsAt(a[1..], b[1..], k - 1);
        LessMeans(a[1..], b[1..]);
      }
    }
  }

  /** The strings agree before position k, where the first one ends or has the smaller byte. */
  ghost predicate SplitsAt(a: Bytes, b: Bytes, k: int) {
    0 <= k <= |a| && k < |b| && a[..k] == b[..k] && (k == |a| || a[k] < b[k])
  }

  /** Newest first; snapshots of one time by descending ID. */
  ghost predicate Precedes(s: Snapshot, t: Snapshot) {
    s.createdAt > t.createdAt || (s.createdAt == t.createdAt && exists k :: SplitsAt(t.id, s.id, k))
  }

  ghost predicate InOrder(items: seq<Snapshot>) {
    forall i, j | 0 <= i < j < |items| :: Precedes(items[i], items[j])
  }

  /** Of the tenant and of the host, where one is named. */
  predicate BelongsTo(s: Snapshot, tenantID: string, hostID: string) {
    tenantID in {"", s.tenantID} && hostID in {"", s.hostID}
  }

  lemma InOrderIff(items: seq<Snapshot>)
    ensures InOrder(items) <==> Descending(items)
  {
    forall i, j | 0 <= i < j < |items| ensures Precedes(items[i], items[j]) <==> Above(KeyOf(items[i]), KeyOf(items[j])) {
      LessMeans(items[j].id, items[i].id);
    }
    hide Precedes, Above, KeyOf;
  }

  /** A listing holds exactly the stored snapshots of the tenant and the host, in order. */
  lemma ListingMeans(all: seq<Snapshot>, store: Store, tenantID: string, hostID: string)
    requires WellKeyed(store)
    ensures IsListing(all, store, tenantID, hostID) <==>
              InOrder(all) && forall s :: s in all <==> s.id in store && store[s.id] == s && BelongsTo(s, tenantID, hostID)
  {
    InOrderIff(all);
    hide InOrder, Descending;
  }

  /** What a page may hold: stored snapshots of the tenant and the host, in order, within the limit. */
  ghost predicate HoldsOnly(page: Page, store: Store, tenantID: string, hostID: string, requested: int) {
    && (forall s | s in page.items :: s.id in store && store[s.id] == s)
    && (tenantID != "" ==> forall s | s in page.items :: s.tenantID == tenantID)
    && (hostID != "" ==> forall s | s in page.items :: s.hostID == hostID)
    && InOrder(page.items)
    && page.limit == (if requested < 1 then 20 else if requested < 100 then requested else 100)
    && |page.items| <= page.limit && (page.hasMore ==> |page.items| == page.limit)
    && (!page.hasMore ==> page.nextCursor == "")
  }

  /** A first page, or one for a cursor that does not decode, leaves out only what comes after all its items, and says so. */
  ghost predicate LeavesOnlyLater(page: Page, store: Store, tenantID: string, hostID: string) {
    forall id | id in store && BelongsTo(store[id], tenantID, hostID) ::
      store[id] in page.items || (page.hasMore && forall s | s in page.items :: Precedes(s, store[id]))
  }

  lemma PageHolds(page: Page, store: Store, tenantID: string, hostID: string, req: PageRequest)
    requires WellKeyed(store) && Answers(page, store, tenantID, hostID, req)
    ensures HoldsOnly(page, store, tenantID, hostID, req.limit)
    ensures DecodeCursor(req.cursor).Err? || req.cursor == "" ==> LeavesOnlyLater(page, store, tenantID, hostID)
  {
    hide EncodeCursor, DecodeCursor, StartIndex, IsListing, InOrder, Precedes, BelongsTo, LeavesOnlyLater;
    var all: seq<Snapshot> :| IsListing(all, store, tenantID, hostID) && page == PageOf(all, req);
    ListingMeans(all, store, tenantID, hostID);
    var start := StartIndex(all, req.cursor);
    var end := if start + EffectiveLimit(req.limit) < |all| then start + EffectiveLimit(req.limit) else |all|;
    assert page.items == all[start..end];
    SliceInOrder(all, start, end);
    OnlyNamed(page.items, tenantID, hostID);
    if DecodeCursor(req.cursor).Err? || req.cursor == "" {
      TopStart(all, req.cursor);
      FirstPageLeaves(all, end, page, store, tenantID, hostID);
    }
  }

  lemma TopStart(all: seq<Snapshot>, cursor: string)
    ensures DecodeCursor(cursor).Err? || cursor == "" ==> StartIndex(all, cursor) == 0
  {
    NoCursorDecodes();
  }

  lemma SliceInOrder(all: seq<Snapshot>, start: nat, end: nat)
    requires InOrder(all) && start <= end <= |all|
    ensures InOrder(all[start..end])
  {
    hide Precedes;
  }

  lemma OnlyNamed(items: seq<Snapshot>, tenantID: string, hostID: string)
    requires forall s | s in items :: BelongsTo(s, tenantID, hostID)
    ensures tenantID != "" ==> forall s | s in items :: s.tenantID == tenantID
    ensures hostID != "" ==> forall s | s in items :: s.hostID == hostID
  {
  }

  lemma FirstPageLeaves(all: seq<Snapshot>, end: nat, page: Page, store: Store, tenantID: string, hostID: string)
    requires InOrder(all) && end <= |all| && page.items == all[..end] && (page.hasMore || end == |all|)
    requires forall s :: s in all <==> s.id in store && store[s.id] == s && BelongsTo(s, tenantID, hostID)
    requires WellKeyed(store)
    ensures LeavesOnlyLater(page, store, tenantID, hostID)
  {
    hide Precedes, BelongsTo;
    assert forall i | 0 <= i < end :: all[i] == page.items[i];
    forall id | id in store && BelongsTo(store[id], tenantID, hostID) && store[id] !in page.items
      ensures page.hasMore && forall s | s in page.items :: Precedes(s, store[id])
    {
      assert store[id] in all;
      var i :| 0 <= i < |all| && all[i] == store[id];
      forall s | s in page.items ensures Precedes(s, store[id]) {
        var k :| 0 <= k < |page.items| && page.items[k] == s;
        assert all[k] == s;
      }
    }
  }
}
