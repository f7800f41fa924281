/** Walking all pages of the snapshot listing while other requests keep adding snapshots. */
module Pagination {
  import opened Prelude
  import opened KeysetCursor
  import opened Snapshots

  /** These snapshots are in both stores, with the same time, tenant and host; they may be archived or flagged. */
  ghost predicate Keeps(ids: set<Bytes>, before: Store, after: Store) {
    forall id | id in ids ::
      && id in before && id in after
      && after[id].createdAt == before[id].createdAt
      && after[id].tenantID == before[id].tenantID
      && after[id].hostID == before[id].hostID
  }

  /** The snapshots that stay from the first fetch to the last. */
  ghost predicate Lasting(ids: set<Bytes>, stores: seq<Store>) {
    && 0 < |stores| && ids <= stores[0].Keys
    && forall i | 0 <= i < |stores| - 1 :: Keeps(ids, stores[i], stores[i + 1])
  }

  /** Between two fetches snapshots may be added, archived or flagged, but none is removed. */
  ghost predicate OnlyAdds(stores: seq<Store>) {
    forall i | 0 <= i < |stores| - 1 :: Keeps(stores[i].Keys, stores[i], stores[i + 1])
  }

  /** Pages fetched one after the other, each from its own store, by following NextCursor until HasMore is false. */
  ghost predicate Fetches(stores: seq<Store>, pages: seq<Page>, limits: seq<int>, tenantID: string, hostID: string, cursor: string)
  {
    && 0 < |pages| == |stores| == |limits|
    && (forall i | 0 <= i < |stores| :: WellKeyed(stores[i]))
    && Answers(pages[0], stores[0], tenantID, hostID, PageRequest(cursor, limits[0]))
    && (forall i | 0 <= i < |pages| - 1 ::
          && pages[i].hasMore
          && Answers(pages[i + 1], stores[i + 1], tenantID, hostID, PageRequest(pages[i].nextCursor, limits[i + 1])))
    && !pages[|pages| - 1].hasMore
  }

  /** Something selected is still below the page's last item. */
  ghost predicate MoreBelow(page: Page, store: Store, tenantID: string, hostID: string) {
    page.items != [] && exists id :: id in store && Selected(store[id], tenantID, hostID)
                                     && Above(KeyOf(page.items[|page.items| - 1]), KeyOf(store[id]))
  }

  /** A walk on which removals, if any, always leave something below the cursor. */
  ghost predicate Walk(stores: seq<Store>, pages: seq<Page>, limits: seq<int>, tenantID: string, hostID: string, cursor: string)
  {
    && Fetches(stores, pages, limits, tenantID, hostID, cursor)
    && forall i | 0 <= i < |pages| - 1 :: MoreBelow(pages[i], stores[i + 1], tenantID, hostID)
  }

  function AllItems(pages: seq<Page>): seq<Snapshot> {
    if pages == [] then [] else pages[0].items + AllItems(pages[1..])
  }

  predicate Within(bound: Option<Cursor>, s: Snapshot) {
    bound.Some? ==> Above(bound.value, KeyOf(s))
  }

  /** What pages hold, given the bound below which the listing is read (none for a fresh walk). */
  ghost predicate Covers(items: seq<Snapshot>, ids: set<Bytes>, store: Store, tenantID: string, hostID: string, bound: Option<Cursor>) {
    && Descending(items)
    && (forall s | s in items :: Within(bound, s))
    && (forall id | id in ids && id in store && Selected(store[id], tenantID, hostID)
                    && Within(bound, store[id]) ::
          exists s :: s in items && s.id == id)
  }

  /** In a descending listing everything from FirstBelow on is below the cursor. */
  lemma BelowFrom(all: seq<Snapshot>, c: Cursor, i: nat)
    requires Descending(all) && i < |all|
    ensures Above(c, KeyOf(all[i])) <==> i >= FirstBelow(all, c)
  {
    hide EncodeCursor, DecodeCursor, Less, Above;
    var n := FirstBelow(all, c);
    if i > n {
      AboveTransitive(c, KeyOf(all[n]), KeyOf(all[i]));
    }
  }

  /** What follows the cursor of an unfinished page exists, and is still there when nothing is removed. */
  lemma MoreStays(page: Page, store: Store, after: Store, tenantID: string, hostID: string, req: PageRequest)
    requires Answers(page, store, tenantID, hostID, req) && page.hasMore
    requires WellKeyed(store) && WellKeyed(after) && Keeps(store.Keys, store, after)
    ensures MoreBelow(page, after, tenantID, hostID)
  {
    hide EncodeCursor, DecodeCursor, Less, Above, StartIndex;
    var all := ListingOf(page, store, tenantID, hostID, req);
    var next := all[StartIndex(all, req.cursor) + EffectiveLimit(req.limit)];
    OpenPageShape(all, page, req);
    assert next in all;
    ListedBelow(all, StartIndex(all, req.cursor) + EffectiveLimit(req.limit));
    assert KeyOf(after[next.id]) == KeyOf(next);
    assert next.id in after && Selected(after[next.id], tenantID, hostID);
  }

  lemma ListedBelow(all: seq<Snapshot>, i: nat)
    requires Descending(all) && 0 < i < |all|
    ensures Above(KeyOf(all[i - 1]), KeyOf(all[i]))
  {
  }

  /** The bound and cursor of a page request agree, and something is below the bound. */
  ghost predicate Asks(cursor: string, bound: Option<Cursor>, store: Store, tenantID: string, hostID: string) {
    match bound
    case None => cursor == ""
    case Some(c) =>
      && cursor == EncodeCursor(c.createdAt, c.id)
      && exists id :: id in store && Selected(store[id], tenantID, hostID) && Above(c, KeyOf(store[id]))
  }

  /** A page starts with the first listed item within the bound. */
  lemma PageStart(all: seq<Snapshot>, store: Store, tenantID: string, hostID: string, cursor: string, bound: Option<Cursor>)
    requires IsListing(all, store, tenantID, hostID) && Asks(cursor, bound, store, tenantID, hostID)
    ensures bound.Some? ==> StartIndex(all, cursor) < |all|
    ensures forall i | 0 <= i < |all| :: Within(bound, all[i]) <==> i >= StartIndex(all, cursor)
  {
    hide EncodeCursor, DecodeCursor, Less, Above;
    NoCursorDecodes();
    if bound.Some? {
      var c := bound.value;
      CursorRoundTrip(c.createdAt, c.id);
      var id :| id in store && Selected(store[id], tenantID, hostID) && Above(c, KeyOf(store[id]));
      assert store[id] in all;
      var n := FirstBelow(all, c);
      assert n < |all| && StartIndex(all, cursor) == n;
      forall i | 0 <= i < |all| ensures Within(bound, all[i]) <==> i >= n {
        BelowFrom(all, c, i);
      }
    }
  }

  lemma FinalPageCovers(page: Page, ids: set<Bytes>, store: Store, tenantID: string, hostID: string, req: PageRequest, bound: Option<Cursor>)
    requires Answers(page, store, tenantID, hostID, req) && !page.hasMore
    requires WellKeyed(store) && Asks(req.cursor, bound, store, tenantID, hostID)
    ensures Covers(page.items, ids, store, tenantID, hostID, bound)
  {
    hide EncodeCursor, DecodeCursor, Less, Above, Covers;
    var all: seq<Snapshot> :| IsListing(all, store, tenantID, hostID) && page == PageOf(all, req);
    PageStart(all, store, tenantID, hostID, req.cursor, bound);
    LastPageCovers(all, ids, store, tenantID, hostID, StartIndex(all, req.cursor), bound);
  }

  lemma OpenPageCovers(page: Page, ids: set<Bytes>, store: Store, after: Store, tenantID: string, hostID: string, req: PageRequest,
                       bound: Option<Cursor>) returns (c: Cursor)
    requires Answers(page, store, tenantID, hostID, req) && page.hasMore && MoreBelow(page, after, tenantID, hostID)
    requires WellKeyed(store) && WellKeyed(after) && Keeps(ids, store, after)
    requires Asks(req.cursor, bound, store, tenantID, hostID)
    ensures Asks(page.nextCursor, Some(c), after, tenantID, hostID)
    ensures forall rest | Covers(rest, ids, after, tenantID, hostID, Some(c)) ::
              Covers(page.items + rest, ids, store, tenantID, hostID, bound)
  {
    hide *;
    var all := ListingOf(page, store, tenantID, hostID, req);
    var start := StartIndex(all, req.cursor);
    var end := start + EffectiveLimit(req.limit);
    PageStart(all, store, tenantID, hostID, req.cursor, bound);
    OpenPageShape(all, page, req);
    c := KeyOf(all[end - 1]);
    AsksNext(page, c, after, tenantID, hostID);
    forall rest | Covers(rest, ids, after, tenantID, hostID, Some(c))
      ensures Covers(page.items + rest, ids, store, tenantID, hostID, bound)
    {
      JoinCovers(all, ids, store, after, tenantID, hostID, start, end, bound, rest);
    }
  }

  lemma ListingOf(page: Page, store: Store, tenantID: string, hostID: string, req: PageRequest)
    returns (all: seq<Snapshot>)
    requires Answers(page, store, tenantID, hostID, req)
    ensures IsListing(all, store, tenantID, hostID) && page == PageOf(all, req)
  {
    all :| IsListing(all, store, tenantID, hostID) && page == PageOf(all, req);
  }

  lemma OpenPageShape(all: seq<Snapshot>, page: Page, req: PageRequest)
    requires page == PageOf(all, req) && page.hasMore
    ensures var start, limit := StartIndex(all, req.cursor), EffectiveLimit(req.limit);
            && 0 < limit && start + limit < |all|
            && page.items == all[start..start + limit]
            && page.items[|page.items| - 1] == all[start + limit - 1]
            && page.nextCursor == EncodeCursor(KeyOf(all[start + limit - 1]).createdAt, KeyOf(all[start + limit - 1]).id)
  {
    hide EncodeCursor, StartIndex;
  }

  lemma AsksNext(page: Page, c: Cursor, after: Store, tenantID: string, hostID: string)
    requires page.nextCursor == EncodeCursor(c.createdAt, c.id)
    requires MoreBelow(page, after, tenantID, hostID) && KeyOf(page.items[|page.items| - 1]) == c
    ensures Asks(page.nextCursor, Some(c), after, tenantID, hostID)
  {
    hide EncodeCursor, Above, KeyOf;
  }

  lemma {:induction false} WalkCovers(stores: seq<Store>, pages: seq<Page>, limits: seq<int>, ids: set<Bytes>,
                                      tenantID: string, hostID: string, cursor: string, bound: Option<Cursor>)
    requires Walk(stores, pages, limits, tenantID, hostID, cursor) && Lasting(ids, stores)
    requires Asks(cursor, bound, stores[0], tenantID, hostID)
    ensures Covers(AllItems(pages), ids, stores[0], tenantID, hostID, bound)
    decreases |pages|
  {
    hide Asks, Covers, Answers, MoreBelow, Keeps;
    var req := PageRequest(cursor, limits[0]);
    if |pages| == 1 {
      FinalPageCovers(pages[0], ids, stores[0], tenantID, hostID, req, bound);
      assert AllItems(pages) == pages[0].items + AllItems([]) == pages[0].items;
    } else {
      assert pages[0].hasMore && MoreBelow(pages[0], stores[0 + 1], tenantID, hostID) && Keeps(ids, stores[0], stores[0 + 1]);
      var c := OpenPageCovers(pages[0], ids, stores[0], stores[1], tenantID, hostID, req, bound);
      WalkTail(stores, pages, limits, ids, tenantID, hostID, cursor);
      hide Walk, Lasting;
      WalkCovers(stores[1..], pages[1..], limits[1..], ids, tenantID, hostID, pages[0].nextCursor, Some(c));
    }
  }

  lemma FetchesTail(stores: seq<Store>, pages: seq<Page>, limits: seq<int>, tenantID: string, hostID: string, cursor: string)
    requires Fetches(stores, pages, limits, tenantID, hostID, cursor) && |pages| > 1
    ensures Fetches(stores[1..], pages[1..], limits[1..], tenantID, hostID, pages[0].nextCursor)
  {
    hide EncodeCursor, DecodeCursor, Less, Above, Answers;
    var s, p := stores[1..], pages[1..];
    forall i | 0 <= i < |p| - 1
      ensures p[i].hasMore
      ensures Answers(p[i + 1], s[i + 1], tenantID, hostID, PageRequest(p[i].nextCursor, limits[1..][i + 1]))
    {
      assert pages[i + 1].hasMore;
      assert Answers(pages[i + 1 + 1], stores[i + 1 + 1], tenantID, hostID,
                     PageRequest(pages[i + 1].nextCursor, limits[i + 1 + 1]));
    }
    assert Answers(pages[0 + 1], stores[0 + 1], tenantID, hostID, PageRequest(pages[0].nextCursor, limits[0 + 1]));
  }

  lemma WalkTail(stores: seq<Store>, pages: seq<Page>, limits: seq<int>, ids: set<Bytes>, tenantID: string, hostID: string, cursor: string)
    requires Walk(stores, pages, limits, tenantID, hostID, cursor) && Lasting(ids, stores) && |pages| > 1
    ensures Walk(stores[1..], pages[1..], limits[1..], tenantID, hostID, pages[0].nextCursor) && Lasting(ids, stores[1..])
  {
    FetchesTail(stores, pages, limits, tenantID, hostID, cursor);
    hide Fetches, MoreBelow;
    var s, p := stores[1..], pages[1..];
    assert |pages| == |stores| by { SameLength(stores, pages, limits, tenantID, hostID, cursor); }
    forall i | 0 <= i < |p| - 1 ensures MoreBelow(p[i], s[i + 1], tenantID, hostID) {
      assert MoreBelow(pages[i + 1], stores[i + 1 + 1], tenantID, hostID);
    }
    forall i | 0 <= i < |s| - 1 ensures Keeps(ids, s[i], s[i + 1]) {
      assert Keeps(ids, stores[i + 1], stores[i + 1 + 1]);
    }
    assert Keeps(ids, stores[0], stores[0 + 1]);
  }

  lemma SameLength(stores: seq<Store>, pages: seq<Page>, limits: seq<int>, tenantID: string, hostID: string, cursor: string)
    requires Fetches(stores, pages, limits, tenantID, hostID, cursor)
    ensures |pages| == |stores| == |limits|
  {
  }

  lemma LastPageCovers(all: seq<Snapshot>, ids: set<Bytes>, store: Store, tenantID: string, hostID: string, start: nat, bound: Option<Cursor>)
    requires IsListing(all, store, tenantID, hostID) && WellKeyed(store) && start <= |all|
    requires forall i | 0 <= i < |all| :: Within(bound, all[i]) <==> i >= start
    ensures Covers(all[start..], ids, store, tenantID, hostID, bound)
  {
    hide EncodeCursor, DecodeCursor, Less, Above;
    forall id | id in ids && id in store && Selected(store[id], tenantID, hostID)
                && Within(bound, store[id])
      ensures exists s :: s in all[start..] && s.id == id
    {
      assert store[id] in all;
      var i :| 0 <= i < |all| && all[i] == store[id];
      assert all[start..][i - start] == store[id];
    }
  }

  lemma JoinCovers(all: seq<Snapshot>, ids: set<Bytes>, store: Store, after: Store, tenantID: string, hostID: string,
                   start: nat, end: nat, bound: Option<Cursor>, rest: seq<Snapshot>)
    requires IsListing(all, store, tenantID, hostID) && WellKeyed(store) && WellKeyed(after) && Keeps(ids, store, after)
    requires start < end < |all|
    requires forall i | 0 <= i < |all| :: Within(bound, all[i]) <==> i >= start
    requires Covers(rest, ids, after, tenantID, hostID, Some(KeyOf(all[end - 1])))
    ensures Covers(all[start..end] + rest, ids, store, tenantID, hostID, bound)
  {
    hide EncodeCursor, DecodeCursor, Less, Above;
    var items, c := all[start..end] + rest, KeyOf(all[end - 1]);
    forall s | s in rest ensures forall i | start <= i < end :: Above(KeyOf(all[i]), KeyOf(s)) {
      forall i | start <= i < end ensures Above(KeyOf(all[i]), KeyOf(s)) {
        if i < end - 1 { AboveTransitive(KeyOf(all[i]), c, KeyOf(s)); }
      }
    }
    forall s | s in items ensures Within(bound, s) {
      if s in rest && bound.Some? { AboveTransitive(bound.value, KeyOf(all[start]), KeyOf(s)); }
    }
    forall id | id in ids && id in store && Selected(store[id], tenantID, hostID)
                && Within(bound, store[id])
      ensures exists s :: s in items && s.id == id
    {
      assert store[id] in all;
      var i :| 0 <= i < |all| && all[i] == store[id];
      if i < end {
        assert items[i - start] == store[id];
      } else {
        assert KeyOf(after[id]) == KeyOf(store[id]);
        var s :| s in rest && s.id == id;
        assert s in items;
      }
    }
  }

  /** Every item returned is a selected snapshot of the store that its page was fetched from. */
  ghost predicate FromStores(items: seq<Snapshot>, stores: seq<Store>, tenantID: string, hostID: string) {
    forall s | s in items :: exists i :: 0 <= i < |stores| && s.id in stores[i] && stores[i][s.id] == s && Selected(s, tenantID, hostID)
  }

  lemma {:induction false} ItemsAreFromStores(stores: seq<Store>, pages: seq<Page>, limits: seq<int>,
                                              tenantID: string, hostID: string, cursor: string)
    requires Fetches(stores, pages, limits, tenantID, hostID, cursor)
    ensures FromStores(AllItems(pages), stores, tenantID, hostID)
    decreases |pages|
  {
    hide EncodeCursor, DecodeCursor, Less, Above;
    var all := ListingOf(pages[0], stores[0], tenantID, hostID, PageRequest(cursor, limits[0]));
    forall s | s in AllItems(pages)
      ensures exists i :: 0 <= i < |stores| && s.id in stores[i] && stores[i][s.id] == s && Selected(s, tenantID, hostID)
    {
      if s in pages[0].items {
        assert s in all;
      } else {
        assert s in AllItems(pages[1..]);
        assert AllItems([]) == [] && pages[1..] != [];
        FetchesTail(stores, pages, limits, tenantID, hostID, cursor);
        ItemsAreFromStores(stores[1..], pages[1..], limits[1..], tenantID, hostID, pages[0].nextCursor);
        var i :| 0 <= i < |stores[1..]| && s.id in stores[1..][i] && stores[1..][i][s.id] == s && Selected(s, tenantID, hostID);
        assert stores[i + 1][s.id] == s;
      }
    }
  }

  /** A lasting snapshot has the same key in every store. */
  lemma {:induction false} LastingKey(ids: set<Bytes>, stores: seq<Store>, i: nat, id: Bytes)
    requires Lasting(ids, stores) && i < |stores| && id in ids
    ensures id in stores[i] && stores[i][id].createdAt == stores[0][id].createdAt
    ensures stores[i][id].tenantID == stores[0][id].tenantID && stores[i][id].hostID == stores[0][id].hostID
  {
    if i > 0 {
      LastingKey(ids, stores, i - 1, id);
      assert Keeps(ids, stores[i - 1], stores[i - 1 + 1]);
    }
  }

  /**
    Following NextCursor from the first page on returns selected snapshots only, in strictly descending
    order, and every one that stays to the end exactly once, whatever is added in between, and whatever is
    removed as long as something is left below each cursor.
    */
  lemma WalkReturnsLasting(stores: seq<Store>, pages: seq<Page>, limits: seq<int>, ids: set<Bytes>, tenantID: string, hostID: string)
    requires Walk(stores, pages, limits, tenantID, hostID, "") && Lasting(ids, stores)
    ensures Descending(AllItems(pages)) && FromStores(AllItems(pages), stores, tenantID, hostID)
    ensures forall id | id in ids && Selected(stores[0][id], tenantID, hostID) ::
              exists i :: 0 <= i < |AllItems(pages)| && AllItems(pages)[i].id == id
    ensures forall i, j | 0 <= i < j < |AllItems(pages)| && AllItems(pages)[i].id in ids :: AllItems(pages)[i].id != AllItems(pages)[j].id
  {
    hide EncodeCursor, DecodeCursor, Less, Above, Fetches, MoreBelow;
    var items := AllItems(pages);
    WalkCovers(stores, pages, limits, ids, tenantID, hostID, "", None);
    ItemsAreFromStores(stores, pages, limits, tenantID, hostID, "");
    forall id | id in ids && Selected(stores[0][id], tenantID, hostID)
      ensures exists i :: 0 <= i < |items| && items[i].id == id
    {
      var s :| s in items && s.id == id;
    }
    forall i | 0 <= i < |items| && items[i].id in ids ensures items[i].createdAt == stores[0][items[i].id].createdAt {
      ItemKeepsTime(items, stores, ids, tenantID, hostID, items[i]);
    }
    forall i, j | 0 <= i < j < |items| && items[i].id in ids ensures items[i].id != items[j].id {
      AboveTotal(KeyOf(items[i]), KeyOf(items[j]));
    }
  }

  lemma ItemKeepsTime(items: seq<Snapshot>, stores: seq<Store>, ids: set<Bytes>, tenantID: string, hostID: string, s: Snapshot)
    requires FromStores(items, stores, tenantID, hostID) && Lasting(ids, stores) && s in items && s.id in ids
    ensures s.createdAt == stores[0][s.id].createdAt
  {
    hide Lasting;
    var i :| 0 <= i < |stores| && s.id in stores[i] && stores[i][s.id] == s && Selected(s, tenantID, hostID);
    LastingKey(ids, stores, i, s.id);
  }

  /** When nothing is removed, everything from the start stays, and something is always left below the cursor. */
  lemma AddingWalks(stores: seq<Store>, pages: seq<Page>, limits: seq<int>, tenantID: string, hostID: string, cursor: string)
    requires Fetches(stores, pages, limits, tenantID, hostID, cursor) && OnlyAdds(stores)
    ensures Walk(stores, pages, limits, tenantID, hostID, cursor) && Lasting(stores[0].Keys, stores)
  {
    hide Keeps, MoreBelow, Answers, WellKeyed;
    forall i | 0 <= i < |pages| - 1 ensures MoreBelow(pages[i], stores[i + 1], tenantID, hostID) {
      assert Keeps(stores[i].Keys, stores[i], stores[i + 1]);
      if i == 0 {
        MoreStays(pages[0], stores[0], stores[1], tenantID, hostID, PageRequest(cursor, limits[0]));
      } else {
        assert Answers(pages[i - 1 + 1], stores[i - 1 + 1], tenantID, hostID, PageRequest(pages[i - 1].nextCursor, limits[i - 1 + 1]));
        MoreStays(pages[i], stores[i], stores[i + 1], tenantID, hostID, PageRequest(pages[i - 1].nextCursor, limits[i]));
      }
    }
    forall i | 0 <= i < |stores| - 1 ensures Keeps(stores[0].Keys, stores[i], stores[i + 1]) {
      FirstStays(stores, i);
    }
  }

  lemma {:induction false} FirstStays(stores: seq<Store>, i: nat)
    requires OnlyAdds(stores) && i < |stores| - 1
    ensures stores[0].Keys <= stores[i].Keys && Keeps(stores[0].Keys, stores[i], stores[i + 1])
  {
    if i > 0 {
      FirstStays(stores, i - 1);
    }
    assert Keeps(stores[i].Keys, stores[i], stores[i + 1]);
  }

  /** In particular, when snapshots are only added, every one present at the start is returned exactly once. */
  lemma WalkReturnsEachOnce(stores: seq<Store>, pages: seq<Page>, limits: seq<int>, tenantID: string, hostID: string)
    requires Fetches(stores, pages, limits, tenantID, hostID, "") && OnlyAdds(stores)
    ensures Descending(AllItems(pages)) && FromStores(AllItems(pages), stores, tenantID, hostID)
    ensures forall id | id in stores[0] && Selected(stores[0][id], tenantID, hostID) ::
              exists i :: 0 <= i < |AllItems(pages)| && AllItems(pages)[i].id == id
    ensures forall i, j | 0 <= i < j < |AllItems(pages)| && AllItems(pages)[i].id in stores[0] ::
              AllItems(pages)[i].id != AllItems(pages)[j].id
  {
    AddingWalks(stores, pages, limits, tenantID, hostID, "");
    hide Fetches, OnlyAdds, Walk, Lasting, Descending, FromStores, Selected;
    WalkReturnsLasting(stores, pages, limits, stores[0].Keys, tenantID, hostID);
  }

  /**
    Without that condition the walk can go wrong: a page continues below its cursor exactly when the
    store still has something below it, and otherwise it starts over with the first item.
    */
  lemma PageContinuesIff(page: Page, store: Store, tenantID: string, hostID: string, c: Cursor, limit: int)
    requires Answers(page, store, tenantID, hostID, PageRequest(EncodeCursor(c.createdAt, c.id), limit))
    requires WellKeyed(store) && exists id :: id in store && Selected(store[id], tenantID, hostID)
    ensures page.items != []
    ensures (forall s | s in page.items :: Above(c, KeyOf(s)))
            <==> exists id :: id in store && Selected(store[id], tenantID, hostID) && Above(c, KeyOf(store[id]))
    ensures (forall id | id in store && Selected(store[id], tenantID, hostID) :: !Above(c, KeyOf(store[id])))
            ==> forall all: seq<Snapshot> | IsListing(all, store, tenantID, hostID) :: page.items[0] == all[0]
  {
    hide EncodeCursor, DecodeCursor, Above, StartIndex, EffectiveLimit, IsListing;
    var req := PageRequest(EncodeCursor(c.createdAt, c.id), limit);
    var all := ListingOf(page, store, tenantID, hostID, req);
    StartInListing(all, page, store, tenantID, hostID, req);
    if exists id :: id in store && Selected(store[id], tenantID, hostID) && Above(c, KeyOf(store[id])) {
      PageStart(all, store, tenantID, hostID, req.cursor, Some(c));
      forall s | s in page.items ensures Above(c, KeyOf(s)) {
        var i :| StartIndex(all, req.cursor) <= i < |all| && all[i] == s;
        assert Within(Some(c), all[i]);
      }
    } else {
      ListedAreSelected(all, store, tenantID, hostID);
      NothingBelow(all, c);
      forall other: seq<Snapshot> | IsListing(other, store, tenantID, hostID) ensures other != [] && page.items[0] == other[0] {
        ListingUnique(all, other, store, tenantID, hostID);
      }
    }
  }

  lemma ListedAreSelected(all: seq<Snapshot>, store: Store, tenantID: string, hostID: string)
    requires IsListing(all, store, tenantID, hostID)
    ensures forall s | s in all :: s.id in store && store[s.id] == s && Selected(s, tenantID, hostID)
  {
    hide Descending, Selected;
  }

  /** When something is selected the page holds the item at the start index and only items from there on. */
  lemma StartInListing(all: seq<Snapshot>, page: Page, store: Store, tenantID: string, hostID: string, req: PageRequest)
    requires IsListing(all, store, tenantID, hostID) && page == PageOf(all, req)
    requires exists id :: id in store && Selected(store[id], tenantID, hostID)
    ensures StartIndex(all, req.cursor) < |all|
    ensures page.items != [] && page.items[0] == all[StartIndex(all, req.cursor)] && page.items[0] in page.items && page.items[0] in all
    ensures forall s | s in page.items :: exists i :: StartIndex(all, req.cursor) <= i < |all| && all[i] == s
  {
    hide EncodeCursor, DecodeCursor, Descending, StartIndex, EffectiveLimit, Selected;
    var some :| some in store && Selected(store[some], tenantID, hostID);
    assert store[some] in all;
    StartInRange(all, req);
    forall s | s in page.items ensures exists i :: StartIndex(all, req.cursor) <= i < |all| && all[i] == s {
      assert s in all[StartIndex(all, req.cursor)..];
    }
  }

  lemma StartInRange(all: seq<Snapshot>, req: PageRequest)
    requires all != []
    ensures StartIndex(all, req.cursor) < |all| && EffectiveLimit(req.limit) > 0
  {
    hide DecodeCursor, Above;
  }

  lemma NothingBelow(all: seq<Snapshot>, c: Cursor)
    requires forall s | s in all :: !Above(c, KeyOf(s))
    ensures StartIndex(all, EncodeCursor(c.createdAt, c.id)) == 0
  {
    CursorRoundTrip(c.createdAt, c.id);
    hide DecodeCursor, EncodeCursor, Above;
    assert forall i | 0 <= i < |all| :: all[i] in all;
  }

  // ----- Walks in the snapshots' own fields ----------------------------------------------------

  /** Somewhere in the list, and nowhere else, there is an item with this ID. */
  ghost predicate OnceIn(items: seq<Snapshot>, id: Bytes) {
    (exists s :: s in items && s.id == id)
    && forall i, j | 0 <= i < j < |items| && items[i].id == id :: items[j].id != id
  }

  /**
    A walk for a tenant and a host, while snapshots are only added, returns every snapshot of theirs that was
    stored at its start exactly once, and never one of another tenant or host. An empty name stands for all.
    */
  lemma WalkMeans(stores: seq<Store>, pages: seq<Page>, limits: seq<int>, tenantID: string, hostID: string)
    requires Fetches(stores, pages, limits, tenantID, hostID, "") && OnlyAdds(stores)
    ensures forall id | id in stores[0] && tenantID in {"", stores[0][id].tenantID} && hostID in {"", stores[0][id].hostID} ::
              OnceIn(AllItems(pages), id)
    ensures tenantID != "" ==> forall s | s in AllItems(pages) :: s.tenantID == tenantID
    ensures hostID != "" ==> forall s | s in AllItems(pages) :: s.hostID == hostID
    ensures InOrder(AllItems(pages))
  {
    WalkReturnsEachOnce(stores, pages, limits, tenantID, hostID);
    InOrderIff(AllItems(pages));
    hide InOrder, Descending, Fetches, OnlyAdds;
    forall s | s in AllItems(pages) ensures Selected(s, tenantID, hostID) {
      var i :| 0 <= i < |stores| && s.id in stores[i] && stores[i][s.id] == s && Selected(s, tenantID, hostID);
    }
  }

  /** A walk over a store that stays as it is returns exactly the snapshots of the tenant and the host, each once, in order. */
  lemma QuietWalkIsListing(store: Store, stores: seq<Store>, pages: seq<Page>, limits: seq<int>, tenantID: string, hostID: string)
    requires Fetches(stores, pages, limits, tenantID, hostID, "") && forall i | 0 <= i < |stores| :: stores[i] == store
    ensures forall s :: s in AllItems(pages) <==>
              s.id in store && store[s.id] == s && tenantID in {"", s.tenantID} && hostID in {"", s.hostID}
    ensures InOrder(AllItems(pages)) && forall s | s in AllItems(pages) :: OnceIn(AllItems(pages), s.id)
  {
    WalkMeans(stores, pages, limits, tenantID, hostID);
    ItemsAreFromStores(stores, pages, limits, tenantID, hostID, "");
    hide InOrder, Fetches;
    forall s | s in AllItems(pages)
      ensures s.id in store && store[s.id] == s && tenantID in {"", s.tenantID} && hostID in {"", s.hostID}
    {
      var i :| 0 <= i < |stores| && s.id in stores[i] && stores[i][s.id] == s && Selected(s, tenantID, hostID);
    }
    forall id | id in store && tenantID in {"", store[id].tenantID} && hostID in {"", store[id].hostID}
      ensures store[id] in AllItems(pages)
    {
      assert OnceIn(AllItems(pages), id);
      var t :| t in AllItems(pages) && t.id == id;
    }
  }
}
