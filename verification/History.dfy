/** History pages (pkg/attention-store-impl.go:1123-1223). */
module History {
  import opened Calendar
  import opened Items
  import opened Lex
  import opened Keys
  import opened Derived
  import opened Indexes
  import opened Prefilter

  /** A row a page may show: it passes the filter and is not an expired open row. */
  predicate Visible(m: Matcher, item: Item, now: Instant) {
    Matches(m, item) && !(item.state == Open && IsExpired(item, now))
  }

  /** What the reverse cursor delivers, filtered. */
  function Walk(ix: Index, keys: seq<string>, m: Matcher, now: Instant): seq<Item>
    requires forall k :: k in keys ==> k in ix
  {
    if keys == [] then []
    else
      var key, older := keys[|keys| - 1], Walk(ix, keys[..|keys| - 1], m, now);
      if key != MARKER && Visible(m, ix[key], now) then [ix[key]] + older else older
  }

  /** limit <= 0 is unbounded. */
  function Slice(rows: seq<Item>, limit: int, offset: nat): seq<Item> {
    var from := if offset < |rows| then offset else |rows|;
    if limit <= 0 || |rows| - from <= limit then rows[from..] else rows[from..from + limit]
  }

  /** The walk's decode: raw bytes first, then the exact filter, then expiry. */
  method DecodeEntry(m: Matcher, item: Item, now: Instant, raw: string, ghost rest: string) returns (shown: bool)
    requires Needled(m) && raw == Encode(item, rest)
    ensures shown == Visible(m, item, now)
  {
    hide Encode, Needled, NeedlesFound;
    var may := MayMatch(m, raw);
    if Matches(m, item) { PrefilterSound(m, item, rest); }
    shown := may && Matches(m, item) && !(item.state == Open && IsExpired(item, now));
  }

  /** collectHistoryPage: skip offset visible rows, then collect up to limit. rest encodes the part of
      a row behind its dedup key. */
  method CollectHistoryPage(ix: Index, limit: int, offset: nat, m: Matcher, now: Instant, rest: Item -> string)
    returns (page: seq<Item>)
    requires Needled(m)
    ensures page == Slice(Walk(ix, SortedKeys(ix.Keys), m, now), limit, offset)
  {
    hide Visible, Needled, Encode, SortedKeys, Slice, Walk;
    var keys := SortedKeys(ix.Keys);
    ghost var all := Walk(ix, keys, m, now);
    ghost var dropped: seq<Item> := [];
    page := [];
    var skipped, n := 0, |keys|;
    assert keys[..n] == keys && all == [] + [] + all;
    WalkNothing(ix, m, now);
    while n > 0
      invariant 0 <= n <= |keys| && forall k :: k in keys[..n] ==> k in ix
      invariant skipped == |dropped| <= offset && (skipped < offset ==> page == [])
      invariant limit > 0 ==> |page| <= limit
      invariant all == dropped + page + Walk(ix, keys[..n], m, now)
    {
      WalkStep(ix, keys, n, m, now);
      var key := keys[n - 1];
      n := n - 1;
      ghost var older := Walk(ix, keys[..n], m, now);
      if key == MARKER { continue; }
      var item := ix[key];
      var shown := DecodeEntry(m, item, now, Encode(item, rest(item)), rest(item));
      if !shown { continue; }
      MoveOne(dropped, page, item, older);
      if skipped < offset {
        dropped := dropped + [item];
        skipped := skipped + 1;
        continue;
      }
      if limit > 0 && |page| >= limit {
        SliceIs(dropped, page, [item] + older, limit, offset);
        return page;
      }
      page := page + [item];
    }
    SliceIs(dropped, page, [], limit, offset);
  }

  lemma WalkNothing(ix: Index, m: Matcher, now: Instant)
    ensures Walk(ix, [], m, now) == []
  {
  }

  lemma WalkStep(ix: Index, keys: seq<string>, n: nat, m: Matcher, now: Instant)
    requires 0 < n <= |keys| && forall k :: k in keys[..n] ==> k in ix
    ensures keys[n - 1] in ix && forall k :: k in keys[..n - 1] ==> k in ix
    ensures var key, older := keys[n - 1], Walk(ix, keys[..n - 1], m, now);
            Walk(ix, keys[..n], m, now) ==
              if key != MARKER && Visible(m, ix[key], now) then [ix[key]] + older else older
  {
    assert keys[..n][..n - 1] == keys[..n - 1] && keys[..n][n - 1] == keys[n - 1];
    assert keys[n - 1] in keys[..n];
    assert forall k :: k in keys[..n - 1] ==> k in keys[..n];
  }

  lemma MoveOne(dropped: seq<Item>, page: seq<Item>, item: Item, older: seq<Item>)
    ensures dropped + page + ([item] + older) == dropped + (page + [item]) + older
    ensures page == [] ==> dropped + page + ([item] + older) == (dropped + [item]) + page + older
  {
  }

  lemma SliceIs(dropped: seq<Item>, page: seq<Item>, older: seq<Item>, limit: int, offset: nat)
    requires |dropped| <= offset && (|dropped| < offset ==> page == [] && older == [])
    requires limit > 0 ==> |page| <= limit
    requires older == [] || (limit > 0 && |page| == limit)
    ensures page == Slice(dropped + page + older, limit, offset)
  {
    var all := dropped + page + older;
    var from := if offset < |all| then offset else |all|;
    assert all[from..from + |page|] == page;
  }

  // ---- what a walk is, said without keys ----

  /** Later creation first; equal instants by descending id. */
  predicate Newer(a: Item, b: Item) {
    a.createdAt > b.createdAt || (a.createdAt == b.createdAt && Less(b.itemID, a.itemID))
  }

  predicate NewestFirst(rows: seq<Item>) {
    forall i, j :: 0 <= i < j < |rows| ==> Newer(rows[i], rows[j])
  }

  /** All visible rows of the bucket, newest first. */
  ghost predicate IsHistory(rows: seq<Item>, items: map<string, Item>, m: Matcher, now: Instant) {
    && NewestFirst(rows)
    && (forall x :: x in rows ==> x.itemID in items && items[x.itemID] == x && Visible(m, x, now))
    && (forall k :: k in items && Visible(m, items[k], now) ==> items[k] in rows)
  }

  lemma HistoryUnique(a: seq<Item>, b: seq<Item>)
    requires NewestFirst(a) && NewestFirst(b) && forall x :: x in a <==> x in b
    ensures a == b
  {
    forall x, y | Newer(x, y) ensures !Newer(y, x) { LessOnce(x, y); }
    SortedUnique(Newer, a, b);
  }

  lemma LessOnce(a: Item, b: Item)
    ensures !(Newer(a, b) && Newer(b, a))
  {
    if Less(a.itemID, b.itemID) { LessAsymmetric(a.itemID, b.itemID); }
    LessIrreflexive(a.itemID);
  }

  lemma {:induction false} WalkMembers(ix: Index, keys: seq<string>, m: Matcher, now: Instant)
    requires forall k :: k in keys ==> k in ix
    ensures forall x :: x in Walk(ix, keys, m, now) <==>
              exists k :: k in keys && k != MARKER && ix[k] == x && Visible(m, x, now)
  {
    hide Visible;
    if keys != [] {
      var front, key := keys[..|keys| - 1], keys[|keys| - 1];
      assert keys == front + [key] && key in keys && forall k :: k in front ==> k in keys;
      WalkMembers(ix, front, m, now);
      assert forall k :: k in keys <==> k in front || k == key;
    }
  }

  /** The index keyed by (creation time, id), walked in reverse, is newest first. */
  lemma {:induction false} WalkDescends(ix: Index, keys: seq<string>, m: Matcher, now: Instant)
    requires (forall k :: k in keys ==> k in ix) && Increasing(keys)
    requires forall k :: k in ix && k != MARKER ==>
               Encodable(ix[k].createdAt) && HistoryKey(ix[k].createdAt, ix[k].itemID) == k
    ensures NewestFirst(Walk(ix, keys, m, now))
  {
    hide HistoryKey, Visible, Encodable, Less, NewestFirst;
    if keys != [] {
      var front, key := keys[..|keys| - 1], keys[|keys| - 1];
      assert keys == front + [key] && key in keys && forall k :: k in front ==> k in keys;
      WalkDescends(ix, front, m, now);
      if key != MARKER {
        FrontIsOlder(ix, front, key, m, now);
        NewestCons(ix[key], Walk(ix, front, m, now));
      }
    } else { NewestNone(); }
  }

  lemma NewestNone()
    ensures NewestFirst([])
  {
  }

  lemma NewestCons(row: Item, older: seq<Item>)
    requires NewestFirst(older) && forall x :: x in older ==> Newer(row, x)
    ensures NewestFirst([row] + older)
  {
    hide Newer;
  }

  lemma FrontIsOlder(ix: Index, front: seq<string>, key: string, m: Matcher, now: Instant)
    requires (forall k :: k in front + [key] ==> k in ix) && Increasing(front + [key]) && key != MARKER
    requires forall k :: k in ix && k != MARKER ==>
               Encodable(ix[k].createdAt) && HistoryKey(ix[k].createdAt, ix[k].itemID) == k
    ensures key in ix && forall k :: k in front ==> k in ix
    ensures forall x :: x in Walk(ix, front, m, now) ==> Newer(ix[key], x)
  {
    hide HistoryKey, Visible, Encodable, Less, Newer, Walk;
    assert key in front + [key] && forall k :: k in front ==> k in front + [key];
    WalkMembers(ix, front, m, now);
    forall x | x in Walk(ix, front, m, now) ensures Newer(ix[key], x) {
      var k :| k in front && k != MARKER && ix[k] == x;
      var i :| 0 <= i < |front| && front[i] == k;
      assert (front + [key])[i] == k && (front + [key])[|front|] == key;
      NewerByKey(ix[k], ix[key]);
    }
  }

  lemma NewerByKey(a: Item, b: Item)
    requires Encodable(a.createdAt) && Encodable(b.createdAt)
    requires Less(HistoryKey(a.createdAt, a.itemID), HistoryKey(b.createdAt, b.itemID))
    ensures Newer(b, a)
  {
    hide HistoryKey, Encodable;
    HistoryKeyOrder(a.createdAt, a.itemID, b.createdAt, b.itemID);
  }

  /** Walking a trusted history index gives the history of the bucket. */
  lemma WalkIsHistory(db: Db, m: Matcher, now: Instant)
    requires Consistent(db) && MARKER in db.history
    ensures IsHistory(Walk(db.history, SortedKeys(db.history.Keys), m, now), db.items, m, now)
  {
    hide HistoryKey, Visible, Encodable, Consistent, SortedKeys, Walk;
    IndexedByTime(db);
    WalkDescends(db.history, SortedKeys(db.history.Keys), m, now);
    WalkMembers(db.history, SortedKeys(db.history.Keys), m, now);
  }

  /** Every page is a slice of the one newest-first history. */
  lemma PageIsSlice(db: Db, m: Matcher, now: Instant, rows: seq<Item>, limit: int, offset: nat)
    requires Consistent(db) && MARKER in db.history && IsHistory(rows, db.items, m, now)
    ensures Slice(Walk(db.history, SortedKeys(db.history.Keys), m, now), limit, offset) == Slice(rows, limit, offset)
  {
    hide Consistent, Visible, Walk;
    WalkIsHistory(db, m, now);
    HistoryUnique(Walk(db.history, SortedKeys(db.history.Keys), m, now), rows);
  }

  /** What the cursor loop answers over a store. */
  function Page(db: Db, m: Matcher, now: Instant, limit: int, offset: nat): seq<Item>
    requires MARKER in db.history
  {
    Slice(Walk(db.history, SortedKeys(db.history.Keys), m, now), limit, offset)
  }

  function StorePages(db: Db, m: Matcher, now: Instant, size: nat, count: nat): seq<Item>
    requires MARKER in db.history
  {
    if count == 0 then []
    else StorePages(db, m, now, size, count - 1) + Page(db, m, now, size, (count - 1) * size)
  }

  /** Paging an unchanged store at one instant until a page comes short is the unbounded history: each
      visible row once, newest first. */
  lemma StorePagesAreHistory(db: Db, m: Matcher, now: Instant, size: nat, count: nat, rows: seq<Item>)
    requires Consistent(db) && MARKER in db.history && size > 0 && IsHistory(rows, db.items, m, now)
    ensures StorePages(db, m, now, size, count) == (if count * size <= |rows| then rows[..count * size] else rows)
    ensures |Page(db, m, now, size, count * size)| < size ==> StorePages(db, m, now, size, count + 1) == rows
    ensures Page(db, m, now, 0, 0) == rows
  {
    hide Consistent, Visible, Walk, IsHistory, Slice, Pages, StorePages, Page, Increasing, SortedKeys;
    var from := count * size;
    PageOf(db, m, now, size, from, rows);
    PageOf(db, m, now, 0, 0, rows);
    PagesConcatenate(rows, size, count);
    ShortPageIsLast(rows, size, count);
    PagesAgree(db, m, now, size, count, rows);
    PagesAgree(db, m, now, size, count + 1, rows);
    WholeSlice(rows);
  }

  lemma PageOf(db: Db, m: Matcher, now: Instant, limit: int, offset: nat, rows: seq<Item>)
    requires Consistent(db) && MARKER in db.history && IsHistory(rows, db.items, m, now)
    ensures Page(db, m, now, limit, offset) == Slice(rows, limit, offset)
  {
    hide Consistent, Visible, Walk, IsHistory, Slice;
    PageIsSlice(db, m, now, rows, limit, offset);
  }

  lemma WholeSlice(rows: seq<Item>)
    ensures Slice(rows, 0, 0) == rows
  {
  }

  lemma ShortPageIsLast(rows: seq<Item>, size: nat, count: nat)
    requires size > 0
    ensures |Slice(rows, size, count * size)| < size ==> Pages(rows, size, count + 1) == rows
  {
    hide Pages, Slice;
    PagesConcatenate(rows, size, count + 1);
    var from, to := count * size, (count + 1) * size;
    assert to == from + size;
    SliceLength(rows, size, from);
  }

  lemma SliceLength(rows: seq<Item>, size: nat, from: nat)
    requires size > 0
    ensures from + size <= |rows| ==> |Slice(rows, size, from)| == size
  {
  }

  lemma {:induction false} PagesAgree(db: Db, m: Matcher, now: Instant, size: nat, count: nat, rows: seq<Item>)
    requires Consistent(db) && MARKER in db.history && IsHistory(rows, db.items, m, now)
    ensures StorePages(db, m, now, size, count) == Pages(rows, size, count)
  {
    hide Consistent, Visible, Walk, IsHistory, Slice;
    if count > 0 {
      PagesAgree(db, m, now, size, count - 1, rows);
      PageIsSlice(db, m, now, rows, size, (count - 1) * size);
    }
  }

  /** Consecutive pages of one size, concatenated. */
  function Pages(rows: seq<Item>, size: nat, count: nat): seq<Item> {
    if count == 0 then [] else Pages(rows, size, count - 1) + Slice(rows, size, (count - 1) * size)
  }

  /** Consecutive pages concatenate to the unbounded result. */
  lemma {:induction false} PagesConcatenate(rows: seq<Item>, size: nat, count: nat)
    requires size > 0
    ensures Pages(rows, size, count) == if count * size <= |rows| then rows[..count * size] else rows
    ensures count * size >= |rows| ==> Pages(rows, size, count) == Slice(rows, 0, 0)
  {
    if count > 0 {
      PagesConcatenate(rows, size, count - 1);
      assert count * size == (count - 1) * size + size;
    }
  }
}
