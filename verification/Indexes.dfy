/** The bolt database of the attention store: the items bucket, the four derived indexes and the
    delivery attempts (pkg/attention-store-index.go and the write primitives of
    pkg/attention-store-impl.go). A Db value is what one transaction sees. */
module Indexes {
  import opened Text
  import opened Calendar
  import opened Items
  import opened Keys
  import opened Derived

  type Index = map<string, Item>

  datatype Kind = LiveKind | OpenKind | HistoryKind | DedupKind

  datatype Attempt = Attempt(itemID: string, carrier: string, outcome: string, attemptedAt: Instant)

  datatype Db = Db(hasItems: bool, items: map<string, Item>, live: Index, open: Index, history: Index,
                   dedup: Index, attempts: map<string, Attempt>)
  {
    function Of(kind: Kind): Index {
      match kind
      case LiveKind => live
      case OpenKind => open
      case HistoryKind => history
      case DedupKind => dedup
    }

    function With(kind: Kind, ix: Index): Db {
      match kind
      case LiveKind => this.(live := ix)
      case OpenKind => this.(open := ix)
      case HistoryKind => this.(history := ix)
      case DedupKind => this.(dedup := ix)
    }
  }

  /** The value `Item{}` the marker is stored with. */
  const EMPTY_ITEM: Item :=
    NewItem(Request("", "", "", "", "", "", "", "", "", Message, [], Unset, [], None), "", ZERO_TIME)

  const EMPTY_DB: Db := Db(false, map[], map[], map[], map[], map[], map[])

  function DedupKeyOf(producerID: string, dedupKey: string): string { producerID + "\0" + dedupKey }

  function IdOf(item: Item): string { item.itemID }

  /** liveIndexWorthy, openIndexWorthy, and every row for the history. */
  function WorthyOf(kind: Kind): Item -> bool {
    match kind
    case LiveKind => (item: Item) => item.state != Closed
    case OpenKind => (item: Item) => item.state == Open
    case HistoryKind => (item: Item) => true
    case DedupKind => (item: Item) => item.state == Open
  }

  /** itemIDIndexKey, timeOrderedIndexKey and dedupIndexKey. */
  function KeyOf(kind: Kind): (string, Item) -> string {
    match kind
    case LiveKind => (bucketKey: string, item: Item) => bucketKey
    case OpenKind => (bucketKey: string, item: Item) => bucketKey
    case HistoryKind => (bucketKey: string, item: Item) => HistoryKey(item.createdAt, item.itemID)
    case DedupKind => (bucketKey: string, item: Item) => DedupKeyOf(item.producerID, item.dedupKey)
  }

  function ShapeOf(kind: Kind): Shape<Item> { Shape(IdOf, WorthyOf(kind), KeyOf(kind)) }

  predicate KeyedRows(items: map<string, Item>) {
    forall k :: k in items ==> items[k].itemID == k && k != MARKER && Encodable(items[k].createdAt)
  }

  lemma ShapeKeyed(kind: Kind, items: map<string, Item>)
    requires KeyedRows(items)
    ensures Keyed(ShapeOf(kind), items)
  {
    forall id | id in items ensures KeyOf(kind)(id, items[id]) != MARKER {
      var item := items[id];
      if kind == DedupKind { assert KeyOf(kind)(id, item)[|item.producerID|] == '\0'; }
      if kind == HistoryKind { HistoryKeyLong(item.createdAt, item.itemID); }
    }
  }

  lemma ShapeSeparated(kind: Kind, items: map<string, Item>)
    requires KeyedRows(items) && kind != DedupKind
    ensures Separated(ShapeOf(kind), items)
  {
    if kind == HistoryKind {
      forall a, b | a in items && b in items && a != b ensures KeyOf(kind)(a, items[a]) != KeyOf(kind)(b, items[b]) {
        if KeyOf(kind)(a, items[a]) == KeyOf(kind)(b, items[b]) {
          HistoryKeyInjective(items[a].createdAt, a, items[b].createdAt, b);
        }
      }
    }
  }

  // ---- the write primitives ----

  function Mark(ix: Index, really: bool): Index { if really then ix[MARKER := EMPTY_ITEM] else ix }

  /** putItem: the row, the first-ever markers, and all four index entries. The live and open keys
      never move, so only the history loses the entry under the previous row's key. */
  function Put(db: Db, item: Item): Db {
    var first := !db.hasItems;
    Db(true, db.items[item.itemID := item],
       Reconcile(ShapeOf(LiveKind), db.items, Mark(db.live, first), item),
       Reconcile(ShapeOf(OpenKind), db.items, Mark(db.open, first), item),
       Reconcile(ShapeOf(HistoryKind), db.items, db.history, item),
       ReconcileShared(ShapeOf(DedupKind), Mark(db.dedup, first), item),
       db.attempts)
  }

  /** removeItem: the row read before it goes, its index entries and its attempt record. */
  function Remove(db: Db, key: string): Db {
    var cleared := db.(items := db.items - {key}, live := db.live - {key}, open := db.open - {key},
                       attempts := db.attempts - {key});
    if key !in db.items then cleared
    else
      var item := db.items[key];
      cleared.(dedup := DropOwn(ShapeOf(DedupKind), db.dedup, KeyOf(DedupKind)(key, item), item.itemID),
               history := db.history - {KeyOf(HistoryKind)(key, item)})
  }

  /** ensure*Index: rebuild and mark in one transaction, unless already marked. */
  function Ensure(db: Db, kind: Kind): Db {
    if MARKER in db.Of(kind) then db
    else db.With(kind, Rebuilt(ShapeOf(kind), db.items, db.Of(kind))[MARKER := EMPTY_ITEM])
  }

  method EnsureIndex(db: Db, kind: Kind) returns (r: Db)
    ensures r == Ensure(db, kind)
  {
    if MARKER in db.Of(kind) { return db; }
    var rebuilt := RebuildIndex(ShapeOf(kind), db.items, db.Of(kind));
    r := db.With(kind, rebuilt[MARKER := EMPTY_ITEM]);
  }

  // ---- consistency ----

  /** What a marked index promises: exact by value; for dedup, sound by value. */
  ghost predicate Trusted(kind: Kind, items: map<string, Item>, ix: Index) {
    MARKER in ix ==>
      && Sound(ShapeOf(kind), items, ix)
      && (kind != DedupKind ==> Complete(ShapeOf(kind), items, ix))
  }

  ghost predicate AllTrusted(db: Db) {
    && Trusted(LiveKind, db.items, db.live) && Trusted(OpenKind, db.items, db.open)
    && Trusted(HistoryKind, db.items, db.history) && Trusted(DedupKind, db.items, db.dedup)
  }

  predicate NothingYet(db: Db) {
    && db.items == map[] && db.live.Keys <= {MARKER} && db.open.Keys <= {MARKER}
    && db.history.Keys <= {MARKER} && db.dedup.Keys <= {MARKER}
  }

  /** What every reachable database satisfies. */
  ghost predicate Consistent(db: Db) {
    && KeyedRows(db.items) && AllTrusted(db)
    && db.attempts.Keys <= db.items.Keys
    && (!db.hasItems ==> NothingYet(db))
  }

  lemma PutTrusted(kind: Kind, db: Db, item: Item)
    requires kind != DedupKind && KeyedRows(db.items) && Trusted(kind, db.items, db.Of(kind))
    requires KeyedRows(db.items[item.itemID := item])
    ensures Trusted(kind, db.items[item.itemID := item], Reconcile(ShapeOf(kind), db.items, db.Of(kind), item))
  {
    hide HistoryKey;
    var ix, rows := db.Of(kind), db.items[item.itemID := item];
    var shape := ShapeOf(kind);
    ShapeKeyed(kind, db.items); ShapeSeparated(kind, db.items);
    ShapeKeyed(kind, rows); ShapeSeparated(kind, rows);
    assert item.itemID in rows && rows[item.itemID] == item;
    if MARKER in Reconcile(shape, db.items, ix, item) { ReconcileExact(shape, db.items, ix, item); }
  }

  lemma PutDedupTrusted(db: Db, item: Item)
    requires KeyedRows(db.items) && Trusted(DedupKind, db.items, db.dedup)
    requires KeyedRows(db.items[item.itemID := item])
    requires item.itemID in db.items ==> SameIdentity(db.items[item.itemID], item)
    ensures Trusted(DedupKind, db.items[item.itemID := item], ReconcileShared(ShapeOf(DedupKind), db.dedup, item))
  {
    var rows := db.items[item.itemID := item];
    ShapeKeyed(DedupKind, rows);
    assert item.itemID in rows && rows[item.itemID] == item;
    if MARKER in ReconcileShared(ShapeOf(DedupKind), db.dedup, item) {
      ReconcileSharedSound(ShapeOf(DedupKind), db.items, db.dedup, item);
    }
  }

  /** Before the first write, marking all but the history leaves every marked index trusted. */
  lemma FirstMarksTrusted(db: Db)
    requires !db.hasItems && NothingYet(db)
    ensures var m := db.(live := Mark(db.live, true), open := Mark(db.open, true), dedup := Mark(db.dedup, true));
            AllTrusted(m)
  {
    hide HistoryKey;
  }

  /** Every write of a row keeps the database consistent. */
  lemma PutConsistent(db: Db, item: Item)
    requires Consistent(db) && item.itemID != MARKER && Encodable(item.createdAt)
    requires item.itemID in db.items ==> SameIdentity(db.items[item.itemID], item)
    ensures Consistent(Put(db, item))
  {
    hide HistoryKey, Reconcile, ReconcileShared, Trusted, SameIdentity;
    var first := !db.hasItems;
    var m := db.(live := Mark(db.live, first), open := Mark(db.open, first), dedup := Mark(db.dedup, first));
    if first { FirstMarksTrusted(db); }
    assert KeyedRows(db.items[item.itemID := item]);
    PutTrusted(LiveKind, m, item); PutTrusted(OpenKind, m, item); PutTrusted(HistoryKind, m, item);
    PutDedupTrusted(m, item);
  }

  lemma RemoveTrusted(kind: Kind, db: Db, key: string)
    requires kind != DedupKind && KeyedRows(db.items) && Trusted(kind, db.items, db.Of(kind)) && key in db.items
    ensures Trusted(kind, db.items - {key}, db.Of(kind) - {KeyOf(kind)(key, db.items[key])})
  {
    hide HistoryKey;
    ShapeKeyed(kind, db.items); ShapeSeparated(kind, db.items);
    if MARKER in db.Of(kind) { RemoveExact(ShapeOf(kind), db.items, db.Of(kind), key); }
  }

  /** Every removal does, taking the attempt record along. */
  lemma RemoveConsistent(db: Db, key: string)
    requires Consistent(db) && key in db.items
    ensures Consistent(Remove(db, key))
  {
    hide HistoryKey;
    RemoveTrusted(LiveKind, db, key); RemoveTrusted(OpenKind, db, key); RemoveTrusted(HistoryKind, db, key);
    ShapeKeyed(DedupKind, db.items);
    if MARKER in db.dedup { RemoveSharedSound(ShapeOf(DedupKind), db.items, db.dedup, key); }
  }

  /** A build makes its index trusted, and the dedup index representative. */
  lemma EnsureConsistent(db: Db, kind: Kind)
    requires Consistent(db)
    ensures Consistent(Ensure(db, kind)) && MARKER in Ensure(db, kind).Of(kind)
    ensures Ensure(db, kind).items == db.items && Ensure(db, kind).hasItems == db.hasItems
    ensures MARKER !in db.Of(kind) ==> Represented(ShapeOf(kind), db.items, Ensure(db, kind).Of(kind))
  {
    hide Rebuilt, Trusted, Represented, Encodable, ShapeOf;
    if MARKER !in db.Of(kind) {
      BuiltTrusted(db, kind);
      if !db.hasItems { NothingBuilt(db, kind); }
    }
  }

  lemma BuiltTrusted(db: Db, kind: Kind)
    requires KeyedRows(db.items)
    ensures var built := Rebuilt(ShapeOf(kind), db.items, db.Of(kind))[MARKER := EMPTY_ITEM];
            Trusted(kind, db.items, built) && Represented(ShapeOf(kind), db.items, built)
  {
    hide HistoryKey, Rebuilt;
    var ix, shape := db.Of(kind), ShapeOf(kind);
    ShapeKeyed(kind, db.items);
    if kind != DedupKind { ShapeSeparated(kind, db.items); }
    RebuildRestores(shape, db.items, ix);
    MarkedSame(shape, db.items, Rebuilt(shape, db.items, ix), EMPTY_ITEM);
  }

  lemma NothingBuilt(db: Db, kind: Kind)
    requires NothingYet(db)
    ensures Rebuilt(ShapeOf(kind), db.items, db.Of(kind)).Keys <= {MARKER}
  {
    hide ShapeOf;
    assert Lex.SortedKeys({}) == [];
  }

  lemma PutKeepsMarks(db: Db, item: Item, kind: Kind)
    requires KeyedRows(db.items) && item.itemID != MARKER && Encodable(item.createdAt)
    ensures MARKER in db.Of(kind) || (!db.hasItems && kind != HistoryKind) ==> MARKER in Put(db, item).Of(kind)
  {
    hide Reconcile, ReconcileShared, KeyOf, WorthyOf;
    if MARKER in db.Of(kind) || (!db.hasItems && kind != HistoryKind) {
      var rows := db.items[item.itemID := item];
      assert KeyedRows(rows);
      ShapeKeyed(kind, rows); ShapeKeyed(kind, db.items);
      var marked := if kind == HistoryKind then db.history else Mark(db.Of(kind), !db.hasItems);
      ReconcileKeepsMark(ShapeOf(kind), db.items, marked, item);
    }
  }

  lemma RemoveKeepsMarks(db: Db, key: string, kind: Kind)
    requires KeyedRows(db.items) && key in db.items
    ensures MARKER in db.Of(kind) ==> MARKER in Remove(db, key).Of(kind)
  {
    hide HistoryKey;
    ShapeKeyed(kind, db.items);
  }

  /** A trusted live or open index is, key by key, the rows it admits. */
  lemma IndexedById(db: Db, kind: Kind)
    requires Consistent(db) && MARKER in db.Of(kind) && (kind == LiveKind || kind == OpenKind)
    ensures forall k :: k != MARKER ==> (k in db.Of(kind) <==> k in db.items && WorthyOf(kind)(db.items[k]))
    ensures forall k :: k != MARKER ==>
              (k in db.Of(kind) <==>
                 k in db.items && if kind == LiveKind then db.items[k].state != Closed else db.items[k].state == Open)
    ensures forall k :: k != MARKER && k in db.Of(kind) ==> k in db.items && db.Of(kind)[k] == db.items[k]
  {
    hide HistoryKey, Encodable;
    var ix := db.Of(kind);
    assert Trusted(kind, db.items, ix);
    hide AllTrusted;
    forall k | k != MARKER && k in ix ensures k in db.items && ix[k] == db.items[k] && WorthyOf(kind)(ix[k]) {
      assert KeyOf(kind)(IdOf(ix[k]), ix[k]) == k;
    }
    forall k | k in db.items && WorthyOf(kind)(db.items[k]) ensures k in ix {
      assert KeyOf(kind)(k, db.items[k]) == k;
    }
  }

  /** A trusted history index is the rows under their current time keys. */
  lemma IndexedByTime(db: Db)
    requires Consistent(db) && MARKER in db.history
    ensures forall k :: k in db.history && k != MARKER ==>
              && db.history[k].itemID in db.items && db.items[db.history[k].itemID] == db.history[k]
              && Encodable(db.history[k].createdAt) && HistoryKey(db.history[k].createdAt, db.history[k].itemID) == k
    ensures forall id :: id in db.items ==>
              && HistoryKey(db.items[id].createdAt, id) in db.history
              && HistoryKey(db.items[id].createdAt, id) != MARKER
              && db.history[HistoryKey(db.items[id].createdAt, id)] == db.items[id]
  {
    hide HistoryKey, Encodable;
    var ix := db.history;
    ShapeKeyed(HistoryKind, db.items);
    assert Trusted(HistoryKind, db.items, ix);
    hide AllTrusted;
    forall k | k in ix && k != MARKER
      ensures ix[k].itemID in db.items && db.items[ix[k].itemID] == ix[k]
      ensures HistoryKey(ix[k].createdAt, ix[k].itemID) == k
    {
      assert KeyOf(HistoryKind)(IdOf(ix[k]), ix[k]) == k;
    }
    forall id | id in db.items
      ensures HistoryKey(db.items[id].createdAt, id) in ix && ix[HistoryKey(db.items[id].createdAt, id)] == db.items[id]
      ensures HistoryKey(db.items[id].createdAt, id) != MARKER
    {
      assert WorthyOf(HistoryKind)(db.items[id]);
      assert KeyOf(HistoryKind)(id, db.items[id]) == HistoryKey(db.items[id].createdAt, id);
    }
  }

  /** A trusted history index holds each row under exactly one key, its current one. */
  lemma HistoryHoldsEachRowOnce(db: Db, id: string, key: string)
    requires Consistent(db) && MARKER in db.history && id in db.items
    ensures HistoryKey(db.items[id].createdAt, id) in db.history
    ensures key in db.history && key != MARKER && db.history[key].itemID == id ==>
              key == HistoryKey(db.items[id].createdAt, id) && db.history[key] == db.items[id]
  {
    hide HistoryKey;
    assert WorthyOf(HistoryKind)(db.items[id]);
    assert KeyOf(HistoryKind)(id, db.items[id]) == HistoryKey(db.items[id].createdAt, id);
  }
}
