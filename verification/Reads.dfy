/** What a Read or ReadBoard that nothing interrupts returns and leaves behind
    (pkg/attention-store-impl.go:172-282, 325-461, 900-1094). */
module Reads {
  import opened Calendar
  import opened Items
  import opened Lex
  import opened Derived
  import opened Indexes
  import opened Transactions
  import opened Sweep

  /** The keys of a list that lie in a set, in the list's order. */
  function Select(keys: seq<string>, chosen: set<string>): (r: seq<string>)
    ensures forall k :: k in r <==> k in keys && k in chosen
  {
    if keys == [] then []
    else
      var last, before := keys[|keys| - 1], Select(keys[..|keys| - 1], chosen);
      assert keys == keys[..|keys| - 1] + [last];
      if last in chosen then before + [last] else before
  }

  lemma {:induction false} SelectIncreasing(keys: seq<string>, chosen: set<string>)
    requires Increasing(keys)
    ensures Increasing(Select(keys, chosen))
  {
    if keys != [] {
      var front, last := keys[..|keys| - 1], keys[|keys| - 1];
      SelectIncreasing(front, chosen);
      forall k | k in Select(front, chosen) ensures Less(k, last) {
        var i :| 0 <= i < |front| && front[i] == k;
        assert keys[i] == k;
      }
    }
  }

  /** Selecting from a cursor's keys is a cursor over the selection. */
  lemma SelectIsSorted(keys: seq<string>, chosen: set<string>)
    requires Increasing(keys) && forall k :: k in chosen ==> k in keys
    ensures Select(keys, chosen) == SortedKeys(chosen)
  {
    SelectIncreasing(keys, chosen);
    IncreasingUnique(Select(keys, chosen), SortedKeys(chosen));
  }

  /** The rows under a list of keys. */
  function Rows(items: map<string, Item>, keys: seq<string>): (r: seq<Item>)
    requires forall k :: k in keys ==> k in items
    ensures |r| == |keys|
    ensures forall i :: 0 <= i < |keys| ==> keys[i] in items && r[i] == items[keys[i]]
  {
    if keys == [] then [] else Rows(items, keys[..|keys| - 1]) + [items[keys[|keys| - 1]]]
  }

  // ---- the rule a naive scan of the items bucket would apply ----

  predicate Probed(item: Item, gone: bool) {
    gone && !ParseRef(item.livenessRef).OwnerRef?
  }

  /** Kept: an answered row on the board; an open, unexpired row that is live or a report. */
  predicate Keeps(item: Item, board: bool, gone: bool, now: Instant) {
    (item.state == Answered && board)
    || (item.state == Open && !IsExpired(item, now) && (!Probed(item, gone) || !IsAsked(item)))
  }

  /** Removable: an open row past its deadline, or a question whose subject is gone. */
  predicate Dies(item: Item, gone: bool, now: Instant) {
    item.state == Open && (IsExpired(item, now) || (Probed(item, gone) && IsAsked(item)))
  }

  function KeptSet(items: map<string, Item>, board: bool, gone: set<string>, now: Instant): set<string> {
    set k | k in items && Keeps(items[k], board, k in gone, now)
  }

  function DeadSet(items: map<string, Item>, gone: set<string>, now: Instant): set<string> {
    set k | k in items && Dies(items[k], k in gone, now)
  }

  ghost predicate RefsOk(items: map<string, Item>) {
    forall k :: k in items ==> ParseRef(items[k].livenessRef) != BadRef
  }

  function KeysOf(entries: seq<Stored>): (r: seq<string>)
    ensures |r| == |entries| && forall i :: 0 <= i < |r| ==> r[i] == entries[i].key
  {
    if entries == [] then [] else KeysOf(entries[..|entries| - 1]) + [entries[|entries| - 1].key]
  }

  ghost predicate Mirrors(entries: seq<Stored>, items: map<string, Item>) {
    forall i :: 0 <= i < |entries| ==> entries[i].key in items && items[entries[i].key] == entries[i].item
  }

  lemma ClassifyRule(item: Item, board: bool, gone: bool, now: Instant)
    requires ParseRef(item.livenessRef) != BadRef
    ensures Classify(item, board, gone, now) ==
      Ok(if Keeps(item, board, gone, now) then KeepIt else if Dies(item, gone, now) then RemoveIt else Neither)
    ensures !(Keeps(item, board, gone, now) && Dies(item, gone, now))
  {
  }

  lemma SetsRule(items: map<string, Item>, k: string, board: bool, gone: set<string>, now: Instant)
    requires k in items
    ensures k in KeptSet(items, board, gone, now) <==> Keeps(items[k], board, k in gone, now)
    ensures k in DeadSet(items, gone, now) <==> Dies(items[k], k in gone, now)
  {
    hide Keeps, Dies;
  }

  lemma RowsSnoc(items: map<string, Item>, keys: seq<string>, key: string)
    requires key in items && forall k :: k in keys ==> k in items
    ensures Rows(items, keys + [key]) == Rows(items, keys) + [items[key]]
  {
    assert (keys + [key])[..|keys|] == keys;
  }

  lemma KeysOfSnoc(entries: seq<Stored>, last: Stored)
    ensures KeysOf(entries + [last]) == KeysOf(entries) + [last.key]
  {
  }

  lemma SelectSnoc(keys: seq<string>, key: string, chosen: set<string>)
    ensures Select(keys + [key], chosen) == if key in chosen then Select(keys, chosen) + [key] else Select(keys, chosen)
  {
    assert (keys + [key])[..|keys|] == keys;
  }

  lemma {:induction false} ClassifySelects(entries: seq<Stored>, items: map<string, Item>, board: bool,
                                           gone: set<string>, now: Instant)
    requires Mirrors(entries, items) && RefsOk(items)
    ensures forall k :: k in Select(KeysOf(entries), KeptSet(items, board, gone, now)) ==> k in items
    ensures ClassifyAll(entries, board, gone, now) ==
              Ok(Sorting(Rows(items, Select(KeysOf(entries), KeptSet(items, board, gone, now))),
                         Select(KeysOf(entries), DeadSet(items, gone, now))))
  {
    hide Classify, Keeps, Dies, ParseRef, KeysOf, Select, Rows;
    if entries != [] {
      var front, last := entries[..|entries| - 1], entries[|entries| - 1];
      assert entries == front + [last];
      ClassifySelects(front, items, board, gone, now);
      ClassifyRule(last.item, board, last.key in gone, now);
      SetsRule(items, last.key, board, gone, now);
      hide KeptSet, DeadSet;
      KeysOfSnoc(front, last);
      var kept, dead := KeptSet(items, board, gone, now), DeadSet(items, gone, now);
      SelectSnoc(KeysOf(front), last.key, kept);
      SelectSnoc(KeysOf(front), last.key, dead);
      RowsSnoc(items, Select(KeysOf(front), kept), last.key);
    } else {
      EmptyScan(items, KeptSet(items, board, gone, now), DeadSet(items, gone, now));
    }
  }

  lemma EmptyScan(items: map<string, Item>, kept: set<string>, dead: set<string>)
    ensures KeysOf([]) == [] && Select([], kept) == [] && Select([], dead) == [] && Rows(items, []) == []
  {
  }

  lemma {:induction false} EntriesMirror(ix: Index, keys: seq<string>)
    requires forall k :: k in keys ==> k in ix
    ensures KeysOf(EntriesAt(ix, keys)) == Select(keys, ix.Keys - {MARKER})
    ensures forall e :: e in EntriesAt(ix, keys) ==> e.key in ix && e.item == ix[e.key]
  {
    hide KeysOf, Select;
    if keys != [] {
      var front, key := keys[..|keys| - 1], keys[|keys| - 1];
      assert keys == front + [key];
      assert key in keys && forall k :: k in front ==> k in keys;
      EntriesMirror(ix, front);
      SelectSnoc(front, key, ix.Keys - {MARKER});
      KeysOfSnoc(EntriesAt(ix, front), Stored(key, ix[key]));
    } else { EmptyScan(map[], ix.Keys - {MARKER}, {}); }
  }

  /** The snapshot of a trusted index mirrors the rows it is about. */
  lemma SnapshotMirrors(db: Db, kind: Kind)
    requires Consistent(db) && MARKER in db.Of(kind) && (kind == LiveKind || kind == OpenKind)
    ensures Mirrors(Entries(db.Of(kind)), db.items) && Increasing(KeysOf(Entries(db.Of(kind))))
    ensures forall k :: k in db.items && WorthyOf(kind)(db.items[k]) ==> k in KeysOf(Entries(db.Of(kind)))
  {
    hide Consistent, SortedKeys, Select, KeysOf, EntriesAt;
    var ix := db.Of(kind);
    var keys := SortedKeys(ix.Keys);
    IndexedById(db, kind);
    EntriesMirror(ix, keys);
    SelectIncreasing(keys, ix.Keys - {MARKER});
    var entries := Entries(ix);
    forall i | 0 <= i < |entries| ensures entries[i].key in db.items && db.items[entries[i].key] == entries[i].item {
      assert entries[i] in entries && KeysOf(entries)[i] in Select(keys, ix.Keys - {MARKER});
    }
    RowsAvoidMarker(db);
  }

  /** The scan of a trusted index is the scan of the items bucket. */
  lemma ScanIsNaive(db: Db, board: bool, gone: set<string>, now: Instant)
    requires Consistent(db) && RefsOk(db.items) && MARKER in db.Of(if board then LiveKind else OpenKind)
    ensures ClassifyAll(Entries(db.Of(if board then LiveKind else OpenKind)), board, gone, now) ==
              Ok(Sorting(Rows(db.items, SortedKeys(KeptSet(db.items, board, gone, now))),
                         SortedKeys(DeadSet(db.items, gone, now))))
  {
    hide Consistent, ClassifyAll, ParseRef, SortedKeys, Entries;
    var kind := if board then LiveKind else OpenKind;
    var entries := Entries(db.Of(kind));
    SnapshotMirrors(db, kind);
    ClassifySelects(entries, db.items, board, gone, now);
    forall k | k in KeptSet(db.items, board, gone, now) || k in DeadSet(db.items, gone, now)
      ensures k in KeysOf(entries)
    {
      assert WorthyOf(kind)(db.items[k]);
    }
    SelectIsSorted(KeysOf(entries), KeptSet(db.items, board, gone, now));
    SelectIsSorted(KeysOf(entries), DeadSet(db.items, gone, now));
  }

  // ---- the prune ----

  predicate Removable(item: Item, gone: bool, now: Instant) {
    item.state == Open && (IsExpired(item, now) || Probed(item, gone))
  }

  function PrunedSet(items: map<string, Item>, keys: seq<string>, gone: set<string>, now: Instant): set<string> {
    set k | k in items && k in keys && Removable(items[k], k in gone, now)
  }

  lemma RemoveRow(db: Db, key: string)
    ensures Remove(db, key).items == db.items - {key} && Remove(db, key).attempts == db.attempts - {key}
    ensures Remove(db, key).hasItems == db.hasItems
  {
  }

  /** A prune removes exactly the keys that are still open and expired or gone. */
  lemma {:induction false} PruneMeaning(db: Db, keys: seq<string>, gone: set<string>, now: Instant)
    requires Consistent(db) && PruneTx(db, keys, gone, now).Ok?
    ensures var db' := PruneTx(db, keys, gone, now).value;
            && Consistent(db') && db'.items == db.items - PrunedSet(db.items, keys, gone, now)
            && db'.hasItems == db.hasItems
            && (forall kind :: MARKER in db.Of(kind) ==> MARKER in db'.Of(kind))
    decreases |keys|
  {
    hide Remove, AllTrusted, ParseRef, Encodable;
    if keys == [] {
      assert PrunedSet(db.items, keys, gone, now) == {};
    } else {
      var key := keys[0];
      assert keys == [key] + keys[1..];
      if StillRemovable(db, key, gone, now).value {
        RemoveConsistent(db, key);
        RemoveRow(db, key);
        forall kind ensures MARKER in db.Of(kind) ==> MARKER in Remove(db, key).Of(kind) {
          RemoveKeepsMarks(db, key, kind);
        }
        PruneMeaning(Remove(db, key), keys[1..], gone, now);
        assert PrunedSet(db.items, keys, gone, now) == PrunedSet(db.items - {key}, keys[1..], gone, now) + {key};
      } else {
        PruneMeaning(db, keys[1..], gone, now);
        assert PrunedSet(db.items, keys, gone, now) == PrunedSet(db.items, keys[1..], gone, now);
      }
    }
  }

  lemma {:induction false} PruneSucceeds(db: Db, keys: seq<string>, gone: set<string>, now: Instant)
    requires RefsOk(db.items)
    ensures PruneTx(db, keys, gone, now).Ok?
    decreases |keys|
  {
    hide Remove, ParseRef;
    if keys != [] {
      RemoveRow(db, keys[0]);
      PruneSucceeds(db, keys[1..], gone, now);
      PruneSucceeds(Remove(db, keys[0]), keys[1..], gone, now);
    }
  }

  // ---- the whole read ----

  datatype ReadOutcome = ReadOutcome(db: Db, result: Result<seq<Item>>)

  /** Read (board false) and ReadBoard, with the classification's and the prune's own verdicts and clocks. */
  function ReadTx(db: Db, board: bool, gone: set<string>, now: Instant, goneLater: set<string>,
                  later: Instant): ReadOutcome {
    var kind := if board then LiveKind else OpenKind;
    var built := Ensure(db, kind);
    match ClassifyAll(Entries(built.Of(kind)), board, gone, now)
    case Err(e) => ReadOutcome(built, Err(e))
    case Ok(s) =>
      var kept := if board then SuppressTwins(s.kept) else s.kept;
      if s.dead == [] then ReadOutcome(built, Ok(kept))
      else
        match PruneTx(built, s.dead, goneLater, later)
        case Err(e) => ReadOutcome(built, Err(e))
        case Ok(pruned) => ReadOutcome(pruned, Ok(kept))
  }

  /** The open rows whose ask an answered row already carries. */
  function TwinSet(items: map<string, Item>): set<string> {
    set k | k in items && items[k].state == Open
            && exists j :: j in items && items[j].state == Answered && AskIdentity(items[j]) == AskIdentity(items[k])
  }

  lemma {:induction false} WithoutTwinsSelects(items: map<string, Item>, keys: seq<string>, answered: set<string>)
    requires forall k :: k in keys ==> k in items
    ensures var clear := set k | k in items && !(items[k].state == Open && AskIdentity(items[k]) in answered);
            && (forall k :: k in Select(keys, clear) ==> k in items)
            && WithoutTwins(Rows(items, keys), answered) == Rows(items, Select(keys, clear))
  {
    hide AskIdentity, Rows, Select;
    var clear := set k | k in items && !(items[k].state == Open && AskIdentity(items[k]) in answered);
    if keys != [] {
      var front, last := keys[..|keys| - 1], keys[|keys| - 1];
      assert keys == front + [last];
      assert last in keys && forall k :: k in front ==> k in keys;
      WithoutTwinsSelects(items, front, answered);
      RowsSnoc(items, front, last);
      assert (Rows(items, front) + [items[last]])[..|front|] == Rows(items, front);
      SelectSnoc(front, last, clear);
      RowsSnoc(items, Select(front, clear), last);
    } else { EmptyScan(items, clear, clear); }
  }

  lemma AnsweredAsksAre(items: map<string, Item>, keys: seq<string>)
    requires forall k :: k in keys <==> k in items && k in keys
    requires forall k :: k in items && items[k].state == Answered ==> k in keys
    ensures forall a :: a in AnsweredAsks(Rows(items, keys)) <==>
              exists j :: j in items && items[j].state == Answered && AskIdentity(items[j]) == a
  {
    hide AskIdentity;
    var rows := Rows(items, keys);
    forall a | a in AnsweredAsks(rows)
      ensures exists j :: j in items && items[j].state == Answered && AskIdentity(items[j]) == a
    {
      var i :| 0 <= i < |rows| && rows[i].state == Answered && AskIdentity(rows[i]) == a;
      assert items[keys[i]] == rows[i];
    }
    forall j | j in items && items[j].state == Answered ensures AskIdentity(items[j]) in AnsweredAsks(rows) {
      var i :| 0 <= i < |keys| && keys[i] == j;
      assert rows[i] == items[j];
    }
  }

  /** Board suppression drops exactly the open rows beside an answered row of the same ask. */
  lemma SuppressIsTwinFree(items: map<string, Item>, chosen: set<string>)
    requires forall k :: k in chosen ==> k in items
    requires forall k :: k in items && items[k].state == Answered ==> k in chosen
    ensures SuppressTwins(Rows(items, SortedKeys(chosen))) == Rows(items, SortedKeys(chosen - TwinSet(items)))
  {
    hide AskIdentity, SortedKeys;
    var keys := SortedKeys(chosen);
    var answered := AnsweredAsks(Rows(items, keys));
    AnsweredAsksAre(items, keys);
    WithoutTwinsSelects(items, keys, answered);
    var clear := set k | k in items && !(items[k].state == Open && AskIdentity(items[k]) in answered);
    assert forall k :: k in chosen ==> (k in clear <==> k !in TwinSet(items));
    SelectIncreasing(keys, clear);
    IncreasingUnique(Select(keys, clear), SortedKeys(chosen - TwinSet(items)));
  }

  /** An uninterrupted read answers the naive scan of the items bucket, in key order; the board adds
      the answered rows and drops open twins. */
  lemma UninterruptedRead(db: Db, board: bool, gone: set<string>, now: Instant, goneLater: set<string>, later: Instant)
    requires Consistent(db) && RefsOk(db.items)
    ensures var shown := KeptSet(db.items, board, gone, now) - (if board then TwinSet(db.items) else {});
            ReadTx(db, board, gone, now, goneLater, later).result == Ok(Rows(db.items, SortedKeys(shown)))
  {
    hide Consistent, Ensure, ClassifyAll, Entries, PruneTx, ParseRef, SortedKeys, TwinSet, SuppressTwins, AskIdentity;
    var kind := if board then LiveKind else OpenKind;
    EnsureConsistent(db, kind);
    var built := Ensure(db, kind);
    ScanIsNaive(built, board, gone, now);
    PruneSucceeds(built, SortedKeys(DeadSet(db.items, gone, now)), goneLater, later);
    var kept := KeptSet(db.items, board, gone, now);
    if board { SuppressIsTwinFree(db.items, kept); }
    else { assert kept - {} == kept; }
  }

  /** Well-kept rows name liveness refs of a known model. */
  lemma KeptRefs(items: map<string, Item>)
    requires AllKept(items)
    ensures RefsOk(items)
  {
    hide ParseRef, ValidSingleAnswer, ValidAnswerList;
  }

  /** No marked index, of any kind, holds an open row expired at the instant. */
  ghost predicate NoneExpired(db: Db, now: Instant) {
    forall kind, k :: MARKER in db.Of(kind) && k in db.Of(kind) && k != MARKER && db.Of(kind)[k].state == Open ==>
      !IsExpired(db.Of(kind)[k], now)
  }

  lemma IndexesMirrorRows(db: Db, now: Instant)
    requires Consistent(db) && forall k :: k in db.items && db.items[k].state == Open ==> !IsExpired(db.items[k], now)
    ensures NoneExpired(db, now)
  {
    hide IsExpired, ShapeOf, Encodable;
    forall kind, k | MARKER in db.Of(kind) && k in db.Of(kind) && k != MARKER && db.Of(kind)[k].state == Open
      ensures !IsExpired(db.Of(kind)[k], now)
    {
      assert Trusted(kind, db.items, db.Of(kind));
      var id := ShapeOf(kind).idOf(db.Of(kind)[k]);
      assert db.items[id] == db.Of(kind)[k];
    }
  }

  /** What it leaves: a consistent store that lost exactly the dead rows still removable, so, the clock not
      running back, no open row expired at the read's instant survives in the bucket or in any marked
      index. */
  lemma ReadLeaves(db: Db, board: bool, gone: set<string>, now: Instant, goneLater: set<string>, later: Instant)
    requires Consistent(db) && RefsOk(db.items)
    ensures var db' := ReadTx(db, board, gone, now, goneLater, later).db;
            && Consistent(db')
            && db'.items == db.items - PrunedSet(db.items, SortedKeys(DeadSet(db.items, gone, now)), goneLater, later)
            && (now <= later ==>
                  && (forall k :: k in db'.items && db'.items[k].state == Open ==> !IsExpired(db'.items[k], now))
                  && NoneExpired(db', now))
            && MARKER in db'.Of(if board then LiveKind else OpenKind)
  {
    hide Consistent, NoneExpired, ReadTx;
    ReadPrunes(db, board, gone, now, goneLater, later);
    if now <= later {
      ExpiredArePruned(db.items, gone, now, goneLater, later);
      IndexesMirrorRows(ReadTx(db, board, gone, now, goneLater, later).db, now);
    }
  }

  lemma ReadPrunes(db: Db, board: bool, gone: set<string>, now: Instant, goneLater: set<string>, later: Instant)
    requires Consistent(db) && RefsOk(db.items)
    ensures var db' := ReadTx(db, board, gone, now, goneLater, later).db;
            && Consistent(db') && MARKER in db'.Of(if board then LiveKind else OpenKind)
            && db'.items == db.items - PrunedSet(db.items, SortedKeys(DeadSet(db.items, gone, now)), goneLater, later)
  {
    hide Consistent, Ensure, ClassifyAll, Entries, PruneTx, ParseRef, SortedKeys, SuppressTwins, PrunedSet, DeadSet,
         KeptSet, Rows, RefsOk;
    var kind := if board then LiveKind else OpenKind;
    EnsureConsistent(db, kind);
    var built := Ensure(db, kind);
    ScanIsNaive(built, board, gone, now);
    var dead := SortedKeys(DeadSet(db.items, gone, now));
    PruneSucceeds(built, dead, goneLater, later);
    PruneMeaning(built, dead, goneLater, later);
    if dead == [] { NothingPruned(db.items, goneLater, later); }
  }

  lemma NothingPruned(items: map<string, Item>, gone: set<string>, now: Instant)
    ensures PrunedSet(items, [], gone, now) == {}
  {
  }

  lemma ExpiredArePruned(items: map<string, Item>, gone: set<string>, now: Instant, goneLater: set<string>,
                         later: Instant)
    requires now <= later
    ensures forall k :: k in items && items[k].state == Open && IsExpired(items[k], now) ==>
              k in PrunedSet(items, SortedKeys(DeadSet(items, gone, now)), goneLater, later)
  {
    hide SortedKeys, ParseRef;
  }

  /** On a swept store the board's suppression drops nothing. */
  lemma SweptBoardDropsNothing(db: Db, cutoff: Instant, stamp: string -> Instant)
    requires Consistent(db)
    ensures TwinSet(SweepTx(db, cutoff, stamp).db.items) == {}
  {
    hide SweepTx, Consistent, AskIdentity, Due;
    SweepMeaning(db, cutoff, stamp);
    var items' := SweepTx(db, cutoff, stamp).db.items;
    forall k | k in items' ensures k !in TwinSet(items') { SweepLeavesNoneDue(db, cutoff, stamp, k); }
  }
}
