/** One open row per dedup key: the runs from an empty store that keep it, exactly. */
module DedupRuns {
  import opened Calendar
  import opened Items
  import opened Derived
  import opened Indexes
  import opened Transactions
  import opened Sweep
  import opened Runs
  import opened EditLaws

  function JoinedKey(item: Item): string { DedupKeyOf(item.producerID, item.dedupKey) }

  /** The dedup index holds every open row, so no two open rows share a joined key. */
  ghost predicate OneOpen(db: Db) {
    Complete(ShapeOf(DedupKind), db.items, db.dedup) && (db.hasItems ==> MARKER in db.dedup)
  }

  lemma OpenEntry(db: Db, k: string)
    requires OneOpen(db) && k in db.items && db.items[k].state == Open
    ensures JoinedKey(db.items[k]) in db.dedup && db.dedup[JoinedKey(db.items[k])] == db.items[k]
  {
    assert WorthyOf(DedupKind)(db.items[k]);
    assert KeyOf(DedupKind)(k, db.items[k]) == JoinedKey(db.items[k]);
  }

  /** At most one open item exists per joined producer and dedup key. */
  lemma OpenRowsAreUnique(db: Db, a: string, b: string)
    requires OneOpen(db) && KeyedRows(db.items) && a in db.items && b in db.items
    requires db.items[a].state == Open && db.items[b].state == Open && JoinedKey(db.items[a]) == JoinedKey(db.items[b])
    ensures a == b
  {
    OpenEntry(db, a); OpenEntry(db, b);
  }

  /** A write keeps one open row per key unless it opens a second one. */
  lemma PutOneOpen(db: Db, item: Item)
    requires Consistent(db) && OneOpen(db) && item.itemID != MARKER && Encodable(item.createdAt)
    requires item.itemID in db.items ==> SameIdentity(db.items[item.itemID], item)
    requires item.state == Open ==>
               (item.itemID in db.items && db.items[item.itemID].state == Open) || JoinedKey(item) !in db.dedup
    ensures OneOpen(Put(db, item))
  {
    hide Keys.HistoryKey, Encodable, AllTrusted;
    var shape, id := ShapeOf(DedupKind), item.itemID;
    PutKeepsMarks(db, item, DedupKind);
    ShapeKeyed(DedupKind, db.items);
    var marked := Mark(db.dedup, !db.hasItems);
    MarkedSame(shape, db.items, db.dedup, EMPTY_ITEM);
    forall other | item.state == Open && other in db.items && other != id && db.items[other].state == Open
      ensures JoinedKey(db.items[other]) != JoinedKey(item)
    {
      OpenEntry(db, other);
      if id in db.items && db.items[id].state == Open { OpenEntry(db, id); }
    }
    ReconcileSharedComplete(shape, db.items, marked, item);
  }

  /** The guard updateExistingIfLive falls through on: an open row holds the key and its producer is
      not live. */
  predicate PushesOver(db: Db, r: Request, gone: bool) {
    var built, key := Ensure(db, DedupKind), DedupKeyOf(r.producerID, r.dedupKey);
    ValidRequest(r) && key in built.dedup && Liveness(built.dedup[key], gone) == Ok(false)
  }

  predicate UniqueOpen(items: map<string, Item>) {
    forall a, b :: (a in items && b in items && items[a].state == Open && items[b].state == Open
                    && JoinedKey(items[a]) == JoinedKey(items[b])) ==> a == b
  }

  /** A push keeps one open row per key, all of them indexed, exactly when it does not push over one;
      pushing over one leaves two open rows under the key. */
  lemma PushOneOpen(db: Db, r: Request, id: string, now: Instant, gone: bool)
    requires Consistent(db) && OneOpen(db) && id !in db.items && id != MARKER && Encodable(now)
    ensures OneOpen(PushTx(db, r, id, now, gone).db) <==> !PushesOver(db, r, gone)
    ensures PushesOver(db, r, gone) ==> !UniqueOpen(PushTx(db, r, id, now, gone).db.items)
  {
    hide Put, Ensure, ValidRequest, Encodable, ParseRef, Consistent, OneOpen, UniqueOpen, Liveness;
    if ValidRequest(r) {
      EnsureConsistent(db, DedupKind);
      EnsureOneOpen(db, DedupKind);
      var built := Ensure(db, DedupKind);
      var key := DedupKeyOf(r.producerID, r.dedupKey);
      if key !in built.dedup {
        PutOneOpen(built, NewItem(r, id, now));
      } else if PushesOver(db, r, gone) {
        PushedOverTwice(built, r, id, now);
      } else {
        DedupEntry(built, r);
        RowFacts(built, built.dedup[key].itemID);
        PutOneOpen(built, Repushed(built.dedup[key], r, now));
      }
    }
  }

  lemma PushedOverTwice(db: Db, r: Request, id: string, now: Instant)
    requires Consistent(db) && MARKER in db.dedup && DedupKeyOf(r.producerID, r.dedupKey) in db.dedup
    requires id !in db.items && id != MARKER && Encodable(now)
    ensures !UniqueOpen(Put(db, NewItem(r, id, now)).items) && !OneOpen(Put(db, NewItem(r, id, now)))
  {
    hide Put, Encodable, AllTrusted, OneOpen;
    DedupEntry(db, r);
    AddFacts(db, r, id, now);
    var next := Put(db, NewItem(r, id, now));
    var older := db.dedup[DedupKeyOf(r.producerID, r.dedupKey)];
    assert next.items[older.itemID] == older && JoinedKey(older) == JoinedKey(next.items[id]);
    if OneOpen(next) { OpenRowsAreUnique(next, older.itemID, id); }
  }

  lemma RowFacts(db: Db, k: string)
    requires Consistent(db) && k in db.items
    ensures db.items[k].itemID == k && k != MARKER && Encodable(db.items[k].createdAt)
  {
    hide AllTrusted, Encodable;
  }

  lemma EnsureOneOpen(db: Db, kind: Kind)
    requires Consistent(db) && OneOpen(db)
    ensures OneOpen(Ensure(db, kind))
  {
    hide Keys.HistoryKey, Encodable, ShapeOf, AllTrusted;
    if kind == DedupKind && MARKER !in db.dedup { assert db.items == map[]; }
  }

  lemma {:induction false} CloseAllOneOpen(db: Db, keys: seq<string>, from: State, stamp: string -> Instant)
    requires Consistent(db) && OneOpen(db) && Distinct(keys) && from != Closed
    ensures OneOpen(CloseAll(db, keys, from, stamp).db)
    decreases |keys|
  {
    hide Put, Consistent, OneOpen, ClosesExactly, Encodable;
    if keys != [] {
      var front, key := keys[..|keys| - 1], keys[|keys| - 1];
      assert keys == front + [key];
      CloseAllOneOpen(db, front, from, stamp);
      CloseAllMeaning(db, front, from, stamp);
      var before := CloseAll(db, front, from, stamp).db;
      if key in before.items {
        RowFacts(before, key);
        PutOneOpen(before, SweptClosed(before.items[key], stamp(key)));
      }
    }
  }

  lemma SweepOneOpen(db: Db, cutoff: Instant, stamp: string -> Instant)
    requires Consistent(db) && OneOpen(db)
    ensures OneOpen(SweepTx(db, cutoff, stamp).db)
  {
    hide Consistent, OneOpen, CloseAll, Ensure, DueKeys, ReraiseKeys, Lex.SortedKeys, ClosesExactly, TwinAsks;
    EnsureConsistent(db, LiveKind); EnsureOneOpen(db, LiveKind);
    var built := Ensure(db, LiveKind);
    LiveIsNonClosed(built); RowsAvoidMarker(built);
    DueMatches(built.live, built.items, cutoff);
    var due := DueKeys(built.live, Lex.SortedKeys(built.live.Keys), cutoff);
    CloseAllOneOpen(built, due, Answered, stamp);
    CloseAllMeaning(built, due, Answered, stamp);
    var aged := CloseAll(built, due, Answered, stamp).db;
    var twins := TwinAsks(aged.live);
    LiveIsNonClosed(aged); RowsAvoidMarker(aged);
    ReraisesMatch(aged.live, aged.items, twins);
    CloseAllOneOpen(aged, ReraiseKeys(aged.live, Lex.SortedKeys(aged.live.Keys), twins), Open, stamp);
  }

  lemma RemoveOneOpen(db: Db, key: string)
    requires Consistent(db) && OneOpen(db) && key in db.items
    ensures OneOpen(Remove(db, key))
  {
    hide Keys.HistoryKey, Encodable, AllTrusted;
    ShapeKeyed(DedupKind, db.items);
    RemoveKeepsMarks(db, key, DedupKind);
    RemoveSharedComplete(ShapeOf(DedupKind), db.items, db.dedup, key);
  }

  lemma {:induction false} PruneOneOpen(db: Db, keys: seq<string>, gone: set<string>, now: Instant)
    requires Consistent(db) && OneOpen(db) && PruneTx(db, keys, gone, now).Ok?
    ensures OneOpen(PruneTx(db, keys, gone, now).value)
    decreases |keys|
  {
    hide Remove, Consistent, OneOpen, Liveness, IsExpired;
    if keys != [] {
      if StillRemovable(db, keys[0], gone, now).value {
        RemoveConsistent(db, keys[0]);
        RemoveOneOpen(db, keys[0]);
        PruneOneOpen(Remove(db, keys[0]), keys[1..], gone, now);
      } else {
        PruneOneOpen(db, keys[1..], gone, now);
      }
    }
  }

  lemma EditOneOpen(db: Db, id: string, e: Edit)
    requires Consistent(db) && OneOpen(db) && EditTx(db, id, e).Ok?
    ensures OneOpen(EditTx(db, id, e).value)
  {
    hide Put, Consistent, OneOpen, Encodable, Apply;
    var item := db.items[id];
    if Apply(item, e).Write? {
      RowFacts(db, id);
      EditIdentity(item, e);
      if Apply(item, e).item.state == Open { EditOpens(item, e); }
      PutOneOpen(db, Apply(item, e).item);
    }
  }

  lemma EditOpens(item: Item, e: Edit)
    requires Apply(item, e).Write? && Apply(item, e).item.state == Open
    ensures item.state == Open
  {
  }

  predicate OverPush(s: Sys, e: Event) { e.PushEvent? && PushesOver(s.db, e.r, e.producerGone) }

  /** Of all steps, prunes with any verdict included, only a push over an open row breaks it. */
  lemma StepOneOpen(s: Sys, e: Event)
    requires Inv(s) && Enabled(s, e) && OneOpen(s.db)
    ensures OneOpen(Next(s, e).db) <==> !OverPush(s, e)
    ensures OverPush(s, e) ==> !UniqueOpen(Next(s, e).db.items)
  {
    hide Consistent, AllKept, OneOpen, UniqueOpen, PushesOver, Ensure, PushTx, EditTx, SweepTx, PruneTx, ClassifyAll,
         Entries, ReaderOk, Encodable;
    match e
    case PushEvent(r, id, now, gone) => PushOneOpen(s.db, r, id, now, gone);
    case EditEvent(id, edit) => if EditTx(s.db, id, edit).Ok? { EditOneOpen(s.db, id, edit); }
    case AttemptEvent(id, carrier, outcome, now) => AttemptOneOpen(s.db, id, carrier, outcome, now);
    case EnsureEvent(kind) => EnsureOneOpen(s.db, kind);
    case SweepEvent(cutoff, stamp) => SweepOneOpen(s.db, cutoff, stamp);
    case SnapshotEvent(_, _) =>
    case ClassifyEvent(_, _, _) =>
    case PruneEvent(reader, gone, now) =>
      var dead := s.readers[reader].sorting.dead;
      if PruneTx(s.db, dead, gone, now).Ok? { PruneOneOpen(s.db, dead, gone, now); }
  }

  lemma AttemptOneOpen(db: Db, id: string, carrier: string, outcome: string, now: Instant)
    requires OneOpen(db)
    ensures AttemptTx(db, id, carrier, outcome, now).Ok? ==> OneOpen(AttemptTx(db, id, carrier, outcome, now).value)
  {
    hide ShapeOf;
  }

  ghost predicate FreshRun(states: seq<Sys>, events: seq<Event>) { Run(states, events) && states[0].db == EMPTY_DB }

  ghost predicate NoOverPush(states: seq<Sys>, events: seq<Event>, n: nat)
    requires n <= |events| < |states|
  {
    forall i :: 0 <= i < n ==> !OverPush(states[i], events[i])
  }

  /** Up to its first push over an open row, a run from an empty store indexes every open row. */
  lemma {:induction false} OneOpenSoFar(states: seq<Sys>, events: seq<Event>, n: nat)
    requires FreshRun(states, events) && n < |states| && NoOverPush(states, events, n)
    ensures OneOpen(states[n].db)
  {
    hide Inv, Next, Enabled, Start, OverPush, UniqueOpen;
    if n > 0 {
      OneOpenSoFar(states, events, n - 1);
      RunKeeps(states, events, n - 1);
      StepOneOpen(states[n - 1], events[n - 1]);
    }
  }

  lemma OneOpenIsUnique(db: Db)
    requires OneOpen(db) && KeyedRows(db.items)
    ensures UniqueOpen(db.items)
  {
    hide Encodable, OneOpen;
    forall a, b | a in db.items && b in db.items && db.items[a].state == Open && db.items[b].state == Open
                  && JoinedKey(db.items[a]) == JoinedKey(db.items[b]) ensures a == b {
      OpenRowsAreUnique(db, a, b);
    }
  }

  lemma {:induction false} FirstOverPush(states: seq<Sys>, events: seq<Event>, n: nat) returns (k: nat)
    requires n <= |events| < |states| && !NoOverPush(states, events, n)
    ensures k < n && OverPush(states[k], events[k]) && NoOverPush(states, events, k)
  {
    hide OverPush;
    if NoOverPush(states, events, n - 1) { k := n - 1; } else { k := FirstOverPush(states, events, n - 1); }
  }

  /** In a run from an empty store the dedup index holds every open row at every moment exactly when no
      push of the run goes over an open row, and exactly then no two open rows ever share a key. */
  lemma DedupCompleteExactly(states: seq<Sys>, events: seq<Event>)
    requires FreshRun(states, events)
    ensures (forall n :: 0 <= n < |states| ==> OneOpen(states[n].db)) <==> NoOverPush(states, events, |events|)
    ensures (forall n :: 0 <= n < |states| ==> UniqueOpen(states[n].db.items)) <==> NoOverPush(states, events, |events|)
  {
    hide Inv, Next, Enabled, Start, OverPush, UniqueOpen, OneOpen;
    if NoOverPush(states, events, |events|) {
      forall n | 0 <= n < |states| ensures OneOpen(states[n].db) && UniqueOpen(states[n].db.items) {
        OneOpenSoFar(states, events, n);
        RunKeeps(states, events, n);
        InvKeyed(states[n]);
        OneOpenIsUnique(states[n].db);
      }
    } else {
      var k := FirstOverPush(states, events, |events|);
      OneOpenSoFar(states, events, k);
      RunKeeps(states, events, k);
      StepOneOpen(states[k], events[k]);
      assert !OneOpen(states[k + 1].db) && !UniqueOpen(states[k + 1].db.items);
    }
  }

  lemma InvKeyed(s: Sys)
    requires Inv(s)
    ensures KeyedRows(s.db.items)
  {
    hide KeyedRows, AllTrusted;
  }

  /** There each accepted push rewrites the one open row with its key or adds the first. */
  lemma PushKeepsOneRow(s: Sys, r: Request, id: string, now: Instant)
    requires Inv(s) && OneOpen(s.db) && Enabled(s, PushEvent(r, id, now, false))
    requires PushTx(s.db, r, id, now, false).result.Ok?
    ensures var key, out := DedupKeyOf(r.producerID, r.dedupKey), PushTx(s.db, r, id, now, false);
            match out.result.value
            case Suppressed(item) =>
              && item.itemID in s.db.items && s.db.items[item.itemID].state == Open
              && JoinedKey(s.db.items[item.itemID]) == key && out.db.items.Keys == s.db.items.Keys
            case Added(item) =>
              && (forall k :: k in s.db.items && s.db.items[k].state == Open ==> JoinedKey(s.db.items[k]) != key)
              && out.db.items.Keys == s.db.items.Keys + {id}
  {
    hide Put, Ensure, ValidRequest, Encodable, ParseRef, Consistent, OneOpen, ReaderOk, AllKept;
    PushMeaning(s.db, r, id, now, false);
    if PushTx(s.db, r, id, now, false).result.value.Added? {
      EnsureConsistent(s.db, DedupKind); EnsureOneOpen(s.db, DedupKind);
      var built := Ensure(s.db, DedupKind);
      forall k | k in s.db.items && s.db.items[k].state == Open
        ensures JoinedKey(s.db.items[k]) != DedupKeyOf(r.producerID, r.dedupKey)
      {
        OpenEntry(built, k);
      }
    }
  }

  /** Pushing a request again while its producer lives is pushing it later: one row, under the first id,
      carrying the request as of the second push. */
  lemma PushingAgainIsPushingLater(db: Db, r: Request, id: string, now: Instant, spare: string, later: Instant)
    requires Consistent(db) && ValidRequest(r) && DedupKeyOf(r.producerID, r.dedupKey) !in Ensure(db, DedupKind).dedup
    requires id !in db.items && id != MARKER && Encodable(now)
    requires spare !in db.items && spare != MARKER && spare != id && Encodable(later)
    ensures var again := PushTx(PushTx(db, r, id, now, false).db, r, spare, later, false);
            && again.result == Ok(Suppressed(NewItem(r, id, later)))
            && RequestOf(NewItem(r, id, later)) == r && Unanswered(NewItem(r, id, later))
            && again.db.items == PushTx(db, r, id, later, false).db.items == db.items[id := NewItem(r, id, later)]
  {
    hide PushTx, Put, Ensure, Encodable, Consistent, ValidRequest, RequestOf, Unanswered;
    NewItemCarriesTheRequest(r, id, later);
    EnsureConsistent(db, DedupKind);
    var built := Ensure(db, DedupKind);
    FirstPush(db, r, id, now);
    FirstPush(db, r, id, later);
    AddFacts(built, r, id, now);
    AddFacts(built, r, id, later);
    NewIsIndexed(built, r, id, now);
    SecondPush(Put(built, NewItem(r, id, now)), r, id, now, spare, later);
    assert db.items[id := NewItem(r, id, now)][id := NewItem(r, id, later)] == db.items[id := NewItem(r, id, later)];
  }

  lemma FirstPush(db: Db, r: Request, id: string, now: Instant)
    requires ValidRequest(r) && DedupKeyOf(r.producerID, r.dedupKey) !in Ensure(db, DedupKind).dedup
    ensures PushTx(db, r, id, now, false).db == Put(Ensure(db, DedupKind), NewItem(r, id, now))
  {
    hide Put, Ensure, ValidRequest;
  }

  lemma SecondPush(db: Db, r: Request, id: string, now: Instant, spare: string, later: Instant)
    requires ValidRequest(r) && Consistent(db) && MARKER in db.dedup && Encodable(later)
    requires var key := DedupKeyOf(r.producerID, r.dedupKey); key in db.dedup && db.dedup[key] == NewItem(r, id, now)
    ensures PushTx(db, r, spare, later, false).result == Ok(Suppressed(NewItem(r, id, later)))
    ensures PushTx(db, r, spare, later, false).db.items == db.items[id := NewItem(r, id, later)]
  {
    hide Put, Ensure, Encodable, ParseRef, Consistent;
    EnsuredStays(db);
    RepushFacts(db, r, later);
    assert Repushed(NewItem(r, id, now), r, later) == NewItem(r, id, later);
  }

  lemma NewIsIndexed(db: Db, r: Request, id: string, now: Instant)
    requires MARKER in db.dedup
    ensures var next := Put(db, NewItem(r, id, now)).dedup;
            var key := DedupKeyOf(r.producerID, r.dedupKey);
            key in next && next[key] == NewItem(r, id, now)
  {
    DedupOf(db, NewItem(r, id, now));
  }

  /** A row's own write puts an open row under its key and takes a row that is not open off it. */
  lemma DedupOf(db: Db, item: Item)
    requires MARKER in db.dedup
    ensures var key := DedupKeyOf(item.producerID, item.dedupKey);
            var next := Put(db, item).dedup;
            && (item.state == Open ==> key in next && next[key] == item)
            && (item.state != Open && key in db.dedup && db.dedup[key].itemID == item.itemID ==> key !in next)
  {
    hide Reconcile;
    MarkerIsNoJoinedKey(item.producerID, item.dedupKey);
    assert KeyOf(DedupKind)(IdOf(item), item) == DedupKeyOf(item.producerID, item.dedupKey);
    assert WorthyOf(DedupKind)(item) == (item.state == Open);
  }

  lemma MarkerIsNoJoinedKey(producerID: string, dedupKey: string)
    ensures DedupKeyOf(producerID, dedupKey) != MARKER
  {
    assert DedupKeyOf(producerID, dedupKey)[|producerID|] == '\0';
  }

  lemma EnsuredStays(db: Db)
    requires MARKER in db.dedup
    ensures Ensure(db, DedupKind) == db
  {
  }
}
