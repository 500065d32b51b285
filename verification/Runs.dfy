/** Every interleaving of the store's transactions with the short steps of its reads
    (pkg/attention-store-impl.go:220-382, 1000-1094). */
module Runs {
  import opened Calendar
  import opened Items
  import opened Derived
  import opened Indexes
  import opened Transactions
  import opened Sweep
  import opened Reads

  // ---- what each transaction does to the rows ----

  /** Rows only evolve; a key that appears was never used before. */
  ghost predicate Moves(items: map<string, Item>, items': map<string, Item>, used: set<string>) {
    && (forall k :: k in items && k in items' ==> Evolves(items[k], items'[k]))
    && (forall k :: k in items' ==> k in items || k !in used)
  }

  /** A Push either rewrites the seven re-push fields of one stored open row with that joined key, or
      adds one fresh row; nothing else changes. */
  lemma PushMeaning(db: Db, r: Request, id: string, now: Instant, gone: bool)
    requires Consistent(db) && id !in db.items && id != MARKER && Encodable(now)
    ensures var out := PushTx(db, r, id, now, gone);
            && Consistent(out.db) && out.db.attempts == db.attempts
            && match out.result
               case Err(_) => out.db == db
               case Ok(Suppressed(item)) =>
                 && item.itemID in db.items && db.items[item.itemID].state == Open
                 && KeyOf(DedupKind)("", db.items[item.itemID]) == DedupKeyOf(r.producerID, r.dedupKey)
                 && item == Repushed(db.items[item.itemID], r, now)
                 && out.db.items == db.items[item.itemID := item]
               case Ok(Added(item)) => item == NewItem(r, id, now) && out.db.items == db.items[id := item]
    ensures PushTx(db, r, id, now, gone).result.Ok? ==>
              ValidRequest(r) && MARKER in PushTx(db, r, id, now, gone).db.dedup
  {
    hide Put, Ensure, ValidRequest, Liveness, Encodable, Consistent, Repushed, NewItem;
    if ValidRequest(r) {
      EnsureConsistent(db, DedupKind);
      var built := Ensure(db, DedupKind);
      EnsureAttempts(db, DedupKind);
      if DedupKeyOf(r.producerID, r.dedupKey) in built.dedup { RepushFacts(built, r, now); }
      AddFacts(built, r, id, now);
    }
  }

  lemma RepushFacts(db: Db, r: Request, now: Instant)
    requires Consistent(db) && MARKER in db.dedup && DedupKeyOf(r.producerID, r.dedupKey) in db.dedup && Encodable(now)
    ensures var item := db.dedup[DedupKeyOf(r.producerID, r.dedupKey)];
            var next := Repushed(item, r, now);
            && next.itemID == item.itemID && item.itemID in db.items && db.items[item.itemID] == item
            && item.state == Open
            && KeyOf(DedupKind)("", item) == DedupKeyOf(r.producerID, r.dedupKey)
            && Put(db, next).items == db.items[item.itemID := next] && Put(db, next).attempts == db.attempts
            && Consistent(Put(db, next)) && MARKER in Put(db, next).dedup
  {
    hide Put, Encodable, AllTrusted;
    DedupEntry(db, r);
    PutFacts(db, Repushed(db.dedup[DedupKeyOf(r.producerID, r.dedupKey)], r, now));
  }

  lemma AddFacts(db: Db, r: Request, id: string, now: Instant)
    requires Consistent(db) && MARKER in db.dedup && id !in db.items && id != MARKER && Encodable(now)
    ensures var next := NewItem(r, id, now);
            && Put(db, next).items == db.items[id := next] && Put(db, next).attempts == db.attempts
            && Consistent(Put(db, next)) && MARKER in Put(db, next).dedup
  {
    hide Put, Encodable, AllTrusted, KeyedRows;
    PutFacts(db, NewItem(r, id, now));
  }

  lemma PutFacts(db: Db, item: Item)
    requires Consistent(db) && item.itemID != MARKER && Encodable(item.createdAt)
    requires item.itemID in db.items ==> SameIdentity(db.items[item.itemID], item)
    ensures Put(db, item).items == db.items[item.itemID := item] && Put(db, item).attempts == db.attempts
    ensures Consistent(Put(db, item))
    ensures MARKER in db.dedup ==> MARKER in Put(db, item).dedup
  {
    hide Put, Encodable, AllTrusted, SameIdentity;
    PutRow(db, item);
    PutConsistent(db, item);
    PutKeepsMarks(db, item, DedupKind);
  }

  lemma EnsureAttempts(db: Db, kind: Kind)
    ensures Ensure(db, kind).attempts == db.attempts
  {
    hide ShapeOf;
  }

  /** Every dedup entry a push reads is, by value, a stored open row with that joined key. */
  lemma DedupEntry(db: Db, r: Request)
    requires Consistent(db) && MARKER in db.dedup
    ensures var key := DedupKeyOf(r.producerID, r.dedupKey);
            key in db.dedup ==>
              && db.dedup[key].itemID in db.items && db.items[db.dedup[key].itemID] == db.dedup[key]
              && db.dedup[key].state == Open && KeyOf(DedupKind)("", db.dedup[key]) == key
  {
    hide Keys.HistoryKey, Encodable;
    var key := DedupKeyOf(r.producerID, r.dedupKey);
    assert key[|r.producerID|] == '\0';
    if key in db.dedup {
      var e := db.dedup[key];
      assert WorthyOf(DedupKind)(e) && KeyOf(DedupKind)(IdOf(e), e) == key;
    }
  }

  lemma PushMoves(db: Db, r: Request, id: string, now: Instant, gone: bool, used: set<string>)
    requires Consistent(db) && AllKept(db.items) && id !in used && id != MARKER && Encodable(now)
    requires forall k :: k in db.items ==> k in used
    ensures var out := PushTx(db, r, id, now, gone).db;
            AllKept(out.items) && Moves(db.items, out.items, used) && db.items.Keys <= out.items.Keys
            && out.items.Keys <= db.items.Keys + {id}
  {
    hide PushTx, Consistent, WellKept, Evolves, ValidRequest, Encodable;
    PushMeaning(db, r, id, now, gone);
    forall k | k in db.items ensures Evolves(db.items[k], db.items[k]) { EvolvesReflexive(db.items[k]); }
    match PushTx(db, r, id, now, gone).result
    case Err(_) =>
    case Ok(Suppressed(item)) => RepushEvolves(db.items[item.itemID], r, now);
    case Ok(Added(_)) => NewItemWellKept(r, id, now);
  }

  /** An edit rewrites its own row and no other. */
  lemma EditMoves(db: Db, id: string, e: Edit, used: set<string>)
    requires Consistent(db) && AllKept(db.items) && EditTx(db, id, e).Ok?
    ensures var db' := EditTx(db, id, e).value;
            && Consistent(db') && AllKept(db'.items) && Moves(db.items, db'.items, used)
            && db'.items.Keys == db.items.Keys && db'.attempts == db.attempts
            && (forall k :: k in db.items && k != id ==> db'.items[k] == db.items[k])
  {
    hide Put, WellKept, Evolves, Apply, AllTrusted, Encodable;
    forall k | k in db.items ensures Evolves(db.items[k], db.items[k]) { EvolvesReflexive(db.items[k]); }
    var item := db.items[id];
    EditEvolves(item, e);
    if Apply(item, e).Write? {
      var next := Apply(item, e).item;
      EditIdentity(item, e);
      PutRow(db, next);
      PutConsistent(db, next);
    }
  }

  lemma EditIdentity(item: Item, e: Edit)
    requires Apply(item, e).Write?
    ensures SameIdentity(item, Apply(item, e).item) && Apply(item, e).item.createdAt == item.createdAt
  {
  }

  lemma SweepMoves(db: Db, cutoff: Instant, stamp: string -> Instant, used: set<string>)
    requires Consistent(db) && AllKept(db.items)
    ensures var db' := SweepTx(db, cutoff, stamp).db;
            && Consistent(db') && AllKept(db'.items) && Moves(db.items, db'.items, used)
            && db'.items.Keys == db.items.Keys
  {
    hide SweepTx, Consistent, WellKept, Evolves, SweptClosed, SweptKeys;
    SweepMeaning(db, cutoff, stamp);
    var db' := SweepTx(db, cutoff, stamp).db;
    forall k | k in db.items
      ensures Evolves(db.items[k], db'.items[k]) && WellKept(db'.items[k])
    {
      if k in SweptKeys(db.items, cutoff) {
        SweptAreOpenOrAnswered(db.items, cutoff, k);
        SweepEvolves(db.items[k], stamp(k));
      } else { EvolvesReflexive(db.items[k]); }
    }
  }

  lemma SweptAreOpenOrAnswered(items: map<string, Item>, cutoff: Instant, k: string)
    requires k in items && k in SweptKeys(items, cutoff)
    ensures items[k].state != Closed
  {
    hide StandsAnswered;
  }

  // ---- the system ----

  /** A read between its steps: snapshot taken, or snapshot classified. */
  datatype Reader =
    | Snapped(board: bool, entries: seq<Stored>)
    | Sorted(board: bool, entries: seq<Stored>, gone: set<string>, at: Instant, sorting: Sorting)

  /** used holds every id the generator has handed out. */
  datatype Sys = Sys(db: Db, used: set<string>, readers: map<nat, Reader>)

  datatype Event =
    | PushEvent(r: Request, id: string, now: Instant, producerGone: bool)
    | EditEvent(id: string, e: Edit)
    | AttemptEvent(id: string, carrier: string, outcome: string, now: Instant)
    | EnsureEvent(kind: Kind)
    | SweepEvent(cutoff: Instant, stamp: string -> Instant)
    | SnapshotEvent(reader: nat, board: bool)
    | ClassifyEvent(reader: nat, gone: set<string>, now: Instant)
    | PruneEvent(reader: nat, gone: set<string>, now: Instant)

  predicate Enabled(s: Sys, e: Event) {
    match e
    case PushEvent(_, id, now, _) => id !in s.used && id != MARKER && Encodable(now)
    case SnapshotEvent(reader, board) =>
      reader !in s.readers && MARKER in s.db.Of(if board then LiveKind else OpenKind)
    case ClassifyEvent(reader, _, _) => reader in s.readers && s.readers[reader].Snapped?
    case PruneEvent(reader, _, _) => reader in s.readers && s.readers[reader].Sorted?
    case _ => true
  }

  function Next(s: Sys, e: Event): Sys
    requires Enabled(s, e)
  {
    match e
    case PushEvent(r, id, now, gone) => s.(db := PushTx(s.db, r, id, now, gone).db, used := s.used + {id})
    case EditEvent(id, edit) => if EditTx(s.db, id, edit).Ok? then s.(db := EditTx(s.db, id, edit).value) else s
    case AttemptEvent(id, carrier, outcome, now) =>
      var tx := AttemptTx(s.db, id, carrier, outcome, now);
      if tx.Ok? then s.(db := tx.value) else s
    case EnsureEvent(kind) => s.(db := Ensure(s.db, kind))
    case SweepEvent(cutoff, stamp) => s.(db := SweepTx(s.db, cutoff, stamp).db)
    case SnapshotEvent(reader, board) =>
      s.(readers := s.readers[reader := Snapped(board, Entries(s.db.Of(if board then LiveKind else OpenKind)))])
    case ClassifyEvent(reader, gone, now) =>
      var snap := s.readers[reader];
      (match ClassifyAll(snap.entries, snap.board, gone, now)
       case Err(_) => s.(readers := s.readers - {reader})
       case Ok(sorting) => s.(readers := s.readers[reader := Sorted(snap.board, snap.entries, gone, now, sorting)]))
    case PruneEvent(reader, gone, now) =>
      var tx := PruneTx(s.db, s.readers[reader].sorting.dead, gone, now);
      Sys(if tx.Ok? then tx.value else s.db, s.used, s.readers - {reader})
  }

  // ---- the invariant ----

  /** A snapshot entry is an earlier value of the row still stored under its key, if any is. */
  ghost predicate Remembers(entries: seq<Stored>, items: map<string, Item>, used: set<string>) {
    forall i :: 0 <= i < |entries| ==>
      && entries[i].key in used
      && (entries[i].key in items ==> Evolves(entries[i].item, items[entries[i].key]))
  }

  ghost predicate ReaderOk(reader: Reader, items: map<string, Item>, used: set<string>) {
    && Remembers(reader.entries, items, used)
    && (reader.Sorted? ==> ClassifyAll(reader.entries, reader.board, reader.gone, reader.at) == Ok(reader.sorting))
  }

  ghost predicate Inv(s: Sys) {
    && Consistent(s.db) && AllKept(s.db.items) && s.db.items.Keys <= s.used
    && forall reader :: reader in s.readers ==> ReaderOk(s.readers[reader], s.db.items, s.used)
  }

  lemma RemembersMoves(entries: seq<Stored>, items: map<string, Item>, items': map<string, Item>, used: set<string>,
                       used': set<string>)
    requires Remembers(entries, items, used) && Moves(items, items', used) && used <= used'
    ensures Remembers(entries, items', used')
  {
    hide Evolves;
    forall i | 0 <= i < |entries| && entries[i].key in items' ensures Evolves(entries[i].item, items'[entries[i].key]) {
      var key := entries[i].key;
      EvolvesTransitive(entries[i].item, items[key], items'[key]);
    }
  }

  lemma ReadersMove(readers: map<nat, Reader>, items: map<string, Item>, items': map<string, Item>, used: set<string>,
                    used': set<string>)
    requires forall reader :: reader in readers ==> ReaderOk(readers[reader], items, used)
    requires Moves(items, items', used) && used <= used'
    ensures forall reader :: reader in readers ==> ReaderOk(readers[reader], items', used')
  {
    hide Moves, Remembers, ClassifyAll;
    forall reader | reader in readers ensures ReaderOk(readers[reader], items', used') {
      RemembersMoves(readers[reader].entries, items, items', used, used');
    }
  }

  lemma StayMoves(items: map<string, Item>, used: set<string>)
    ensures Moves(items, items, used)
  {
    hide Evolves;
    forall k | k in items ensures Evolves(items[k], items[k]) { EvolvesReflexive(items[k]); }
  }

  lemma PruneMoves(db: Db, keys: seq<string>, gone: set<string>, now: Instant, used: set<string>)
    requires Consistent(db) && AllKept(db.items) && PruneTx(db, keys, gone, now).Ok?
    ensures var db' := PruneTx(db, keys, gone, now).value;
            Consistent(db') && AllKept(db'.items) && Moves(db.items, db'.items, used) && db'.items.Keys <= db.items.Keys
  {
    hide PruneTx, Consistent, WellKept, Evolves, PrunedSet;
    PruneMeaning(db, keys, gone, now);
    forall k | k in db.items ensures Evolves(db.items[k], db.items[k]) { EvolvesReflexive(db.items[k]); }
  }

  lemma AttemptConsistent(db: Db, id: string, carrier: string, outcome: string, now: Instant)
    requires Consistent(db) && AttemptTx(db, id, carrier, outcome, now).Ok?
    ensures Consistent(AttemptTx(db, id, carrier, outcome, now).value)
    ensures AttemptTx(db, id, carrier, outcome, now).value.items == db.items
  {
    hide AllTrusted, KeyedRows;
    var db' := AttemptTx(db, id, carrier, outcome, now).value;
    assert AllTrusted(db') by { SameIndexes(db, db'); }
  }

  lemma SameIndexes(db: Db, db': Db)
    requires AllTrusted(db) && db' == db.(attempts := db'.attempts)
    ensures AllTrusted(db')
  {
    hide Trusted;
  }

  lemma SnapshotRemembers(db: Db, kind: Kind, used: set<string>)
    requires Consistent(db) && MARKER in db.Of(kind) && (kind == LiveKind || kind == OpenKind)
    requires db.items.Keys <= used
    ensures Remembers(Entries(db.Of(kind)), db.items, used)
  {
    hide Consistent, Entries, Evolves, KeysOf;
    SnapshotMirrors(db, kind);
    var entries := Entries(db.Of(kind));
    forall i | 0 <= i < |entries| ensures Evolves(entries[i].item, db.items[entries[i].key]) {
      EvolvesReflexive(entries[i].item);
    }
  }

  /** What a step does to the database, whatever the readers are doing. */
  lemma DbStep(s: Sys, e: Event)
    requires Inv(s) && Enabled(s, e)
    ensures var s' := Next(s, e);
            && Consistent(s'.db) && AllKept(s'.db.items) && s'.db.items.Keys <= s'.used && s.used <= s'.used
            && Moves(s.db.items, s'.db.items, s.used)
  {
    hide Consistent, AllKept, Moves, Ensure, PushTx, EditTx, AttemptTx, SweepTx, PruneTx, ClassifyAll, Entries,
         ReaderOk, Encodable;
    StayMoves(s.db.items, s.used);
    match e
    case PushEvent(r, id, now, gone) =>
      PushMeaning(s.db, r, id, now, gone);
      PushMoves(s.db, r, id, now, gone, s.used);
    case EditEvent(id, edit) => if EditTx(s.db, id, edit).Ok? { EditMoves(s.db, id, edit, s.used); }
    case AttemptEvent(id, carrier, outcome, now) =>
      if AttemptTx(s.db, id, carrier, outcome, now).Ok? { AttemptConsistent(s.db, id, carrier, outcome, now); }
    case EnsureEvent(kind) => EnsureConsistent(s.db, kind);
    case SweepEvent(cutoff, stamp) => SweepMoves(s.db, cutoff, stamp, s.used);
    case SnapshotEvent(_, _) =>
    case ClassifyEvent(_, _, _) =>
    case PruneEvent(reader, gone, now) =>
      var dead := s.readers[reader].sorting.dead;
      if PruneTx(s.db, dead, gone, now).Ok? { PruneMoves(s.db, dead, gone, now, s.used); }
  }

  /** A step leaves each reader as it was, but the one it snapshots or classifies for. */
  lemma OtherReaders(s: Sys, e: Event)
    requires Enabled(s, e)
    ensures forall reader :: reader in Next(s, e).readers ==>
              (reader in s.readers && Next(s, e).readers[reader] == s.readers[reader])
              || ((e.SnapshotEvent? || e.ClassifyEvent?) && reader == e.reader)
  {
    hide Ensure, PushTx, EditTx, AttemptTx, SweepTx, PruneTx, ClassifyAll, Entries, Encodable;
  }

  lemma OwnReader(s: Sys, e: Event)
    requires Inv(s) && Enabled(s, e) && (e.SnapshotEvent? || e.ClassifyEvent?)
    ensures Next(s, e).db == s.db && Next(s, e).used == s.used
    ensures e.reader in Next(s, e).readers ==> ReaderOk(Next(s, e).readers[e.reader], s.db.items, s.used)
  {
    hide Consistent, AllKept, ClassifyAll, Entries, Remembers, Encodable;
    if e.SnapshotEvent? { SnapshotRemembers(s.db, if e.board then LiveKind else OpenKind, s.used); }
    else { assert ReaderOk(s.readers[e.reader], s.db.items, s.used); }
  }

  /** Every step of every interleaving keeps the invariant. */
  lemma StepKeeps(s: Sys, e: Event)
    requires Inv(s) && Enabled(s, e)
    ensures Inv(Next(s, e))
  {
    hide Next, Enabled, Consistent, AllKept, Moves, ReaderOk;
    var s' := Next(s, e);
    DbStep(s, e);
    OtherReaders(s, e);
    ReadersMove(s.readers, s.db.items, s'.db.items, s.used, s'.used);
    if e.SnapshotEvent? || e.ClassifyEvent? { OwnReader(s, e); }
  }

  // ---- removals ----

  lemma {:induction false} DeadComesFromSnapshot(entries: seq<Stored>, board: bool, gone: set<string>, at: Instant,
                                                 k: string)
    requires ClassifyAll(entries, board, gone, at).Ok? && k in ClassifyAll(entries, board, gone, at).value.dead
    ensures exists i :: 0 <= i < |entries| && entries[i].key == k && Dies(entries[i].item, k in gone, at)
  {
    hide ParseRef;
    var front, last := entries[..|entries| - 1], entries[|entries| - 1];
    if k in ClassifyAll(front, board, gone, at).value.dead {
      DeadComesFromSnapshot(front, board, gone, at, k);
      var i :| 0 <= i < |front| && front[i].key == k && Dies(front[i].item, k in gone, at);
      assert entries[i] == front[i];
    } else {
      assert entries[|entries| - 1].key == k;
    }
  }

  /** Only a prune removes rows. The row it removes was, in the removing transaction, open and either
      past its deadline or reported gone by the prune's own probe; and the same read had seen it open
      and expired, or asked with its subject gone. */
  lemma RemovalIsJustified(s: Sys, e: Event, k: string)
    requires Inv(s) && Enabled(s, e) && k in s.db.items && k !in Next(s, e).db.items
    ensures e.PruneEvent? && Removable(s.db.items[k], k in e.gone, e.now)
    ensures var reader := s.readers[e.reader];
            exists i :: 0 <= i < |reader.entries| && reader.entries[i].key == k
                        && Dies(reader.entries[i].item, k in reader.gone, reader.at)
                        && Evolves(reader.entries[i].item, s.db.items[k])
  {
    hide Consistent, WellKept, Ensure, PushTx, EditTx, AttemptTx, SweepTx, PruneTx, ClassifyAll, Entries,
         Evolves, Encodable, Dies, Removable;
    match e
    case PushEvent(r, id, now, gone) => PushMoves(s.db, r, id, now, gone, s.used);
    case EditEvent(id, edit) => if EditTx(s.db, id, edit).Ok? { EditMoves(s.db, id, edit, s.used); }
    case AttemptEvent(id, carrier, outcome, now) =>
      if AttemptTx(s.db, id, carrier, outcome, now).Ok? { AttemptConsistent(s.db, id, carrier, outcome, now); }
    case EnsureEvent(kind) => EnsureConsistent(s.db, kind);
    case SweepEvent(cutoff, stamp) => SweepMoves(s.db, cutoff, stamp, s.used);
    case SnapshotEvent(_, _) =>
    case ClassifyEvent(_, _, _) =>
    case PruneEvent(rid, gone, now) =>
      var reader := s.readers[rid];
      assert ReaderOk(reader, s.db.items, s.used);
      PruneMeaning(s.db, reader.sorting.dead, gone, now);
      DeadComesFromSnapshot(reader.entries, reader.board, reader.gone, reader.at, k);
  }

  /** A report its read saw unexpired is never removed by that read. */
  lemma ReportsOutliveTheirProducer(s: Sys, e: Event, k: string)
    requires Inv(s) && Enabled(s, e) && e.PruneEvent? && k in s.db.items && s.db.items[k].mechanism == Ack
    requires forall i :: 0 <= i < |s.readers[e.reader].entries| && s.readers[e.reader].entries[i].key == k ==>
               !IsExpired(s.readers[e.reader].entries[i].item, s.readers[e.reader].at)
    ensures k in Next(s, e).db.items
  {
    hide Inv, Next, Enabled, ParseRef;
    if k !in Next(s, e).db.items { RemovalIsJustified(s, e, k); }
  }

  // ---- whole runs ----

  /** An empty store, or stored rows beside indexes of any content that carry no marker. */
  ghost predicate Start(s: Sys) {
    && s.readers == map[] && s.db.items.Keys <= s.used
    && (s.db == EMPTY_DB
        || (s.db.hasItems && KeyedRows(s.db.items) && AllKept(s.db.items) && s.db.attempts.Keys <= s.db.items.Keys
            && forall kind :: MARKER !in s.db.Of(kind)))
  }

  ghost predicate Run(states: seq<Sys>, events: seq<Event>) {
    && |states| == |events| + 1 && Start(states[0])
    && forall i :: 0 <= i < |events| ==> Enabled(states[i], events[i]) && states[i + 1] == Next(states[i], events[i])
  }

  lemma StartKeeps(s: Sys)
    requires Start(s)
    ensures Inv(s)
  {
    hide Keys.HistoryKey, Encodable, WellKept;
    assert MARKER !in s.db.Of(LiveKind) && MARKER !in s.db.Of(OpenKind);
    assert MARKER !in s.db.Of(HistoryKind) && MARKER !in s.db.Of(DedupKind);
  }

  /** In every reachable state every marked index is exact by value (dedup: sound by value), attempts
      belong to stored rows, and every row is well kept. */
  lemma {:induction false} RunKeeps(states: seq<Sys>, events: seq<Event>, n: nat)
    requires Run(states, events) && n < |states|
    ensures Inv(states[n])
  {
    hide Inv, Next, Enabled, Start;
    if n == 0 { StartKeeps(states[0]); } else {
      RunKeeps(states, events, n - 1);
      StepKeeps(states[n - 1], events[n - 1]);
    }
  }

  /** Between any two moments of a run a row present at both only evolves; one present at the later
      moment and absent at the earlier is new. */
  lemma {:induction false} RunMoves(states: seq<Sys>, events: seq<Event>, m: nat, n: nat)
    requires Run(states, events) && m <= n < |states|
    ensures Moves(states[m].db.items, states[n].db.items, states[m].used) && states[m].used <= states[n].used
    decreases n - m
  {
    hide Inv, Next, Enabled, Start, Evolves;
    if m == n { StayMoves(states[m].db.items, states[m].used); } else {
      RunMoves(states, events, m, n - 1);
      RunKeeps(states, events, n - 1);
      DbStep(states[n - 1], events[n - 1]);
      var a, b, c := states[m].db.items, states[n - 1].db.items, states[n].db.items;
      KeysUsed(states[m], states, events, m);
      forall k | k in a && k in c ensures Evolves(a[k], c[k]) { EvolvesTransitive(a[k], b[k], c[k]); }
    }
  }

  lemma KeysUsed(s: Sys, states: seq<Sys>, events: seq<Event>, m: nat)
    requires Run(states, events) && m < |states| && s == states[m]
    ensures s.db.items.Keys <= s.used
  {
    hide Run;
    RunKeeps(states, events, m);
  }

  /** Open, then answered, then closed. */
  function Rank(state: State): nat {
    match state
    case Open => 0
    case Answered => 1
    case Closed => 2
  }

  /** Over any run a row's state only advances, and a closed row's keeps its answer, its ask and the time it
      was closed at. */
  lemma StatesAdvance(states: seq<Sys>, events: seq<Event>, m: nat, n: nat, k: string)
    requires Run(states, events) && m <= n < |states| && k in states[m].db.items && k in states[n].db.items
    ensures var a, b := states[m].db.items[k], states[n].db.items[k];
            && Rank(a.state) <= Rank(b.state)
            && (a.state == Closed ==> b.closedAt == a.closedAt && b.answer == a.answer && b.answers == a.answers
                                      && b.answeredAt == a.answeredAt && b.answeredBy == a.answeredBy
                                      && b.payload == a.payload && b.createdAt == a.createdAt)
  {
    hide Inv, Next, Enabled, Start, Run;
    RunMoves(states, events, m, n);
  }

  /** No answered or closed row ever leaves the store. */
  lemma {:induction false} ResolvedRowsStay(states: seq<Sys>, events: seq<Event>, m: nat, n: nat, k: string)
    requires Run(states, events) && m <= n < |states|
    requires k in states[m].db.items && states[m].db.items[k].state != Open
    ensures k in states[n].db.items && states[n].db.items[k].state != Open
    decreases n - m
  {
    hide Inv, Next, Enabled, Start, IsExpired, Probed;
    if m < n {
      ResolvedRowsStay(states, events, m, n - 1, k);
      RunKeeps(states, events, n - 1);
      if k !in states[n].db.items { RemovalIsJustified(states[n - 1], events[n - 1], k); }
      RunMoves(states, events, n - 1, n);
    }
  }
}
