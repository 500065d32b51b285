/** Readers and writers of the ledger in any interleaving: each cache access under its mutex, each
    transaction and each view is one step. */
module LedgerRuns {
  import opened Text
  import opened Ledger

  /** A listing together with which version of the ledger it is. */
  datatype Snap = Snap(version: nat, list: seq<Entry>)

  /** Where a reader is. For a List, bodyGen is None; a ListJSON keeps the generation its body load saw
      through the inner List. floor is what had settled when it started. */
  datatype Reader =
    | Started(json: bool, floor: nat)
    | Inner(floor: nat, bodyGen: Option<nat>)
    | Missed(floor: nat, bodyGen: Option<nat>, gen: nat)
    | Viewed(floor: nat, bodyGen: Option<nat>, gen: nat, snap: Snap)
    | Listed(floor: nat, bodyGen: Option<nat>, snap: Snap)
    | Answered(floor: nat, snap: Snap)

  /** A writer before and after its transaction: the version it left, 0 when it wrote nothing. */
  datatype Writer = Pending | Ended(version: nat)

  /** versions are the ledger after each commit, settled is the latest version a returned write left. */
  datatype World = World(versions: seq<Rows>, gen: nat, body: Option<Snap>, entries: Option<Snap>,
                         readers: map<nat, Reader>, writers: map<nat, Writer>, settled: nat)

  datatype Event =
    | WriteBegin(id: nat)
    | WriteCommit(id: nat, write: Write)
    | WriteReturn(id: nat)
    | ReadBegin(id: nat, json: bool)
    | LoadBody(id: nat)
    | LoadEntries(id: nat)
    | View(id: nat)
    | StoreEntries(id: nat)
    | StoreBody(id: nat)
    | Fail(id: nat)

  const START: World := World([map[]], 0, None, None, map[], map[], 0)

  predicate Enabled(w: World, e: Event) {
    match e
    case WriteBegin(id) => id !in w.writers
    case WriteCommit(id, _) => id in w.writers && w.writers[id] == Pending && w.versions != []
    case WriteReturn(id) => id in w.writers && w.writers[id].Ended?
    case ReadBegin(id, _) => id !in w.readers
    case LoadBody(id) => id in w.readers && w.readers[id].Started? && w.readers[id].json
    case LoadEntries(id) =>
      id in w.readers && (w.readers[id].Inner? || (w.readers[id].Started? && !w.readers[id].json))
    case View(id) => id in w.readers && w.readers[id].Missed? && w.versions != []
    case StoreEntries(id) => id in w.readers && w.readers[id].Viewed?
    case StoreBody(id) => id in w.readers && w.readers[id].Listed?
    case Fail(id) => id in w.readers && !w.readers[id].Answered?
  }

  /** What a finished inner List hands on: the answer of a List, the rows a ListJSON encodes. */
  function HandOn(floor: nat, bodyGen: Option<nat>, snap: Snap): Reader {
    if bodyGen == None then Answered(floor, snap) else Listed(floor, bodyGen, snap)
  }

  function Next(env: Env, w: World, e: Event): World
    requires Enabled(w, e)
  {
    match e
    case WriteBegin(id) => w.(writers := w.writers[id := Pending])
    case WriteCommit(id, write) =>
      var after := Written(env, w.versions[|w.versions| - 1], write);
      if after == None then w.(writers := w.writers[id := Ended(0)])
      else w.(versions := w.versions + [after.value], writers := w.writers[id := Ended(|w.versions|)])
    case WriteReturn(id) =>
      var version := w.writers[id].version;
      w.(gen := w.gen + 1, body := None, entries := None, writers := w.writers - {id},
         settled := if version > w.settled then version else w.settled)
    case ReadBegin(id, json) => w.(readers := w.readers[id := Started(json, w.settled)])
    case LoadBody(id) =>
      var floor := w.readers[id].floor;
      if w.body.Some? then w.(readers := w.readers[id := Answered(floor, w.body.value)])
      else w.(readers := w.readers[id := Inner(floor, Some(w.gen))])
    case LoadEntries(id) =>
      var r := w.readers[id];
      var bodyGen := if r.Inner? then r.bodyGen else None;
      if w.entries.Some? then w.(readers := w.readers[id := HandOn(r.floor, bodyGen, w.entries.value)])
      else w.(readers := w.readers[id := Missed(r.floor, bodyGen, w.gen)])
    case View(id) =>
      var r, last := w.readers[id], |w.versions| - 1;
      w.(readers := w.readers[id := Viewed(r.floor, r.bodyGen, r.gen, Snap(last, Listing(w.versions[last])))])
    case StoreEntries(id) =>
      var r := w.readers[id];
      var stored := if w.gen == r.gen && r.snap.list != [] then w.(entries := Some(r.snap)) else w;
      stored.(readers := w.readers[id := HandOn(r.floor, r.bodyGen, r.snap)])
    case StoreBody(id) =>
      var r := w.readers[id];
      var stored := if r.bodyGen == Some(w.gen) then w.(body := Some(r.snap)) else w;
      stored.(readers := w.readers[id := Answered(r.floor, r.snap)])
    case Fail(id) => w.(readers := w.readers - {id})
  }

  // ---- the invariant ----

  predicate Genuine(versions: seq<Rows>, snap: Snap) {
    snap.version < |versions| && snap.list == Listing(versions[snap.version])
  }

  /** A cached listing misses no write that has returned. */
  predicate CacheOk(w: World, cached: Option<Snap>) {
    cached.Some? ==> Genuine(w.versions, cached.value) && w.settled <= cached.value.version
  }

  /** A generation still current means nothing has settled since it was read. */
  predicate ReaderOk(versions: seq<Rows>, gen: nat, settled: nat, r: Reader) {
    && r.floor <= settled
    && match r
       case Started(_, _) => true
       case Inner(_, bodyGen) => bodyGen.Some? && bodyGen.value <= gen
       case Missed(_, bodyGen, g) => g <= gen && (bodyGen.Some? ==> bodyGen.value <= gen)
       case Viewed(floor, bodyGen, g, snap) =>
         && Genuine(versions, snap) && floor <= snap.version && g <= gen && (bodyGen.Some? ==> bodyGen.value <= gen)
         && (g == gen || bodyGen == Some(gen) ==> settled <= snap.version)
       case Listed(floor, bodyGen, snap) =>
         && Genuine(versions, snap) && floor <= snap.version && bodyGen.Some? && bodyGen.value <= gen
         && (bodyGen == Some(gen) ==> settled <= snap.version)
       case Answered(floor, snap) => Genuine(versions, snap) && floor <= snap.version
  }

  predicate Inv(w: World) {
    && w.settled < |w.versions|
    && CacheOk(w, w.body) && CacheOk(w, w.entries)
    && (forall id :: id in w.readers ==> ReaderOk(w.versions, w.gen, w.settled, w.readers[id]))
    && (forall id :: id in w.writers && w.writers[id].Ended? ==> w.writers[id].version < |w.versions|)
  }

  lemma CommitKeeps(env: Env, w: World, id: nat, write: Write)
    requires Inv(w) && Enabled(w, WriteCommit(id, write))
    ensures Inv(Next(env, w, WriteCommit(id, write)))
  {
    hide Listing, Written;
    var next := Next(env, w, WriteCommit(id, write));
    forall r | r in w.readers ensures ReaderOk(next.versions, next.gen, next.settled, w.readers[r]) {
      assert ReaderOk(w.versions, w.gen, w.settled, w.readers[r]);
    }
  }

  /** Returning moves the generation, so no reader under way can store what it holds. */
  lemma ReturnKeeps(env: Env, w: World, id: nat)
    requires Inv(w) && Enabled(w, WriteReturn(id))
    ensures Inv(Next(env, w, WriteReturn(id)))
  {
    hide Listing;
    var next := Next(env, w, WriteReturn(id));
    forall r | r in w.readers ensures ReaderOk(next.versions, next.gen, next.settled, w.readers[r]) {
      assert ReaderOk(w.versions, w.gen, w.settled, w.readers[r]);
    }
  }

  predicate ReaderStep(e: Event) { e.LoadBody? || e.LoadEntries? || e.View? || e.StoreEntries? || e.StoreBody? }

  /** A reader's own step leaves it and the caches sound. */
  lemma ReaderKeeps(env: Env, w: World, e: Event)
    requires Inv(w) && Enabled(w, e) && ReaderStep(e)
    ensures var next := Next(env, w, e);
            && next.versions == w.versions && next.gen == w.gen && next.settled == w.settled
            && next.writers == w.writers
            && ReaderOk(w.versions, w.gen, w.settled, next.readers[e.id])
            && CacheOk(next, next.body) && CacheOk(next, next.entries)
            && next.readers == w.readers[e.id := next.readers[e.id]]
  {
    hide Listing;
    assert ReaderOk(w.versions, w.gen, w.settled, w.readers[e.id]);
  }

  lemma ReadKeeps(env: Env, w: World, e: Event)
    requires Inv(w) && Enabled(w, e) && !e.WriteCommit? && !e.WriteReturn?
    ensures Inv(Next(env, w, e))
  {
    hide Listing, CacheOk, HandOn;
    if ReaderStep(e) {
      ReaderKeeps(env, w, e);
      hide Next;
      var next := Next(env, w, e);
      forall id | id in next.readers ensures ReaderOk(w.versions, w.gen, w.settled, next.readers[id]) {
        if id != e.id { assert next.readers[id] == w.readers[id]; }
      }
    } else {
      SameCaches(w, Next(env, w, e));
    }
  }

  lemma SameCaches(w: World, next: World)
    requires next.versions == w.versions && next.settled == w.settled
    ensures forall cached :: CacheOk(w, cached) <==> CacheOk(next, cached)
  {
  }

  lemma StepKeeps(env: Env, w: World, e: Event)
    requires Inv(w) && Enabled(w, e)
    ensures Inv(Next(env, w, e))
  {
    hide Inv, Next, Enabled;
    match e
    case WriteCommit(id, write) => CommitKeeps(env, w, id, write);
    case WriteReturn(id) => ReturnKeeps(env, w, id);
    case _ => ReadKeeps(env, w, e);
  }

  predicate Legal(env: Env, w: World, run: seq<Event>)
    decreases |run|
  {
    run == [] || (Enabled(w, run[0]) && Legal(env, Next(env, w, run[0]), run[1..]))
  }

  function After(env: Env, w: World, run: seq<Event>): World
    requires Legal(env, w, run)
    decreases |run|
  {
    if run == [] then w else After(env, Next(env, w, run[0]), run[1..])
  }

  predicate Extends(a: seq<Rows>, b: seq<Rows>) { |a| <= |b| && b[..|a|] == a }

  /** A reader that is under way keeps the floor it started with. */
  predicate Floor(w: World, id: nat, floor: nat) { id in w.readers ==> w.readers[id].floor >= floor }

  lemma StepHistory(env: Env, w: World, e: Event, id: nat, floor: nat)
    requires Enabled(w, e) && Floor(w, id, floor) && floor <= w.settled
    ensures var next := Next(env, w, e);
            Extends(w.versions, next.versions) && w.settled <= next.settled && Floor(next, id, floor)
  {
    hide Listing, Written;
  }

  lemma {:induction false} RunKeeps(env: Env, w: World, run: seq<Event>, id: nat, floor: nat)
    requires Inv(w) && Legal(env, w, run) && Floor(w, id, floor) && floor <= w.settled
    ensures var t := After(env, w, run);
            Inv(t) && Extends(w.versions, t.versions) && w.settled <= t.settled && Floor(t, id, floor)
    decreases |run|
  {
    hide Inv, Next, Enabled, Floor;
    if run != [] {
      var next := Next(env, w, run[0]);
      StepKeeps(env, w, run[0]);
      StepHistory(env, w, run[0], id, floor);
      RunKeeps(env, next, run[1..], id, floor);
      var t := After(env, w, run);
      assert t.versions[..|w.versions|] == t.versions[..|next.versions|][..|w.versions|];
    }
  }

  lemma StartOk()
    ensures Inv(START)
  {
  }

  /** After any run a write returns, leaving version v; a List or ListJSON that starts then answers, after
      any further run, the ledger of a version no older than v: it never misses the write. */
  lemma NoAnswerMissesAReturnedWrite(env: Env, before: seq<Event>, writer: nat, reader: nat, json: bool,
                                     after: seq<Event>)
    requires Legal(env, START, before) && Enabled(After(env, START, before), WriteReturn(writer))
    requires var w := Next(env, After(env, START, before), WriteReturn(writer));
             Enabled(w, ReadBegin(reader, json)) && Legal(env, Next(env, w, ReadBegin(reader, json)), after)
    ensures var s := After(env, START, before);
            var version := s.writers[writer].version;
            var t := After(env, Next(env, Next(env, s, WriteReturn(writer)), ReadBegin(reader, json)), after);
            && Extends(s.versions, t.versions)
            && (reader in t.readers && t.readers[reader].Answered? ==>
                  var snap := t.readers[reader].snap;
                  && version <= snap.version < |t.versions|
                  && ListsRows(snap.list, t.versions[snap.version]))
  {
    hide Legal, After, Listing, CacheOk;
    StartOk();
    RunKeeps(env, START, before, reader, 0);
    var s := After(env, START, before);
    var w := Next(env, s, WriteReturn(writer));
    StepKeeps(env, s, WriteReturn(writer));
    StepKeeps(env, w, ReadBegin(reader, json));
    var r := Next(env, w, ReadBegin(reader, json));
    RunKeeps(env, r, after, reader, w.settled);
    var t := After(env, r, after);
    if reader in t.readers && t.readers[reader].Answered? {
      ListingIsRows(t.versions[t.readers[reader].snap.version]) by {
        assert ReaderOk(t.versions, t.gen, t.settled, t.readers[reader]);
      }
    }
    if reader in t.readers { assert ReaderOk(t.versions, t.gen, t.settled, t.readers[reader]); }
  }
}
