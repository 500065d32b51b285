/** Fresh listings of the registry while sessions come and go (pkg/session-liveness-checker.go). Each stat
    and each read is a step; any number of listings overlap. */
module RegistryRuns {
  import opened Text
  import opened Calendar
  import opened Registry

  /** A call after its directory stat (None when that failed), while listing, and done. plain marks a
      cached listing's own walk, which never stats the directory and publishes no fresh listing. An answer
      is trusted when it was held for reuse or could be. */
  datatype Call =
    | Statted(dirMod: Option<nat>)
    | Walking(dirMod: Option<nat>, plain: bool, todo: seq<string>, stat: Option<nat>, listing: Listing)
    | Answered(dirMod: Option<nat>, ids: seq<string>, readable: bool, trusted: bool)

  /** modTime is the directory's, set by each creation and removal; tick counts writes of any kind. */
  datatype World = World(files: Files, modTime: nat, tick: nat, entryStamps: Stamps, held: Option<Fresh>,
                         calls: map<nat, Call>)

  const START: World := World(map[], 0, 0, map[], None, map[])

  datatype Event =
    | Create(name: string, session: Option<string>)
    | Rewrite(name: string, session: Option<string>)
    | Vanish(name: string)
    | StatDir(id: nat, ok: bool)
    | Reuse(id: nat, now: Instant)
    | OpenFails(id: nat)
    | OpenListing(id: nat, plain: bool, names: seq<string>)
    | StatEntry(id: nat, ok: bool)
    | ReadEntry(id: nat, ok: bool)
    | CloseListing(id: nat, now: Instant)

  predicate Enabled(w: World, e: Event) {
    match e
    case Create(name, _) => name !in w.files
    case Rewrite(name, _) => name in w.files
    case Vanish(name) => name in w.files
    case StatDir(id, _) => id !in w.calls
    case Reuse(id, now) =>
      && id in w.calls && w.calls[id].Statted? && w.calls[id].dirMod.Some? && w.held.Some?
      && w.held.value.dirMod == w.calls[id].dirMod.value && 0 <= now - w.held.value.at < FRESH_WINDOW
    case OpenFails(id) => id in w.calls && w.calls[id].Statted?
    case OpenListing(id, plain, names) =>
      && (if plain then id !in w.calls else id in w.calls && w.calls[id].Statted?)
      && forall n :: n in w.files ==> n in names
    case StatEntry(id, _) => id in w.calls && w.calls[id].Walking? && w.calls[id].todo != [] && w.calls[id].stat == None
    case ReadEntry(id, _) => id in w.calls && w.calls[id].Walking? && w.calls[id].todo != [] && w.calls[id].stat.Some?
    case CloseListing(id, _) => id in w.calls && w.calls[id].Walking? && w.calls[id].todo == []
  }

  function CarriedBy(session: Option<string>): set<string> { if session.Some? then {session.value} else {} }

  /** stampOf up to the read: skip, give up on the entry, reuse its id, or go on to read it. */
  function StatTurn(c: Call, held: Stamps, stamp: Option<nat>): Call
    requires c.Walking? && c.todo != []
  {
    var name := c.todo[0];
    if !IsJson(name) then c.(todo := c.todo[1..])
    else if stamp == None then c.(todo := c.todo[1..], listing := c.listing.(complete := false))
    else if Reusable(held, name, stamp.value) then
      c.(todo := c.todo[1..], listing := Resolved(c.listing, name, held[name]))
    else c.(stat := stamp)
  }

  function ReadTurn(c: Call, session: Option<string>): Call
    requires c.Walking? && c.todo != [] && c.stat.Some?
  {
    if session == None then c.(todo := c.todo[1..], stat := None, listing := c.listing.(complete := false))
    else c.(todo := c.todo[1..], stat := None,
            listing := Resolved(c.listing, c.todo[0], EntryStamp(c.stat.value, session.value)))
  }

  function Next(w: World, e: Event): World
    requires Enabled(w, e)
  {
    match e
    case Create(name, session) =>
      w.(tick := w.tick + 1, modTime := w.tick + 1,
         files := w.files[name := File(w.tick + 1, session, w.tick + 1, CarriedBy(session))])
    case Rewrite(name, session) =>
      var f := w.files[name];
      w.(tick := w.tick + 1,
         files := w.files[name := File(w.tick + 1, session, f.born, f.carried + CarriedBy(session))])
    case Vanish(name) => w.(tick := w.tick + 1, modTime := w.tick + 1, files := w.files - {name})
    case StatDir(id, ok) => w.(calls := w.calls[id := Statted(if ok then Some(w.modTime) else None)])
    case Reuse(id, now) => w.(calls := w.calls[id := Answered(w.calls[id].dirMod, w.held.value.ids, true, true)])
    case OpenFails(id) => w.(held := None, calls := w.calls[id := Answered(w.calls[id].dirMod, [], false, false)])
    case OpenListing(id, plain, names) =>
      w.(calls := w.calls[id := Walking(if plain then None else w.calls[id].dirMod, plain, names, None, NO_LISTING)])
    case StatEntry(id, ok) =>
      var c := w.calls[id];
      w.(calls := w.calls[id := StatTurn(c, w.entryStamps, if ok then StampOf(w.files, c.todo[0]) else None)])
    case ReadEntry(id, ok) =>
      var c := w.calls[id];
      w.(calls := w.calls[id := ReadTurn(c, if ok then Parsed(w.files, c.todo[0]) else None)])
    case CloseListing(id, now) =>
      var c := w.calls[id];
      var kept := c.dirMod.Some? && c.listing.complete;
      World(w.files, w.modTime, w.tick, c.listing.next,
            if c.plain then w.held else if kept then Some(Fresh(c.listing.ids, now, c.dirMod.value)) else None,
            w.calls[id := Answered(c.dirMod, c.listing.ids, true, kept)])
  }

  // ---- the invariant ----

  predicate FilesOk(w: World) {
    && w.modTime <= w.tick
    && forall n :: n in w.files ==>
         && w.files[n].stamp <= w.tick && w.files[n].born <= w.modTime
         && (w.files[n].session.Some? ==> w.files[n].session.value in w.files[n].carried)
  }

  predicate StampsOk(held: Stamps, w: World) {
    Honest(held, w.files) && forall n :: n in held ==> held[n].stamp <= w.tick
  }

  ghost predicate Hit(ids: seq<string>, carried: set<string>) { exists id :: id in carried && id in ids }

  /** Each session file as old as the directory stamp, bar the names still to come, has an id listed. */
  ghost predicate Covers(ids: seq<string>, dirMod: nat, todo: seq<string>, files: Files) {
    forall n :: n in files && IsJson(n) && files[n].born <= dirMod && n !in todo ==> Hit(ids, files[n].carried)
  }

  ghost predicate CallOk(c: Call, w: World) {
    && (c.dirMod.Some? ==> c.dirMod.value <= w.tick)
    && match c
       case Statted(_) => true
       case Walking(dirMod, _, todo, stat, l) =>
         && StampsOk(l.next, w) && (stat.Some? ==> stat.value <= w.tick && todo != [])
         && (dirMod.Some? && l.complete ==> Covers(l.ids, dirMod.value, todo, w.files))
       case Answered(dirMod, ids, _, trusted) => trusted ==> dirMod.Some? && Covers(ids, dirMod.value, [], w.files)
  }

  ghost predicate Inv(w: World) {
    && FilesOk(w) && StampsOk(w.entryStamps, w)
    && (w.held.Some? ==> w.held.value.dirMod <= w.tick && Covers(w.held.value.ids, w.held.value.dirMod, [], w.files))
    && forall id :: id in w.calls ==> CallOk(w.calls[id], w)
  }

  // ---- registry changes ----

  predicate FileStep(e: Event) { e.Create? || e.Rewrite? || e.Vanish? }

  lemma CoversAfterChange(w: World, e: Event, ids: seq<string>, dirMod: nat, todo: seq<string>)
    requires FilesOk(w) && FileStep(e) && Enabled(w, e) && dirMod <= w.tick && Covers(ids, dirMod, todo, w.files)
    ensures Covers(ids, dirMod, todo, Next(w, e).files)
  {
    hide IsJson;
    var files := Next(w, e).files;
    forall n | n in files && IsJson(n) && files[n].born <= dirMod && n !in todo ensures Hit(ids, files[n].carried) {
      assert n in w.files && Hit(ids, w.files[n].carried);
      var id :| id in w.files[n].carried && id in ids;
      assert id in files[n].carried;
    }
  }

  lemma StampsAfterChange(w: World, e: Event, held: Stamps)
    requires FilesOk(w) && FileStep(e) && Enabled(w, e) && StampsOk(held, w)
    ensures StampsOk(held, Next(w, e))
  {
  }

  lemma ChangeKeeps(w: World, e: Event)
    requires Inv(w) && FileStep(e) && Enabled(w, e)
    ensures Inv(Next(w, e))
  {
    hide Covers, StampsOk;
    var next := Next(w, e);
    StampsAfterChange(w, e, w.entryStamps);
    if w.held.Some? { CoversAfterChange(w, e, w.held.value.ids, w.held.value.dirMod, []); }
    forall id | id in w.calls ensures CallOk(w.calls[id], next) {
      var c := w.calls[id];
      assert CallOk(c, w);
      match c
      case Statted(_) =>
      case Walking(dirMod, _, todo, _, l) =>
        StampsAfterChange(w, e, l.next);
        if dirMod.Some? && l.complete { CoversAfterChange(w, e, l.ids, dirMod.value, todo); }
      case Answered(dirMod, ids, _, trusted) =>
        if trusted { CoversAfterChange(w, e, ids, dirMod.value, []); }
    }
  }

  // ---- listings ----

  lemma ResolvedCovers(w: World, c: Call, entry: EntryStamp)
    requires CallOk(c, w) && c.Walking? && c.todo != [] && FilesOk(w) && entry.stamp <= w.tick && entry.sessionID != ""
    requires c.todo[0] in w.files ==>
               (w.files[c.todo[0]].stamp == entry.stamp ==> w.files[c.todo[0]].session == Some(entry.sessionID))
               && entry.sessionID in w.files[c.todo[0]].carried
    ensures CallOk(c.(todo := c.todo[1..], stat := None, listing := Resolved(c.listing, c.todo[0], entry)), w)
  {
    hide IsJson, FilesOk;
    var l := Resolved(c.listing, c.todo[0], entry);
    if c.dirMod.Some? && l.complete {
      assert c.todo == [c.todo[0]] + c.todo[1..];
      forall n | n in w.files && IsJson(n) && w.files[n].born <= c.dirMod.value && n !in c.todo[1..]
        ensures Hit(l.ids, w.files[n].carried)
      {
        if n == c.todo[0] { assert entry.sessionID in w.files[n].carried && entry.sessionID in l.ids; }
        else {
          assert n !in c.todo && Hit(c.listing.ids, w.files[n].carried);
          var id :| id in w.files[n].carried && id in c.listing.ids;
          assert id in l.ids;
        }
      }
    }
  }

  lemma SkippedCovers(w: World, c: Call)
    requires CallOk(c, w) && c.Walking? && c.todo != []
    ensures CallOk(c.(todo := c.todo[1..], stat := None, listing := c.listing.(complete := false)), w)
    ensures !IsJson(c.todo[0]) ==> CallOk(c.(todo := c.todo[1..], stat := None), w)
  {
    hide IsJson;
    assert c.todo == [c.todo[0]] + c.todo[1..];
  }

  lemma StatKeeps(w: World, id: nat, ok: bool)
    requires Inv(w) && Enabled(w, StatEntry(id, ok))
    ensures CallOk(Next(w, StatEntry(id, ok)).calls[id], w)
  {
    hide Resolved, IsJson, Covers;
    var c := w.calls[id];
    assert CallOk(c, w);
    var name := c.todo[0];
    var stamp := if ok then StampOf(w.files, name) else None;
    if !IsJson(name) || stamp == None { SkippedCovers(w, c); }
    else if Reusable(w.entryStamps, name, stamp.value) { ResolvedCovers(w, c, w.entryStamps[name]); }
  }

  lemma ReadKeeps(w: World, id: nat, ok: bool)
    requires Inv(w) && Enabled(w, ReadEntry(id, ok))
    ensures CallOk(Next(w, ReadEntry(id, ok)).calls[id], w)
  {
    hide Resolved, IsJson, Covers, StampsOk;
    var c := w.calls[id];
    assert CallOk(c, w);
    var session := if ok then Parsed(w.files, c.todo[0]) else None;
    if session == None { SkippedCovers(w, c); }
    else { ResolvedCovers(w, c, EntryStamp(c.stat.value, session.value)); }
  }

  lemma OpenKeeps(w: World, id: nat, plain: bool, names: seq<string>)
    requires Inv(w) && Enabled(w, OpenListing(id, plain, names))
    ensures CallOk(Next(w, OpenListing(id, plain, names)).calls[id], w)
  {
    hide IsJson;
    if !plain { assert CallOk(w.calls[id], w); }
  }

  lemma CallStepKeeps(w: World, e: Event)
    requires Inv(w) && !FileStep(e) && Enabled(w, e)
    ensures Inv(Next(w, e))
  {
    hide Covers, StatTurn, ReadTurn, FilesOk, Honest;
    var next := Next(w, e);
    match e {
      case StatEntry(id, ok) => StatKeeps(w, id, ok);
      case ReadEntry(id, ok) => ReadKeeps(w, id, ok);
      case OpenListing(id, plain, names) => OpenKeeps(w, id, plain, names);
      case CloseListing(id, _) => assert CallOk(w.calls[id], w);
      case Reuse(id, _) => assert CallOk(w.calls[id], w);
      case OpenFails(id) => assert CallOk(w.calls[id], w);
      case StatDir(id, _) => DirStatted(w);
    }
    SameFiles(w, next);
    forall id | id in next.calls ensures CallOk(next.calls[id], next) {
      if id in w.calls { assert CallOk(w.calls[id], w); }
    }
  }

  lemma DirStatted(w: World)
    requires FilesOk(w)
    ensures w.modTime <= w.tick
  {
  }

  lemma SameFiles(w: World, next: World)
    requires next.files == w.files && next.tick == w.tick && next.modTime == w.modTime
    ensures FilesOk(w) <==> FilesOk(next)
    ensures forall held :: StampsOk(held, w) <==> StampsOk(held, next)
    ensures forall c :: CallOk(c, w) <==> CallOk(c, next)
  {
  }

  lemma StepKeeps(w: World, e: Event)
    requires Inv(w) && Enabled(w, e)
    ensures Inv(Next(w, e))
  {
    hide Inv, Next, Enabled;
    if FileStep(e) { ChangeKeeps(w, e); } else { CallStepKeeps(w, e); }
  }

  // ---- runs ----

  predicate Legal(w: World, run: seq<Event>)
    decreases |run|
  {
    run == [] || (Enabled(w, run[0]) && Legal(Next(w, run[0]), run[1..]))
  }

  function After(w: World, run: seq<Event>): World
    requires Legal(w, run)
    decreases |run|
  {
    if run == [] then w else After(Next(w, run[0]), run[1..])
  }

  predicate Stat(w: World, id: nat, dirMod: Option<nat>) { id in w.calls && w.calls[id].dirMod == dirMod }

  lemma StepKeepsStat(w: World, e: Event, id: nat, dirMod: Option<nat>)
    requires Enabled(w, e) && Stat(w, id, dirMod)
    ensures Stat(Next(w, e), id, dirMod)
  {
    hide Resolved, IsJson;
  }

  lemma {:induction false} RunKeeps(w: World, run: seq<Event>, id: nat, dirMod: Option<nat>)
    requires Inv(w) && Legal(w, run) && Stat(w, id, dirMod)
    ensures Inv(After(w, run)) && Stat(After(w, run), id, dirMod)
    decreases |run|
  {
    hide Inv, Next, Enabled, Stat;
    if run != [] {
      StepKeeps(w, run[0]);
      StepKeepsStat(w, run[0], id, dirMod);
      RunKeeps(Next(w, run[0]), run[1..], id, dirMod);
    }
  }

  lemma {:induction false} ReachableInv(w: World, run: seq<Event>)
    requires Inv(w) && Legal(w, run)
    ensures Inv(After(w, run))
    decreases |run|
  {
    hide Inv, Next, Enabled;
    if run != [] {
      StepKeeps(w, run[0]);
      ReachableInv(Next(w, run[0]), run[1..]);
    }
  }

  lemma StartOk()
    ensures Inv(START)
  {
  }

  /** A fresh answer, served by reuse or from a complete walk of its own, misses no session file that was
      there when the call statted the directory and has not been removed since: some id the file has
      carried is listed, and so is its id when it has carried only one. */
  lemma FreshMissesNothing(before: seq<Event>, id: nat, run: seq<Event>, name: string)
    requires Legal(START, before) && Enabled(After(START, before), StatDir(id, true))
    requires Legal(Next(After(START, before), StatDir(id, true)), run)
    ensures var w := After(START, before);
            var t := After(Next(w, StatDir(id, true)), run);
            id in t.calls && t.calls[id].Answered? && t.calls[id].trusted && IsJson(name)
            && name in w.files && name in t.files && t.files[name].born == w.files[name].born ==>
              && Hit(t.calls[id].ids, t.files[name].carried)
              && (forall session :: t.files[name].carried == {session} ==> session in t.calls[id].ids)
  {
    hide Legal, After, IsJson, StampsOk, FileStep;
    StartOk();
    ReachableInv(START, before);
    var w := After(START, before);
    StepKeeps(w, StatDir(id, true));
    var first := Next(w, StatDir(id, true));
    RunKeeps(first, run, id, Some(w.modTime));
    var t := After(first, run);
    if id in t.calls && t.calls[id].Answered? && t.calls[id].trusted { assert CallOk(t.calls[id], t); }
  }

  lemma HeldWasComplete(w: World, e: Event)
    requires Enabled(w, e)
    ensures Next(w, e).held.Some? && Next(w, e).held != w.held ==>
              && e.CloseListing? && !w.calls[e.id].plain && w.calls[e.id].listing.complete && w.calls[e.id].dirMod.Some?
              && Next(w, e).held.value == Fresh(w.calls[e.id].listing.ids, e.now, w.calls[e.id].dirMod.value)
  {
    hide StatTurn, ReadTurn;
  }

  lemma {:induction false} HeldFrom(w: World, run: seq<Event>) returns (k: nat)
    requires Legal(w, run)
    ensures After(w, run).held != w.held && After(w, run).held.Some? ==>
              && k < |run| && Legal(w, run[..k]) && Enabled(After(w, run[..k]), run[k]) && run[k].CloseListing?
              && var c := After(w, run[..k]).calls[run[k].id];
                 !c.plain && c.listing.complete && c.dirMod.Some?
                 && After(w, run).held.value == Fresh(c.listing.ids, run[k].now, c.dirMod.value)
    decreases |run|
  {
    hide Next, Enabled;
    k := 0;
    if run != [] {
      var next, rest := Next(w, run[0]), run[1..];
      HeldWasComplete(w, run[0]);
      k := HeldFrom(next, rest);
      if After(next, rest).held == next.held || After(next, rest).held.None? {
        k := 0;
        assert run[..0] == [];
      } else {
        assert run[..k + 1][0] == run[0] && run[..k + 1][1..] == rest[..k];
        k := k + 1;
      }
    }
  }

  /** What is held for reuse at any moment of any run is the whole of one earlier walk, which began after
      a directory stat with the held stamp, resolved every entry, and closed at the held time. */
  lemma HeldIsACompleteWalk(run: seq<Event>) returns (k: nat)
    requires Legal(START, run) && After(START, run).held.Some?
    ensures k < |run| && Legal(START, run[..k]) && Enabled(After(START, run[..k]), run[k]) && run[k].CloseListing?
    ensures var c := After(START, run[..k]).calls[run[k].id];
            !c.plain && c.listing.complete && c.dirMod.Some?
            && After(START, run).held.value == Fresh(c.listing.ids, run[k].now, c.dirMod.value)
  {
    k := HeldFrom(START, run);
  }
}
