/** The session registry listing and its caches (pkg/session-liveness-checker.go). A registry maps file
    names to files; parsing a file yields the session id it carries, if any. */
module Registry {
  import opened Text
  import opened Calendar

  /** stamp is size and modification time, changed by every write; session is None when the file does not
      parse or names none. born and carried record when the file was created and what it has carried. */
  datatype File = File(stamp: nat, session: Option<string>, born: nat, carried: set<string>)

  type Files = map<string, File>

  datatype EntryStamp = EntryStamp(stamp: nat, sessionID: string)

  type Stamps = map<string, EntryStamp>

  /** A listing under way: the ids so far, whether every file resolved, and the stamps to keep. */
  datatype Listing = Listing(ids: seq<string>, complete: bool, next: Stamps)

  const NO_LISTING: Listing := Listing([], true, map[])

  const CACHE_WINDOW: int := NS_PER_SECOND
  const FRESH_WINDOW: int := NS_PER_SECOND

  predicate IsJson(name: string) { |name| >= 5 && name[|name| - 5..] == ".json" }

  function StampOf(files: Files, name: string): Option<nat> {
    if name in files then Some(files[name].stamp) else None
  }

  function Parsed(files: Files, name: string): Option<string> {
    if name in files && files[name].session != Some("") then files[name].session else None
  }

  predicate Reusable(held: Stamps, name: string, stamp: nat) { name in held && held[name].stamp == stamp }

  /** An entry resolved to a session id, under its stamp. */
  function Resolved(l: Listing, name: string, entry: EntryStamp): Listing {
    Listing(if entry.sessionID == "" then l.ids else l.ids + [entry.sessionID], l.complete, l.next[name := entry])
  }

  /** stampOf for one listed name in an undisturbed registry. */
  function ListOne(l: Listing, held: Stamps, files: Files, name: string): Listing {
    if !IsJson(name) then l
    else if name !in files then l.(complete := false)
    else
      var stamp := files[name].stamp;
      if Reusable(held, name, stamp) then Resolved(l, name, held[name])
      else
        match Parsed(files, name)
        case None => l.(complete := false)
        case Some(id) => Resolved(l, name, EntryStamp(stamp, id))
  }

  function ListAll(held: Stamps, files: Files, names: seq<string>): Listing {
    if names == [] then NO_LISTING
    else ListOne(ListAll(held, files, names[..|names| - 1]), held, files, names[|names| - 1])
  }

  /** A stamp still current stands for the id the file carries. */
  predicate Honest(held: Stamps, files: Files) {
    forall name :: name in held && name in files && held[name].stamp == files[name].stamp ==>
      held[name].sessionID != "" && files[name].session == Some(held[name].sessionID)
  }

  /** Stamps a listing of these files left. */
  predicate TakenFrom(held: Stamps, files: Files) {
    forall name :: name in held ==> name in files && held[name].stamp == files[name].stamp
  }

  /** Between two moments a file that kept its stamp kept its session. */
  predicate Follows(files: Files, later: Files) {
    forall name :: name in files && name in later && files[name].stamp == later[name].stamp ==>
      files[name].session == later[name].session
  }

  lemma TakenStaysHonest(held: Stamps, files: Files, later: Files)
    requires Honest(held, files) && TakenFrom(held, files) && Follows(files, later)
    ensures Honest(held, later)
  {
  }

  /** The stamp cache is invisible: a listing that reuses stamps is the listing that reads every file. */
  lemma {:induction false} StampsChangeNothing(held: Stamps, files: Files, names: seq<string>)
    requires Honest(held, files)
    ensures ListAll(held, files, names) == ListAll(map[], files, names)
    ensures Honest(ListAll(held, files, names).next, files) && TakenFrom(ListAll(held, files, names).next, files)
  {
    if names != [] { StampsChangeNothing(held, files, names[..|names| - 1]); }
  }

  /** A complete listing holds exactly the sessions of the registry's files. */
  lemma {:induction false} ListingMeaning(files: Files, names: seq<string>)
    ensures var l := ListAll(map[], files, names);
            && (l.complete <==> forall n :: n in names && IsJson(n) ==> Parsed(files, n).Some?)
            && (forall id :: id in l.ids <==> exists n :: n in names && IsJson(n) && Parsed(files, n) == Some(id))
  {
    hide IsJson;
    if names != [] {
      var front, last := names[..|names| - 1], names[|names| - 1];
      assert names == front + [last];
      ListingMeaning(files, front);
      assert forall n :: n in names <==> n in front || n == last;
      var before, l := ListAll(map[], files, front), ListAll(map[], files, names);
      forall id ensures id in l.ids <==> exists n :: n in names && IsJson(n) && Parsed(files, n) == Some(id) {
        assert id in l.ids <==> id in before.ids || (IsJson(last) && Parsed(files, last) == Some(id));
      }
    }
  }

  /** One call's view of the registry: None when it cannot be opened or listed, or not statted. */
  datatype Directory = Directory(files: Files, names: seq<string>, readable: bool, modTime: Option<nat>)

  ghost predicate WellListed(d: Directory) { forall n :: n in d.names <==> n in d.files }

  /** The sessions some registry file carries. */
  function LiveIDs(files: Files): set<string> {
    set n | n in files && IsJson(n) && Parsed(files, n).Some? :: Parsed(files, n).value
  }

  /** By text: the ids that files named in `.json` carry, a blank one carrying none. */
  lemma LiveByText(files: Files, id: string)
    ensures id in LiveIDs(files) <==>
              id != "" && exists base :: base + ".json" in files && files[base + ".json"].session == Some(id)
  {
    if id in LiveIDs(files) {
      var n :| n in files && IsJson(n) && Parsed(files, n) == Some(id);
      assert n == n[..|n| - 5] + ".json";
    }
    if base :| base + ".json" in files && files[base + ".json"].session == Some(id) {
      assert (base + ".json")[|base|..] == ".json";
      assert id != "" ==> Parsed(files, base + ".json") == Some(id);
    }
  }

  datatype Fresh = Fresh(ids: seq<string>, at: Instant, dirMod: nat)
  datatype Cached = Cached(ids: seq<string>, readable: bool, at: Instant)

  class SessionRegistry {
    var entryStamps: Stamps
    var cached: Option<Cached>
    var held: Option<Fresh>

    constructor ()
      ensures entryStamps == map[] && cached == None && held == None
    {
      entryStamps, cached, held := map[], None, None;
    }

    /** The stamps held stand for what directory d's files carry. */
    predicate Valid(d: Directory)
      reads this
    {
      Honest(entryStamps, d.files)
    }

    /** The listing LiveSessions serves is still inside its window. */
    predicate CacheServes(now: Instant)
      reads this
    {
      cached.Some? && now - cached.value.at < CACHE_WINDOW
    }

    /** The fresh listing is reused: the directory's stamp is the one it was taken under, and it is young. */
    predicate FreshServes(d: Directory, now: Instant)
      reads this
    {
      held.Some? && d.modTime == Some(held.value.dirMod) && 0 <= now - held.value.at < FRESH_WINDOW
    }

    /** What either listing says of a session: not readable reads as live. */
    predicate CacheSaysLive(d: Directory, sessionID: string, now: Instant)
      reads this
    {
      if CacheServes(now) then !cached.value.readable || sessionID in cached.value.ids
      else !d.readable || sessionID in LiveIDs(d.files)
    }

    predicate FreshSaysLive(d: Directory, sessionID: string, now: Instant)
      reads this
    {
      if FreshServes(d, now) then sessionID in held.value.ids else !d.readable || sessionID in LiveIDs(d.files)
    }

    method ListResolved(d: Directory) returns (ids: seq<string>, readable: bool, complete: bool)
      requires Honest(entryStamps, d.files)
      modifies this`entryStamps
      ensures Honest(entryStamps, d.files) && readable == d.readable
      ensures !readable ==> ids == [] && !complete && entryStamps == old(entryStamps)
      ensures entryStamps == old(entryStamps) || TakenFrom(entryStamps, d.files)
      ensures readable ==>
                ids == ListAll(map[], d.files, d.names).ids && complete == ListAll(map[], d.files, d.names).complete
    {
      hide IsJson;
      StampsChangeNothing(entryStamps, d.files, d.names);
      if !d.readable { return [], false, false; }
      ids, complete := [], true;
      var next: Stamps := map[];
      for i := 0 to |d.names|
        invariant entryStamps == old(entryStamps)
        invariant Listing(ids, complete, next) == ListAll(entryStamps, d.files, d.names[..i])
      {
        var name := d.names[i];
        assert d.names[..i + 1][..i] == d.names[..i];
        if !IsJson(name) { continue; }
        var stamp := StampOf(d.files, name);
        if stamp == None {
          complete := false;
          continue;
        }
        var entry: EntryStamp;
        if Reusable(entryStamps, name, stamp.value) {
          entry := entryStamps[name];
        } else {
          var id := Parsed(d.files, name);
          if id == None {
            complete := false;
            continue;
          }
          entry := EntryStamp(stamp.value, id.value);
        }
        next := next[name := entry];
        if entry.sessionID == "" { continue; }
        ids := ids + [entry.sessionID];
      }
      assert d.names[..|d.names|] == d.names;
      entryStamps := next;
      readable := true;
    }

    /** A listing at most a window old, else a new one stamped when it returned. */
    method LiveSessions(d: Directory, now: Instant, done: Instant) returns (ids: seq<string>, readable: bool)
      requires Valid(d)
      modifies this`entryStamps, this`cached
      ensures Valid(d) && (entryStamps == old(entryStamps) || TakenFrom(entryStamps, d.files))
      ensures old(CacheServes(now)) <==> old(cached).Some? && now < old(cached).value.at + 1_000_000_000
      ensures if old(CacheServes(now)) then
                cached == old(cached) && ids == cached.value.ids && readable == cached.value.readable
              else
                && cached == Some(Cached(ids, readable, done)) && readable == d.readable
                && ids == if readable then ListAll(map[], d.files, d.names).ids else []
    {
      if CacheServes(now) { return cached.value.ids, cached.value.readable; }
      var complete;
      ids, readable, complete := ListResolved(d);
      cached := Some(Cached(ids, readable, done));
    }

    /** The listing behind a miss: the held one under the directory's own stamp within the window, even if
        a file was rewritten in place since; else a new one, the directory's sessions, held only when the
        stamp is known and every entry resolved. */
    method LiveSessionsFresh(d: Directory, now: Instant, done: Instant) returns (ids: seq<string>, readable: bool)
      requires Valid(d) && WellListed(d)
      modifies this`entryStamps, this`held
      ensures Valid(d)
      ensures old(FreshServes(d, now)) <==>
                old(held).Some? && d.modTime == Some(old(held).value.dirMod)
                && old(held).value.at <= now < old(held).value.at + 1_000_000_000
      ensures if old(FreshServes(d, now)) then readable && held == old(held) && ids == held.value.ids
              else
                && readable == d.readable && (readable ==> forall id :: id in ids <==> id in LiveIDs(d.files))
                && held == if readable && d.modTime.Some? && ListAll(map[], d.files, d.names).complete
                           then Some(Fresh(ids, done, d.modTime.value)) else None
    {
      hide IsJson, Honest;
      FreshMeaning(d);
      if FreshServes(d, now) { return held.value.ids, true; }
      var complete;
      ids, readable, complete := ListResolved(d);
      if d.modTime.None? || !readable || !complete {
        held := None;
        return;
      }
      held := Some(Fresh(ids, done, d.modTime.value));
    }

    /** A session is live exactly when it is named and either listing says so: the cached one of directory d,
        or the fresh one of d', which may have changed since. */
    method IsLive(d: Directory, d': Directory, sessionID: string, now: Instant, done: Instant, now': Instant,
                  done': Instant)
      returns (live: bool)
      requires Valid(d) && Valid(d') && WellListed(d) && WellListed(d') && Follows(d.files, d'.files)
      modifies this
      ensures Valid(d')
      ensures live <==>
                sessionID != "" && (old(CacheSaysLive(d, sessionID, now)) || old(FreshSaysLive(d', sessionID, now')))
    {
      hide Honest, LiveIDs;
      FreshMeaning(d);
      if sessionID == "" { return false; }
      var ids, readable := LiveSessions(d, now, done);
      if TakenFrom(entryStamps, d.files) { TakenStaysHonest(entryStamps, d.files, d'.files); }
      if !readable { return true; }
      if sessionID in ids { return true; }
      ids, readable := LiveSessionsFresh(d', now', done');
      if !readable { return true; }
      return sessionID in ids;
    }
  }

  lemma FreshMeaning(d: Directory)
    requires WellListed(d)
    ensures forall id :: id in ListAll(map[], d.files, d.names).ids <==> id in LiveIDs(d.files)
  {
    hide IsJson;
    ListingMeaning(d.files, d.names);
  }

  // ---- one read's liveness source ----

  datatype Snapshot = Snapshot(ids: seq<string>, readable: bool)

  /** An unreadable registry reports every session live. */
  predicate SnapshotLive(s: Snapshot, sessionID: string) {
    sessionID != "" && (!s.readable || sessionID in s.ids)
  }

  /** readSessionLiveness: one snapshot, and at most one fresh listing behind the first miss. */
  class ReadLiveness {
    var resolved: Option<Snapshot>
    var rechecked: bool
    var listings: nat

    constructor ()
      ensures Valid() && resolved == None && listings == 0
    {
      resolved, rechecked, listings := None, false, 0;
    }

    predicate Valid()
      reads this
    {
      && (rechecked ==> resolved.Some?)
      && listings == (if resolved.Some? then 1 else 0) + if rechecked then 1 else 0
    }

    /** snapshot and fresh are what the checker would answer now; each is asked for at most once. */
    method IsLive(sessionID: string, snapshot: Snapshot, latest: Snapshot) returns (live: bool)
      requires Valid()
      modifies this
      ensures Valid() && resolved.Some? && old(listings) <= listings <= 2
      ensures live == SnapshotLive(resolved.value, sessionID)
      ensures live <==> sessionID != "" && (!resolved.value.readable || sessionID in resolved.value.ids)
      ensures !live ==> rechecked
      ensures resolved == (if rechecked && !old(rechecked) then Some(latest)
                           else if old(resolved).Some? then old(resolved) else Some(snapshot))
    {
      if resolved == None { resolved, listings := Some(snapshot), listings + 1; }
      if SnapshotLive(resolved.value, sessionID) { return true; }
      if rechecked { return false; }
      rechecked, listings := true, listings + 1;
      resolved := Some(latest);
      return SnapshotLive(resolved.value, sessionID);
    }
  }
}
