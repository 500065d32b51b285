/** Interleavings of file writes, ApplyPaths and Reconcile (pkg/task-index.go). Each stat, each read and
    each critical section is one step; a stat or a read may fail, a batch or a walk may be abandoned. */
module TaskRuns {
  import opened Text
  import opened Lex
  import opened TaskIndex

  /** An ApplyPaths at work: paths left, the head's stamp once taken, and what was read so far. */
  datatype Applying = Applying(todo: seq<string>, stat: Option<Option<Stamp>>, pending: seq<Pending>)

  /** A reconcile at work: its snapshot (before, with the rungs it was derived under, and the sequence),
      its own rungs, the listing left, the file being read, and the index it builds. */
  datatype Walking =
    | Claimed
    | Walking(before: Index, was: Rungs, baseSeq: nat, rungs: Rungs, todo: seq<string>, reading: Option<string>,
              built: Index)
    | Done

  datatype World = World(vault: Vault, tick: nat, serving: Index, rungs: Rungs, applied: nat,
                         applies: map<nat, Applying>, refreshing: Option<nat>, claims: nat, walks: map<nat, Walking>)

  datatype Event =
    | WriteFile(path: string, facts: Facts)
    | DeleteFile(path: string)
    | ApplyStart(id: nat, paths: seq<string>)
    | ApplyStat(id: nat, ok: bool)
    | ApplyRead(id: nat, ok: bool)
    | ApplyCommit(id: nat)
    | ApplyDrop(id: nat)
    | Claim
    | Snapshot(token: nat, rungs: Rungs, listing: seq<string>)
    | WalkStat(token: nat, ok: bool)
    | WalkRestat(token: nat, ok: bool)
    | WalkRead(token: nat, ok: bool)
    | InstallWalk(token: nat)
    | Finish(token: nat)

  function TaskPaths(paths: seq<string>): seq<string> {
    if paths == [] then []
    else
      var before, task := TaskPaths(paths[..|paths| - 1]), TaskPath(paths[|paths| - 1]);
      if task == None then before else before + [task.value]
  }

  function StatOf(vault: Vault, path: string, ok: bool): Option<Stamp> {
    if ok && path in vault then Some(vault[path].stamp) else None
  }

  function ReadOf(vault: Vault, path: string, ok: bool): Option<Facts> {
    if ok && path in vault then Some(vault[path].facts) else None
  }

  predicate Midwalk(s: World, token: nat) { token in s.walks && s.walks[token].Walking? }

  predicate Enabled(s: World, e: Event) {
    match e
    case WriteFile(_, _) => true
    case DeleteFile(_) => true
    case ApplyStart(id, _) => id !in s.applies
    case ApplyStat(id, _) => id in s.applies && s.applies[id].todo != [] && s.applies[id].stat == None
    case ApplyRead(id, _) => id in s.applies && s.applies[id].todo != [] && s.applies[id].stat.Some?
    case ApplyCommit(id) => id in s.applies && s.applies[id].todo == []
    case ApplyDrop(id) => id in s.applies
    case Claim => s.refreshing == None
    case Snapshot(token, _, listing) => token in s.walks && s.walks[token] == Claimed && Increasing(listing)
    case WalkStat(token, _) => Midwalk(s, token) && s.walks[token].todo != [] && s.walks[token].reading == None
    case WalkRestat(token, _) => Midwalk(s, token) && s.walks[token].reading.Some?
    case WalkRead(token, _) => Midwalk(s, token) && s.walks[token].reading.Some?
    case InstallWalk(token) => Midwalk(s, token) && s.walks[token].todo == [] && s.walks[token].reading == None
    case Finish(token) => token in s.walks
  }

  function StampedIndex(ix: Index, path: string, stamp: Option<Stamp>): Index {
    if stamp == None then ix else ix.(fileStamps := ix.fileStamps[path := stamp.value])
  }

  /** The reconcile's turn for the head of its listing, up to the read. */
  function WalkTurn(w: Walking, stamp: Option<Stamp>): Walking
    requires w.Walking? && w.todo != []
  {
    var path := w.todo[0];
    if !IsTaskFile(path) then w.(todo := w.todo[1..])
    else
      var stamped := StampedIndex(w.built, path, stamp);
      if stamp.Some? && Held(w.before, path, stamp.value) then
        w.(todo := w.todo[1..],
           built := AddCandidate(stamped, path, w.before.byPath[path].sessionID,
                                 Reresolve(w.before.byPath[path].entry, w.rungs)))
      else w.(todo := w.todo[1..], reading := Some(path), built := stamped)
  }

  function WalkTakes(w: Walking, facts: Option<Facts>): Walking
    requires w.Walking? && w.reading.Some?
  {
    w.(reading := None,
       built := if facts == None then w.built else IndexContent(w.built, w.reading.value, facts.value, w.rungs))
  }

  function Next(s: World, e: Event): World
    requires Enabled(s, e)
  {
    match e
    case WriteFile(path, facts) => s.(tick := s.tick + 1, vault := s.vault[path := File(s.tick + 1, facts)])
    case DeleteFile(path) => s.(vault := s.vault - {path})
    case ApplyStart(id, paths) => s.(applies := s.applies[id := Applying(TaskPaths(paths), None, [])])
    case ApplyStat(id, ok) =>
      var a := s.applies[id];
      s.(applies := s.applies[id := a.(stat := Some(StatOf(s.vault, a.todo[0], ok)))])
    case ApplyRead(id, ok) =>
      var a := s.applies[id];
      var facts := ReadOf(s.vault, a.todo[0], ok);
      var pending := Pending(a.todo[0], if facts == None then None else a.stat.value, facts);
      s.(applies := s.applies[id := Applying(a.todo[1..], None, a.pending + [pending])])
    case ApplyCommit(id) =>
      s.(serving := Commit(s.serving, s.applies[id].pending, s.rungs), applied := s.applied + 1,
         applies := s.applies - {id})
    case ApplyDrop(id) => s.(applies := s.applies - {id})
    case Claim =>
      s.(refreshing := Some(s.claims), claims := s.claims + 1, walks := s.walks[s.claims := Claimed])
    case Snapshot(token, rungs, listing) =>
      s.(walks := s.walks[token := Walking(s.serving, s.rungs, s.applied, rungs, listing, None, EMPTY_INDEX)])
    case WalkStat(token, ok) =>
      var w := s.walks[token];
      s.(walks := s.walks[token := WalkTurn(w, StatOf(s.vault, w.todo[0], ok))])
    case WalkRestat(token, ok) =>
      var w := s.walks[token];
      var path := w.reading.value;
      s.(walks := s.walks[token := w.(built := StampedIndex(w.built, path, StatOf(s.vault, path, ok)))])
    case WalkRead(token, ok) =>
      var w := s.walks[token];
      s.(walks := s.walks[token := WalkTakes(w, ReadOf(s.vault, w.reading.value, ok))])
    case InstallWalk(token) =>
      var w := s.walks[token];
      var done := s.(walks := s.walks[token := Done]);
      if w.baseSeq != s.applied then done else done.(serving := w.built, rungs := w.rungs)
    case Finish(token) =>
      s.(walks := s.walks - {token}, refreshing := if s.refreshing == Some(token) then None else s.refreshing)
  }

  // ---- the invariant ----

  predicate Stamps(vault: Vault, tick: nat) {
    forall p :: p in vault ==> ZERO_STAMP < vault[p].stamp <= tick
  }

  predicate Bounded(ix: Index, tick: nat) {
    forall p :: p in ix.fileStamps ==> ix.fileStamps[p] <= tick
  }

  /** The index never calls stale content current: nothing is stamped ahead of its bytes. */
  ghost predicate Honest(ix: Index, vault: Vault, tick: nat, rungs: Rungs) {
    Bounded(ix, tick) && Current(ix, vault, rungs)
  }

  predicate HonestRead(p: Pending, vault: Vault, tick: nat) {
    p.stamp.Some? && p.facts.Some? ==>
      p.stamp.value <= tick
      && (p.path in vault && vault[p.path].stamp == p.stamp.value ==> p.facts.value == vault[p.path].facts)
  }

  predicate HonestApply(a: Applying, vault: Vault, tick: nat) {
    && (a.stat.Some? && a.stat.value.Some? ==> a.stat.value.value <= tick)
    && forall i :: 0 <= i < |a.pending| ==> HonestRead(a.pending[i], vault, tick)
  }

  ghost predicate HonestWalk(w: Walking, vault: Vault, tick: nat, applied: nat) {
    w.Walking? ==>
      && Honest(w.before, vault, tick, w.was) && Honest(w.built, vault, tick, w.rungs)
      && Coherent(w.built) && Increasing(w.todo)
      && (forall q :: q in w.built.byPath ==> q !in w.todo && Some(q) != w.reading)
      && (w.reading.Some? ==> w.reading.value !in w.todo)
      && w.baseSeq <= applied
  }

  ghost predicate Inv(s: World) {
    && Stamps(s.vault, s.tick)
    && Honest(s.serving, s.vault, s.tick, s.rungs) && Coherent(s.serving)
    && (forall id :: id in s.applies ==> HonestApply(s.applies[id], s.vault, s.tick))
    && (forall token :: token in s.walks ==> HonestWalk(s.walks[token], s.vault, s.tick, s.applied))
    && (forall token :: token in s.walks <==> s.refreshing == Some(token))
    && (forall token :: token in s.walks ==> token < s.claims)
  }

  // ---- writes ----

  lemma WriteHonest(ix: Index, s: World, path: string, facts: Facts, rungs: Rungs)
    requires Honest(ix, s.vault, s.tick, rungs)
    ensures Honest(ix, s.vault[path := File(s.tick + 1, facts)], s.tick + 1, rungs)
  {
    hide CandidateOf;
    var vault := s.vault[path := File(s.tick + 1, facts)];
    forall p ensures CurrentAt(ix, vault, rungs, p) {
      assert CurrentAt(ix, s.vault, rungs, p);
    }
  }

  lemma DeleteHonest(ix: Index, s: World, path: string, rungs: Rungs)
    requires Honest(ix, s.vault, s.tick, rungs)
    ensures Honest(ix, s.vault - {path}, s.tick, rungs)
  {
    hide CandidateOf;
    forall p ensures CurrentAt(ix, s.vault - {path}, rungs, p) {
      assert CurrentAt(ix, s.vault, rungs, p);
    }
  }

  lemma WriteKeeps(s: World, path: string, facts: Facts)
    requires Inv(s)
    ensures Inv(Next(s, WriteFile(path, facts)))
  {
    hide Honest, Coherent;
    var next := Next(s, WriteFile(path, facts));
    WriteHonest(s.serving, s, path, facts, s.rungs);
    forall token | token in s.walks ensures HonestWalk(s.walks[token], next.vault, next.tick, next.applied) {
      var w := s.walks[token];
      if w.Walking? {
        WriteHonest(w.before, s, path, facts, w.was);
        WriteHonest(w.built, s, path, facts, w.rungs);
      }
    }
  }

  lemma DeleteKeeps(s: World, path: string)
    requires Inv(s)
    ensures Inv(Next(s, DeleteFile(path)))
  {
    hide Honest, Coherent;
    var next := Next(s, DeleteFile(path));
    DeleteHonest(s.serving, s, path, s.rungs);
    forall token | token in s.walks ensures HonestWalk(s.walks[token], next.vault, next.tick, next.applied) {
      var w := s.walks[token];
      if w.Walking? {
        DeleteHonest(w.before, s, path, w.was);
        DeleteHonest(w.built, s, path, w.rungs);
      }
    }
  }

  // ---- applies ----

  lemma ApplyOneHonest(ix: Index, p: Pending, vault: Vault, tick: nat, rungs: Rungs)
    requires Honest(ix, vault, tick, rungs) && HonestRead(p, vault, tick)
    ensures Honest(ApplyOne(ix, p, rungs), vault, tick, rungs)
  {
    hide ApplyOne, CandidateOf;
    var next := ApplyOne(ix, p, rungs);
    forall q ensures CurrentAt(next, vault, rungs, q) && (q in next.fileStamps ==> next.fileStamps[q] <= tick) {
      ApplyOneRows(ix, p, rungs, q);
      assert CurrentAt(ix, vault, rungs, q);
      assert q in next.byPath ==> Lookup(next.byPath, q) == Some(next.byPath[q]);
      assert q in next.fileStamps ==> Lookup(next.fileStamps, q) == Some(next.fileStamps[q]);
    }
  }

  lemma {:induction false} CommitHonest(ix: Index, pending: seq<Pending>, vault: Vault, tick: nat, rungs: Rungs)
    requires Honest(ix, vault, tick, rungs)
    requires forall i :: 0 <= i < |pending| ==> HonestRead(pending[i], vault, tick)
    ensures Honest(Commit(ix, pending, rungs), vault, tick, rungs)
  {
    hide ApplyOne, Honest, HonestRead;
    if pending != [] {
      CommitHonest(ix, pending[..|pending| - 1], vault, tick, rungs);
      ApplyOneHonest(Commit(ix, pending[..|pending| - 1], rungs), pending[|pending| - 1], vault, tick, rungs);
    }
  }

  lemma CommitKeeps(s: World, id: nat)
    requires Inv(s) && Enabled(s, ApplyCommit(id))
    ensures Inv(Next(s, ApplyCommit(id)))
  {
    hide Honest, Coherent, Commit;
    var pending := s.applies[id].pending;
    assert HonestApply(s.applies[id], s.vault, s.tick);
    CommitHonest(s.serving, pending, s.vault, s.tick, s.rungs);
    CommitCoherent(s.serving, pending, s.rungs);
  }

  /** A batch's own steps: the stamp is taken first, so what is read is never older than its stamp. */
  lemma ApplyKeeps(s: World, e: Event)
    requires Inv(s) && Enabled(s, e) && (e.ApplyStart? || e.ApplyStat? || e.ApplyRead? || e.ApplyDrop?)
    ensures Inv(Next(s, e))
  {
    hide Honest, Coherent, HonestWalk, TaskPaths;
    var next := Next(s, e);
    forall id | id in next.applies ensures HonestApply(next.applies[id], s.vault, s.tick) {
      if id in s.applies { assert HonestApply(s.applies[id], s.vault, s.tick); }
    }
  }

  // ---- walks ----

  lemma StampHonest(ix: Index, path: string, stamp: Option<Stamp>, vault: Vault, tick: nat, rungs: Rungs)
    requires Honest(ix, vault, tick, rungs) && path !in ix.byPath && Coherent(ix)
    requires stamp.Some? ==> stamp.value <= tick
    ensures Honest(StampedIndex(ix, path, stamp), vault, tick, rungs) && Coherent(StampedIndex(ix, path, stamp))
  {
    hide CandidateOf, CoherentAt;
    var next := StampedIndex(ix, path, stamp);
    StampsApart(ix, next);
    forall q ensures CurrentAt(next, vault, rungs, q) { assert CurrentAt(ix, vault, rungs, q); }
  }

  lemma AddHonest(ix: Index, path: string, session: string, entry: Entry, vault: Vault, tick: nat, rungs: Rungs)
    requires Honest(ix, vault, tick, rungs) && path !in ix.byPath && Coherent(ix)
    requires path in vault && path in ix.fileStamps && ix.fileStamps[path] == vault[path].stamp ==>
               Some(Candidate(session, entry)) == CandidateOf(path, vault[path].facts, rungs)
    ensures Honest(AddCandidate(ix, path, session, entry), vault, tick, rungs)
    ensures Coherent(AddCandidate(ix, path, session, entry))
    ensures AddCandidate(ix, path, session, entry).byPath.Keys == ix.byPath.Keys + {path}
  {
    hide CandidateOf, CoherentAt, AddCandidate;
    var next := AddCandidate(ix, path, session, entry);
    AddCoherent(ix, path, session, entry);
    AddRows(ix, path, session, entry);
    forall q ensures CurrentAt(next, vault, rungs, q) { assert CurrentAt(ix, vault, rungs, q); }
  }

  lemma TailIncreasing(todo: seq<string>)
    requires Increasing(todo) && todo != []
    ensures Increasing(todo[1..]) && todo[0] !in todo[1..]
  {
    hide Less;
    LessIrreflexive(todo[0]);
    forall i | 0 <= i < |todo[1..]| ensures todo[1..][i] != todo[0] { assert Less(todo[0], todo[i + 1]); }
  }

  lemma TurnHonest(w: Walking, ok: bool, vault: Vault, tick: nat, applied: nat)
    requires HonestWalk(w, vault, tick, applied) && w.Walking? && w.todo != [] && w.reading == None
    requires Stamps(vault, tick)
    ensures HonestWalk(WalkTurn(w, StatOf(vault, w.todo[0], ok)), vault, tick, applied)
  {
    hide Honest, Coherent, AddCandidate, Reresolve, IsTaskFile, Increasing, Derive;
    var path := w.todo[0];
    HeadMember(w.todo);
    TailIncreasing(w.todo);
    if IsTaskFile(path) {
      var stamp := StatOf(vault, path, ok);
      StampHonest(w.built, path, stamp, vault, tick, w.rungs);
      if stamp.Some? && Held(w.before, path, stamp.value) {
        HeldYields(w, path, vault, tick);
        var held := w.before.byPath[path];
        AddHonest(StampedIndex(w.built, path, stamp), path, held.sessionID, Reresolve(held.entry, w.rungs), vault,
                  tick, w.rungs);
      }
    }
  }

  lemma HeldYields(w: Walking, path: string, vault: Vault, tick: nat)
    requires w.Walking? && Honest(w.before, vault, tick, w.was) && Stamps(vault, tick)
    requires path in vault && Held(w.before, path, vault[path].stamp)
    ensures var held := w.before.byPath[path];
            Some(Candidate(held.sessionID, Reresolve(held.entry, w.rungs))) ==
              CandidateOf(path, vault[path].facts, w.rungs)
  {
    hide Reresolve, Derive;
    assert CurrentAt(w.before, vault, w.was, path);
    ReresolveIsRereading(path, vault[path].facts, w.was, w.rungs);
  }

  lemma TakesHonest(w: Walking, ok: bool, vault: Vault, tick: nat, applied: nat)
    requires HonestWalk(w, vault, tick, applied) && w.Walking? && w.reading.Some?
    ensures HonestWalk(WalkTakes(w, ReadOf(vault, w.reading.value, ok)), vault, tick, applied)
  {
    hide Honest, Coherent, AddCandidate, Derive, Increasing;
    var path := w.reading.value;
    if ok && path in vault && vault[path].facts.sessionID != "" {
      AddHonest(w.built, path, vault[path].facts.sessionID, Derive(path, vault[path].facts, w.rungs), vault, tick,
                w.rungs);
    }
  }

  lemma RestatHonest(w: Walking, ok: bool, vault: Vault, tick: nat, applied: nat)
    requires HonestWalk(w, vault, tick, applied) && w.Walking? && w.reading.Some? && Stamps(vault, tick)
    ensures HonestWalk(w.(built := StampedIndex(w.built, w.reading.value, StatOf(vault, w.reading.value, ok))), vault,
                       tick, applied)
  {
    hide Honest, Coherent, Increasing;
    StampHonest(w.built, w.reading.value, StatOf(vault, w.reading.value, ok), vault, tick, w.rungs);
  }

  lemma EmptyHonest(vault: Vault, tick: nat, rungs: Rungs)
    ensures Honest(EMPTY_INDEX, vault, tick, rungs) && Coherent(EMPTY_INDEX)
  {
    assert Walk(vault, [], rungs) == EMPTY_INDEX;
    WalkCoherent(vault, [], rungs);
  }

  lemma WalkKeeps(s: World, e: Event)
    requires Inv(s) && Enabled(s, e)
    requires e.Claim? || e.Snapshot? || e.WalkStat? || e.WalkRestat? || e.WalkRead? || e.Finish?
    ensures Inv(Next(s, e))
  {
    hide Honest, Coherent, HonestApply, HonestWalk, Increasing, WalkTurn, WalkTakes, StampedIndex, StatOf, ReadOf,
         Stamps;
    match e
    case Snapshot(token, rungs, listing) => SnapshotHonest(s, rungs, listing);
    case WalkStat(token, ok) => TurnHonest(s.walks[token], ok, s.vault, s.tick, s.applied);
    case WalkRestat(token, ok) => RestatHonest(s.walks[token], ok, s.vault, s.tick, s.applied);
    case WalkRead(token, ok) => TakesHonest(s.walks[token], ok, s.vault, s.tick, s.applied);
    case Claim => ClaimedHonest(s);
    case Finish(token) =>
  }

  lemma ClaimedHonest(s: World)
    ensures HonestWalk(Claimed, s.vault, s.tick, s.applied) && HonestWalk(Done, s.vault, s.tick, s.applied)
  {
  }

  lemma SnapshotHonest(s: World, rungs: Rungs, listing: seq<string>)
    requires Honest(s.serving, s.vault, s.tick, s.rungs) && Increasing(listing)
    ensures HonestWalk(Walking(s.serving, s.rungs, s.applied, rungs, listing, None, EMPTY_INDEX), s.vault, s.tick,
                       s.applied)
  {
    hide Honest, Coherent, Increasing;
    EmptyHonest(s.vault, s.tick, rungs);
  }

  lemma InstallKeeps(s: World, token: nat)
    requires Inv(s) && Enabled(s, InstallWalk(token))
    ensures Inv(Next(s, InstallWalk(token)))
  {
    hide Honest, Coherent, HonestApply, Increasing, Stamps;
    assert HonestWalk(s.walks[token], s.vault, s.tick, s.applied);
  }

  /** Every step keeps the invariant. */
  lemma StepKeeps(s: World, e: Event)
    requires Inv(s) && Enabled(s, e)
    ensures Inv(Next(s, e))
  {
    hide Inv, Next, Enabled;
    match e
    case WriteFile(path, facts) => WriteKeeps(s, path, facts);
    case DeleteFile(path) => DeleteKeeps(s, path);
    case ApplyCommit(id) => CommitKeeps(s, id);
    case InstallWalk(token) => InstallKeeps(s, token);
    case ApplyStart(_, _) => ApplyKeeps(s, e);
    case ApplyStat(_, _) => ApplyKeeps(s, e);
    case ApplyRead(_, _) => ApplyKeeps(s, e);
    case ApplyDrop(_) => ApplyKeeps(s, e);
    case _ => WalkKeeps(s, e);
  }

  // ---- runs ----

  predicate Legal(s: World, run: seq<Event>)
    decreases |run|
  {
    run == [] || (Enabled(s, run[0]) && Legal(Next(s, run[0]), run[1..]))
  }

  function After(s: World, run: seq<Event>): World
    requires Legal(s, run)
    decreases |run|
  {
    if run == [] then s else After(Next(s, run[0]), run[1..])
  }

  /** The boot build, installed over nothing. */
  function Boot(vault: Vault, tick: nat, rungs: Rungs): World {
    World(vault, tick, Walk(vault, SortedKeys(vault.Keys), rungs), rungs, 0, map[], None, 0, map[])
  }

  lemma BootInv(vault: Vault, tick: nat, rungs: Rungs)
    requires Stamps(vault, tick)
    ensures Inv(Boot(vault, tick, rungs))
  {
    hide CandidateOf, IsTaskFile;
    var s := Boot(vault, tick, rungs);
    FreshWalkIsExact(vault, rungs);
    forall p
      ensures CurrentAt(s.serving, vault, rungs, p)
      ensures p in s.serving.fileStamps ==> s.serving.fileStamps[p] <= tick
    {
      assert ExactAt(s.serving, vault, rungs, p);
    }
  }

  lemma {:induction false} RunKeeps(s: World, run: seq<Event>)
    requires Inv(s) && Legal(s, run)
    ensures Inv(After(s, run))
    decreases |run|
  {
    hide Inv, Next, Enabled;
    if run != [] {
      StepKeeps(s, run[0]);
      RunKeeps(Next(s, run[0]), run[1..]);
    }
  }

  /** After any run from a boot build: an indexed path whose stored stamp is its file's holds what the
      bytes yield, the session maps follow from the paths, and at most one reconcile is in flight. */
  lemma IndexIsHonest(vault: Vault, tick: nat, rungs: Rungs, run: seq<Event>, p: string)
    requires Stamps(vault, tick) && Legal(Boot(vault, tick, rungs), run)
    ensures var s := After(Boot(vault, tick, rungs), run);
            && (p in s.vault && p in s.serving.byPath && Lookup(s.serving.fileStamps, p) == Some(s.vault[p].stamp) ==>
                  Some(s.serving.byPath[p]) == CandidateOf(p, s.vault[p].facts, s.rungs))
            && Coherent(s.serving)
            && |s.walks| <= 1
  {
    hide After, Boot, CandidateOf, HonestApply, HonestWalk, Coherent;
    BootInv(vault, tick, rungs);
    RunKeeps(Boot(vault, tick, rungs), run);
    var s := After(Boot(vault, tick, rungs), run);
    assert CurrentAt(s.serving, s.vault, s.rungs, p);
    AtMostOne(s.walks.Keys, s.refreshing);
  }

  lemma AtMostOne(keys: set<nat>, holder: Option<nat>)
    requires forall k :: k in keys <==> holder == Some(k)
    ensures |keys| <= 1
  {
    if holder.Some? { assert keys == {holder.value}; } else { assert keys == {}; }
  }

  // ---- the sequence guard ----

  predicate Snapped(s: World, token: nat, base: nat) {
    && token in s.walks && token < s.claims
    && (s.walks[token].Walking? ==> s.walks[token].baseSeq == base) && s.walks[token] != Claimed
  }

  lemma StepKeepsSnapshot(s: World, e: Event, token: nat, base: nat)
    requires Inv(s) && Enabled(s, e) && Snapped(s, token, base)
    ensures Snapped(Next(s, e), token, base) || token !in Next(s, e).walks
    ensures Next(s, e).applied == s.applied + if e.ApplyCommit? then 1 else 0
    ensures token < Next(s, e).claims
  {
    hide Coherent, Honest, HonestApply, HonestWalk, Stamps, Commit, StampedIndex, IsTaskFile, AddCandidate,
         IndexContent, Reresolve, Held;
  }

  lemma GoneStaysGone(s: World, e: Event, token: nat)
    requires Inv(s) && Enabled(s, e) && token !in s.walks && token < s.claims
    ensures token !in Next(s, e).walks && token < Next(s, e).claims
    ensures Next(s, e).applied >= s.applied
  {
    hide Coherent, Honest, HonestApply, HonestWalk, Stamps, Commit, WalkTurn, WalkTakes, StampedIndex;
  }

  lemma {:induction false} RunKeepsSnapshot(s: World, run: seq<Event>, token: nat, base: nat)
    requires Inv(s) && Legal(s, run) && token < s.claims && (Snapped(s, token, base) || token !in s.walks)
    ensures var t := After(s, run);
            (Snapped(t, token, base) || token !in t.walks)
            && t.applied >= s.applied + if exists i :: 0 <= i < |run| && run[i].ApplyCommit? then 1 else 0
    decreases |run|
  {
    hide Inv, Next, Enabled, Snapped;
    if run != [] {
      StepKeeps(s, run[0]);
      StepSeq(s, run[0]);
      if token in s.walks { StepKeepsSnapshot(s, run[0], token, base); } else { GoneStaysGone(s, run[0], token); }
      RunKeepsSnapshot(Next(s, run[0]), run[1..], token, base);
      if i :| 0 <= i < |run| && run[i].ApplyCommit? && i > 0 { assert run[1..][i - 1].ApplyCommit?; }
    }
  }

  lemma StepSeq(s: World, e: Event)
    requires Enabled(s, e)
    ensures Next(s, e).applied == s.applied + if e.ApplyCommit? then 1 else 0
  {
    hide Commit, WalkTurn, WalkTakes, StampedIndex;
  }

  /** An install discards no apply: if any batch committed after the walk's snapshot, installing the walk
      leaves the serving index and its rungs alone; if none did, it serves what the walk built. */
  lemma InstallDiscardsNoApply(s: World, token: nat, rungs: Rungs, listing: seq<string>, run: seq<Event>)
    requires Inv(s) && Enabled(s, Snapshot(token, rungs, listing))
    requires Legal(Next(s, Snapshot(token, rungs, listing)), run)
    requires Enabled(After(Next(s, Snapshot(token, rungs, listing)), run), InstallWalk(token))
    ensures var t := After(Next(s, Snapshot(token, rungs, listing)), run);
            var committed := exists i :: 0 <= i < |run| && run[i].ApplyCommit?;
            var u := Next(t, InstallWalk(token));
            if committed then u.serving == t.serving && u.rungs == t.rungs
            else u.serving == t.walks[token].built && u.rungs == t.walks[token].rungs
  {
    hide Coherent, Honest, HonestApply, HonestWalk, Stamps, Increasing;
    var first := Next(s, Snapshot(token, rungs, listing));
    StepKeeps(s, Snapshot(token, rungs, listing));
    RunKeepsSnapshot(first, run, token, s.applied);
    if !exists i :: 0 <= i < |run| && run[i].ApplyCommit? { NoCommitNoChange(first, run); }
  }

  lemma {:induction false} NoCommitNoChange(s: World, run: seq<Event>)
    requires Legal(s, run) && !exists i :: 0 <= i < |run| && run[i].ApplyCommit?
    ensures After(s, run).applied == s.applied
    decreases |run|
  {
    hide Next, Enabled;
    if run != [] {
      StepSeq(s, run[0]);
      assert !run[0].ApplyCommit?;
      forall i | 0 <= i < |run[1..]| ensures !run[1..][i].ApplyCommit? { assert run[1..][i] == run[i + 1]; }
      NoCommitNoChange(Next(s, run[0]), run[1..]);
    }
  }
}
