/** The serving index object (pkg/task-index.go): the four maps updated in place under one lock. */
module TaskServing {
  import opened Text
  import opened Lex
  import opened Calendar
  import TI = TaskIndex
  import TaskFacts

  const ZERO_INSTANT: Instant := 0

  /** taskIndexBackstopWindow: five minutes. */
  const BACKSTOP: int := 300 * NS_PER_SECOND

  class ServingIndex {
    var byPath: map<string, TI.Candidate>
    var bySessionPaths: map<string, set<string>>
    var bySession: map<string, TI.Entry>
    var fileStamps: map<string, TI.Stamp>
    var rungs: TI.Rungs
    var appliedSeq: nat
    var baseSeq: nat
    var builtAt: Instant
    var refreshing: Option<nat>
    var refreshes: nat

    constructor (rungs: TI.Rungs)
      ensures Value() == TI.EMPTY_INDEX && this.rungs == rungs && appliedSeq == 0 && baseSeq == 0
      ensures refreshing == None && refreshes == 0
    {
      byPath, bySessionPaths, bySession, fileStamps := map[], map[], map[], map[];
      this.rungs := rungs;
      appliedSeq, baseSeq, builtAt, refreshing, refreshes := 0, 0, ZERO_INSTANT, None, 0;
    }

    function Value(): TI.Index
      reads this
    {
      TI.Index(byPath, bySessionPaths, bySession, fileStamps)
    }

    method RecomputeSession(session: string)
      modifies this`bySession
      ensures Value() == TI.RecomputeSession(old(Value()), session)
    {
      hide TI.Ordered;
      var paths := if session in bySessionPaths then bySessionPaths[session] else {};
      if paths == {} {
        bySession := bySession - {session};
        return;
      }
      var ordered := TI.Ordered(paths);
      var winner := TI.EntryAt(byPath, ordered[0]);
      for i := 1 to |ordered|
        invariant winner == TI.EntryAt(byPath, TI.Pick(byPath, ordered[..i]))
      {
        var candidate := TI.EntryAt(byPath, ordered[i]);
        assert ordered[..i + 1][..i] == ordered[..i];
        if !winner.terminal && candidate.terminal { continue; }
        winner := candidate;
      }
      assert ordered[..|ordered|] == ordered;
      bySession := bySession[session := winner];
    }

    method AddCandidate(path: string, session: string, entry: TI.Entry)
      modifies this`byPath, this`bySessionPaths, this`bySession
      ensures Value() == TI.AddCandidate(old(Value()), path, session, entry)
    {
      byPath := byPath[path := TI.Candidate(session, entry)];
      var paths := if session in bySessionPaths then bySessionPaths[session] else {};
      bySessionPaths := bySessionPaths[session := paths + {path}];
      RecomputeSession(session);
    }

    method ForgetPath(path: string)
      modifies this`byPath, this`bySessionPaths, this`bySession, this`fileStamps
      ensures Value() == TI.ForgetPath(old(Value()), path)
    {
      fileStamps := fileStamps - {path};
      if path !in byPath { return; }
      var session := byPath[path].sessionID;
      byPath := byPath - {path};
      var paths := (if session in bySessionPaths then bySessionPaths[session] else {}) - {path};
      bySessionPaths := if paths == {} then bySessionPaths - {session} else bySessionPaths[session := paths];
      RecomputeSession(session);
    }

    method IndexContent(path: string, facts: TI.Facts)
      modifies this`byPath, this`bySessionPaths, this`bySession
      ensures Value() == TI.IndexContent(old(Value()), path, facts, rungs)
    {
      if facts.sessionID == "" { return; }
      AddCandidate(path, facts.sessionID, TI.Derive(path, facts, rungs));
    }

    /** ApplyPaths: read everything named, then update under the lock. looks are what the stats and reads
        return; an unreadable directory or a cancellation before some path applies nothing. */
    method ApplyPaths(paths: seq<string>, looks: seq<TI.Look>, readable: bool, cancel: Option<nat>, now: Instant)
      requires |looks| == |paths|
      modifies this`byPath, this`bySessionPaths, this`bySession, this`fileStamps, this`appliedSeq, this`builtAt
      ensures var applied := paths != [] && readable && (cancel == None || cancel.value >= |paths|);
              && Value() == (if applied then TI.Commit(old(Value()), TI.Batch(paths, looks), rungs) else old(Value()))
              && appliedSeq == old(appliedSeq) + (if applied then 1 else 0)
              && builtAt == (if applied then now else old(builtAt))
      ensures TI.Coherent(old(Value())) ==> TI.Coherent(Value())
    {
      hide TI.TaskPath, TI.ForgetPath, TI.IndexContent, TI.Coherent;
      if paths == [] || !readable { return; }
      var pending: seq<TI.Pending> := [];
      for i := 0 to |paths|
        invariant pending == TI.Batch(paths[..i], looks[..i])
        invariant cancel.Some? ==> i <= cancel.value
      {
        assert paths[..i + 1][..i] == paths[..i] && looks[..i + 1][..i] == looks[..i];
        if cancel == Some(i) { return; }
        var path := TI.TaskPath(paths[i]);
        if path == None { continue; }
        var look := looks[i];
        if look.facts == None {
          pending := pending + [TI.Pending(path.value, None, None)];
          continue;
        }
        pending := pending + [TI.Pending(path.value, look.stamp, look.facts)];
      }
      assert paths[..|paths|] == paths && looks[..|paths|] == looks;
      for i := 0 to |pending|
        invariant Value() == TI.Commit(old(Value()), pending[..i], rungs)
        invariant appliedSeq == old(appliedSeq)
      {
        var entry := pending[i];
        assert pending[..i + 1][..i] == pending[..i];
        ForgetPath(entry.path);
        if entry.facts == None { continue; }
        if entry.stamp.Some? { fileStamps := fileStamps[entry.path := entry.stamp.value]; }
        IndexContent(entry.path, entry.facts.value);
      }
      assert pending[..|pending|] == pending;
      appliedSeq := appliedSeq + 1;
      builtAt := now;
      if TI.Coherent(old(Value())) { TI.CommitCoherent(old(Value()), pending, rungs); }
    }

    /** install: swap in a fresh index, unless an apply landed since its snapshot. */
    method Install(built: ServingIndex, now: Instant) returns (installed: bool)
      requires built != this
      modifies this`byPath, this`bySessionPaths, this`bySession, this`fileStamps, this`rungs, this`builtAt
      ensures installed == (built.baseSeq == old(appliedSeq))
      ensures builtAt == (if installed then now else old(builtAt))
      ensures if installed then Value() == built.Value() && rungs == built.rungs
              else Value() == old(Value()) && rungs == old(rungs)
    {
      if built.baseSeq != appliedSeq { return false; }
      bySession, byPath, bySessionPaths := built.bySession, built.byPath, built.bySessionPaths;
      fileStamps, rungs, builtAt := built.fileStamps, built.rungs, now;
      return true;
    }

    /** One listed file: its held entry under an unchanged stamp, else its bytes. */
    method TakeListed(ghost before: TI.Index, previous: map<string, TI.Candidate>,
                      previousStamps: map<string, TI.Stamp>, vault: TI.Vault, path: string)
      requires before.byPath == previous && before.fileStamps == previousStamps
      modifies this`byPath, this`bySessionPaths, this`bySession, this`fileStamps
      ensures Value() == TI.ReconcileOne(old(Value()), before, vault, path, rungs)
    {
      hide TI.IsTaskFile, TI.AddCandidate, TI.IndexContent, TI.Reresolve;
      if !TI.IsTaskFile(path) || path !in vault { return; }
      var stamp := vault[path].stamp;
      fileStamps := fileStamps[path := stamp];
      var was := if path in previousStamps then previousStamps[path] else TI.ZERO_STAMP;
      if path !in previous || was != stamp {
        assert fileStamps[path := stamp] == fileStamps;
        fileStamps := fileStamps[path := stamp];
        IndexContent(path, vault[path].facts);
        return;
      }
      AddCandidate(path, previous[path].sessionID, TI.Reresolve(previous[path].entry, rungs));
    }

    /** claimRefresh: none in flight and, when asked, the backstop window past. */
    method ClaimRefresh(onlyIfLapsed: bool, now: Instant) returns (token: Option<nat>)
      modifies this`refreshing, this`refreshes
      ensures token.Some? <==> old(refreshing) == None && !(onlyIfLapsed && now < builtAt + 300_000_000_000)
      ensures if token.Some? then refreshing == token && refreshes == old(refreshes) + 1
              else refreshing == old(refreshing) && refreshes == old(refreshes)
    {
      if onlyIfLapsed && now - builtAt < BACKSTOP { return None; }
      if refreshing.Some? { return None; }
      token := Some(refreshes);
      refreshing, refreshes := token, refreshes + 1;
    }

    /** finishRefresh: only the token still held is cleared. */
    method FinishRefresh(token: nat)
      modifies this`refreshing
      ensures refreshing == if old(refreshing) == Some(token) then None else old(refreshing)
    {
      if refreshing == Some(token) { refreshing := None; }
    }

    /** What a reconcile of a quiet vault leaves: after an unreadable directory or a cancellation the
        index it had, else that of a fresh build, given that nothing it holds passes for current wrongly. */
    twostate predicate Reconciled(vault: TI.Vault, readable: bool, newRungs: TI.Rungs)
      reads this
    {
      && (!readable ==> Value() == old(Value()) && rungs == old(rungs))
      && ((readable && TI.Current(old(Value()), vault, old(rungs))
           && forall p :: p in vault ==> vault[p].stamp != TI.ZERO_STAMP) ==>
            Value() == TI.Walk(vault, SortedKeys(vault.Keys), newRungs) && rungs == newRungs)
    }

    /** reconcileAndInstall under a claimed token: the listing, one stat a file, a read only where the stamp
        moved. readable is false for an unreadable directory and for a cancelled walk. */
    method ReconcileAndInstall(token: nat, vault: TI.Vault, readable: bool, newRungs: TI.Rungs, now: Instant)
      modifies this
      ensures appliedSeq == old(appliedSeq) && refreshes == old(refreshes)
      ensures refreshing == if old(refreshing) == Some(token) then None else old(refreshing)
      ensures Reconciled(vault, readable, newRungs) && builtAt == if readable then now else old(builtAt)
    {
      hide TI.ReconcileOne, TI.Current, TI.Walk, SortedKeys;
      if readable {
        var built := new ServingIndex(newRungs);
        var listing := SortedKeys(vault.Keys);
        var previous, previousStamps := byPath, fileStamps;
        built.baseSeq := appliedSeq;
        ghost var before := Value();
        for i := 0 to |listing|
          invariant Value() == before && built.rungs == newRungs && appliedSeq == old(appliedSeq)
          invariant rungs == old(rungs) && built.baseSeq == appliedSeq && builtAt == old(builtAt)
          invariant refreshing == old(refreshing) && refreshes == old(refreshes)
          invariant built.Value() == TI.ReconcileWalk(before, vault, listing[..i], newRungs)
        {
          assert listing[..i + 1][..i] == listing[..i];
          built.TakeListed(before, previous, previousStamps, vault, listing[i]);
        }
        assert listing[..|listing|] == listing;
        var installed := Install(built, now);
        if TI.Current(before, vault, old(rungs)) && forall p :: p in vault ==> vault[p].stamp != TI.ZERO_STAMP {
          TI.ReconcileIsFreshWalk(before, vault, listing, old(rungs), newRungs);
        }
      }
      FinishRefresh(token);
    }

    /** Reconcile: nothing when one is in flight. */
    method Reconcile(vault: TI.Vault, readable: bool, newRungs: TI.Rungs, now: Instant)
      modifies this
      ensures refreshing == old(refreshing) && appliedSeq == old(appliedSeq)
      ensures Reconciled(vault, readable && old(refreshing) == None, newRungs)
    {
      hide TI.Current, TI.Walk;
      var token := ClaimRefresh(false, now);
      if token.Some? { ReconcileAndInstall(token.value, vault, readable, newRungs, now); }
    }

    /** Lookup: past the backstop window it reconciles first; it then answers the session's winner. */
    method LookupSession(session: string, vault: TI.Vault, readable: bool, newRungs: TI.Rungs, now: Instant)
      returns (task: Option<TI.Task>)
      modifies this
      ensures refreshing == old(refreshing) && appliedSeq == old(appliedSeq)
      ensures Reconciled(vault, readable && old(refreshing) == None && now >= old(builtAt) + 300_000_000_000, newRungs)
      ensures task.Some? <==> session in bySession
      ensures task.Some? && TI.Coherent(Value()) ==>
                exists p :: TI.IsWinner(byPath, TI.SessionPaths(byPath, session), p)
                            && task.value == TI.EntryAt(byPath, p).task
      ensures TI.Exact(Value(), vault, rungs) && TI.Coherent(Value()) ==>
                && (task.Some? <==> session != "" && exists p :: TaskFacts.SessionFile(vault, p, session))
                && (task.Some? ==> exists p :: TaskFacts.ChosenFile(vault, p, session)
                                               && TaskFacts.TaskOf(vault, rungs, p, task.value))
    {
      hide TI.IsWinner, TI.Current, TI.Walk, TI.Exact, TaskFacts.TaskOf;
      var token := ClaimRefresh(true, now);
      if token.Some? { ReconcileAndInstall(token.value, vault, readable, newRungs, now); }
      if TI.Exact(Value(), vault, rungs) && TI.Coherent(Value()) {
        TaskFacts.AnswersByFacts(Value(), vault, rungs, session);
      }
      if session !in bySession { return None; }
      task := Some(bySession[session].task);
      if TI.Coherent(Value()) {
        assert TI.CoherentAt(Value(), session);
        TI.PickIsWinner(byPath, TI.Ordered(TI.SessionPaths(byPath, session)));
      }
    }
  }
}
