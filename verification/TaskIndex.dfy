/** The session to task index (pkg/task-index.go): in-place application of changed paths, the
    stamp-based reconcile, and the fresh walk both are measured against. Reading a file's bytes
    yields its Facts; a vault maps the vault-relative paths to files. */
module TaskIndex {
  import opened Text
  import opened Lex

  /** What the frontmatter reader finds in a task file's bytes. */
  datatype Facts = Facts(sessionID: string, terminal: bool, productionTouching: bool, declared: seq<string>)

  /** Size and modification time, as one number that every write changes. */
  type Stamp = nat

  /** The stamp Go reads for a path that has none. */
  const ZERO_STAMP: Stamp := 0

  datatype File = File(stamp: Stamp, facts: Facts)

  type Vault = map<string, File>

  datatype Topic = Topic(name: string, path: string)
  datatype Rungs = Rungs(goals: set<string>, goalTopics: map<string, Topic>)

  datatype Task = Task(name: string, path: string, goalName: string, goalPath: string, goals: seq<string>,
                       topicName: string, topicPath: string, productionTouching: bool)
  datatype Entry = Entry(task: Task, terminal: bool, declared: seq<string>)
  datatype Candidate = Candidate(sessionID: string, entry: Entry)

  datatype Index = Index(byPath: map<string, Candidate>, bySessionPaths: map<string, set<string>>,
                         bySession: map<string, Entry>, fileStamps: map<string, Stamp>)

  const EMPTY_INDEX: Index := Index(map[], map[], map[], map[])

  const NO_ENTRY: Entry := Entry(Task("", "", "", "", [], "", "", false), false, [])

  // ---- paths ----

  const TASK_DIR: string := "25 Tasks"

  function LastSlash(s: string): (i: int)
    ensures -1 <= i < |s|
  {
    if s == [] then -1 else if s[|s| - 1] == '/' then |s| - 1 else LastSlash(s[..|s| - 1])
  }

  function TrimSlashes(s: string): string {
    if |s| > 1 && s[|s| - 1] == '/' then TrimSlashes(s[..|s| - 1]) else s
  }

  /** The task file an event path names, as a vault-relative path. */
  function TaskPath(path: string): Option<string> {
    var slash := LastSlash(path);
    var name := path[slash + 1..];
    if slash < 0 || TrimSlashes(path[..slash]) != TASK_DIR then None
    else if |name| < 3 || name[|name| - 3..] != ".md" then None
    else Some(TASK_DIR + "/" + name)
  }

  /** The listing's own filter, on entries of the task directory. */
  predicate IsTaskFile(path: string) { TaskPath(path) == Some(path) }

  function NameOf(path: string): string {
    var name := path[LastSlash(path) + 1..];
    if |name| >= 3 && name[|name| - 3..] == ".md" then name[..|name| - 3] else name
  }

  // ---- one file's entry ----

  function ExistingGoals(declared: seq<string>, goals: set<string>): seq<string> {
    if declared == [] then []
    else if declared[0] in goals then [declared[0]] + ExistingGoals(declared[1..], goals)
    else ExistingGoals(declared[1..], goals)
  }

  /** resolveGoal: the first declared title that exists, "" when none does. */
  function GoalOf(declared: seq<string>, goals: set<string>): string {
    if declared == [] then ""
    else if declared[0] in goals then declared[0]
    else GoalOf(declared[1..], goals)
  }

  predicate Resolves(declared: seq<string>, goals: set<string>) {
    exists i :: 0 <= i < |declared| && declared[i] in goals
  }

  function PathOfGoal(declared: seq<string>, goals: set<string>): string {
    if Resolves(declared, goals) then "24 Goals/" + GoalOf(declared, goals) + ".md" else ""
  }

  /** A task's goals are the declared titles that exist, in order, and the goal it shows is the first. */
  lemma {:induction false} GoalIsFirstExisting(declared: seq<string>, goals: set<string>)
    ensures forall t :: t in ExistingGoals(declared, goals) <==> t in declared && t in goals
    ensures Resolves(declared, goals) <==> ExistingGoals(declared, goals) != []
    ensures GoalOf(declared, goals) == if Resolves(declared, goals) then ExistingGoals(declared, goals)[0] else ""
  {
    if declared != [] {
      GoalIsFirstExisting(declared[1..], goals);
      assert declared == [declared[0]] + declared[1..];
      assert Resolves(declared, goals) <==> declared[0] in goals || Resolves(declared[1..], goals) by {
        if i :| 0 <= i < |declared[1..]| && declared[1..][i] in goals { assert declared[i + 1] in goals; }
        if i :| 0 <= i < |declared| && declared[i] in goals && i > 0 { assert declared[1..][i - 1] in goals; }
      }
    }
  }

  /** reresolve: goal and topic from the rungs, the rest as held. */
  function Reresolve(e: Entry, rungs: Rungs): Entry {
    var goal := GoalOf(e.declared, rungs.goals);
    var topic := if goal != "" && goal in rungs.goalTopics then rungs.goalTopics[goal] else Topic("", "");
    e.(task := e.task.(goalName := goal, goalPath := PathOfGoal(e.declared, rungs.goals),
                       goals := ExistingGoals(e.declared, rungs.goals),
                       topicName := topic.name, topicPath := topic.path))
  }

  /** The entry indexContent derives. */
  function Derive(path: string, facts: Facts, rungs: Rungs): Entry {
    var goal := GoalOf(facts.declared, rungs.goals);
    var topic := if goal != "" && goal in rungs.goalTopics then rungs.goalTopics[goal] else Topic("", "");
    Entry(Task(NameOf(path), path, goal, PathOfGoal(facts.declared, rungs.goals),
               ExistingGoals(facts.declared, rungs.goals), topic.name, topic.path, facts.productionTouching),
          facts.terminal, facts.declared)
  }

  /** Re-deriving a held entry under new rungs is reading its file again under them. */
  lemma ReresolveIsRereading(path: string, facts: Facts, before: Rungs, after: Rungs)
    ensures Reresolve(Derive(path, facts, before), after) == Derive(path, facts, after)
  {
  }

  // ---- the winner of a session ----

  function EntryAt(byPath: map<string, Candidate>, path: string): Entry {
    if path in byPath then byPath[path].entry else NO_ENTRY
  }

  /** One step of the tie-break: an in-flight winner only yields to an in-flight candidate. */
  function Prefer(byPath: map<string, Candidate>, winner: string, path: string): string {
    if !EntryAt(byPath, winner).terminal && EntryAt(byPath, path).terminal then winner else path
  }

  function Pick(byPath: map<string, Candidate>, ordered: seq<string>): (winner: string)
    requires ordered != []
    ensures winner in ordered
  {
    if |ordered| == 1 then ordered[0]
    else Prefer(byPath, Pick(byPath, ordered[..|ordered| - 1]), ordered[|ordered| - 1])
  }

  predicate Greatest(paths: set<string>, p: string) { p in paths && forall q :: q in paths ==> q == p || Less(q, p) }

  function InFlight(byPath: map<string, Candidate>, paths: set<string>): set<string> {
    set p | p in paths && !EntryAt(byPath, p).terminal
  }

  /** The greatest path still in flight, else the greatest path. */
  predicate IsWinner(byPath: map<string, Candidate>, paths: set<string>, p: string) {
    Greatest(if InFlight(byPath, paths) != {} then InFlight(byPath, paths) else paths, p)
  }

  function SetOf(s: seq<string>): set<string> { set x | x in s }

  lemma LoneWinner(byPath: map<string, Candidate>, path: string)
    ensures IsWinner(byPath, {path}, path)
  {
  }

  lemma WinnerStep(byPath: map<string, Candidate>, paths: set<string>, winner: string, last: string)
    requires IsWinner(byPath, paths, winner) && forall q :: q in paths ==> Less(q, last)
    ensures IsWinner(byPath, paths + {last}, Prefer(byPath, winner, last))
  {
    hide Less, EntryAt;
    var was, now := InFlight(byPath, paths), InFlight(byPath, paths + {last});
    assert now == if EntryAt(byPath, last).terminal then was else was + {last};
  }

  lemma {:induction false} PickIsWinner(byPath: map<string, Candidate>, ordered: seq<string>)
    requires ordered != [] && Increasing(ordered)
    ensures IsWinner(byPath, SetOf(ordered), Pick(byPath, ordered))
  {
    hide Less, EntryAt, Prefer, IsWinner;
    var front, last := ordered[..|ordered| - 1], ordered[|ordered| - 1];
    assert ordered == front + [last];
    if front == [] {
      assert SetOf(ordered) == {last};
      LoneWinner(byPath, last);
    } else {
      PickIsWinner(byPath, front);
      assert SetOf(ordered) == SetOf(front) + {last};
      WinnerStep(byPath, SetOf(front), Pick(byPath, front), last);
    }
  }

  lemma WinnerUnique(byPath: map<string, Candidate>, paths: set<string>, p: string, q: string)
    requires IsWinner(byPath, paths, p) && IsWinner(byPath, paths, q)
    ensures p == q
  {
    if p != q { LessAsymmetric(p, q); }
  }

  // ---- the primitive updates ----

  function PathsUnder(ix: Index, session: string): set<string> {
    if session in ix.bySessionPaths then ix.bySessionPaths[session] else {}
  }

  function WinnerEntry(byPath: map<string, Candidate>, paths: set<string>): Entry
    requires paths != {}
  {
    EntryAt(byPath, Pick(byPath, Ordered(paths)))
  }

  function Ordered(paths: set<string>): (r: seq<string>)
    requires paths != {}
    ensures r != [] && Increasing(r) && SetOf(r) == paths
  {
    var r := SortedKeys(paths);
    assert SetOf(r) == paths;
    r
  }

  function RecomputeSession(ix: Index, session: string): Index {
    var paths := PathsUnder(ix, session);
    if paths == {} then ix.(bySession := ix.bySession - {session})
    else ix.(bySession := ix.bySession[session := WinnerEntry(ix.byPath, paths)])
  }

  function AddCandidate(ix: Index, path: string, session: string, entry: Entry): Index {
    RecomputeSession(ix.(byPath := ix.byPath[path := Candidate(session, entry)],
                         bySessionPaths := ix.bySessionPaths[session := PathsUnder(ix, session) + {path}]), session)
  }

  function ForgetPath(ix: Index, path: string): Index {
    var unstamped := ix.(fileStamps := ix.fileStamps - {path});
    if path !in ix.byPath then unstamped
    else
      var session := ix.byPath[path].sessionID;
      var paths := PathsUnder(ix, session) - {path};
      RecomputeSession(
        unstamped.(byPath := ix.byPath - {path},
                   bySessionPaths := if paths == {} then ix.bySessionPaths - {session}
                                     else ix.bySessionPaths[session := paths]), session)
  }

  function IndexContent(ix: Index, path: string, facts: Facts, rungs: Rungs): Index {
    if facts.sessionID == "" then ix else AddCandidate(ix, path, facts.sessionID, Derive(path, facts, rungs))
  }

  // ---- coherence: the two session maps follow from byPath ----

  function SessionPaths(byPath: map<string, Candidate>, session: string): set<string> {
    set p | p in byPath && byPath[p].sessionID == session
  }

  predicate CoherentAt(ix: Index, session: string) {
    var paths := SessionPaths(ix.byPath, session);
    && (session in ix.bySessionPaths <==> paths != {}) && (session in ix.bySession <==> paths != {})
    && (paths != {} ==> ix.bySessionPaths[session] == paths && ix.bySession[session] == WinnerEntry(ix.byPath, paths))
  }

  ghost predicate Coherent(ix: Index) { forall session :: CoherentAt(ix, session) }

  /** The session maps of a coherent index are determined by its paths, and each session serves the
      entry of its winner. */
  lemma CoherentDetermined(a: Index, b: Index)
    requires Coherent(a) && Coherent(b) && a.byPath == b.byPath
    ensures a.bySessionPaths == b.bySessionPaths && a.bySession == b.bySession
  {
    forall s ensures Lookup(a.bySession, s) == Lookup(b.bySession, s)
             ensures Lookup(a.bySessionPaths, s) == Lookup(b.bySessionPaths, s) {
      assert CoherentAt(a, s) && CoherentAt(b, s);
    }
    SameLookups(a.bySession, b.bySession);
    SameLookups(a.bySessionPaths, b.bySessionPaths);
  }

  /** What a lookup answers: the greatest in-flight path of the session, else its greatest path. */
  lemma LookupServesTheWinner(ix: Index, session: string, p: string)
    requires Coherent(ix)
    ensures session in ix.bySession <==> exists q :: q in ix.byPath && ix.byPath[q].sessionID == session
    ensures IsWinner(ix.byPath, SessionPaths(ix.byPath, session), p) && session in ix.bySession ==>
              p in ix.byPath && ix.bySession[session] == ix.byPath[p].entry
  {
    assert CoherentAt(ix, session);
    var paths := SessionPaths(ix.byPath, session);
    assert forall q :: q in paths <==> q in ix.byPath && ix.byPath[q].sessionID == session;
    if paths != {} {
      var q :| q in paths;
      PickIsWinner(ix.byPath, Ordered(paths));
      if IsWinner(ix.byPath, paths, p) { WinnerUnique(ix.byPath, paths, p, Pick(ix.byPath, Ordered(paths))); }
    }
  }

  lemma {:induction false} PickSame(a: map<string, Candidate>, b: map<string, Candidate>, ordered: seq<string>)
    requires ordered != [] && forall p :: p in ordered ==> EntryAt(a, p) == EntryAt(b, p)
    ensures Pick(a, ordered) == Pick(b, ordered)
  {
    if |ordered| > 1 {
      var front := ordered[..|ordered| - 1];
      assert ordered == front + [ordered[|ordered| - 1]];
      PickSame(a, b, front);
    }
  }

  lemma OthersCoherent(ix: Index, next: Index, s: string)
    requires CoherentAt(ix, s) && SessionPaths(next.byPath, s) == SessionPaths(ix.byPath, s)
    requires forall p :: p in SessionPaths(ix.byPath, s) ==> EntryAt(next.byPath, p) == EntryAt(ix.byPath, p)
    requires s in next.bySessionPaths <==> s in ix.bySessionPaths
    requires s in next.bySession <==> s in ix.bySession
    requires s in ix.bySessionPaths ==> next.bySessionPaths[s] == ix.bySessionPaths[s]
    requires s in ix.bySession ==> next.bySession[s] == ix.bySession[s]
    ensures CoherentAt(next, s)
  {
    var paths := SessionPaths(ix.byPath, s);
    if paths != {} {
      forall p | p in Ordered(paths) ensures EntryAt(next.byPath, p) == EntryAt(ix.byPath, p) {
        assert p in SetOf(Ordered(paths));
      }
      PickSame(ix.byPath, next.byPath, Ordered(paths));
      assert Pick(ix.byPath, Ordered(paths)) in SetOf(Ordered(paths));
    }
  }

  lemma AddCoherent(ix: Index, path: string, session: string, entry: Entry)
    requires Coherent(ix) && path !in ix.byPath
    ensures Coherent(AddCandidate(ix, path, session, entry))
  {
    hide WinnerEntry, CoherentAt;
    var next := AddCandidate(ix, path, session, entry);
    forall s ensures CoherentAt(next, s) {
      assert CoherentAt(ix, s);
      if s == session { AddedSession(ix, path, session, entry); }
      else {
        assert SessionPaths(next.byPath, s) == SessionPaths(ix.byPath, s);
        OthersCoherent(ix, next, s);
      }
    }
  }

  lemma AddedSession(ix: Index, path: string, session: string, entry: Entry)
    requires CoherentAt(ix, session) && path !in ix.byPath
    ensures CoherentAt(AddCandidate(ix, path, session, entry), session)
  {
    hide WinnerEntry;
    var next := AddCandidate(ix, path, session, entry);
    assert SessionPaths(next.byPath, session) == SessionPaths(ix.byPath, session) + {path};
    assert PathsUnder(ix, session) == SessionPaths(ix.byPath, session);
  }

  lemma ForgetCoherent(ix: Index, path: string)
    requires Coherent(ix)
    ensures Coherent(ForgetPath(ix, path))
  {
    hide WinnerEntry, CoherentAt;
    var next := ForgetPath(ix, path);
    forall s ensures CoherentAt(next, s) {
      assert CoherentAt(ix, s);
      if path in ix.byPath && s == ix.byPath[path].sessionID { ForgottenSession(ix, path); }
      else {
        assert SessionPaths(next.byPath, s) == SessionPaths(ix.byPath, s);
        OthersCoherent(ix, next, s);
      }
    }
  }

  lemma ForgottenSession(ix: Index, path: string)
    requires path in ix.byPath && CoherentAt(ix, ix.byPath[path].sessionID)
    ensures CoherentAt(ForgetPath(ix, path), ix.byPath[path].sessionID)
  {
    hide WinnerEntry;
    var session := ix.byPath[path].sessionID;
    var next := ForgetPath(ix, path);
    assert path in SessionPaths(ix.byPath, session);
    assert SessionPaths(next.byPath, session) == SessionPaths(ix.byPath, session) - {path};
  }

  // ---- applying changed paths ----

  /** One path of a batch: its stamp (taken first) and its content, either possibly unreadable. */
  datatype Pending = Pending(path: string, stamp: Option<Stamp>, facts: Option<Facts>)

  function ApplyOne(ix: Index, p: Pending, rungs: Rungs): Index {
    var cleared := ForgetPath(ix, p.path);
    if p.facts == None then cleared
    else
      var stamped := if p.stamp == None then cleared
                     else cleared.(fileStamps := cleared.fileStamps[p.path := p.stamp.value]);
      IndexContent(stamped, p.path, p.facts.value, rungs)
  }

  function Commit(ix: Index, pending: seq<Pending>, rungs: Rungs): Index {
    if pending == [] then ix
    else ApplyOne(Commit(ix, pending[..|pending| - 1], rungs), pending[|pending| - 1], rungs)
  }

  /** What stat and read find in an undisturbed vault. */
  function Found(vault: Vault, path: string): Pending {
    if path in vault then Pending(path, Some(vault[path].stamp), Some(vault[path].facts)) else Pending(path, None, None)
  }

  function Gather(vault: Vault, paths: seq<string>): seq<Pending> {
    if paths == [] then []
    else
      var before, task := Gather(vault, paths[..|paths| - 1]), TaskPath(paths[|paths| - 1]);
      if task == None then before else before + [Found(vault, task.value)]
  }

  /** What one path's stat and read returned. */
  datatype Look = Look(stamp: Option<Stamp>, facts: Option<Facts>)

  /** The batch those returns make; a file that cannot be read is applied as a removal. */
  function Batch(paths: seq<string>, looks: seq<Look>): seq<Pending>
    requires |paths| == |looks|
  {
    if paths == [] then []
    else
      var n := |paths| - 1;
      var before, task := Batch(paths[..n], looks[..n]), TaskPath(paths[n]);
      if task == None then before
      else before + [Pending(task.value, if looks[n].facts == None then None else looks[n].stamp, looks[n].facts)]
  }

  /** Each task path's stat and read found what the vault holds. */
  predicate LooksAt(vault: Vault, paths: seq<string>, looks: seq<Look>)
    requires |paths| == |looks|
  {
    forall i :: 0 <= i < |paths| && TaskPath(paths[i]).Some? ==>
      var found := Found(vault, TaskPath(paths[i]).value);
      looks[i] == Look(found.stamp, found.facts)
  }

  lemma {:induction false} UndisturbedBatch(vault: Vault, paths: seq<string>, looks: seq<Look>)
    requires |paths| == |looks| && LooksAt(vault, paths, looks)
    ensures Batch(paths, looks) == Gather(vault, paths)
  {
    hide TaskPath;
    if paths != [] {
      var n := |paths| - 1;
      assert forall i :: 0 <= i < n ==> paths[..n][i] == paths[i] && looks[..n][i] == looks[i];
      UndisturbedBatch(vault, paths[..n], looks[..n]);
    }
  }

  /** What one file contributes to byPath, and to fileStamps. */
  function CandidateOf(path: string, facts: Facts, rungs: Rungs): Option<Candidate> {
    if facts.sessionID == "" then None else Some(Candidate(facts.sessionID, Derive(path, facts, rungs)))
  }

  function Lookup<V>(m: map<string, V>, k: string): Option<V> { if k in m then Some(m[k]) else None }

  /** The index holds, for this path, exactly what the vault's file yields. */
  predicate ExactAt(ix: Index, vault: Vault, rungs: Rungs, p: string) {
    if p in vault && IsTaskFile(p) then
      && Lookup(ix.byPath, p) == CandidateOf(p, vault[p].facts, rungs)
      && Lookup(ix.fileStamps, p) == Some(vault[p].stamp)
    else p !in ix.byPath && p !in ix.fileStamps
  }

  ghost predicate Exact(ix: Index, vault: Vault, rungs: Rungs) { forall p :: ExactAt(ix, vault, rungs, p) }

  /** ForgetPath takes out the path and nothing else. */
  lemma ForgetRows(ix: Index, path: string)
    ensures ForgetPath(ix, path).byPath == ix.byPath - {path}
    ensures ForgetPath(ix, path).fileStamps == ix.fileStamps - {path}
  {
    hide WinnerEntry;
  }

  lemma AddRows(ix: Index, path: string, session: string, entry: Entry)
    ensures AddCandidate(ix, path, session, entry).byPath == ix.byPath[path := Candidate(session, entry)]
    ensures AddCandidate(ix, path, session, entry).fileStamps == ix.fileStamps
  {
    hide WinnerEntry;
  }

  /** After applying one path: that path holds what was read, every other path what it held. */
  lemma ApplyOneRows(ix: Index, p: Pending, rungs: Rungs, q: string)
    ensures var next := ApplyOne(ix, p, rungs);
            if q != p.path then
              Lookup(next.byPath, q) == Lookup(ix.byPath, q) && Lookup(next.fileStamps, q) == Lookup(ix.fileStamps, q)
            else
              && Lookup(next.byPath, q) == (if p.facts == None then None else CandidateOf(q, p.facts.value, rungs))
              && Lookup(next.fileStamps, q) == (if p.facts == None then None else p.stamp)
  {
    hide AddCandidate, ForgetPath, Derive;
    ForgetRows(ix, p.path);
    if p.facts.Some? {
      var cleared := ForgetPath(ix, p.path);
      var stamped := if p.stamp == None then cleared
                     else cleared.(fileStamps := cleared.fileStamps[p.path := p.stamp.value]);
      AddRows(stamped, p.path, p.facts.value.sessionID, Derive(p.path, p.facts.value, rungs));
    }
  }

  lemma ApplyOneCoherent(ix: Index, p: Pending, rungs: Rungs)
    requires Coherent(ix)
    ensures Coherent(ApplyOne(ix, p, rungs))
  {
    hide AddCandidate, ForgetPath, Derive;
    ForgetRows(ix, p.path);
    ForgetCoherent(ix, p.path);
    if p.facts.Some? {
      var cleared := ForgetPath(ix, p.path);
      var stamped := if p.stamp == None then cleared
                     else cleared.(fileStamps := cleared.fileStamps[p.path := p.stamp.value]);
      StampsApart(cleared, stamped);
      if p.facts.value.sessionID != "" {
        AddCoherent(stamped, p.path, p.facts.value.sessionID, Derive(p.path, p.facts.value, rungs));
      }
    }
  }

  lemma StampsApart(ix: Index, next: Index)
    requires Coherent(ix) && next == ix.(fileStamps := next.fileStamps)
    ensures Coherent(next)
  {
    forall s ensures CoherentAt(next, s) { assert CoherentAt(ix, s); }
  }

  lemma {:induction false} CommitCoherent(ix: Index, pending: seq<Pending>, rungs: Rungs)
    requires Coherent(ix)
    ensures Coherent(Commit(ix, pending, rungs))
  {
    hide ApplyOne, Coherent;
    if pending != [] {
      CommitCoherent(ix, pending[..|pending| - 1], rungs);
      ApplyOneCoherent(Commit(ix, pending[..|pending| - 1], rungs), pending[|pending| - 1], rungs);
    }
  }

  lemma TaskPathIdempotent(path: string)
    requires TaskPath(path).Some?
    ensures IsTaskFile(TaskPath(path).value)
  {
    var slash := LastSlash(path);
    var name := path[slash + 1..];
    LastSlashIs(path);
    JoinSlash(TASK_DIR, name);
    assert TrimSlashes(TASK_DIR) == TASK_DIR;
    var task := TASK_DIR + "/" + name;
    assert task[..|TASK_DIR|] == TASK_DIR && task[|TASK_DIR| + 1..] == name;
  }

  lemma {:induction false} LastSlashIs(s: string)
    ensures '/' !in s[LastSlash(s) + 1..]
    ensures LastSlash(s) >= 0 ==> s[LastSlash(s)] == '/'
  {
    if s != [] && s[|s| - 1] != '/' {
      LastSlashIs(s[..|s| - 1]);
      assert s[LastSlash(s) + 1..] == s[..|s| - 1][LastSlash(s) + 1..] + [s[|s| - 1]];
    }
  }

  lemma {:induction false} JoinSlash(dir: string, name: string)
    requires '/' !in name
    ensures LastSlash(dir + "/" + name) == |dir|
  {
    var s := dir + "/" + name;
    if name != [] {
      assert s[..|s| - 1] == dir + "/" + name[..|name| - 1];
      assert s[|s| - 1] == name[|name| - 1];
      JoinSlash(dir, name[..|name| - 1]);
    }
  }

  /** The batch names this task path. */
  predicate BatchNames(paths: seq<string>, q: string) { exists i :: 0 <= i < |paths| && TaskPath(paths[i]) == Some(q) }

  lemma NamesSnoc(paths: seq<string>, q: string)
    requires paths != []
    ensures BatchNames(paths, q) <==> BatchNames(paths[..|paths| - 1], q) || TaskPath(paths[|paths| - 1]) == Some(q)
  {
    hide TaskPath;
    var front := paths[..|paths| - 1];
    if i :| 0 <= i < |front| && TaskPath(front[i]) == Some(q) { assert paths[i] == front[i]; }
    if i :| 0 <= i < |paths| && TaskPath(paths[i]) == Some(q) && i < |front| { assert front[i] == paths[i]; }
  }

  /** A batch in any order, with repeats, deletions and foreign paths: each task path it names ends up
      exactly as the vault has it, every other path as it was. */
  lemma {:induction false} ApplyRows(ix: Index, vault: Vault, paths: seq<string>, rungs: Rungs, q: string)
    ensures var next := Commit(ix, Gather(vault, paths), rungs);
            if BatchNames(paths, q) then ExactAt(next, vault, rungs, q)
            else
              && Lookup(next.byPath, q) == Lookup(ix.byPath, q)
              && Lookup(next.fileStamps, q) == Lookup(ix.fileStamps, q)
  {
    hide ApplyOne, TaskPath, CandidateOf, BatchNames, IsTaskFile;
    if paths == [] {
      NoNames(q);
    } else {
      var front, last := paths[..|paths| - 1], paths[|paths| - 1];
      var before := Gather(vault, front);
      ApplyRows(ix, vault, front, rungs, q);
      NamesSnoc(paths, q);
      if TaskPath(last).Some? {
        var found := Found(vault, TaskPath(last).value);
        TaskPathIdempotent(last);
        assert (before + [found])[..|before|] == before;
        ApplyOneRows(Commit(ix, before, rungs), found, rungs, q);
      }
    }
  }

  lemma NoNames(q: string)
    ensures !BatchNames([], q)
  {
  }

  /** Applying a batch that covers every changed path turns an index exact for the old vault into one
      exact for the new. */
  lemma ApplyConverges(ix: Index, earlier: Vault, vault: Vault, paths: seq<string>, rungs: Rungs)
    requires Exact(ix, earlier, rungs)
    requires forall q :: IsTaskFile(q) && Lookup(earlier, q) != Lookup(vault, q) ==> BatchNames(paths, q)
    ensures Exact(Commit(ix, Gather(vault, paths), rungs), vault, rungs)
  {
    hide TaskPath, CandidateOf, Commit, Gather, BatchNames, IsTaskFile;
    var next := Commit(ix, Gather(vault, paths), rungs);
    forall q ensures ExactAt(next, vault, rungs, q) {
      ApplyRows(ix, vault, paths, rungs, q);
      assert ExactAt(ix, earlier, rungs, q);
      assert Lookup(earlier, q) == Lookup(vault, q) ==> (q in earlier <==> q in vault);
    }
  }

  // ---- the walks ----

  /** addFile: stamp, then read. */
  function AddFile(ix: Index, vault: Vault, path: string, rungs: Rungs): Index {
    if !IsTaskFile(path) || path !in vault then ix
    else IndexContent(ix.(fileStamps := ix.fileStamps[path := vault[path].stamp]), path, vault[path].facts, rungs)
  }

  /** readTasks: every listed file. */
  function Walk(vault: Vault, listing: seq<string>, rungs: Rungs): Index {
    if listing == [] then EMPTY_INDEX
    else AddFile(Walk(vault, listing[..|listing| - 1], rungs), vault, listing[|listing| - 1], rungs)
  }

  predicate Held(before: Index, path: string, stamp: Stamp) {
    path in before.byPath && (if path in before.fileStamps then before.fileStamps[path] else ZERO_STAMP) == stamp
  }

  /** reconcile's turn for one listed file: reuse what is held under the same stamp, else read. */
  function ReconcileOne(ix: Index, before: Index, vault: Vault, path: string, rungs: Rungs): Index {
    if !IsTaskFile(path) || path !in vault then ix
    else if Held(before, path, vault[path].stamp) then
      AddCandidate(ix.(fileStamps := ix.fileStamps[path := vault[path].stamp]), path,
                   before.byPath[path].sessionID, Reresolve(before.byPath[path].entry, rungs))
    else AddFile(ix, vault, path, rungs)
  }

  function ReconcileWalk(before: Index, vault: Vault, listing: seq<string>, rungs: Rungs): Index {
    if listing == [] then EMPTY_INDEX
    else ReconcileOne(ReconcileWalk(before, vault, listing[..|listing| - 1], rungs),
                      before, vault, listing[|listing| - 1], rungs)
  }

  /** What every interleaving keeps: an indexed path stamped as its file is now holds what it yields. */
  predicate CurrentAt(ix: Index, vault: Vault, rungs: Rungs, p: string) {
    p in vault && p in ix.fileStamps && ix.fileStamps[p] == vault[p].stamp && p in ix.byPath ==>
      Some(ix.byPath[p]) == CandidateOf(p, vault[p].facts, rungs)
  }

  ghost predicate Current(ix: Index, vault: Vault, rungs: Rungs) { forall p :: CurrentAt(ix, vault, rungs, p) }

  lemma ReuseIsReading(ix: Index, before: Index, vault: Vault, path: string, was: Rungs, rungs: Rungs)
    requires Current(before, vault, was) && forall p :: p in vault ==> vault[p].stamp != ZERO_STAMP
    ensures ReconcileOne(ix, before, vault, path, rungs) == AddFile(ix, vault, path, rungs)
  {
    hide AddCandidate, Reresolve, Derive, IsTaskFile;
    if path in vault && Held(before, path, vault[path].stamp) {
      assert CurrentAt(before, vault, was, path);
      ReresolveIsRereading(path, vault[path].facts, was, rungs);
    }
  }

  /** Over a quiet directory a reconcile yields what a fresh build yields. */
  lemma {:induction false} ReconcileIsFreshWalk(before: Index, vault: Vault, listing: seq<string>, was: Rungs,
                                                rungs: Rungs)
    requires Current(before, vault, was) && forall p :: p in vault ==> vault[p].stamp != ZERO_STAMP
    ensures ReconcileWalk(before, vault, listing, rungs) == Walk(vault, listing, rungs)
  {
    hide ReconcileOne, AddFile, Current;
    if listing != [] {
      var front := listing[..|listing| - 1];
      ReconcileIsFreshWalk(before, vault, front, was, rungs);
      ReuseIsReading(Walk(vault, front, rungs), before, vault, listing[|listing| - 1], was, rungs);
    }
  }

  lemma AddFileRows(ix: Index, vault: Vault, path: string, rungs: Rungs, q: string)
    requires path !in ix.byPath && path !in ix.fileStamps
    ensures var next := AddFile(ix, vault, path, rungs);
            if q == path then ExactAt(next, vault, rungs, q)
            else
              && Lookup(next.byPath, q) == Lookup(ix.byPath, q)
              && Lookup(next.fileStamps, q) == Lookup(ix.fileStamps, q)
  {
    hide AddCandidate, IsTaskFile, Derive;
    if path in vault {
      AddRows(ix.(fileStamps := ix.fileStamps[path := vault[path].stamp]), path, vault[path].facts.sessionID,
              Derive(path, vault[path].facts, rungs));
    }
  }

  lemma {:induction false} WalkRows(vault: Vault, listing: seq<string>, rungs: Rungs, q: string)
    requires Increasing(listing)
    ensures if q in listing then ExactAt(Walk(vault, listing, rungs), vault, rungs, q)
            else q !in Walk(vault, listing, rungs).byPath && q !in Walk(vault, listing, rungs).fileStamps
  {
    hide AddFile, CandidateOf, IsTaskFile, Less;
    if listing != [] {
      var front, last := listing[..|listing| - 1], listing[|listing| - 1];
      assert listing == front + [last];
      WalkRows(vault, front, rungs, q);
      WalkRows(vault, front, rungs, last);
      LastApart(front, last);
      AddFileRows(Walk(vault, front, rungs), vault, last, rungs, q);
    }
  }

  lemma LastApart(front: seq<string>, last: string)
    requires Increasing(front + [last])
    ensures last !in front
  {
    LessIrreflexive(last);
    forall i | 0 <= i < |front| ensures front[i] != last {
      assert Less((front + [last])[i], (front + [last])[|front|]);
    }
  }

  lemma {:induction false} WalkCoherent(vault: Vault, listing: seq<string>, rungs: Rungs)
    requires Increasing(listing)
    ensures Coherent(Walk(vault, listing, rungs))
  {
    hide AddCandidate, Derive, IsTaskFile, Less;
    if listing == [] {
      forall s ensures CoherentAt(EMPTY_INDEX, s) { assert SessionPaths(map[], s) == {}; }
    } else {
      var front, path := listing[..|listing| - 1], listing[|listing| - 1];
      assert listing == front + [path];
      WalkCoherent(vault, front, rungs);
      WalkRows(vault, front, rungs, path);
      LastApart(front, path);
      var ix := Walk(vault, front, rungs);
      if IsTaskFile(path) && path in vault {
        var stamped := ix.(fileStamps := ix.fileStamps[path := vault[path].stamp]);
        StampsApart(ix, stamped);
        if vault[path].facts.sessionID != "" {
          AddCoherent(stamped, path, vault[path].facts.sessionID, Derive(path, vault[path].facts, rungs));
        }
      }
    }
  }

  /** The walk of a complete listing is the index the vault defines. */
  lemma FreshWalkIsExact(vault: Vault, rungs: Rungs)
    ensures Exact(Walk(vault, SortedKeys(vault.Keys), rungs), vault, rungs)
    ensures Coherent(Walk(vault, SortedKeys(vault.Keys), rungs))
  {
    hide Walk, CandidateOf, IsTaskFile, Less;
    var listing := SortedKeys(vault.Keys);
    WalkCoherent(vault, listing, rungs);
    forall q ensures ExactAt(Walk(vault, listing, rungs), vault, rungs, q) { WalkRows(vault, listing, rungs, q); }
  }

  /** Exactness and coherence leave one index. */
  lemma ExactDetermined(a: Index, b: Index, vault: Vault, rungs: Rungs)
    requires Exact(a, vault, rungs) && Exact(b, vault, rungs) && Coherent(a) && Coherent(b)
    ensures a == b
  {
    hide CandidateOf, Coherent, IsTaskFile;
    forall q ensures Lookup(a.byPath, q) == Lookup(b.byPath, q) && Lookup(a.fileStamps, q) == Lookup(b.fileStamps, q) {
      assert ExactAt(a, vault, rungs, q) && ExactAt(b, vault, rungs, q);
    }
    SameLookups(a.byPath, b.byPath);
    SameLookups(a.fileStamps, b.fileStamps);
    CoherentDetermined(a, b);
  }

  lemma SameLookups<V>(a: map<string, V>, b: map<string, V>)
    requires forall q :: Lookup(a, q) == Lookup(b, q)
    ensures a == b
  {
    forall q ensures (q in a <==> q in b) && (q in a ==> a[q] == b[q]) {
      assert Lookup(a, q) == Lookup(b, q);
    }
  }

  /** Incremental equals wholesale: from the walk of one vault, applying any batch that covers what
      changed gives the walk of the other, in all four maps. */
  lemma ApplyIsFreshWalk(earlier: Vault, vault: Vault, paths: seq<string>, rungs: Rungs)
    requires forall q :: IsTaskFile(q) && Lookup(earlier, q) != Lookup(vault, q) ==> BatchNames(paths, q)
    ensures Commit(Walk(earlier, SortedKeys(earlier.Keys), rungs), Gather(vault, paths), rungs)
              == Walk(vault, SortedKeys(vault.Keys), rungs)
  {
    hide Walk, Commit, Gather, Exact, Coherent, IsTaskFile, TaskPath, SortedKeys, BatchNames;
    var before := Walk(earlier, SortedKeys(earlier.Keys), rungs);
    FreshWalkIsExact(earlier, rungs);
    FreshWalkIsExact(vault, rungs);
    ApplyConverges(before, earlier, vault, paths, rungs);
    CommitCoherent(before, Gather(vault, paths), rungs);
    ExactDetermined(Commit(before, Gather(vault, paths), rungs), Walk(vault, SortedKeys(vault.Keys), rungs), vault,
                    rungs);
  }
}
