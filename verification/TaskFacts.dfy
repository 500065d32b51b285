/** Which task a session answers, told by the vault's files alone (pkg/task-index.go:646-663, 839-983). */
module TaskFacts {
  import opened Text
  import opened Lex
  import opened TaskIndex
  import opened TaskRuns
  import opened TaskQuiet

  // ---- paths ----

  /** A task file's path and its title. */
  predicate NamesTask(path: string, title: string) {
    '/' !in title && path == "25 Tasks/" + title + ".md"
  }

  function Slashes(n: nat): string { if n == 0 then "" else Slashes(n - 1) + "/" }

  lemma BaseIs(dir: string, title: string)
    requires '/' !in title
    ensures LastSlash(dir + "/" + title + ".md") == |dir|
    ensures (dir + "/" + title + ".md")[|dir| + 1..] == title + ".md" && (dir + "/" + title + ".md")[..|dir|] == dir
  {
    hide LastSlash;
    var name := title + ".md";
    forall i | 0 <= i < |name| ensures name[i] != '/' { if i < |title| { assert name[i] == title[i]; } }
    assert dir + "/" + title + ".md" == dir + "/" + name;
    JoinSlash(dir, name);
  }

  lemma {:induction false} TrimIsDir(n: nat)
    ensures TrimSlashes("25 Tasks" + Slashes(n)) == "25 Tasks"
  {
    var s := "25 Tasks" + Slashes(n);
    if n > 0 {
      assert s[..|s| - 1] == "25 Tasks" + Slashes(n - 1) && s[|s| - 1] == '/';
      TrimIsDir(n - 1);
    } else {
      assert s == "25 Tasks";
    }
  }

  lemma {:induction false} TrimmedWas(s: string) returns (n: nat)
    requires TrimSlashes(s) == "25 Tasks"
    ensures s == "25 Tasks" + Slashes(n)
  {
    n := 0;
    if |s| > 1 && s[|s| - 1] == '/' {
      n := TrimmedWas(s[..|s| - 1]);
      assert s == s[..|s| - 1] + "/";
      n := n + 1;
    } else { assert s == "25 Tasks" + Slashes(0); }
  }

  lemma PathNames(path: string, task: string) returns (n: nat, title: string)
    requires TaskPath(path) == Some(task)
    ensures NamesTask(task, title) && path == "25 Tasks" + Slashes(n) + "/" + title + ".md"
  {
    hide TrimSlashes, LastSlash, Slashes;
    var slash := LastSlash(path);
    var name := path[slash + 1..];
    LastSlashIs(path);
    title := name[..|name| - 3];
    assert name == title + ".md";
    forall i | 0 <= i < |title| ensures title[i] != '/' { assert name[i] == title[i]; }
    n := TrimmedWas(path[..slash]);
    assert path == path[..slash] + "/" + name;
    assert path == "25 Tasks" + Slashes(n) + "/" + title + ".md";
    assert TASK_DIR + "/" + name == "25 Tasks/" + title + ".md";
  }

  lemma NamedPath(path: string, task: string, n: nat, title: string)
    requires NamesTask(task, title) && path == "25 Tasks" + Slashes(n) + "/" + title + ".md"
    ensures TaskPath(path) == Some(task)
  {
    hide TrimSlashes, LastSlash, Slashes;
    BaseIs("25 Tasks" + Slashes(n), title);
    TrimIsDir(n);
    var name := title + ".md";
    assert name[|name| - 3..] == ".md";
    assert TASK_DIR + "/" + name == "25 Tasks/" + title + ".md";
  }

  /** An event names a task file exactly when it is the task directory, slashes, a title and `.md`. */
  lemma EventPathText(path: string, task: string)
    ensures TaskPath(path) == Some(task) <==>
              exists n: nat, title :: NamesTask(task, title) && path == "25 Tasks" + Slashes(n) + "/" + title + ".md"
  {
    hide TaskPath, NamesTask, Slashes;
    if TaskPath(path) == Some(task) { var n, title := PathNames(path, task); }
    if n: nat, title :| NamesTask(task, title) && path == "25 Tasks" + Slashes(n) + "/" + title + ".md" {
      NamedPath(path, task, n, title);
    }
  }

  lemma TaskFileText(path: string)
    ensures IsTaskFile(path) <==> exists title :: NamesTask(path, title)
  {
    hide TaskPath, NamesTask;
    EventPathText(path, path);
    if title :| NamesTask(path, title) { PlainPath(path, title); }
  }

  lemma PlainPath(path: string, title: string)
    requires NamesTask(path, title)
    ensures path == "25 Tasks" + Slashes(0) + "/" + title + ".md"
    ensures NameOf(path) == title
  {
    BaseIs("25 Tasks", title);
    var name := title + ".md";
    assert path == "25 Tasks" + "/" + title + ".md" == "25 Tasks" + Slashes(0) + "/" + title + ".md";
    assert name[|name| - 3..] == ".md" && name[..|name| - 3] == title;
  }

  // ---- a file's task ----

  /** The declared goals that exist, in their order: each listed goal is the declared one at its place. */
  ghost predicate GoalsInOrder(listed: seq<string>, declared: seq<string>, goals: set<string>, places: seq<nat>) {
    && |places| == |listed|
    && (forall i :: 0 <= i < |places| ==> places[i] < |declared| && listed[i] == declared[places[i]])
    && (forall i, j :: 0 <= i < j < |places| ==> places[i] < places[j])
    && (forall p: nat :: p in places <==> p < |declared| && declared[p] in goals)
  }

  lemma {:induction false} ExistingInOrder(declared: seq<string>, goals: set<string>) returns (places: seq<nat>)
    ensures GoalsInOrder(ExistingGoals(declared, goals), declared, goals, places)
  {
    places := [];
    if declared != [] {
      var later := ExistingInOrder(declared[1..], goals);
      places := OneMorePlace(ExistingGoals(declared[1..], goals), declared, goals, later);
    }
  }

  lemma OneMorePlace(listed: seq<string>, declared: seq<string>, goals: set<string>, later: seq<nat>)
    returns (places: seq<nat>)
    requires declared != [] && GoalsInOrder(listed, declared[1..], goals, later)
    ensures GoalsInOrder(if declared[0] in goals then [declared[0]] + listed else listed, declared, goals, places)
  {
    hide GoalsInOrder;
    PlacesMove(listed, declared, goals, later);
    if declared[0] in goals {
      places := [0] + Shifted(later);
      FirstPlaceToo(listed, declared, goals, Shifted(later));
    } else {
      places := Shifted(later);
      NoFirstPlace(listed, declared, goals, places);
    }
  }

  /** The places but the first, as places of the whole. */
  ghost predicate LaterInOrder(listed: seq<string>, declared: seq<string>, goals: set<string>, places: seq<nat>) {
    && |places| == |listed|
    && (forall i :: 0 <= i < |places| ==> places[i] < |declared| && listed[i] == declared[places[i]])
    && (forall i, j :: 0 <= i < j < |places| ==> places[i] < places[j])
    && (forall p: nat :: p in places <==> 0 < p < |declared| && declared[p] in goals)
  }

  lemma PlacesMove(listed: seq<string>, declared: seq<string>, goals: set<string>, later: seq<nat>)
    requires declared != [] && GoalsInOrder(listed, declared[1..], goals, later)
    ensures LaterInOrder(listed, declared, goals, Shifted(later))
  {
    hide Shifted;
    var shifted := Shifted(later);
    ShiftedHolds(later);
    forall p: nat ensures p in shifted <==> 0 < p < |declared| && declared[p] in goals {
      if 0 < p < |declared| { assert declared[1..][p - 1] == declared[p]; }
    }
  }

  lemma FirstPlaceToo(listed: seq<string>, declared: seq<string>, goals: set<string>, shifted: seq<nat>)
    requires declared != [] && declared[0] in goals && LaterInOrder(listed, declared, goals, shifted)
    ensures GoalsInOrder([declared[0]] + listed, declared, goals, [0] + shifted)
  {
    var places := [0] + shifted;
    forall i | 0 <= i < |shifted| ensures shifted[i] > 0 { assert shifted[i] in shifted; }
    assert forall p: nat :: p in places <==> p == 0 || p in shifted;
  }

  lemma NoFirstPlace(listed: seq<string>, declared: seq<string>, goals: set<string>, shifted: seq<nat>)
    requires declared != [] && declared[0] !in goals && LaterInOrder(listed, declared, goals, shifted)
    ensures GoalsInOrder(listed, declared, goals, shifted)
  {
  }

  function Shifted(places: seq<nat>): (r: seq<nat>)
    ensures |r| == |places| && forall i :: 0 <= i < |r| ==> r[i] == places[i] + 1
  {
    if places == [] then [] else [places[0] + 1] + Shifted(places[1..])
  }

  lemma ShiftedHolds(places: seq<nat>)
    ensures forall p: nat :: p in Shifted(places) <==> p > 0 && p - 1 in places
  {
    var r := Shifted(places);
    forall p: nat ensures p in r <==> p > 0 && p - 1 in places {
      if p in r { var i :| 0 <= i < |r| && r[i] == p; assert places[i] == p - 1; }
      if p > 0 && p - 1 in places { var i :| 0 <= i < |places| && places[i] == p - 1; assert r[i] == p; }
    }
  }

  /** The task of a file: its title, its path, its own marker, the goals that exist in order, the first of
      them as the goal shown, and the topic page that lists that one. */
  ghost predicate TaskOf(vault: Vault, rungs: Rungs, p: string, task: Task)
    requires p in vault
  {
    var facts := vault[p].facts;
    var goal := if task.goals == [] then "" else task.goals[0];
    && NamesTask(p, task.name) && task.path == p && task.productionTouching == facts.productionTouching
    && (exists places :: GoalsInOrder(task.goals, facts.declared, rungs.goals, places))
    && task.goalName == goal && task.goalPath == (if task.goals == [] then "" else "24 Goals/" + goal + ".md")
    && (if goal != "" && goal in rungs.goalTopics
        then task.topicName == rungs.goalTopics[goal].name && task.topicPath == rungs.goalTopics[goal].path
        else task.topicName == "" && task.topicPath == "")
  }

  lemma DerivedTask(vault: Vault, rungs: Rungs, p: string)
    requires p in vault && IsTaskFile(p)
    ensures TaskOf(vault, rungs, p, Derive(p, vault[p].facts, rungs).task)
    ensures Derive(p, vault[p].facts, rungs).terminal == vault[p].facts.terminal
  {
    hide IsTaskFile, NameOf;
    TaskFileText(p);
    var title :| NamesTask(p, title);
    PlainPath(p, title);
    hide NamesTask;
    var declared := vault[p].facts.declared;
    var places := ExistingInOrder(declared, rungs.goals);
    GoalIsFirstExisting(declared, rungs.goals);
  }

  // ---- a session's task ----

  /** A task file of the vault that names the session. */
  ghost predicate SessionFile(vault: Vault, p: string, session: string) {
    p in vault && vault[p].facts.sessionID == session && exists title :: NamesTask(p, title)
  }

  /** The session's greatest path still in flight, or with none its greatest path. */
  ghost predicate ChosenFile(vault: Vault, p: string, session: string) {
    && SessionFile(vault, p, session)
    && if exists q :: SessionFile(vault, q, session) && !vault[q].facts.terminal
       then !vault[p].facts.terminal
            && forall q :: SessionFile(vault, q, session) && !vault[q].facts.terminal ==> q == p || Less(q, p)
       else forall q :: SessionFile(vault, q, session) ==> q == p || Less(q, p)
  }

  lemma FilesOf(ix: Index, vault: Vault, rungs: Rungs, session: string, q: string)
    requires ExactAt(ix, vault, rungs, q) && session != ""
    ensures q in SessionPaths(ix.byPath, session) <==> SessionFile(vault, q, session)
    ensures SessionFile(vault, q, session) ==>
              q in ix.byPath && ix.byPath[q].entry == Derive(q, vault[q].facts, rungs)
  {
    hide Derive, IsTaskFile;
    TaskFileText(q);
  }

  /** An index that is exact for the vault answers a session with its chosen file's task, and only a session
      some task file names. */
  lemma AnswersByFacts(ix: Index, vault: Vault, rungs: Rungs, session: string)
    requires Exact(ix, vault, rungs) && Coherent(ix)
    ensures session in ix.bySession <==> session != "" && exists p :: SessionFile(vault, p, session)
    ensures session in ix.bySession ==>
              exists p :: ChosenFile(vault, p, session) && TaskOf(vault, rungs, p, ix.bySession[session].task)
    ensures session in ix.bySession ==>
              forall p :: ChosenFile(vault, p, session) ==> TaskOf(vault, rungs, p, ix.bySession[session].task)
  {
    hide Derive, IsTaskFile, ExactAt, TaskOf, CoherentAt, SessionPaths;
    assert CoherentAt(ix, session);
    var paths := SessionPaths(ix.byPath, session);
    if session == "" {
      NoBlankSession(ix, vault, rungs);
    } else {
      forall q ensures q in paths <==> SessionFile(vault, q, session) {
        assert ExactAt(ix, vault, rungs, q);
        FilesOf(ix, vault, rungs, session, q);
      }
    }
    ServedByPaths(ix, session);
    if session in ix.bySession {
      PickIsWinner(ix.byPath, Ordered(paths));
      var w := Pick(ix.byPath, Ordered(paths));
      WinnerIsPath(ix.byPath, paths, w);
      assert ExactAt(ix, vault, rungs, w);
      FilesOf(ix, vault, rungs, session, w);
      WinnerIsChosen(ix, vault, rungs, session, paths, w);
      TaskFileText(w);
      DerivedTask(vault, rungs, w);
      forall p | ChosenFile(vault, p, session) ensures p == w { ChosenOnce(vault, session, p, w); }
    }
  }

  lemma NoBlankSession(ix: Index, vault: Vault, rungs: Rungs)
    requires Exact(ix, vault, rungs)
    ensures SessionPaths(ix.byPath, "") == {}
  {
    hide Derive, IsTaskFile;
    forall p | p in ix.byPath ensures ix.byPath[p].sessionID != "" { assert ExactAt(ix, vault, rungs, p); }
  }

  lemma ServedByPaths(ix: Index, session: string)
    requires CoherentAt(ix, session)
    ensures var paths := SessionPaths(ix.byPath, session);
            && (session in ix.bySession <==> paths != {})
            && (paths != {} ==> ix.bySession[session] == EntryAt(ix.byPath, Pick(ix.byPath, Ordered(paths))))
  {
  }

  lemma WinnerIsPath(byPath: map<string, Candidate>, paths: set<string>, w: string)
    requires IsWinner(byPath, paths, w)
    ensures w in paths
  {
  }

  lemma WinnerIsChosen(ix: Index, vault: Vault, rungs: Rungs, session: string, paths: set<string>, w: string)
    requires Exact(ix, vault, rungs) && session != "" && IsWinner(ix.byPath, paths, w) && w in paths
    requires paths == SessionPaths(ix.byPath, session)
    requires forall q :: q in paths <==> SessionFile(vault, q, session)
    ensures ChosenFile(vault, w, session)
  {
    hide Derive, IsTaskFile, ExactAt, SessionPaths, SessionFile;
    forall q | q in paths ensures q in vault && EntryAt(ix.byPath, q).terminal == vault[q].facts.terminal {
      assert ExactAt(ix, vault, rungs, q);
      FilesOf(ix, vault, rungs, session, q);
      FileIsTask(vault, q, session);
      DerivedTask(vault, rungs, q);
    }
    var flight := InFlight(ix.byPath, paths);
    assert forall q :: q in flight <==> SessionFile(vault, q, session) && !vault[q].facts.terminal;
  }

  lemma FileIsTask(vault: Vault, q: string, session: string)
    requires SessionFile(vault, q, session)
    ensures q in vault && IsTaskFile(q)
  {
    TaskFileText(q);
  }

  lemma ChosenOnce(vault: Vault, session: string, p: string, q: string)
    requires ChosenFile(vault, p, session) && ChosenFile(vault, q, session)
    ensures p == q
  {
    if p != q && Less(p, q) { LessAsymmetric(p, q); }
  }

  // ---- after a build, a batch and a reconcile ----

  /** The answers of an index are those of the vault's files. */
  ghost predicate AnswersVault(ix: Index, vault: Vault, rungs: Rungs) {
    forall session ::
      && (session in ix.bySession <==> session != "" && exists p :: SessionFile(vault, p, session))
      && (session in ix.bySession ==>
            exists p :: ChosenFile(vault, p, session) && TaskOf(vault, rungs, p, ix.bySession[session].task))
  }

  lemma ExactAnswers(ix: Index, vault: Vault, rungs: Rungs)
    requires Exact(ix, vault, rungs) && Coherent(ix)
    ensures AnswersVault(ix, vault, rungs)
  {
    hide Exact, Coherent, TaskOf;
    forall session
      ensures session in ix.bySession <==> session != "" && exists p :: SessionFile(vault, p, session)
      ensures session in ix.bySession ==>
                exists p :: ChosenFile(vault, p, session) && TaskOf(vault, rungs, p, ix.bySession[session].task)
    {
      AnswersByFacts(ix, vault, rungs, session);
    }
  }

  /** A fresh build answers by the vault's files. */
  lemma BuildAnswers(vault: Vault, rungs: Rungs)
    ensures AnswersVault(Walk(vault, SortedKeys(vault.Keys), rungs), vault, rungs)
  {
    hide AnswersVault, Exact, Coherent, Walk, SortedKeys;
    FreshWalkIsExact(vault, rungs);
    ExactAnswers(Walk(vault, SortedKeys(vault.Keys), rungs), vault, rungs);
  }

  /** So does a batch that covers what changed, event paths read as text. */
  lemma BatchAnswers(ix: Index, earlier: Vault, vault: Vault, paths: seq<string>, rungs: Rungs)
    requires Exact(ix, earlier, rungs) && Coherent(ix)
    requires forall q, title :: NamesTask(q, title) && Lookup(earlier, q) != Lookup(vault, q) ==>
               exists i, n: nat :: 0 <= i < |paths| && paths[i] == "25 Tasks" + Slashes(n) + "/" + title + ".md"
    ensures AnswersVault(Commit(ix, Gather(vault, paths), rungs), vault, rungs)
  {
    hide AnswersVault, Exact, Coherent, Commit, Gather, IsTaskFile, TaskPath, BatchNames, NamesTask;
    forall q | IsTaskFile(q) && Lookup(earlier, q) != Lookup(vault, q) ensures BatchNames(paths, q) {
      TaskFileText(q);
      var title :| NamesTask(q, title);
      var i, n: nat :| 0 <= i < |paths| && paths[i] == "25 Tasks" + Slashes(n) + "/" + title + ".md";
      NamedPath(paths[i], q, n, title);
      NamedAt(paths, i, q);
    }
    ApplyConverges(ix, earlier, vault, paths, rungs);
    CommitCoherent(ix, Gather(vault, paths), rungs);
    ExactAnswers(Commit(ix, Gather(vault, paths), rungs), vault, rungs);
  }

  lemma NamedAt(paths: seq<string>, i: nat, q: string)
    requires i < |paths| && TaskPath(paths[i]) == Some(q)
    ensures BatchNames(paths, q)
  {
  }

  /** And a reconcile of a directory quiet from its listing to its install, from whatever state, unless a
      batch commits meanwhile. */
  lemma QuietReconcileAnswers(s: World, token: nat, rungs: Rungs, run: seq<Event>)
    requires Inv(s) && Enabled(s, Snapshot(token, rungs, SortedKeys(s.vault.Keys)))
    requires Legal(Next(s, Snapshot(token, rungs, SortedKeys(s.vault.Keys))), run)
    requires forall i :: 0 <= i < |run| ==> WalkUndisturbed(run[i], token) && !run[i].ApplyCommit?
    requires Enabled(After(Next(s, Snapshot(token, rungs, SortedKeys(s.vault.Keys))), run), InstallWalk(token))
    ensures var t := After(Next(s, Snapshot(token, rungs, SortedKeys(s.vault.Keys))), run);
            AnswersVault(Next(t, InstallWalk(token)).serving, s.vault, rungs)
  {
    hide AnswersVault, Inv, Next, Enabled, Legal, After, WalkUndisturbed, Walk, Exact, SortedKeys;
    QuietReconcileRepairs(s, token, rungs, run);
    BuildAnswers(s.vault, rungs);
  }
}
