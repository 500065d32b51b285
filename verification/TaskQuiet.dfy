/** Runs over a directory no one writes to (pkg/task-index.go): a reconcile installs what a fresh build
    holds, a batch commits what the vault holds. Other batches and walks may be under way beside them. */
module TaskQuiet {
  import opened Text
  import opened Lex
  import opened TaskIndex
  import opened TaskRuns

  predicate Writes(e: Event) { e.WriteFile? || e.DeleteFile? }

  lemma QuietVault(s: World, e: Event)
    requires Enabled(s, e) && !Writes(e)
    ensures Next(s, e).vault == s.vault
  {
    hide Commit, WalkTurn, WalkTakes, StampedIndex, TaskPaths;
  }

  // ---- a reconcile ----

  /** No write, and every stat and read of this walk succeeds. */
  predicate WalkUndisturbed(e: Event, token: nat) {
    && !Writes(e)
    && (e.WalkStat? && e.token == token ==> e.ok)
    && (e.WalkRestat? && e.token == token ==> e.ok)
    && (e.WalkRead? && e.token == token ==> e.ok)
  }

  /** What the snapshot fixed. */
  datatype Plan = Plan(before: Index, was: Rungs, base: nat, rungs: Rungs, vault: Vault, listing: seq<string>)

  /** Between two files the walk has built the reconcile of the files it passed; at a file it reads, that
      and the file's stamp. */
  predicate WalkedTo(w: Walking, p: Plan)
    requires w.Walking?
  {
    var n := |p.listing| - |w.todo|;
    && n >= 0 && w.todo == p.listing[n..]
    && w.before == p.before && w.was == p.was && w.baseSeq == p.base && w.rungs == p.rungs
    && match w.reading
       case None => w.built == ReconcileWalk(p.before, p.vault, p.listing[..n], p.rungs)
       case Some(path) =>
         && n > 0 && path == p.listing[n - 1] && path in p.vault && IsTaskFile(path)
         && !Held(p.before, path, p.vault[path].stamp)
         && w.built == Stamped(ReconcileWalk(p.before, p.vault, p.listing[..n - 1], p.rungs), path, p.vault[path].stamp)
  }

  function Stamped(ix: Index, path: string, stamp: Stamp): Index { ix.(fileStamps := ix.fileStamps[path := stamp]) }

  predicate OnPlan(s: World, token: nat, p: Plan) {
    && s.vault == p.vault && token < s.claims
    && (token in s.walks ==> s.walks[token] != Claimed && (s.walks[token].Walking? ==> WalkedTo(s.walks[token], p)))
  }

  predicate Complete(p: Plan) { forall path :: path in p.listing ==> path in p.vault }

  lemma TurnOnPlan(w: Walking, p: Plan)
    requires w.Walking? && WalkedTo(w, p) && w.todo != [] && w.reading == None && Complete(p)
    ensures WalkTurn(w, StatOf(p.vault, w.todo[0], true)).Walking?
    ensures WalkedTo(WalkTurn(w, StatOf(p.vault, w.todo[0], true)), p)
  {
    hide AddCandidate, IndexContent, Reresolve, IsTaskFile;
    var n := |p.listing| - |w.todo|;
    var path := w.todo[0];
    assert path == p.listing[n] && w.todo[1..] == p.listing[n + 1..] && path in p.vault;
    assert p.listing[..n + 1][..n] == p.listing[..n];
  }

  lemma RestatOnPlan(w: Walking, p: Plan)
    requires w.Walking? && WalkedTo(w, p) && w.reading.Some?
    ensures WalkedTo(w.(built := StampedIndex(w.built, w.reading.value, StatOf(p.vault, w.reading.value, true))), p)
  {
    hide ReconcileWalk, Held, IsTaskFile;
    var path := w.reading.value;
    assert w.built.fileStamps[path := p.vault[path].stamp] == w.built.fileStamps;
  }

  lemma TakesOnPlan(w: Walking, p: Plan)
    requires w.Walking? && WalkedTo(w, p) && w.reading.Some?
    ensures WalkTakes(w, ReadOf(p.vault, w.reading.value, true)).Walking?
    ensures WalkedTo(WalkTakes(w, ReadOf(p.vault, w.reading.value, true)), p)
  {
    hide IndexContent, IsTaskFile, Held;
    var n := |p.listing| - |w.todo|;
    assert p.listing[..n][..n - 1] == p.listing[..n - 1];
  }

  lemma StepOnPlan(s: World, e: Event, token: nat, p: Plan)
    requires Inv(s) && Enabled(s, e) && WalkUndisturbed(e, token) && OnPlan(s, token, p) && Complete(p)
    ensures OnPlan(Next(s, e), token, p)
  {
    hide Coherent, Honest, HonestApply, HonestWalk, Stamps, Commit, WalkTurn, WalkTakes, WalkedTo, TaskPaths,
         StampedIndex, StatOf, ReadOf, Complete;
    QuietVault(s, e);
    match e
    case WalkStat(t, _) => if t == token { TurnOnPlan(s.walks[t], p); }
    case WalkRestat(t, _) => if t == token { RestatOnPlan(s.walks[t], p); }
    case WalkRead(t, _) => if t == token { TakesOnPlan(s.walks[t], p); }
    case _ =>
  }

  lemma {:induction false} RunOnPlan(s: World, run: seq<Event>, token: nat, p: Plan)
    requires Inv(s) && Legal(s, run) && OnPlan(s, token, p) && Complete(p)
    requires forall i :: 0 <= i < |run| ==> WalkUndisturbed(run[i], token)
    ensures OnPlan(After(s, run), token, p)
    decreases |run|
  {
    hide Inv, Next, Enabled, OnPlan, WalkUndisturbed, Complete;
    if run != [] {
      StepKeeps(s, run[0]);
      StepOnPlan(s, run[0], token, p);
      forall i | 0 <= i < |run[1..]| ensures WalkUndisturbed(run[1..][i], token) { assert run[1..][i] == run[i + 1]; }
      RunOnPlan(Next(s, run[0]), run[1..], token, p);
    }
  }

  /** From any state that keeps the invariant, whatever drift it holds: a reconcile of a directory quiet
      from its listing to its install serves exactly the fresh build of that directory under the re-read
      rungs, unless a batch commits meanwhile, which it then leaves in place. */
  lemma QuietReconcileRepairs(s: World, token: nat, rungs: Rungs, run: seq<Event>)
    requires Inv(s) && Enabled(s, Snapshot(token, rungs, SortedKeys(s.vault.Keys)))
    requires Legal(Next(s, Snapshot(token, rungs, SortedKeys(s.vault.Keys))), run)
    requires forall i :: 0 <= i < |run| ==> WalkUndisturbed(run[i], token)
    requires Enabled(After(Next(s, Snapshot(token, rungs, SortedKeys(s.vault.Keys))), run), InstallWalk(token))
    ensures var t := After(Next(s, Snapshot(token, rungs, SortedKeys(s.vault.Keys))), run);
            var u := Next(t, InstallWalk(token));
            if exists i :: 0 <= i < |run| && run[i].ApplyCommit? then u.serving == t.serving && u.rungs == t.rungs
            else
              && u.serving == Walk(s.vault, SortedKeys(s.vault.Keys), rungs) && u.rungs == rungs
              && u.vault == s.vault && Exact(u.serving, u.vault, u.rungs)
  {
    hide Inv, Next, Enabled, Legal, After, WalkUndisturbed, Exact, Coherent, Walk;
    var listing := SortedKeys(s.vault.Keys);
    var p := Plan(s.serving, s.rungs, s.applied, rungs, s.vault, listing);
    var first := Next(s, Snapshot(token, rungs, listing));
    StepKeeps(s, Snapshot(token, rungs, listing));
    InstallDiscardsNoApply(s, token, rungs, listing, run);
    PlanBegins(s, token, rungs, listing);
    RunOnPlan(first, run, token, p);
    var t := After(first, run);
    PlanEnds(t, token, p);
    SnapshotReconciles(s, listing, rungs);
    FreshWalkIsExact(s.vault, rungs);
  }

  lemma PlanBegins(s: World, token: nat, rungs: Rungs, listing: seq<string>)
    requires Inv(s) && Enabled(s, Snapshot(token, rungs, listing))
    ensures OnPlan(Next(s, Snapshot(token, rungs, listing)), token,
                   Plan(s.serving, s.rungs, s.applied, rungs, s.vault, listing))
  {
    hide Coherent, Honest, HonestApply, HonestWalk, Stamps, Increasing;
    assert listing[|listing| - |listing|..] == listing && listing[..0] == [];
  }

  lemma PlanEnds(t: World, token: nat, p: Plan)
    requires OnPlan(t, token, p) && Enabled(t, InstallWalk(token))
    ensures t.walks[token].built == ReconcileWalk(p.before, p.vault, p.listing, p.rungs)
    ensures t.walks[token].rungs == p.rungs && Next(t, InstallWalk(token)).vault == p.vault
  {
    hide ReconcileWalk;
    assert p.listing[..|p.listing|] == p.listing;
  }

  lemma SnapshotReconciles(s: World, listing: seq<string>, rungs: Rungs)
    requires Inv(s)
    ensures ReconcileWalk(s.serving, s.vault, listing, rungs) == Walk(s.vault, listing, rungs)
  {
    hide Coherent, HonestApply, HonestWalk;
    ReconcileIsFreshWalk(s.serving, s.vault, listing, s.rungs, rungs);
  }

  // ---- a batch ----

  predicate BatchUndisturbed(e: Event, id: nat) {
    && !Writes(e)
    && (e.ApplyStat? && e.id == id ==> e.ok)
    && (e.ApplyRead? && e.id == id ==> e.ok)
    && !(e.ApplyCommit? && e.id == id) && !(e.ApplyDrop? && e.id == id)
  }

  /** What the batch has read is what the vault holds under the paths it passed. */
  predicate ReadTo(a: Applying, vault: Vault, paths: seq<string>) {
    && |a.pending| + |a.todo| == |TaskPaths(paths)|
    && a.todo == TaskPaths(paths)[|a.pending|..]
    && (forall i :: 0 <= i < |a.pending| ==> a.pending[i] == Found(vault, TaskPaths(paths)[i]))
    && (a.stat.Some? ==> a.todo != [] && a.stat.value == StatOf(vault, a.todo[0], true))
  }

  lemma {:induction false} GatherIsFound(vault: Vault, paths: seq<string>)
    ensures |Gather(vault, paths)| == |TaskPaths(paths)|
    ensures forall i :: 0 <= i < |Gather(vault, paths)| ==> Gather(vault, paths)[i] == Found(vault, TaskPaths(paths)[i])
  {
    hide Found, TaskPath;
    if paths != [] { GatherIsFound(vault, paths[..|paths| - 1]); }
  }

  predicate OnBatch(s: World, id: nat, vault: Vault, paths: seq<string>) {
    s.vault == vault && id in s.applies && ReadTo(s.applies[id], vault, paths)
  }

  lemma StepOnBatch(s: World, e: Event, id: nat, vault: Vault, paths: seq<string>)
    requires Enabled(s, e) && BatchUndisturbed(e, id) && OnBatch(s, id, vault, paths)
    ensures OnBatch(Next(s, e), id, vault, paths)
  {
    hide Commit, WalkTurn, WalkTakes, TaskPaths, StampedIndex, TaskPath;
    QuietVault(s, e);
  }

  lemma {:induction false} RunOnBatch(s: World, run: seq<Event>, id: nat, vault: Vault, paths: seq<string>)
    requires Legal(s, run) && OnBatch(s, id, vault, paths)
    requires forall i :: 0 <= i < |run| ==> BatchUndisturbed(run[i], id)
    ensures OnBatch(After(s, run), id, vault, paths)
    decreases |run|
  {
    hide Next, Enabled, OnBatch, BatchUndisturbed;
    if run != [] {
      StepOnBatch(s, run[0], id, vault, paths);
      forall i | 0 <= i < |run[1..]| ensures BatchUndisturbed(run[1..][i], id) { assert run[1..][i] == run[i + 1]; }
      RunOnBatch(Next(s, run[0]), run[1..], id, vault, paths);
    }
  }

  /** A batch whose stats and reads succeed on a quiet directory commits exactly the vault's files onto
      whatever is served by then, other batches and installs in between included. */
  lemma QuietBatchCommitsTheVault(s: World, id: nat, paths: seq<string>, run: seq<Event>)
    requires Enabled(s, ApplyStart(id, paths)) && Legal(Next(s, ApplyStart(id, paths)), run)
    requires forall i :: 0 <= i < |run| ==> BatchUndisturbed(run[i], id)
    requires Enabled(After(Next(s, ApplyStart(id, paths)), run), ApplyCommit(id))
    ensures var t := After(Next(s, ApplyStart(id, paths)), run);
            Next(t, ApplyCommit(id)).serving == Commit(t.serving, Gather(s.vault, paths), t.rungs)
  {
    hide Commit, TaskPath, TaskPaths, BatchUndisturbed, Found, Gather, Legal, After;
    var first := Next(s, ApplyStart(id, paths));
    assert TaskPaths(paths)[0..] == TaskPaths(paths);
    RunOnBatch(first, run, id, s.vault, paths);
    var t := After(first, run);
    GatherIsFound(s.vault, paths);
    assert t.applies[id].pending == Gather(s.vault, paths);
  }
}
