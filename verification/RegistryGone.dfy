/** Which sessions a registry listing leaves out, exactly (pkg/session-liveness-checker.go:36-54, 214-240,
    276-431): those no entry carried at the step that resolved it. */
module RegistryGone {
  import opened Text
  import opened Calendar
  import opened Registry
  import opened RegistryRuns

  /** The step resolves the entry the walk is at, which carries the session at that moment. */
  predicate Resolves(w: World, e: Event, id: nat, name: string, session: string) {
    && id in w.calls && w.calls[id].Walking? && w.calls[id].todo != [] && w.calls[id].todo[0] == name
    && name in w.files && session != "" && w.files[name].session == Some(session)
    && match e
       case StatEntry(who, ok) =>
         who == id && ok && w.calls[id].stat == None && IsJson(name)
         && Reusable(w.entryStamps, name, w.files[name].stamp)
       case ReadEntry(who, ok) => who == id && ok && w.calls[id].stat.Some?
       case _ => false
  }

  predicate ResolvesSome(w: World, e: Event, id: nat, session: string) {
    id in w.calls && w.calls[id].Walking? && w.calls[id].todo != [] && Resolves(w, e, id, w.calls[id].todo[0], session)
  }

  /** Some step of the run resolves an entry that carries the session then. */
  predicate ResolvesIn(w: World, run: seq<Event>, id: nat, session: string)
    requires Legal(w, run)
    decreases |run|
  {
    run != [] && (ResolvesSome(w, run[0], id, session) || ResolvesIn(Next(w, run[0]), run[1..], id, session))
  }

  function IdsOf(c: Call): seq<string> {
    match c
    case Statted(_) => []
    case Walking(_, _, _, _, l) => l.ids
    case Answered(_, ids, _, _) => ids
  }

  predicate Lists(w: World, id: nat) { id in w.calls && (w.calls[id].Walking? || w.calls[id].Answered?) }

  lemma StatLists(w: World, id: nat, ok: bool, session: string)
    requires Inv(w) && Enabled(w, StatEntry(id, ok))
    ensures var e := StatEntry(id, ok);
            && Next(w, e).calls[id].Walking?
            && (session in IdsOf(Next(w, e).calls[id]) <==>
                  session in IdsOf(w.calls[id]) || ResolvesSome(w, e, id, session))
  {
    hide IsJson, Covers;
    assert CallOk(w.calls[id], w);
  }

  lemma ReadLists(w: World, id: nat, ok: bool, session: string)
    requires Enabled(w, ReadEntry(id, ok))
    ensures var e := ReadEntry(id, ok);
            && Next(w, e).calls[id].Walking?
            && (session in IdsOf(Next(w, e).calls[id]) <==>
                  session in IdsOf(w.calls[id]) || ResolvesSome(w, e, id, session))
  {
    hide IsJson;
  }

  lemma StepLists(w: World, e: Event, id: nat, session: string)
    requires Inv(w) && Enabled(w, e) && Lists(w, id)
    ensures Lists(Next(w, e), id)
    ensures session in IdsOf(Next(w, e).calls[id]) <==> session in IdsOf(w.calls[id]) || ResolvesSome(w, e, id, session)
  {
    hide IsJson, Inv, StatTurn, ReadTurn, Resolved;
    match e
    case StatEntry(who, ok) => if who == id { StatLists(w, id, ok, session); }
    case ReadEntry(who, ok) => if who == id { ReadLists(w, id, ok, session); }
    case _ =>
  }

  lemma {:induction false} RunLists(w: World, run: seq<Event>, id: nat, session: string)
    requires Inv(w) && Legal(w, run) && Lists(w, id)
    ensures Lists(After(w, run), id)
    ensures session in IdsOf(After(w, run).calls[id]) <==>
              session in IdsOf(w.calls[id]) || ResolvesIn(w, run, id, session)
    decreases |run|
  {
    hide Inv, Next, Enabled, ResolvesSome;
    if run != [] {
      StepKeeps(w, run[0]);
      StepLists(w, run[0], id, session);
      RunLists(Next(w, run[0]), run[1..], id, session);
    }
  }

  /** IsLive after its cached listing missed the session: gone when the fresh answer is readable and lacks
      it. */
  predicate AnswersGone(w: World, id: nat, session: string) {
    id in w.calls && w.calls[id].Answered? && w.calls[id].readable && session !in w.calls[id].ids
  }

  /** A walk lists exactly the sessions that entries carried at the steps that resolved them, whatever is
      created, rewritten and removed meanwhile and whichever stats and reads fail: so, once answered, it
      reports a session gone exactly when no step resolved an entry carrying it. */
  lemma WalkListsExactly(w: World, id: nat, plain: bool, names: seq<string>, run: seq<Event>, session: string)
    requires Inv(w) && Enabled(w, OpenListing(id, plain, names))
    requires Legal(Next(w, OpenListing(id, plain, names)), run)
    ensures var first := Next(w, OpenListing(id, plain, names));
            var t := After(first, run);
            && Lists(t, id)
            && (session in IdsOf(t.calls[id]) <==> ResolvesIn(first, run, id, session))
            && (t.calls[id].Answered? ==> t.calls[id].readable)
            && (AnswersGone(t, id, session) <==> t.calls[id].Answered? && !ResolvesIn(first, run, id, session))
  {
    hide Inv, IsJson, Resolves;
    var first := Next(w, OpenListing(id, plain, names));
    StepKeeps(w, OpenListing(id, plain, names));
    RunLists(first, run, id, session);
    WalksAreReadable(first, run, id);
  }

  lemma {:induction false} WalksAreReadable(w: World, run: seq<Event>, id: nat)
    requires Legal(w, run) && Lists(w, id) && (w.calls[id].Answered? ==> w.calls[id].readable)
    ensures Lists(After(w, run), id) && (After(w, run).calls[id].Answered? ==> After(w, run).calls[id].readable)
    decreases |run|
  {
    hide StatTurn, ReadTurn;
    if run != [] {
      StaysReadable(w, run[0], id);
      WalksAreReadable(Next(w, run[0]), run[1..], id);
    }
  }

  lemma StaysReadable(w: World, e: Event, id: nat)
    requires Enabled(w, e) && Lists(w, id) && (w.calls[id].Answered? ==> w.calls[id].readable)
    ensures Lists(Next(w, e), id) && (Next(w, e).calls[id].Answered? ==> Next(w, e).calls[id].readable)
  {
    hide Resolved, IsJson;
  }

  // ---- a session that stays in one file ----

  /** The file, and no other, carries the session. */
  predicate SoleCarrier(w: World, name: string, session: string) {
    name in w.files && w.files[name].session == Some(session) && OnlyHere(w, name, session)
  }

  predicate Steady(w: World, run: seq<Event>, name: string, session: string)
    requires Legal(w, run)
    decreases |run|
  {
    SoleCarrier(w, name, session) && (run == [] || Steady(Next(w, run[0]), run[1..], name, session))
  }

  /** A stat or a read of the walk fails at the file. */
  predicate FailsAt(w: World, e: Event, id: nat, name: string) {
    && id in w.calls && w.calls[id].Walking? && w.calls[id].todo != [] && w.calls[id].todo[0] == name
    && ((e.StatEntry? && e.id == id && !e.ok) || (e.ReadEntry? && e.id == id && !e.ok))
  }

  predicate FailsIn(w: World, run: seq<Event>, id: nat, name: string)
    requires Legal(w, run)
    decreases |run|
  {
    run != [] && (FailsAt(w, run[0], id, name) || FailsIn(Next(w, run[0]), run[1..], id, name))
  }

  predicate Distinct(names: seq<string>) { forall i, j :: 0 <= i < j < |names| ==> names[i] != names[j] }

  predicate Ahead(w: World, id: nat, name: string) { id in w.calls && w.calls[id].Walking? && name in w.calls[id].todo }

  lemma TailDistinct(names: seq<string>)
    requires Distinct(names) && names != []
    ensures Distinct(names[1..]) && names[0] !in names[1..]
    ensures forall n :: n in names <==> n == names[0] || n in names[1..]
  {
    assert names == [names[0]] + names[1..];
  }

  /** No other file carries the session. */
  predicate OnlyHere(w: World, name: string, session: string) {
    forall n :: n in w.files && n != name ==> w.files[n].session != Some(session)
  }

  lemma OthersStep(w: World, e: Event, id: nat, name: string, session: string)
    requires Inv(w) && Enabled(w, e) && Lists(w, id) && OnlyHere(w, name, session)
    requires w.calls[id].Walking? ==> Distinct(w.calls[id].todo)
    ensures var next := Next(w, e);
            && Lists(next, id) && (next.calls[id].Walking? ==> Distinct(next.calls[id].todo))
            && (Ahead(next, id, name) ==> Ahead(w, id, name))
            && ((Ahead(w, id, name) ==> Ahead(next, id, name)) ==> !ResolvesSome(w, e, id, session))
  {
    hide Resolved, IsJson, Covers;
    assert CallOk(w.calls[id], w);
    if w.calls[id].Walking? && w.calls[id].todo != [] { TailDistinct(w.calls[id].todo); }
  }

  lemma SteadyStep(w: World, e: Event, id: nat, name: string, session: string)
    requires Inv(w) && Enabled(w, e) && Lists(w, id) && SoleCarrier(w, name, session) && session != "" && IsJson(name)
    requires w.calls[id].Walking? ==> Distinct(w.calls[id].todo)
    ensures var next := Next(w, e);
            && Lists(next, id) && (next.calls[id].Walking? ==> Distinct(next.calls[id].todo))
            && (Ahead(next, id, name) ==> Ahead(w, id, name))
            && (Ahead(w, id, name) && !Ahead(next, id, name) ==>
                  (ResolvesSome(w, e, id, session) <==> !FailsAt(w, e, id, name)))
            && (Ahead(w, id, name) && Ahead(next, id, name) ==>
                  !ResolvesSome(w, e, id, session) && !FailsAt(w, e, id, name))
            && (!Ahead(w, id, name) ==> !ResolvesSome(w, e, id, session) && !FailsAt(w, e, id, name))
  {
    hide Enabled, Next, IsJson, ResolvesSome, FailsAt, Distinct, Inv;
    OthersStep(w, e, id, name, session);
    if Ahead(w, id, name) && !Ahead(Next(w, e), id, name) { TurnDecides(w, e, id, name, session); }
    else { FailsOnlyAtItsTurn(w, e, id, name); }
  }

  /** At the file's turn either a stat or a read fails, or its session is resolved. */
  lemma TurnDecides(w: World, e: Event, id: nat, name: string, session: string)
    requires Inv(w) && Enabled(w, e) && SoleCarrier(w, name, session) && session != "" && IsJson(name)
    requires Ahead(w, id, name) && !Ahead(Next(w, e), id, name)
    ensures ResolvesSome(w, e, id, session) <==> !FailsAt(w, e, id, name)
  {
    hide Resolved, IsJson, Covers, OnlyHere;
    assert CallOk(w.calls[id], w);
    var c := w.calls[id];
    if c.todo != [] { assert c.todo == [c.todo[0]] + c.todo[1..]; }
  }

  lemma FailsOnlyAtItsTurn(w: World, e: Event, id: nat, name: string)
    requires Enabled(w, e) && Lists(w, id) && (w.calls[id].Walking? ==> Distinct(w.calls[id].todo)) && IsJson(name)
    requires Ahead(w, id, name) ==> Ahead(Next(w, e), id, name)
    ensures !FailsAt(w, e, id, name)
  {
    hide Resolved, IsJson;
    if w.calls[id].Walking? && w.calls[id].todo != [] { TailDistinct(w.calls[id].todo); }
  }

  lemma {:induction false} SteadyRun(w: World, run: seq<Event>, id: nat, name: string, session: string)
    requires Inv(w) && Legal(w, run) && Lists(w, id) && Steady(w, run, name, session) && session != "" && IsJson(name)
    requires w.calls[id].Walking? ==> Distinct(w.calls[id].todo)
    requires Lists(After(w, run), id) && After(w, run).calls[id].Answered?
    ensures ResolvesIn(w, run, id, session) <==> Ahead(w, id, name) && !FailsIn(w, run, id, name)
    ensures FailsIn(w, run, id, name) ==> Ahead(w, id, name)
    decreases |run|
  {
    hide Inv, Next, Enabled, ResolvesSome, FailsAt, SoleCarrier, IsJson, Distinct;
    if run != [] {
      StepKeeps(w, run[0]);
      SteadyStep(w, run[0], id, name, session);
      SteadyRun(Next(w, run[0]), run[1..], id, name, session);
    }
  }

  /** A session that one file alone carries from the listing to the answer is left out of a walk exactly
      when a stat or a read of that walk fails at the file. */
  lemma WalkMissesExactly(w: World, id: nat, plain: bool, names: seq<string>, run: seq<Event>, name: string,
                          session: string)
    requires Inv(w) && Enabled(w, OpenListing(id, plain, names)) && Distinct(names)
    requires Legal(Next(w, OpenListing(id, plain, names)), run)
    requires var first := Next(w, OpenListing(id, plain, names));
             && Steady(first, run, name, session) && session != "" && IsJson(name)
             && id in After(first, run).calls && After(first, run).calls[id].Answered?
    ensures var first := Next(w, OpenListing(id, plain, names));
            AnswersGone(After(first, run), id, session) <==> FailsIn(first, run, id, name)
  {
    hide Inv, IsJson, Distinct, Legal, After, ResolvesIn, FailsIn;
    var first := Next(w, OpenListing(id, plain, names));
    StepKeeps(w, OpenListing(id, plain, names));
    WalkListsExactly(w, id, plain, names, run, session);
    SteadyRun(first, run, id, name, session);
    SteadyBegins(w, id, plain, names, run, name, session);
  }

  lemma SteadyBegins(w: World, id: nat, plain: bool, names: seq<string>, run: seq<Event>, name: string, session: string)
    requires Enabled(w, OpenListing(id, plain, names)) && Legal(Next(w, OpenListing(id, plain, names)), run)
    requires Steady(Next(w, OpenListing(id, plain, names)), run, name, session)
    ensures Ahead(Next(w, OpenListing(id, plain, names)), id, name)
  {
    hide IsJson;
  }

  // ---- reuse ----

  lemma {:induction false} SplitRun(w: World, run: seq<Event>, n: nat)
    requires Legal(w, run) && n <= |run|
    ensures Legal(w, run[..n]) && Legal(After(w, run[..n]), run[n..])
    ensures After(After(w, run[..n]), run[n..]) == After(w, run)
    decreases n
  {
    hide Next, Enabled, Legal, After;
    if n == 0 {
      assert run[..0] == [] && run[0..] == run;
      NoSteps(w);
    } else {
      FirstStep(w, run);
      SplitRun(Next(w, run[0]), run[1..], n - 1);
      Unfold(w, run[0], run[1..][..n - 1]);
      assert [run[0]] + run[1..][..n - 1] == run[..n] && run[1..][n - 1..] == run[n..];
    }
  }

  lemma NoSteps(w: World)
    ensures Legal(w, []) && After(w, []) == w
  {
  }

  lemma FirstStep(w: World, run: seq<Event>)
    requires Legal(w, run) && run != []
    ensures Enabled(w, run[0]) && Legal(Next(w, run[0]), run[1..])
    ensures After(w, run) == After(Next(w, run[0]), run[1..])
  {
    hide Next, Enabled;
  }

  lemma StepAt(w: World, run: seq<Event>, n: nat)
    requires Legal(w, run) && n < |run|
    ensures Legal(w, run[..n]) && Enabled(After(w, run[..n]), run[n])
    ensures Legal(w, run[..n + 1]) && After(w, run[..n + 1]) == Next(After(w, run[..n]), run[n])
    ensures Legal(Next(After(w, run[..n]), run[n]), run[n + 1..])
    ensures After(Next(After(w, run[..n]), run[n]), run[n + 1..]) == After(w, run)
  {
    hide Next, Enabled;
    SplitRun(w, run, n);
    SplitRun(w, run, n + 1);
    SplitRun(w, run[..n + 1], n);
    assert run[..n + 1][..n] == run[..n] && run[..n + 1][n..] == [run[n]] && run[n..][0] == run[n];
    assert run[n..][1..] == run[n + 1..] && [run[n]][1..] == [];
  }

  lemma OnlyOpeningWalks(w: World, e: Event, id: nat)
    requires Enabled(w, e) && id in Next(w, e).calls && Next(w, e).calls[id].Walking?
    ensures (id in w.calls && w.calls[id].Walking? && Next(w, e).calls[id].plain == w.calls[id].plain)
            || (e.OpenListing? && e.id == id && Next(w, e).calls[id].plain == e.plain)
  {
    hide Resolved, IsJson;
  }

  /** A walk under way was opened at some step. */
  lemma {:induction false} OpenedAt(run: seq<Event>, id: nat) returns (o: nat)
    requires Legal(START, run) && id in After(START, run).calls && After(START, run).calls[id].Walking?
    ensures o < |run| && run[o].OpenListing? && run[o].id == id && run[o].plain == After(START, run).calls[id].plain
    decreases |run|
  {
    hide Next, Enabled;
    o := 0;
    if run != [] {
      var n := |run| - 1;
      StepAt(START, run, n);
      assert run[..n + 1] == run;
      OnlyOpeningWalks(After(START, run[..n]), run[n], id);
      if id in After(START, run[..n]).calls && After(START, run[..n]).calls[id].Walking?
         && After(START, run[..n]).calls[id].plain == After(START, run).calls[id].plain {
        o := OpenedAt(run[..n], id);
      } else {
        o := n;
      }
    }
  }

  /** The world the walk opened at step o begins in, and its steps up to k. */
  function Opened(run: seq<Event>, o: nat): World
    requires Legal(START, run) && o < |run|
  {
    StepAt(START, run, o);
    After(START, run[..o + 1])
  }

  lemma Between(run: seq<Event>, o: nat, k: nat)
    requires Legal(START, run) && o < k < |run|
    ensures Legal(Opened(run, o), run[o + 1..k])
    ensures Legal(START, run[..k]) && After(Opened(run, o), run[o + 1..k]) == After(START, run[..k])
  {
    hide Next, Enabled;
    SplitRun(START, run, k);
    SplitRun(START, run, o + 1);
    SplitRun(START, run[..k], o + 1);
    assert run[..k][..o + 1] == run[..o + 1] && run[..k][o + 1..] == run[o + 1..k];
  }

  /** A held listing is one whole walk, opened at step o under a stat with the held stamp, complete, and
      closed at step k; it lists exactly the sessions that walk's steps resolved. */
  lemma HeldWalk(run: seq<Event>) returns (o: nat, k: nat)
    requires Legal(START, run) && After(START, run).held.Some?
    ensures o < k < |run| && Legal(START, run[..k]) && Legal(Opened(run, o), run[o + 1..k])
    ensures run[o].OpenListing? && !run[o].plain && run[k].CloseListing? && run[k].id == run[o].id
    ensures var s := After(START, run[..k]);
            && s == After(Opened(run, o), run[o + 1..k]) && Inv(Opened(run, o))
            && Lists(s, run[o].id) && s.calls[run[o].id].Walking? && s.calls[run[o].id].todo == []
            && s.calls[run[o].id].listing.complete
            && s.calls[run[o].id].dirMod == Some(After(START, run).held.value.dirMod)
            && s.calls[run[o].id].listing.ids == After(START, run).held.value.ids
    ensures forall session :: session in After(START, run).held.value.ids <==>
              ResolvesIn(Opened(run, o), run[o + 1..k], run[o].id, session)
  {
    hide Inv, Next, Legal, After;
    k := HeldIsACompleteWalk(run);
    var s := After(START, run[..k]);
    var id := run[k].id;
    o := OpenedAt(run[..k], id);
    assert run[..k][o] == run[o];
    Between(run, o, k);
    StepAt(START, run, o);
    BeginsEmpty(START, run, o);
    forall session ensures session in s.calls[id].listing.ids <==>
                             ResolvesIn(Opened(run, o), run[o + 1..k], id, session) {
      RunLists(Opened(run, o), run[o + 1..k], id, session);
    }
  }

  lemma BeginsEmpty(w: World, run: seq<Event>, o: nat)
    requires w == START && Legal(w, run) && o < |run| && run[o].OpenListing?
    ensures Inv(Opened(run, o)) && Lists(Opened(run, o), run[o].id) && IdsOf(Opened(run, o).calls[run[o].id]) == []
    ensures Opened(run, o).calls[run[o].id] ==
              Walking(Opened(run, o).calls[run[o].id].dirMod, run[o].plain, run[o].names, None, NO_LISTING)
    ensures forall n :: n in Opened(run, o).files ==> n in run[o].names
  {
    hide Inv, Legal, After;
    StepAt(w, run, o);
    StartOk();
    ReachableInv(w, run[..o]);
    StepKeeps(After(w, run[..o]), run[o]);
  }

  /** A reused answer reports a session gone exactly when no step of the walk it reuses resolved an entry
      carrying it. */
  lemma ReuseListsExactly(run: seq<Event>, id: nat, now: Instant, session: string) returns (o: nat, k: nat)
    requires Legal(START, run) && Enabled(After(START, run), Reuse(id, now))
    ensures o < k < |run| && run[o].OpenListing? && !run[o].plain && run[k].CloseListing? && run[k].id == run[o].id
    ensures Legal(Opened(run, o), run[o + 1..k])
    ensures AnswersGone(Next(After(START, run), Reuse(id, now)), id, session) <==>
              !ResolvesIn(Opened(run, o), run[o + 1..k], run[o].id, session)
  {
    hide Inv, Legal, After, ResolvesIn;
    o, k := HeldWalk(run);
  }

  // ---- reuse and one file ----

  lemma {:induction false} BornGrows(w: World, run: seq<Event>, name: string, born: nat)
    requires Legal(w, run) && (name in w.files ==> born <= w.files[name].born) && born <= w.tick + 1
    ensures name in After(w, run).files ==> born <= After(w, run).files[name].born
    decreases |run|
  {
    hide StatTurn, ReadTurn;
    if run != [] {
      BornStep(w, run[0], name, born);
      BornGrows(Next(w, run[0]), run[1..], name, born);
    }
  }

  lemma BornStep(w: World, e: Event, name: string, born: nat)
    requires Enabled(w, e) && (name in w.files ==> born <= w.files[name].born) && born <= w.tick + 1
    ensures name in Next(w, e).files ==> born <= Next(w, e).files[name].born
    ensures w.tick <= Next(w, e).tick
    ensures name in Next(w, e).files && Next(w, e).files.Keys != w.files.Keys && name !in w.files ==>
              Next(w, e).files[name].born == w.tick + 1
  {
    hide StatTurn, ReadTurn;
  }

  lemma GivenStep(w: World, e: Event, name: string, session: string)
    requires Enabled(w, e) && name in Next(w, e).files && Next(w, e).files[name].session == Some(session)
    requires name in w.files ==> w.files[name].session != Some(session)
    ensures e == Rewrite(name, Some(session))
            || (e == Create(name, Some(session)) && Next(w, e).files[name].born == w.tick + 1)
    ensures e.Create? ==> Next(w, e).tick == w.tick + 1
  {
    hide StatTurn, ReadTurn;
  }

  /** A file that is older than the moment and has come to carry the session since was rewritten to it. */
  lemma {:induction false} GivenSince(w: World, run: seq<Event>, name: string, session: string) returns (i: nat)
    requires Legal(w, run) && name in After(w, run).files && After(w, run).files[name].born <= w.tick
    requires After(w, run).files[name].session == Some(session)
    requires name in w.files ==> w.files[name].session != Some(session)
    ensures i < |run| && run[i] == Rewrite(name, Some(session))
    decreases |run|
  {
    hide Enabled, Next;
    i := 0;
    if run != [] {
      var next, rest := Next(w, run[0]), run[1..];
      TicksOn(w, run[0]);
      if name in next.files && next.files[name].session == Some(session) {
        GivenStep(w, run[0], name, session);
        if run[0].Create? { BornGrows(next, rest, name, w.tick + 1); }
      } else {
        i := GivenSince(next, rest, name, session);
        i := i + 1;
      }
    }
  }

  lemma TicksOn(w: World, e: Event)
    requires Enabled(w, e)
    ensures w.tick <= Next(w, e).tick
  {
    hide StatTurn, ReadTurn;
  }

  /** The walk's turn at a file either resolves what the file carries or leaves the listing incomplete. */
  lemma TurnResolves(w: World, e: Event, id: nat, name: string)
    requires Inv(w) && Enabled(w, e) && Ahead(w, id, name) && IsJson(name) && Lists(Next(w, e), id)
    ensures var next := Next(w, e);
            && next.calls[id].Walking?
            && (next.calls[id].listing.complete ==> w.calls[id].listing.complete)
            && (!Ahead(next, id, name) && next.calls[id].listing.complete ==>
                  name in w.files && w.files[name].session.Some?
                  && Resolves(w, e, id, name, w.files[name].session.value))
  {
    hide IsJson, Covers;
    assert CallOk(w.calls[id], w);
    var c := w.calls[id];
    if c.todo != [] { assert c.todo == [c.todo[0]] + c.todo[1..]; }
  }

  lemma StaysIncomplete(w: World, e: Event, id: nat)
    requires Enabled(w, e) && id in w.calls && w.calls[id].Walking?
    requires id in Next(w, e).calls && Next(w, e).calls[id].Walking?
    ensures Next(w, e).calls[id].listing.complete ==> w.calls[id].listing.complete
    ensures Next(w, e).calls[id].dirMod == w.calls[id].dirMod
  {
    hide IsJson;
  }

  lemma OnceClosed(w: World, e: Event, id: nat)
    requires Enabled(w, e) && id in w.calls && w.calls[id].Answered?
    ensures id in Next(w, e).calls && Next(w, e).calls[id] == w.calls[id]
  {
    hide IsJson, Resolved;
  }

  lemma {:induction false} StaysClosed(w: World, run: seq<Event>, id: nat)
    requires Legal(w, run) && id in w.calls && w.calls[id].Answered?
    ensures id in After(w, run).calls && After(w, run).calls[id] == w.calls[id]
    decreases |run|
  {
    hide Next, Enabled;
    if run != [] {
      OnceClosed(w, run[0], id);
      StaysClosed(Next(w, run[0]), run[1..], id);
    }
  }

  /** A complete walk resolved every file it had ahead, at some step. */
  lemma {:induction false} CompleteResolves(w: World, run: seq<Event>, id: nat, name: string) returns (j: nat)
    requires Inv(w) && Legal(w, run) && Ahead(w, id, name) && IsJson(name)
    requires Lists(After(w, run), id) && After(w, run).calls[id].Walking? && !Ahead(After(w, run), id, name)
    requires After(w, run).calls[id].listing.complete
    ensures j < |run| && Legal(w, run[..j])
    ensures var s := After(w, run[..j]);
            name in s.files && s.files[name].session.Some?
            && Resolves(s, run[j], id, name, s.files[name].session.value) && Enabled(s, run[j])
    decreases |run|
  {
    hide Inv, Next, Enabled, Resolves, IsJson;
    j := 0;
    if run != [] {
      var next, rest := Next(w, run[0]), run[1..];
      StepKeeps(w, run[0]);
      AheadLists(w, run[0], id, name);
      TurnResolves(w, run[0], id, name);
      if Ahead(next, id, name) {
        j := CompleteResolves(next, rest, id, name);
        assert run[..j + 1][0] == run[0] && run[..j + 1][1..] == rest[..j];
        j := j + 1;
      } else {
        assert run[..0] == [];
        CompleteBackwards(next, rest, id);
      }
    }
  }

  lemma AheadLists(w: World, e: Event, id: nat, name: string)
    requires Enabled(w, e) && Ahead(w, id, name)
    ensures Lists(Next(w, e), id) && Next(w, e).calls[id].Walking?
  {
    hide IsJson, Resolved;
  }

  lemma {:induction false} CompleteBackwards(w: World, run: seq<Event>, id: nat)
    requires Legal(w, run) && id in w.calls && w.calls[id].Walking?
    requires id in After(w, run).calls && After(w, run).calls[id].Walking? && After(w, run).calls[id].listing.complete
    ensures w.calls[id].listing.complete
    decreases |run|
  {
    hide Next, Enabled;
    if run != [] {
      WalkOrClose(w, run[0], id);
      if Next(w, run[0]).calls[id].Answered? {
        StaysClosed(Next(w, run[0]), run[1..], id);
      } else {
        CompleteBackwards(Next(w, run[0]), run[1..], id);
        StaysIncomplete(w, run[0], id);
      }
    }
  }

  lemma WalkOrClose(w: World, e: Event, id: nat)
    requires Enabled(w, e) && id in w.calls && w.calls[id].Walking?
    ensures id in Next(w, e).calls && (Next(w, e).calls[id].Walking? || Next(w, e).calls[id].Answered?)
  {
    hide IsJson, Resolved;
  }

  /** The walk held for reuse resolved every file of the held stamp's age that is still there, at some step
      j, the m-th after its opening. */
  lemma ResolvedByHeld(run: seq<Event>, name: string) returns (o: nat, k: nat, j: nat, m: nat)
    requires Legal(START, run) && After(START, run).held.Some? && IsJson(name)
    requires var t := After(START, run); name in t.files && t.files[name].born <= t.held.value.dirMod
    ensures o < j < k < |run| && j == o + 1 + m && run[o].OpenListing? && !run[o].plain && Legal(START, run[..j])
    ensures Legal(START, run[..k]) && run[o].id in After(START, run[..k]).calls
    ensures After(START, run[..k]).calls[run[o].id].dirMod == Some(After(START, run).held.value.dirMod)
    ensures Legal(Opened(run, o), run[o + 1..k]) && Ahead(Opened(run, o), run[o].id, name)
    ensures forall session :: session in After(START, run).held.value.ids <==>
              ResolvesIn(Opened(run, o), run[o + 1..k], run[o].id, session)
    ensures var s := After(START, run[..j]);
            && name in s.files && s.files[name].session.Some? && Enabled(s, run[j])
            && Resolves(s, run[j], run[o].id, name, s.files[name].session.value)
  {
    hide Inv, Next, Enabled, Legal, After, ResolvesIn, Resolves, IsJson;
    o, k := HeldWalk(run);
    BeginsEmpty(START, run, o);
    AheadAtOpening(run, o, k, name);
    m := CompleteResolves(Opened(run, o), run[o + 1..k], run[o].id, name);
    j := o + 1 + m;
    Between(run, o, k);
    Inner(run, o, k, m);
  }

  /** A session one file carries now, left out of a reused answer although the file is as old as the held
      directory stamp: the walk resolved that file while it carried another session, and the file was
      rewritten to this one afterwards, in place. */
  lemma ReuseMissesTheRewritten(run: seq<Event>, id: nat, now: Instant, name: string, session: string)
    returns (o: nat, j: nat, i: nat)
    requires Legal(START, run) && Enabled(After(START, run), Reuse(id, now)) && IsJson(name) && session != ""
    requires AnswersGone(Next(After(START, run), Reuse(id, now)), id, session)
    requires var t := After(START, run);
             name in t.files && t.files[name].session == Some(session) && t.files[name].born <= t.held.value.dirMod
    ensures o < j < i < |run| && run[o].OpenListing? && Legal(START, run[..j])
    ensures var s := After(START, run[..j]);
            && name in s.files && s.files[name].session.Some? && s.files[name].session != Some(session)
            && Resolves(s, run[j], run[o].id, name, s.files[name].session.value)
    ensures run[i] == Rewrite(name, Some(session))
  {
    hide Inv, Next, Enabled, Legal, After, ResolvesIn, Resolves, IsJson;
    GoneIsUnlisted(After(START, run), id, now, session);
    var k, m;
    o, k, j, m := ResolvedByHeld(run, name);
    Inner(run, o, k, m);
    ResolvingLists(Opened(run, o), run[o + 1..k], m, run[o].id, name);
    StepAt(START, run, j);
    SameFileAfter(After(START, run[..j]), run[j], name);
    OldEnough(run, o, k, j, run[o].id);
    i := GivenSince(After(START, run[..j + 1]), run[j + 1..], name, session);
    i := i + j + 1;
  }

  lemma GoneIsUnlisted(t: World, id: nat, now: Instant, session: string)
    requires Enabled(t, Reuse(id, now))
    ensures t.held.Some? && (AnswersGone(Next(t, Reuse(id, now)), id, session) <==> session !in t.held.value.ids)
  {
  }

  /** A file of the held stamp's age that is there at the end was there when the walk opened. */
  lemma AheadAtOpening(run: seq<Event>, o: nat, k: nat, name: string)
    requires Legal(START, run) && o < k < |run| && run[o].OpenListing? && !run[o].plain
    requires Legal(START, run[..k]) && run[o].id in After(START, run[..k]).calls
    requires var c := After(START, run[..k]).calls[run[o].id];
             c.Walking? && c.dirMod.Some? && name in After(START, run).files
             && After(START, run).files[name].born <= c.dirMod.value
    ensures Ahead(Opened(run, o), run[o].id, name)
  {
    hide Inv, Legal, After, IsJson;
    BeginsEmpty(START, run, o);
    var first := Opened(run, o);
    StepAt(START, run, o);
    Between(run, o, k);
    SameStat(first, run[o + 1..k], run[o].id);
    StampIsPast(first, run[o].id);
    if name !in first.files { BornGrows(first, run[o + 1..], name, first.tick + 1); }
  }

  lemma StampIsPast(w: World, id: nat)
    requires Inv(w) && id in w.calls && w.calls[id].dirMod.Some?
    ensures w.calls[id].dirMod.value <= w.tick
  {
    hide StampsOk, Covers, FilesOk;
    assert CallOk(w.calls[id], w);
  }

  lemma {:induction false} SameStat(w: World, run: seq<Event>, id: nat)
    requires Legal(w, run) && id in w.calls
    ensures id in After(w, run).calls && After(w, run).calls[id].dirMod == w.calls[id].dirMod
    decreases |run|
  {
    hide Next, Enabled;
    if run != [] {
      StepKeepsStat(w, run[0], id, w.calls[id].dirMod);
      SameStat(Next(w, run[0]), run[1..], id);
    }
  }

  lemma Inner(run: seq<Event>, o: nat, k: nat, m: nat)
    requires Legal(START, run) && o < k < |run| && m < k - (o + 1) && Legal(Opened(run, o), run[o + 1..k])
    ensures run[o + 1..k][m] == run[o + 1 + m] && Legal(Opened(run, o), run[o + 1..k][..m])
    ensures Legal(START, run[..o + 1 + m])
    ensures After(Opened(run, o), run[o + 1..k][..m]) == After(START, run[..o + 1 + m])
  {
    hide Next, Enabled;
    Between(run, o, o + 1 + m);
    assert run[o + 1..k][..m] == run[o + 1..o + 1 + m];
  }

  /** What a step of the walk resolved is listed. */
  lemma {:induction false} ResolvingLists(w: World, run: seq<Event>, m: nat, id: nat, name: string)
    requires Legal(w, run) && m < |run| && Legal(w, run[..m]) && Enabled(After(w, run[..m]), run[m])
    ensures forall session ::
              Resolves(After(w, run[..m]), run[m], id, name, session) ==> ResolvesIn(w, run, id, session)
    decreases m
  {
    hide Next, Enabled, Resolves;
    if m == 0 {
      assert run[..0] == [];
      forall session | Resolves(w, run[0], id, name, session) ensures ResolvesSome(w, run[0], id, session) {
        HeadResolves(w, run[0], id, name, session);
      }
    } else {
      assert run[..m][0] == run[0] && run[..m][1..] == run[1..][..m - 1];
      ResolvingLists(Next(w, run[0]), run[1..], m - 1, id, name);
    }
  }

  lemma HeadResolves(w: World, e: Event, id: nat, name: string, session: string)
    requires Resolves(w, e, id, name, session)
    ensures ResolvesSome(w, e, id, session)
  {
  }

  lemma SameFileAfter(w: World, e: Event, name: string)
    requires Enabled(w, e) && (exists id, session :: Resolves(w, e, id, name, session))
    ensures name in w.files && name in Next(w, e).files && Next(w, e).files[name] == w.files[name]
    ensures Next(w, e).tick == w.tick
  {
    hide StatTurn, ReadTurn;
  }

  lemma OldEnough(run: seq<Event>, o: nat, k: nat, j: nat, id: nat)
    requires Legal(START, run) && o < j < k < |run| && Legal(START, run[..k]) && run[o].OpenListing? && run[o].id == id
    requires id in After(START, run[..k]).calls && After(START, run[..k]).calls[id].dirMod.Some?
    ensures Legal(START, run[..j + 1])
    ensures After(START, run[..k]).calls[id].dirMod.value <= After(START, run[..j + 1]).tick
  {
    hide Inv, Legal, After;
    BeginsEmpty(START, run, o);
    Between(run, o, k);
    StepAt(START, run, o);
    StepAt(START, run, j);
    var first := Opened(run, o);
    SameStat(first, run[o + 1..k], id);
    StampIsPast(first, id);
    SplitRun(START, run[..j + 1], o + 1);
    assert run[..j + 1][..o + 1] == run[..o + 1];
    RunTicksOn(first, run[..j + 1][o + 1..]);
  }

  lemma {:induction false} RunTicksOn(w: World, run: seq<Event>)
    requires Legal(w, run)
    ensures w.tick <= After(w, run).tick
    decreases |run|
  {
    hide Next, Enabled;
    if run != [] {
      TicksOn(w, run[0]);
      RunTicksOn(Next(w, run[0]), run[1..]);
    }
  }

  // ---- reuse, exactly, for one file ----

  predicate OnlyHereIn(w: World, run: seq<Event>, name: string, session: string)
    requires Legal(w, run)
    decreases |run|
  {
    OnlyHere(w, name, session) && (run == [] || OnlyHereIn(Next(w, run[0]), run[1..], name, session))
  }

  lemma {:induction false} OnlyHereSplit(w: World, run: seq<Event>, n: nat, name: string, session: string)
    requires Legal(w, run) && n <= |run| && OnlyHereIn(w, run, name, session)
    ensures Legal(w, run[..n]) && OnlyHereIn(w, run[..n], name, session)
    ensures Legal(After(w, run[..n]), run[n..]) && OnlyHereIn(After(w, run[..n]), run[n..], name, session)
    decreases n
  {
    hide Next, Enabled, OnlyHere;
    SplitRun(w, run, n);
    if n == 0 {
      assert run[..0] == [] && run[0..] == run;
    } else {
      OnlyHereSplit(Next(w, run[0]), run[1..], n - 1, name, session);
      assert run[..n][0] == run[0] && run[..n][1..] == run[1..][..n - 1] && run[1..][n - 1..] == run[n..];
    }
  }

  lemma {:induction false} NoneLeft(w: World, run: seq<Event>, id: nat, name: string, session: string)
    requires Inv(w) && Legal(w, run) && Lists(w, id) && OnlyHereIn(w, run, name, session) && !Ahead(w, id, name)
    requires w.calls[id].Walking? ==> Distinct(w.calls[id].todo)
    ensures !ResolvesIn(w, run, id, session)
    decreases |run|
  {
    hide Inv, Next, Enabled, ResolvesSome, OnlyHere, Distinct;
    if run != [] {
      StepKeeps(w, run[0]);
      OthersStep(w, run[0], id, name, session);
      NoneLeft(Next(w, run[0]), run[1..], id, name, session);
    }
  }

  /** The walk resolved the session just when the file carried it at step j, the one that resolved it. */
  lemma {:induction false} OnceResolved(w: World, run: seq<Event>, id: nat, name: string, session: string, j: nat)
    requires Inv(w) && Legal(w, run) && Lists(w, id) && OnlyHereIn(w, run, name, session) && Ahead(w, id, name)
    requires Distinct(w.calls[id].todo)
    requires j < |run| && Legal(w, run[..j]) && name in After(w, run[..j]).files
    requires After(w, run[..j]).files[name].session.Some?
    requires Resolves(After(w, run[..j]), run[j], id, name, After(w, run[..j]).files[name].session.value)
    ensures ResolvesIn(w, run, id, session) <==> After(w, run[..j]).files[name].session == Some(session)
    decreases |run|
  {
    hide Inv, Next, Enabled, ResolvesSome, OnlyHere, Distinct, Resolves;
    var next, rest := Next(w, run[0]), run[1..];
    StepKeeps(w, run[0]);
    OthersStep(w, run[0], id, name, session);
    if j == 0 {
      assert run[..0] == [];
      ResolvedIsPast(w, run[0], id, name, w.files[name].session.value);
      ResolvesTheHead(w, run[0], id, name, session);
      NoneLeft(next, rest, id, name, session);
    } else {
      assert run[..j][0] == run[0] && run[..j][1..] == rest[..j - 1];
      StillAhead(next, rest, id, name, j - 1);
      OnceResolved(next, rest, id, name, session, j - 1);
    }
  }

  lemma ResolvedIsPast(w: World, e: Event, id: nat, name: string, session: string)
    requires Enabled(w, e) && Resolves(w, e, id, name, session) && Distinct(w.calls[id].todo)
    ensures !Ahead(Next(w, e), id, name)
  {
    hide IsJson, Resolved;
    TailDistinct(w.calls[id].todo);
  }

  lemma ResolvesTheHead(w: World, e: Event, id: nat, name: string, session: string)
    requires name in w.files && w.files[name].session.Some? && Resolves(w, e, id, name, w.files[name].session.value)
    ensures ResolvesSome(w, e, id, session) <==> w.files[name].session == Some(session)
  {
  }

  /** An entry resolved later is still ahead now. */
  lemma {:induction false} StillAhead(w: World, run: seq<Event>, id: nat, name: string, j: nat)
    requires Legal(w, run) && Lists(w, id) && j < |run| && Legal(w, run[..j])
    requires Ahead(After(w, run[..j]), id, name) || exists r :: Resolves(After(w, run[..j]), run[j], id, name, r)
    ensures Ahead(w, id, name)
    decreases j
  {
    hide Next, Enabled, Resolves;
    if j == 0 {
      assert run[..0] == [];
      if !Ahead(w, id, name) {
        var r :| Resolves(w, run[0], id, name, r);
        HeadIsAhead(w, run[0], id, name, r);
      }
    } else {
      assert run[..j][0] == run[0] && run[..j][1..] == run[1..][..j - 1];
      StaysListing(w, run[0], id, name);
      StillAhead(Next(w, run[0]), run[1..], id, name, j - 1);
    }
  }

  lemma HeadIsAhead(w: World, e: Event, id: nat, name: string, r: string)
    requires Resolves(w, e, id, name, r)
    ensures Ahead(w, id, name)
  {
    hide IsJson;
  }

  lemma StaysListing(w: World, e: Event, id: nat, name: string)
    requires Enabled(w, e) && Lists(w, id)
    ensures Lists(Next(w, e), id) && (Ahead(Next(w, e), id, name) ==> Ahead(w, id, name))
  {
    hide IsJson, Resolved;
  }

  /** A file as old as the held stamp, the only one ever to carry the session, and directories that name
      each file once: the walk reused resolved the file at one step, and the answer reports the session
      gone exactly when the file carried another one then. */
  lemma ReuseMissesExactly(run: seq<Event>, id: nat, now: Instant, name: string, session: string)
    returns (o: nat, j: nat)
    requires Legal(START, run) && Enabled(After(START, run), Reuse(id, now)) && IsJson(name)
    requires forall e :: e in run && e.OpenListing? ==> Distinct(e.names)
    requires OnlyHereIn(START, run, name, session)
    requires var t := After(START, run); name in t.files && t.files[name].born <= t.held.value.dirMod
    ensures o < j < |run| && run[o].OpenListing? && Legal(START, run[..j])
    ensures var s := After(START, run[..j]);
            && name in s.files && s.files[name].session.Some?
            && Resolves(s, run[j], run[o].id, name, s.files[name].session.value)
            && (AnswersGone(Next(After(START, run), Reuse(id, now)), id, session) <==>
                  s.files[name].session != Some(session))
  {
    hide Inv, Next, Legal, After, ResolvesIn, Resolves, IsJson, OnlyHereIn, Distinct;
    GoneIsUnlisted(After(START, run), id, now, session);
    var k, m;
    o, k, j, m := ResolvedByHeld(run, name);
    var walk := run[o].id;
    BeginsEmpty(START, run, o);
    Between(run, o, k);
    Inner(run, o, k, m);
    assert run[o] in run;
    OnlyHereSplit(START, run, k, name, session);
    OnlyHereSplit(START, run[..k], o + 1, name, session);
    assert run[..k][..o + 1] == run[..o + 1] && run[..k][o + 1..] == run[o + 1..k];
    OnceResolved(Opened(run, o), run[o + 1..k], walk, name, session, m);
  }

  // ---- the two ways a live session is reported gone ----

  lemma Unfold(w: World, e: Event, rest: seq<Event>)
    requires Enabled(w, e) && Legal(Next(w, e), rest)
    ensures Legal(w, [e] + rest) && After(w, [e] + rest) == After(Next(w, e), rest)
  {
    hide Next, Enabled;
    assert ([e] + rest)[0] == e && ([e] + rest)[1..] == rest;
  }

  lemma {:induction false} Joined(w: World, run: seq<Event>, more: seq<Event>)
    requires Legal(w, run) && Legal(After(w, run), more)
    ensures Legal(w, run + more) && After(w, run + more) == After(After(w, run), more)
    decreases |run|
  {
    hide Next, Enabled;
    if run == [] { assert run + more == more; }
    else {
      assert (run + more)[0] == run[0] && (run + more)[1..] == run[1..] + more;
      Joined(Next(w, run[0]), run[1..], more);
    }
  }

  // One file and one complete walk, world by world.
  const WALK: seq<Event> := [Create("a.json", Some("s")), StatDir(0, true), OpenListing(0, false, ["a.json"]),
                             StatEntry(0, true), ReadEntry(0, true), CloseListing(0, 0)]
  const STAMPS: Stamps := map["a.json" := EntryStamp(1, "s")]
  const CREATED: World := World(map["a.json" := File(1, Some("s"), 1, {"s"})], 1, 1, map[], None, map[])
  const STATTED: World := CREATED.(calls := map[0 := Statted(Some(1))])
  const WALKING: World := CREATED.(calls := map[0 := Walking(Some(1), false, ["a.json"], None, NO_LISTING)])
  const READING: World := CREATED.(calls := map[0 := Walking(Some(1), false, ["a.json"], Some(1), NO_LISTING)])
  const RESOLVED: World :=
    CREATED.(calls := map[0 := Walking(Some(1), false, [], None, Listing(["s"], true, STAMPS))])
  const CLOSED: World :=
    CREATED.(entryStamps := STAMPS, held := Some(Fresh(["s"], 0, 1)),
             calls := map[0 := Answered(Some(1), ["s"], true, true)])

  lemma WalkOpens()
    ensures Enabled(START, WALK[0]) && Next(START, WALK[0]) == CREATED
    ensures Enabled(CREATED, WALK[1]) && Next(CREATED, WALK[1]) == STATTED
    ensures Enabled(STATTED, WALK[2]) && Next(STATTED, WALK[2]) == WALKING
  {
    assert "a.json" in WALK[2].names;
  }

  lemma WalkReads()
    ensures Enabled(WALKING, WALK[3]) && Next(WALKING, WALK[3]) == READING
    ensures Enabled(READING, WALK[4]) && Next(READING, WALK[4]) == RESOLVED
    ensures Enabled(RESOLVED, WALK[5]) && Next(RESOLVED, WALK[5]) == CLOSED
  {
    assert IsJson("a.json") && ["a.json"][1..] == [] && [] + ["s"] == ["s"];
  }

  lemma OneWalk()
    ensures Legal(START, WALK) && After(START, WALK) == CLOSED
  {
    hide Next, Enabled;
    WalkOpens();
    WalkReads();
    Unfold(RESOLVED, WALK[5], []);
    assert [WALK[5]] + [] == WALK[5..] && [WALK[4]] + WALK[5..] == WALK[4..] && [WALK[3]] + WALK[4..] == WALK[3..];
    Unfold(READING, WALK[4], WALK[5..]);
    Unfold(WALKING, WALK[3], WALK[4..]);
    assert [WALK[2]] + WALK[3..] == WALK[2..] && [WALK[1]] + WALK[2..] == WALK[1..] && [WALK[0]] + WALK[1..] == WALK;
    Unfold(STATTED, WALK[2], WALK[3..]);
    Unfold(CREATED, WALK[1], WALK[2..]);
    Unfold(START, WALK[0], WALK[1..]);
  }

  const MISSED: seq<Event> := WALK[..3] + [StatEntry(0, false), CloseListing(0, 0)]
  const PASSED: World := CREATED.(calls := map[0 := Walking(Some(1), false, [], None, Listing([], false, map[]))])
  const LEFT_OUT: World := CREATED.(calls := map[0 := Answered(Some(1), [], true, false)])

  lemma WalkMisses()
    ensures Enabled(WALKING, MISSED[3]) && Next(WALKING, MISSED[3]) == PASSED
    ensures Enabled(PASSED, MISSED[4]) && Next(PASSED, MISSED[4]) == LEFT_OUT
  {
    assert IsJson("a.json") && ["a.json"][1..] == [];
  }

  /** An entry whose stat fails is left out of the walk: its live session is reported gone. */
  lemma UnreadEntryReadsAsGone()
    ensures Legal(START, MISSED) && AnswersGone(After(START, MISSED), 0, "s")
    ensures var t := After(START, MISSED);
            !t.calls[0].trusted && "a.json" in t.files && t.files["a.json"].carried == {"s"}
            && t.files["a.json"].session == Some("s")
  {
    hide Next, Enabled;
    WalkOpens();
    WalkMisses();
    assert MISSED[0] == WALK[0] && MISSED[1] == WALK[1] && MISSED[2] == WALK[2];
    assert [MISSED[4]] + [] == MISSED[4..] && [MISSED[3]] + MISSED[4..] == MISSED[3..];
    Unfold(PASSED, MISSED[4], []);
    Unfold(WALKING, MISSED[3], MISSED[4..]);
    assert [MISSED[2]] + MISSED[3..] == MISSED[2..] && [MISSED[1]] + MISSED[2..] == MISSED[1..];
    Unfold(STATTED, MISSED[2], MISSED[3..]);
    Unfold(CREATED, MISSED[1], MISSED[2..]);
    assert [MISSED[0]] + MISSED[1..] == MISSED;
    Unfold(START, MISSED[0], MISSED[1..]);
  }

  /** A file rewritten in place moves no directory stamp: a complete walk taken before is reused, every
      entry resolved, and the new session is reported gone. */
  lemma RewrittenInPlaceReadsAsGone() returns (reuse: seq<Event>)
    ensures Legal(START, WALK + reuse) && AnswersGone(After(START, WALK + reuse), 1, "t")
    ensures var t := After(START, WALK + reuse);
            t.calls[1].trusted && "a.json" in t.files && t.files["a.json"].session == Some("t")
  {
    OneWalk();
    var rewritten := Next(CLOSED, Rewrite("a.json", Some("t")));
    var asked := Next(rewritten, StatDir(1, true));
    var answered := Next(asked, Reuse(1, 0));
    Unfold(asked, Reuse(1, 0), []);
    Unfold(rewritten, StatDir(1, true), [Reuse(1, 0)]);
    reuse := [StatDir(1, true)] + [Reuse(1, 0)];
    Unfold(CLOSED, Rewrite("a.json", Some("t")), reuse);
    reuse := [Rewrite("a.json", Some("t"))] + reuse;
    Joined(START, WALK, reuse);
  }
}
