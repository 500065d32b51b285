/** What the dedup index does not promise, each with the input that shows it
    (pkg/attention-store-index.go:138-149, 404-442). */
module DedupLimits {
  import opened Text
  import opened Calendar
  import opened Items
  import opened Derived
  import opened Indexes
  import opened Transactions
  import opened Runs
  import opened DedupRuns

  /** Producers without a NUL never share a joined key. */
  lemma JoinedKeyFaithful(p: string, d: string, q: string, e: string)
    requires '\0' !in p && '\0' !in q && DedupKeyOf(p, d) == DedupKeyOf(q, e)
    ensures p == q && d == e
  {
    var joined := DedupKeyOf(p, d);
    assert joined[|p|] == '\0' && joined[|q|] == '\0';
    assert forall i :: 0 <= i < |p| ==> joined[i] == p[i];
    assert forall i :: 0 <= i < |q| ==> joined[i] == q[i];
    assert p == joined[..|p|] && q == joined[..|q|];
    assert d == joined[|p| + 1..] && e == joined[|q| + 1..];
  }

  predicate Collide(p: string, q: string, d: string, e: string) {
    d != "" && e != "" && DedupKeyOf(p, d) == DedupKeyOf(q, e)
  }

  /** Two producers share a joined key, under dedup keys a push accepts, exactly when one is the other
      followed by a NUL and perhaps more. */
  lemma JoinedKeyCollides(p: string, q: string)
    requires p != "" && q != "" && p != q
    ensures (exists d, e :: Collide(p, q, d, e)) <==> IsPrefix(p + "\0", q) || IsPrefix(q + "\0", p)
  {
    if exists d, e :: Collide(p, q, d, e) {
      var d, e :| Collide(p, q, d, e);
      if |p| < |q| { JoinedPrefix(p, d, q, e); }
      else if |q| < |p| { JoinedPrefix(q, e, p, d); }
      else { SameLength(p, d, q, e); }
    }
    if IsPrefix(p + "\0", q) { PrefixCollides(p, q); }
    if IsPrefix(q + "\0", p) { PrefixCollides(q, p); }
  }

  lemma SameLength(p: string, d: string, q: string, e: string)
    requires DedupKeyOf(p, d) == DedupKeyOf(q, e) && |p| == |q|
    ensures p == q
  {
    assert p == DedupKeyOf(p, d)[..|p|] && q == DedupKeyOf(q, e)[..|q|];
  }

  lemma JoinedPrefix(p: string, d: string, q: string, e: string)
    requires DedupKeyOf(p, d) == DedupKeyOf(q, e) && |p| < |q|
    ensures IsPrefix(p + "\0", q)
  {
    assert q[..|p| + 1] == DedupKeyOf(q, e)[..|p| + 1];
    assert DedupKeyOf(p, d)[..|p| + 1] == p + "\0";
  }

  lemma PrefixCollides(p: string, q: string)
    requires IsPrefix(p + "\0", q)
    ensures Collide(p, q, q[|p| + 1..] + "\0x", "x") && Collide(q, p, "x", q[|p| + 1..] + "\0x")
  {
    assert q == p + "\0" + q[|p| + 1..];
    assert DedupKeyOf(p, q[|p| + 1..] + "\0x") == DedupKeyOf(q, "x");
  }

  /** A push over an open row leaves that row open beside the new one, and the index names the new one. */
  lemma PushOverLeavesTwo(db: Db, r: Request, id: string, now: Instant)
    requires Consistent(db) && MARKER in db.dedup && PushesOver(db, r, true)
    requires id !in db.items && id != MARKER && Encodable(now)
    ensures var key := DedupKeyOf(r.producerID, r.dedupKey);
            var older, pushed := db.dedup[key], PushTx(db, r, id, now, true).db;
            && Consistent(pushed) && MARKER in pushed.dedup && id in pushed.items
            && pushed.items[id] == NewItem(r, id, now)
            && key in pushed.dedup && pushed.dedup[key] == pushed.items[id]
            && older.itemID != id && older.itemID in pushed.items && pushed.items[older.itemID] == older
            && older.state == Open
  {
    hide Put, AllTrusted, KeyedRows, Encodable, ValidRequest, Liveness;
    DedupEntry(db, r);
    AddFacts(db, r, id, now);
    DedupOf(db, NewItem(r, id, now));
  }

  /** Closing the open row the index names takes its key out of the index, whatever else is open. */
  lemma ClosingUnindexes(db: Db, id: string, later: Instant)
    requires Consistent(db) && MARKER in db.dedup && id in db.items && db.items[id].state == Open
    requires JoinedKey(db.items[id]) in db.dedup && db.dedup[JoinedKey(db.items[id])] == db.items[id]
    ensures var closed := EditTx(db, id, CloseEdit("", None, later));
            && closed.Ok? && Consistent(closed.value) && MARKER in closed.value.dedup
            && closed.value.items == db.items[id := SweptClosed(db.items[id], later).(answeredBy := "")]
            && JoinedKey(db.items[id]) !in closed.value.dedup
  {
    hide Put, AllTrusted, Encodable;
    var shut := SweptClosed(db.items[id], later).(answeredBy := "");
    RowFacts(db, id);
    PutFacts(db, shut);
    DedupOf(db, shut);
  }

  /** Both together: the older row is open and out of the index, so the next push adds beside it. */
  lemma ClosedTwinForgetsTheOlder(db: Db, r: Request, id: string, now: Instant, later: Instant)
    requires Consistent(db) && MARKER in db.dedup && PushesOver(db, r, true)
    requires id !in db.items && id != MARKER && Encodable(now)
    ensures var key := DedupKeyOf(r.producerID, r.dedupKey);
            var older := db.dedup[key];
            var closed := EditTx(PushTx(db, r, id, now, true).db, id, CloseEdit("", None, later));
            && closed.Ok? && Consistent(closed.value)
            && older.itemID in closed.value.items && closed.value.items[older.itemID] == older && older.state == Open
            && MARKER in closed.value.dedup && key !in closed.value.dedup
  {
    hide PushTx, EditTx, Consistent, Encodable, PushesOver;
    PushOverLeavesTwo(db, r, id, now);
    ClosingUnindexes(PushTx(db, r, id, now, true).db, id, later);
  }

  // ---- a run that gets there ----

  const ASK: Request :=
    Request("p", "session", "", "session:s", "k", "i", "", "x", "", Message, [], Unset, [], None)

  const ASKED: Event := PushEvent(ASK, "a", 0, false)
  const ASKED_OVER: Event := PushEvent(ASK, "b", 0, true)
  const SHUT: Event := EditEvent("b", CloseEdit("", None, 0))

  lemma AskIsValid()
    ensures ValidRequest(ASK) && ParseRef("session:s") == SessionRef("s") && Encodable(0)
  {
    assert IndexOfColon("session:s", 7) == 7;
    assert IndexOfColon("session:s", 0) == 7;
  }

  lemma FirstAsk() returns (s: Sys)
    ensures s == Next(Sys(EMPTY_DB, {}, map[]), ASKED) && Inv(s) && s.used == {"a"}
    ensures PushesOver(s.db, ASK, true) && MARKER in s.db.dedup
    ensures DedupKeyOf("p", "k") in s.db.dedup && s.db.dedup[DedupKeyOf("p", "k")].itemID == "a"
  {
    hide Put, Ensure, AllTrusted, ValidRequest, Encodable;
    AskIsValid();
    var start := Sys(EMPTY_DB, {}, map[]);
    StartKeeps(start);
    StepKeeps(start, ASKED);
    s := Next(start, ASKED);
    var built := Ensure(EMPTY_DB, DedupKind);
    EmptyEnsured();
    DedupOf(built, NewItem(ASK, "a", 0));
    PutFacts(built, NewItem(ASK, "a", 0)) by { EnsureConsistent(EMPTY_DB, DedupKind); }
    assert s.db == Put(built, NewItem(ASK, "a", 0));
    assert Ensure(s.db, DedupKind) == s.db by { EnsuredStays(s.db); }
  }

  /** From an empty store: ask, ask again over the first as its producer is reported gone, close the
      second. Completeness is lost at the second step; at the third the open row is not indexed at all. */
  lemma LostTwinRun() returns (states: seq<Sys>, events: seq<Event>)
    ensures FreshRun(states, events) && |events| == 3 && OneOpen(states[1].db) && OverPush(states[1], events[1])
    ensures !OneOpen(states[2].db)
    ensures var db := states[3].db;
            && "a" in db.items && db.items["a"].state == Open
            && MARKER in db.dedup && JoinedKey(db.items["a"]) !in db.dedup
  {
    hide Inv, PushTx, EditTx, PushesOver, OneOpen, ValidRequest, Encodable, Consistent, UniqueOpen;
    AskIsValid();
    var s0 := Sys(EMPTY_DB, {}, map[]);
    var s1 := FirstAsk();
    var s2 := Next(s1, ASKED_OVER);
    var s3 := Next(s2, SHUT);
    states, events := [s0, s1, s2, s3], [ASKED, ASKED_OVER, SHUT];
    OneOpenSoFar(states, events, 1) by { NothingHeld(s0); }
    StepOneOpen(s1, ASKED_OVER);
    FreshId(s1);
    ClosedTwinForgetsTheOlder(s1.db, ASK, "b", 0, 0);
    DedupEntry(s1.db, ASK);
    var older := s1.db.dedup[DedupKeyOf("p", "k")];
    assert KeyOf(DedupKind)("", older) == JoinedKey(older) && older.itemID == "a";
    assert s3.db.items["a"] == older;
  }

  lemma NothingHeld(s: Sys)
    requires s.db == EMPTY_DB
    ensures !OverPush(s, ASKED)
  {
    hide ValidRequest;
    EmptyEnsured();
    MarkerIsNoJoinedKey("p", "k");
  }

  lemma EmptyEnsured()
    ensures Ensure(EMPTY_DB, DedupKind).dedup.Keys == {MARKER} && Ensure(EMPTY_DB, DedupKind).items == map[]
  {
    assert Lex.SortedKeys({}) == [];
  }

  lemma FreshId(s: Sys)
    requires Inv(s) && s.used == {"a"}
    ensures Consistent(s.db) && "b" !in s.db.items
  {
    hide Consistent;
  }
}
