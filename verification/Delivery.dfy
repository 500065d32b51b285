/** The delivery report of an item (pkg/attention-store-attempt.go, pkg/delivery-attempt.go). */
module Delivery {
  import opened Text
  import opened Calendar
  import opened Items
  import opened Derived
  import opened Indexes
  import opened Transactions
  import opened Sweep
  import opened Reads
  import opened Runs

  datatype Status = Delivered | Failed | HeldBack | NeverAttempted | PreTrailUnknown

  datatype Report = Report(itemID: string, status: Status, carrier: string, attemptedAt: Option<Instant>)

  /** 2026-09-29T19:44:38Z, since when attempts are recorded. */
  const TRAIL_EPOCH: Instant := DayOf(Date(2026, 9, 29)) * NS_PER_DAY + (19 * 3600 + 44 * 60 + 38) * NS_PER_SECOND

  method DeliveryOf(db: Db, id: string) returns (r: Result<Report>)
    ensures r == ReportOf(db, id)
  {
    if id !in db.items { return Err(ItemNotFound); }
    var report := Report(id, Failed, "", None);
    if id in db.attempts {
      var attempt := db.attempts[id];
      report := report.(carrier := attempt.carrier, attemptedAt := Some(attempt.attemptedAt));
      if attempt.outcome == "delivered" { report := report.(status := Delivered); }
      else if attempt.outcome == "held" { report := report.(status := HeldBack); }
      else { report := report.(status := Failed); }
    } else {
      var since := db.items[id].createdAt;
      if db.items[id].answeredAt.Some? { since := db.items[id].answeredAt.value; }
      report := report.(status := if since < TRAIL_EPOCH then PreTrailUnknown else NeverAttempted);
    }
    return Ok(report);
  }

  function StatusOf(outcome: string): Status {
    match outcome
    case "delivered" => Delivered
    case "held" => HeldBack
    case _ => Failed
  }

  function ReportOf(db: Db, id: string): Result<Report> {
    if id !in db.items then Err(ItemNotFound)
    else if id in db.attempts then
      var a := db.attempts[id];
      Ok(Report(id, StatusOf(a.outcome), a.carrier, Some(a.attemptedAt)))
    else
      var item := db.items[id];
      var since := if item.answeredAt.Some? then item.answeredAt.value else item.createdAt;
      Ok(Report(id, if since < TRAIL_EPOCH then PreTrailUnknown else NeverAttempted, "", None))
  }

  lemma EpochIs()
    ensures DateOf(DayNumber(TRAIL_EPOCH)) == Date(2026, 9, 29)
    ensures TRAIL_EPOCH % NS_PER_DAY == 71_078 * NS_PER_SECOND
  {
    hide DaysBefore, YearOf, DateOf, IsLeap;
    LeapOf(2026);
    YearStep(2026);
    var day := DaysBefore(2026) + 271;
    assert DayOf(Date(2026, 9, 29)) == day;
    assert DayNumber(TRAIL_EPOCH) == day;
    YearUnique(day, 2026);
    SameDay(DateOf(day), Date(2026, 9, 29));
  }

  lemma LeapOf(year: int)
    ensures year % 4 != 0 ==> !IsLeap(year)
  {
  }

  /** An attempt is recorded exactly for a stored item, with a carrier and one of three outcomes. */
  lemma AttemptByFields(db: Db, id: string, carrier: string, outcome: string, now: Instant)
    ensures AttemptTx(db, id, carrier, outcome, now).Ok? <==>
              id in db.items && carrier != "" && (outcome == "delivered" || outcome == "failed" || outcome == "held")
    ensures id !in db.items ==> AttemptTx(db, id, carrier, outcome, now) == Err(ItemNotFound)
    ensures AttemptTx(db, id, carrier, outcome, now).Ok? ==>
              var report := ReportOf(AttemptTx(db, id, carrier, outcome, now).value, id);
              && report.Ok? && report.value.carrier == carrier && report.value.attemptedAt == Some(now)
              && (report.value.status == Delivered <==> outcome == "delivered")
              && (report.value.status == HeldBack <==> outcome == "held")
              && (report.value.status == Failed <==> outcome == "failed")
  {
  }

  /** Without an attempt a report tells whether the item was answered, or else created, before the trail. */
  lemma UnattemptedByFields(db: Db, id: string)
    requires id in db.items && id !in db.attempts
    ensures var item := db.items[id];
            && ReportOf(db, id).Ok? && ReportOf(db, id).value.carrier == ""
            && ReportOf(db, id).value.attemptedAt == None
            && ReportOf(db, id).value.status ==
                 match item.answeredAt
                 case Some(t) => if t < TRAIL_EPOCH then PreTrailUnknown else NeverAttempted
                 case None => if item.createdAt < TRAIL_EPOCH then PreTrailUnknown else NeverAttempted
  {
  }

  /** A recorded attempt is what the item's report says; every other report stays. */
  lemma RecordedIsReported(db: Db, id: string, carrier: string, outcome: string, now: Instant, other: string)
    requires AttemptTx(db, id, carrier, outcome, now).Ok?
    ensures var db' := AttemptTx(db, id, carrier, outcome, now).value;
            && ReportOf(db', id) == Ok(Report(id, StatusOf(outcome), carrier, Some(now)))
            && (other != id ==> ReportOf(db', other) == ReportOf(db, other))
            && db'.items == db.items
  {
  }

  /** An edit never changes the report of an attempted item, and no other item's report at all. */
  lemma EditsKeepReports(db: Db, id: string, e: Edit, other: string)
    requires Consistent(db) && EditTx(db, id, e).Ok?
    requires other in db.attempts || other != id
    ensures ReportOf(EditTx(db, id, e).value, other) == ReportOf(db, other)
  {
    hide Put, AllTrusted, Encodable, Apply;
    var outcome := Apply(db.items[id], e);
    if outcome.Write? {
      EditIdentity(db.items[id], e);
      PutRow(db, outcome.item);
    }
  }

  /** A pushed item is born without an attempt, and a removed one takes its attempt along: no report is
      ever another item's. */
  lemma NewItemsAreUnattempted(db: Db, r: Request, id: string, now: Instant, gone: bool)
    requires Consistent(db) && id !in db.items && id != MARKER && Encodable(now)
    ensures var out := PushTx(db, r, id, now, gone);
            out.result.Ok? && out.result.value.Added? ==>
              ReportOf(out.db, id) ==
                Ok(Report(id, if now < TRAIL_EPOCH then PreTrailUnknown else NeverAttempted, "", None))
  {
    hide PushTx, ValidRequest, Encodable, AllTrusted, KeyedRows;
    PushMeaning(db, r, id, now, gone);
  }

  // ---- over whole runs ----

  /** The last attempt recorded for the id: by a call of the run, else one there from the start. */
  function LastAttempt(states: seq<Sys>, events: seq<Event>, id: string, n: nat): Option<Attempt>
    requires n <= |events| < |states|
  {
    if n == 0 then if id in states[0].db.attempts then Some(states[0].db.attempts[id]) else None
    else
      match events[n - 1]
      case AttemptEvent(who, carrier, outcome, now) =>
        if who == id && AttemptTx(states[n - 1].db, who, carrier, outcome, now).Ok?
        then Some(Attempt(id, carrier, outcome, now))
        else LastAttempt(states, events, id, n - 1)
      case _ => LastAttempt(states, events, id, n - 1)
  }

  /** Attempts only ever go with their row, and only RecordAttempt adds one. */
  predicate KeepsAttempts(db: Db, next: Db) {
    && (forall id :: id in next.attempts ==> id in db.attempts && next.attempts[id] == db.attempts[id])
    && (forall id :: id in db.attempts && id in next.items ==> id in next.attempts)
  }

  lemma {:induction false} PruneKeepsAttempts(db: Db, keys: seq<string>, gone: set<string>, now: Instant)
    requires PruneTx(db, keys, gone, now).Ok?
    ensures KeepsAttempts(db, PruneTx(db, keys, gone, now).value)
    ensures PruneTx(db, keys, gone, now).value.items.Keys <= db.items.Keys
    decreases |keys|
  {
    hide Remove, Liveness, IsExpired;
    if keys != [] {
      var next := if StillRemovable(db, keys[0], gone, now).value then Remove(db, keys[0]) else db;
      RemoveRow(db, keys[0]);
      PruneKeepsAttempts(next, keys[1..], gone, now);
    }
  }

  lemma {:induction false} CloseAllKeepsAttempts(db: Db, keys: seq<string>, from: State, stamp: string -> Instant)
    ensures CloseAll(db, keys, from, stamp).db.attempts == db.attempts
    decreases |keys|
  {
    hide Put, SweptClosed;
    if keys != [] {
      var key, before := keys[|keys| - 1], CloseAll(db, keys[..|keys| - 1], from, stamp);
      CloseAllKeepsAttempts(db, keys[..|keys| - 1], from, stamp);
      if key in before.db.items { PutRow(before.db, SweptClosed(before.db.items[key], stamp(key))); }
    }
  }

  lemma SweepKeepsAttempts(db: Db, cutoff: Instant, stamp: string -> Instant)
    ensures SweepTx(db, cutoff, stamp).db.attempts == db.attempts
  {
    hide CloseAll, DueKeys, ReraiseKeys, TwinAsks, Lex.SortedKeys, Ensure;
    var built := Ensure(db, LiveKind);
    EnsureAttempts(db, LiveKind);
    var due := DueKeys(built.live, Lex.SortedKeys(built.live.Keys), cutoff);
    CloseAllKeepsAttempts(built, due, Answered, stamp);
    var aged := CloseAll(built, due, Answered, stamp).db;
    var again := ReraiseKeys(aged.live, Lex.SortedKeys(aged.live.Keys), TwinAsks(aged.live));
    CloseAllKeepsAttempts(aged, again, Open, stamp);
  }

  lemma EditKeepsAttempts(db: Db, id: string, e: Edit)
    requires EditTx(db, id, e).Ok?
    ensures EditTx(db, id, e).value.attempts == db.attempts
  {
    hide Put, Apply;
    if Apply(db.items[id], e).Write? { PutRow(db, Apply(db.items[id], e).item); }
  }

  /** One step changes an id's attempt only by recording one, or by removing its row. */
  lemma StepAttempts(s: Sys, e: Event, id: string)
    requires Inv(s) && Enabled(s, e)
    ensures var recorded := e.AttemptEvent? && e.id == id && AttemptTx(s.db, id, e.carrier, e.outcome, e.now).Ok?;
            var db := Next(s, e).db;
            if recorded then id in db.attempts && db.attempts[id] == Attempt(id, e.carrier, e.outcome, e.now)
            else
              && (id in db.attempts ==> id in s.db.attempts && db.attempts[id] == s.db.attempts[id])
              && (id in s.db.attempts && id in db.items ==> id in db.attempts)
  {
    hide Consistent, AllKept, Ensure, PushTx, EditTx, SweepTx, PruneTx, ClassifyAll, Entries, ReaderOk, Encodable;
    match e
    case PushEvent(r, who, now, gone) => InvFresh(s, who); PushMeaning(s.db, r, who, now, gone);
    case EditEvent(who, edit) => if EditTx(s.db, who, edit).Ok? { EditKeepsAttempts(s.db, who, edit); }
    case AttemptEvent(_, _, _, _) =>
    case EnsureEvent(kind) => EnsureAttempts(s.db, kind);
    case SweepEvent(cutoff, stamp) => SweepKeepsAttempts(s.db, cutoff, stamp);
    case SnapshotEvent(_, _) =>
    case ClassifyEvent(_, _, _) =>
    case PruneEvent(reader, gone, now) =>
      var dead := s.readers[reader].sorting.dead;
      if PruneTx(s.db, dead, gone, now).Ok? { PruneKeepsAttempts(s.db, dead, gone, now); }
  }

  lemma InvFresh(s: Sys, id: string)
    requires Inv(s) && id !in s.used
    ensures Consistent(s.db) && id !in s.db.items
  {
    hide Consistent, AllKept, ReaderOk;
  }

  lemma InvAttempts(s: Sys)
    requires Inv(s)
    ensures s.db.attempts.Keys <= s.db.items.Keys <= s.used
  {
    hide KeyedRows, AllTrusted, AllKept, ReaderOk;
  }

  /** An id attempted once was handed out, so it never names a later item. */
  lemma {:induction false} AttemptedIsUsed(states: seq<Sys>, events: seq<Event>, id: string, n: nat)
    requires Run(states, events) && n <= |events| && LastAttempt(states, events, id, n).Some?
    ensures id in states[n].used
  {
    hide Inv, Next, Enabled, Start, AttemptTx, Moves;
    RunKeeps(states, events, n);
    if n == 0 {
      InvAttempts(states[0]);
    } else {
      RunMoves(states, events, n - 1, n);
      RunKeeps(states, events, n - 1);
      if LastAttempt(states, events, id, n - 1).Some? { AttemptedIsUsed(states, events, id, n - 1); }
      else { AttemptNeedsItem(states[n - 1], events[n - 1]); }
    }
  }

  lemma AttemptNeedsItem(s: Sys, e: Event)
    requires Inv(s) && e.AttemptEvent? && AttemptTx(s.db, e.id, e.carrier, e.outcome, e.now).Ok?
    ensures e.id in s.used
  {
    InvAttempts(s);
  }

  /** In every run the attempt a stored item has is the last one recorded for it. */
  lemma {:induction false} AttemptIsTheLast(states: seq<Sys>, events: seq<Event>, id: string, n: nat)
    requires Run(states, events) && n <= |events| && id in states[n].db.items
    ensures LastAttempt(states, events, id, n) ==
              if id in states[n].db.attempts then Some(states[n].db.attempts[id]) else None
  {
    hide Inv, Next, Enabled, Start, AttemptTx, Evolves;
    if n > 0 {
      var s, e := states[n - 1], events[n - 1];
      RunKeeps(states, events, n - 1);
      InvAttempts(s);
      StepAttempts(s, e, id);
      if id in s.db.items {
        AttemptIsTheLast(states, events, id, n - 1);
      } else {
        RunMoves(states, events, n - 1, n);
        if LastAttempt(states, events, id, n - 1).Some? { AttemptedIsUsed(states, events, id, n - 1); }
        AttemptNeedsStored(s, e);
      }
    }
  }

  lemma AttemptNeedsStored(s: Sys, e: Event)
    ensures e.AttemptEvent? && AttemptTx(s.db, e.id, e.carrier, e.outcome, e.now).Ok? ==> e.id in s.db.items
  {
  }

  /** At every moment of every run an item's report is that of the last attempt recorded for it; it reads
      never attempted or unknown exactly when none was, and an id that is not stored has no report. */
  lemma ReportIsOfTheLastAttempt(states: seq<Sys>, events: seq<Event>, id: string, n: nat)
    requires Run(states, events) && n <= |events|
    ensures var report := ReportOf(states[n].db, id);
            if id !in states[n].db.items then report == Err(ItemNotFound)
            else
              && report.Ok?
              && (LastAttempt(states, events, id, n).None? <==>
                    report.value.status in {NeverAttempted, PreTrailUnknown})
              && (LastAttempt(states, events, id, n).Some? ==>
                    var last := LastAttempt(states, events, id, n).value;
                    report.value == Report(id, StatusOf(last.outcome), last.carrier, Some(last.attemptedAt)))
  {
    if id in states[n].db.items { AttemptIsTheLast(states, events, id, n); }
  }
}
