/** What a read answers while writers go on between its steps (pkg/attention-store-impl.go:325-382). */
module InterleavedReads {
  import Text
  import opened Calendar
  import opened Items
  import opened Lex
  import opened Derived
  import opened Indexes
  import opened Transactions
  import opened Sweep
  import opened Reads
  import opened Runs
  import opened ReadFields

  /** The steps of this reader itself. */
  predicate Of(e: Event, reader: nat) {
    || (e.SnapshotEvent? && e.reader == reader)
    || (e.ClassifyEvent? && e.reader == reader)
    || (e.PruneEvent? && e.reader == reader)
  }

  lemma StepLeavesReader(s: Sys, e: Event, reader: nat)
    requires Enabled(s, e) && !Of(e, reader) && reader in s.readers
    ensures reader in Next(s, e).readers && Next(s, e).readers[reader] == s.readers[reader]
  {
    hide PushTx, EditTx, AttemptTx, Ensure, SweepTx, PruneTx, ClassifyAll, Entries;
  }

  /** From one of its steps to its next, a reader holds what it held. */
  lemma {:induction false} ReaderWaits(states: seq<Sys>, events: seq<Event>, reader: nat, i: nat, j: nat)
    requires Run(states, events) && i <= j <= |events| && reader in states[i].readers
    requires forall k :: i <= k < j ==> !Of(events[k], reader)
    ensures reader in states[j].readers && states[j].readers[reader] == states[i].readers[reader]
    decreases j - i
  {
    hide Enabled, Next, Start, Of;
    if i < j {
      ReaderWaits(states, events, reader, i, j - 1);
      StepLeavesReader(states[j - 1], events[j - 1], reader);
    }
  }

  /** The read and board rules over the rows of one moment: what to show, what to try to remove. */
  function NaiveScan(items: map<string, Item>, board: bool, gone: set<string>, now: Instant): Sorting {
    Sorting(Rows(items, SortedKeys(KeptSet(items, board, gone, now))), SortedKeys(DeadSet(items, gone, now)))
  }

  function Shown(sorting: Sorting, board: bool): seq<Item> {
    if board then SuppressTwins(sorting.kept) else sorting.kept
  }

  lemma SnapshotScans(s: Sys, board: bool, gone: set<string>, now: Instant)
    requires Inv(s) && MARKER in s.db.Of(if board then LiveKind else OpenKind)
    ensures ClassifyAll(Entries(s.db.Of(if board then LiveKind else OpenKind)), board, gone, now)
              == Ok(NaiveScan(s.db.items, board, gone, now))
  {
    hide Consistent, AllKept, ReaderOk, ClassifyAll, Entries, SortedKeys;
    KeptRefs(s.db.items);
    ScanIsNaive(s.db, board, gone, now);
  }

  /** Whatever is written between a read's snapshot and its classification, and after: it sorts and
      answers exactly the rows of the items bucket at its snapshot, judged at its own instant and verdicts;
      the board drops the open rows that had an answered twin then. */
  lemma InterleavedReadIsNaive(states: seq<Sys>, events: seq<Event>, i: nat, j: nat)
    requires Run(states, events) && i < j < |events| && events[i].SnapshotEvent? && events[j].ClassifyEvent?
    requires events[j].reader == events[i].reader
    requires forall k :: i < k < j ==> !Of(events[k], events[i].reader)
    ensures var reader, board, items := events[i].reader, events[i].board, states[i].db.items;
            var gone, now := events[j].gone, events[j].now;
            && reader in states[j + 1].readers && states[j + 1].readers[reader].Sorted?
            && states[j + 1].readers[reader].sorting == NaiveScan(items, board, gone, now)
            && var shown := KeptSet(items, board, gone, now) - (if board then TwinSet(items) else {});
               Shown(states[j + 1].readers[reader].sorting, board) == Rows(items, SortedKeys(shown))
    ensures var reader, board, items := events[i].reader, events[i].board, states[i].db.items;
            forall k :: k in items ==>
              (items[k] in Shown(states[j + 1].readers[reader].sorting, board) <==>
                 ReadShows(items, k, board, events[j].gone, events[j].now))
  {
    hide Consistent, AllKept, ReaderOk, ClassifyAll, Entries, SortedKeys, Start, TwinSet, SuppressTwins, Of, ReadShows,
         KeptSet, RefsOk;
    var reader, board := events[i].reader, events[i].board;
    var items, gone, now := states[i].db.items, events[j].gone, events[j].now;
    RunKeeps(states, events, i);
    SnapshotScans(states[i], board, gone, now);
    assert states[i + 1] == Next(states[i], events[i]) && states[j + 1] == Next(states[j], events[j]);
    ReaderWaits(states, events, reader, i + 1, j);
    var kept := KeptSet(items, board, gone, now);
    KeptAreRows(items, board, gone, now);
    AnsweredAreKept(items, gone, now);
    if board { SuppressIsTwinFree(items, kept); } else { assert kept - {} == kept; }
    var shown := kept - (if board then TwinSet(items) else {});
    KeptRefs(items);
    RowsOwnTheirIds(states[i].db);
    forall k | k in items
      ensures items[k] in Rows(items, SortedKeys(shown)) <==> ReadShows(items, k, board, gone, now)
    {
      RowsHold(items, shown, k);
      KeptByFields(items, k, board, gone, now);
    }
  }

  lemma AnsweredAreKept(items: map<string, Item>, gone: set<string>, now: Instant)
    ensures forall k :: k in items && items[k].state == Answered ==> k in KeptSet(items, true, gone, now)
  {
  }

  /** The prune that ends a read removes, of the keys it sorted out, exactly those whose row is then open
      and past its deadline or reported gone to the prune, and no step of a read removes anything else. */
  lemma PruneRemovesExactly(s: Sys, e: Event)
    requires Inv(s) && Enabled(s, e) && e.PruneEvent?
    ensures Next(s, e).db.items == s.db.items - PrunedSet(s.db.items, s.readers[e.reader].sorting.dead, e.gone, e.now)
  {
    hide Consistent, AllKept, ReaderOk, PruneTx, PrunedSet, RefsOk;
    var dead := s.readers[e.reader].sorting.dead;
    KeptRefs(s.db.items);
    PruneSucceeds(s.db, dead, e.gone, e.now);
    PruneMeaning(s.db, dead, e.gone, e.now);
  }

  /** So over a whole read, whatever is written between its steps, a row leaves by its prune exactly when
      it is still open and expired or gone then, and was dead to the read's own scan at the snapshot. */
  lemma InterleavedReadRemovesExactly(states: seq<Sys>, events: seq<Event>, i: nat, j: nat, k: nat, key: string)
    requires Run(states, events) && i < j < k < |events|
    requires events[i].SnapshotEvent? && events[j].ClassifyEvent? && events[k].PruneEvent?
    requires events[j].reader == events[i].reader == events[k].reader
    requires forall n :: i < n < k && n != j ==> !Of(events[n], events[i].reader)
    requires key in states[k].db.items
    ensures key !in states[k + 1].db.items <==>
              && key in states[i].db.items && ScanDooms(states[i].db.items[key], key, events[j].gone, events[j].now)
              && PruneTakes(states[k].db.items[key], key, events[k].gone, events[k].now)
  {
    hide Consistent, AllKept, ReaderOk, Start, Of, Removable, Enabled, KeptSet, TwinSet, RefsOk, ScanDooms, PruneTakes,
         Dies;
    InterleavedReadIsNaive(states, events, i, j);
    ReaderWaits(states, events, events[i].reader, j + 1, k);
    RunKeeps(states, events, k);
    assert Enabled(states[k], events[k]) && states[k + 1] == Next(states[k], events[k]);
    hide Next;
    PruneRemovesExactly(states[k], events[k]);
    RunKeeps(states, events, i);
    KeptRefs(states[i].db.items);
    KeptRefs(states[k].db.items);
    if key in states[i].db.items { DeadByFields(states[i].db.items, key, events[j].gone, events[j].now); }
    DeadByFields(states[k].db.items, key, events[k].gone, events[k].now);
    var dead := SortedKeys(DeadSet(states[i].db.items, events[j].gone, events[j].now));
    assert key in dead <==> key in DeadSet(states[i].db.items, events[j].gone, events[j].now);
  }

  /** What each write of a run does to the rows: a push and a call commit their transaction or nothing, an
      attempt and a build leave the rows alone and the build marks its index, a sweep closes exactly the rows
      its cutoff takes. */
  lemma StepByFields(s: Sys, e: Event)
    requires Inv(s) && Enabled(s, e)
    ensures var items, next := s.db.items, Next(s, e).db;
            match e
            case PushEvent(r, id, now, gone) => next == PushTx(s.db, r, id, now, gone).db
            case EditEvent(id, edit) =>
              EditTx(s.db, id, edit) == Ok(next) || (EditTx(s.db, id, edit).Err? && next == s.db)
            case AttemptEvent(id, carrier, outcome, now) =>
              if AttemptTx(s.db, id, carrier, outcome, now).Ok?
              then next == s.db.(attempts := s.db.attempts[id := Attempt(id, carrier, outcome, now)])
              else next == s.db
            case EnsureEvent(kind) => next.items == items && MARKER in next.Of(kind)
            case SweepEvent(cutoff, stamp) =>
              && next.items.Keys == items.Keys
              && forall k :: k in items ==>
                   next.items[k] == if SweepTakes(items, k, cutoff)
                                    then items[k].(state := Closed, closedAt := Text.Some(stamp(k))) else items[k]
            case SnapshotEvent(_, _) => next == s.db
            case ClassifyEvent(_, _, _) => next == s.db
            case PruneEvent(reader, gone, now) =>
              next.items == items - PrunedSet(items, s.readers[reader].sorting.dead, gone, now)
  {
    hide Consistent, AllKept, ReaderOk, PushTx, EditTx, SweepTx, PruneTx, PrunedSet, ClassifyAll, Entries, Ensure,
         SweepTakes;
    match e
    case EnsureEvent(kind) => EnsureConsistent(s.db, kind);
    case SweepEvent(cutoff, stamp) => SweepByFields(s.db, cutoff, stamp);
    case PruneEvent(_, _, _) => PruneRemovesExactly(s, e);
    case _ =>
  }
}
