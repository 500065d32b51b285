/** The store object: one committed database, one transaction per call
    (pkg/attention-store-impl.go, -flag.go, -rate.go, -attempt.go). */
module Store {
  import opened Text
  import opened Calendar
  import opened Items
  import opened Lex
  import opened Derived
  import opened Indexes
  import opened Transactions
  import opened Sweep
  import opened Reads
  import opened Prefilter
  import opened History
  import opened Runs
  import opened ReadFields
  import opened HistoryFields
  import opened EditFields
  import Delivery

  /** db is what bolt has committed; a method computes on a copy and commits by assigning it, so a
      refused or failed call leaves it as it was. */
  class AttentionStore {
    var db: Db

    constructor ()
      ensures db == EMPTY_DB
    {
      db := EMPTY_DB;
    }

    ghost predicate Valid()
      reads this
    {
      Consistent(db) && AllKept(db.items)
    }

    method Push(r: Request, id: string, now: Instant, gone: bool) returns (result: Result<Pushed>)
      requires Valid() && id !in db.items && id != MARKER && Encodable(now)
      modifies this
      ensures Valid() && PushOutcome(db, result) == PushTx(old(db), r, id, now, gone)
      ensures result == Err(ValidationFailed) <==> !RequestOk(r)
    {
      hide Put, Ensure, ValidRequest, Encodable, Liveness, Consistent, AllKept, Moves, RequestOk;
      PushMeaning(db, r, id, now, gone);
      PushMoves(db, r, id, now, gone, db.items.Keys);
      PushByFields(db, r, id, now, gone);
      if !ValidRequest(r) { return Err(ValidationFailed); }
      var tx := EnsureIndex(db, DedupKind);
      var key := DedupKeyOf(r.producerID, r.dedupKey);
      if key in tx.dedup {
        var existing := tx.dedup[key];
        var live := Liveness(existing, gone);
        if live.Err? { return Err(live.error); }
        if live.value {
          var item := Repushed(existing, r, now);
          db := Put(tx, item);
          return Ok(Suppressed(item));
        }
      }
      var item := NewItem(r, id, now);
      db := Put(tx, item);
      return Ok(Added(item));
    }

    /** Answer, Escalate, Close, Flag, Unflag and Rate: read, compare, change fields, write back. */
    method Update(id: string, e: Edit) returns (result: Result<Item>)
      requires Valid()
      modifies this
      ensures Valid()
      ensures match EditTx(old(db), id, e)
              case Ok(next) => db == next && id in db.items && result == Ok(db.items[id])
              case Err(error) => db == old(db) && result == Err(error)
      ensures result.Ok? <==> !Malformed(e) && id in old(db).items && Accepts(old(db).items[id], e)
    {
      hide Put, Consistent, AllKept, Moves, Apply, Malformed, Accepts;
      EditByFields(db, id, e);
      if EditTx(db, id, e).Ok? { EditMoves(db, id, e, {}); }
      if Precheck(e).Some? { return Err(Precheck(e).value); }
      if id !in db.items { return Err(ItemNotFound); }
      var outcome := Apply(db.items[id], e);
      match outcome {
        case Write(item) =>
          WrittenUnderItsId(db, id, e);
          db := Put(db, item);
          return Ok(item);
        case Keep(item) =>
          KeptIsStored(db.items[id], e);
          return Ok(item);
        case Refuse(error) => return Err(error);
      }
    }

    method RecordAttempt(id: string, carrier: string, outcome: string, now: Instant) returns (result: Result<Attempt>)
      requires Valid()
      modifies this
      ensures Valid()
      ensures match AttemptTx(old(db), id, carrier, outcome, now)
              case Ok(next) => db == next && result == Ok(Attempt(id, carrier, outcome, now))
              case Err(error) => db == old(db) && result == Err(error)
    {
      hide Consistent;
      var tx := AttemptTx(db, id, carrier, outcome, now);
      if tx.Err? { return Err(tx.error); }
      AttemptConsistent(db, id, carrier, outcome, now);
      db := tx.value;
      return Ok(Attempt(id, carrier, outcome, now));
    }

    /** Delivery: a report for every stored item, told by its attempt when there is one. */
    method DeliveryReport(id: string) returns (result: Result<Delivery.Report>)
      requires Valid()
      ensures result.Err? <==> id !in db.items
      ensures result == Delivery.ReportOf(db, id)
    {
      result := Delivery.DeliveryOf(db, id);
    }

    /** Read and ReadBoard, uninterrupted. */
    method Read(board: bool, gone: set<string>, now: Instant, goneLater: set<string>, later: Instant)
      returns (result: Result<seq<Item>>)
      requires Valid()
      modifies this
      ensures Valid() && ReadOutcome(db, result) == ReadTx(old(db), board, gone, now, goneLater, later)
      ensures var shown := KeptSet(old(db).items, board, gone, now) - (if board then TwinSet(old(db).items) else {});
              result == Ok(Rows(old(db).items, SortedKeys(shown)))
      ensures result.Ok? && forall k :: k in old(db).items ==>
                && (old(db).items[k] in result.value <==> ReadShows(old(db).items, k, board, gone, now))
                && (k in db.items <==> !ReadRemoves(old(db).items[k], k, gone, now, goneLater, later))
      ensures now <= later ==>
                && (forall k :: k in db.items && db.items[k].state == Open ==> !IsExpired(db.items[k], now))
                && NoneExpired(db, now)
    {
      hide NoneExpired, Consistent, Ensure, ClassifyAll, Entries, PruneTx, SuppressTwins, SortedKeys, ParseRef,
           KeptSet, DeadSet, TwinSet, IsExpired, ReadShows, ReadRemoves;
      var kind := if board then LiveKind else OpenKind;
      db := EnsureIndex(db, kind);
      var sorting := ClassifySnapshot(Entries(db.Of(kind)), board, gone, now);
      if sorting.Err? {
        result := Err(sorting.error);
      } else {
        var kept := sorting.value.kept;
        if board { kept := SuppressAnsweredTwins(kept); }
        result := Ok(kept);
        if sorting.value.dead != [] {
          var pruned := PruneDead(db, sorting.value.dead, goneLater, later);
          if pruned.Ok? { db := pruned.value; } else { result := Err(pruned.error); }
        }
      }
      KeptRefs(old(db).items);
      UninterruptedRead(old(db), board, gone, now, goneLater, later);
      ReadLeaves(old(db), board, gone, now, goneLater, later);
      ReadByFields(old(db), board, gone, now, goneLater, later);
      PrunedStayKept(old(db).items, db.items);
    }

    method SweepAnswered(cutoff: Instant, stamp: string -> Instant) returns (count: nat)
      requires Valid()
      modifies this
      ensures Valid() && count == |SweptKeys(old(db).items, cutoff)|
      ensures ClosesExactly(old(db).items, db.items, SweptKeys(old(db).items, cutoff), stamp)
      ensures db.items.Keys == old(db).items.Keys && forall k :: k in db.items ==>
                db.items[k] == if SweepTakes(old(db).items, k, cutoff)
                               then old(db).items[k].(state := Closed, closedAt := Some(stamp(k)))
                               else old(db).items[k]
    {
      hide Consistent, SweepTx, AllKept, Moves, SweepTakes;
      SweepByFields(db, cutoff, stamp);
      SweepMeaning(db, cutoff, stamp);
      SweepMoves(db, cutoff, stamp, {});
      var r := Sweep.SweepAnswered(db, cutoff, stamp);
      db := r.db;
      count := r.count;
    }

    /** A page of the one newest-first history of the rows the filters admit. */
    method History(limit: int, offset: int, filters: seq<Filter>, now: Instant, rest: Item -> string)
      returns (page: seq<Item>, ghost rows: seq<Item>, ghost m: Matcher)
      requires Valid()
      modifies this
      ensures Valid() && db.items == old(db).items
      ensures Builds(m, filters) && IsHistory(rows, db.items, m, now)
      ensures page == Slice(rows, limit, if offset < 0 then 0 else offset)
      ensures forall k :: k in db.items ==> (db.items[k] in rows <==> HistoryShows(filters, db.items[k], now))
      ensures limit <= 0 && offset <= 0 ==> page == rows
    {
      hide Consistent, Ensure, AllKept, Visible, Needled, Walk, SortedKeys, Slice, HistoryShows, MergedIds,
           MergedPrefix;
      EnsureConsistent(db, HistoryKind);
      db := EnsureIndex(db, HistoryKind);
      var matcher := NewHistoryMatcher(filters);
      WalkIsHistory(db, matcher, now);
      m, rows := matcher, Walk(db.history, SortedKeys(db.history.Keys), matcher, now);
      page := CollectHistoryPage(db.history, limit, if offset < 0 then 0 else offset, matcher, now, rest);
      RowsOwnTheirIds(db);
      HistoryByFields(rows, db.items, m, filters, now);
      if limit <= 0 && offset <= 0 { SlicePlaces(rows, limit, 0); }
    }
  }

  lemma WrittenUnderItsId(db: Db, id: string, e: Edit)
    requires Consistent(db) && id in db.items && Apply(db.items[id], e).Write?
    ensures var item := Apply(db.items[id], e).item;
            id in Put(db, item).items && Put(db, item).items[id] == item
  {
    hide Put, AllTrusted, Encodable, Apply;
    EditIdentity(db.items[id], e);
    PutRow(db, Apply(db.items[id], e).item);
  }

  lemma KeptIsStored(item: Item, e: Edit)
    requires Apply(item, e).Keep?
    ensures Apply(item, e).item == item
  {
  }

  lemma PrunedStayKept(before: map<string, Item>, after: map<string, Item>)
    requires AllKept(before) && forall k :: k in after ==> k in before && after[k] == before[k]
    ensures AllKept(after)
  {
    hide WellKept;
  }
}
