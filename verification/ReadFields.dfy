/** What reads and sweeps do to one row, told by its stored fields alone
    (pkg/attention-store-impl.go:220-461, 1048-1094, 1565-1790). */
module ReadFields {
  import opened Text
  import opened Calendar
  import opened Items
  import opened Lex
  import opened Derived
  import opened Indexes
  import opened Transactions
  import opened Sweep
  import opened Reads

  // ---- the leaves ----

  /** A liveness ref is one of three models, a colon and a value; the value may hold colons. */
  lemma RefText(ref: string, value: string)
    ensures ParseRef(ref) == SessionRef(value) <==> value != "" && ref == "session:" + value
    ensures ParseRef(ref) == OwnerRef(value) <==> value != "" && ref == "owner:" + value
    ensures ParseRef(ref) == HeartbeatRef(value) <==> value != "" && ref == "heartbeat:" + value
  {
    hide IndexOfColon;
    CutAt(ref);
    ModelCut("session", value); ModelCut("owner", value); ModelCut("heartbeat", value);
    assert "session" != "owner" && "session" != "heartbeat" && "owner" != "heartbeat";
    assert "session" + ":" + value == "session:" + value && "owner" + ":" + value == "owner:" + value;
    assert "heartbeat" + ":" + value == "heartbeat:" + value;
    var i := IndexOfColon(ref, 0);
    if i + 1 < |ref| { assert ref == ref[..i] + ":" + ref[i + 1..]; }
  }

  lemma CutAt(ref: string)
    ensures var i := IndexOfColon(ref, 0); i < |ref| ==> ref == ref[..i] + ":" + ref[i + 1..]
  {
    ColonFound(ref, 0);
  }

  lemma {:induction false} ColonFound(s: string, from: nat)
    requires from <= |s|
    ensures var i := IndexOfColon(s, from);
            (i < |s| ==> s[i] == ':') && forall j :: from <= j < i ==> s[j] != ':'
    decreases |s| - from
  {
    if from < |s| && s[from] != ':' { ColonFound(s, from + 1); }
  }

  lemma ModelCut(model: string, value: string)
    requires ':' !in model
    ensures IndexOfColon(model + ":" + value, 0) == |model|
    ensures (model + ":" + value)[..|model|] == model && (model + ":" + value)[|model| + 1..] == value
  {
    var ref := model + ":" + value;
    ColonFound(ref, 0);
    assert ref[|model|] == ':';
    assert forall j :: 0 <= j < |model| ==> ref[j] == model[j];
  }

  /** The joined identity of an ask tells producer, dedup key and payload apart where the first two hold no
      NUL. */
  lemma AskTells(a: Item, b: Item)
    requires '\0' !in a.producerID && '\0' !in b.producerID && '\0' !in a.dedupKey && '\0' !in b.dedupKey
    ensures AskIdentity(a) == AskIdentity(b) <==>
              a.producerID == b.producerID && a.dedupKey == b.dedupKey && a.payload == b.payload
  {
    if AskIdentity(a) == AskIdentity(b) {
      assert AskIdentity(a) == a.producerID + "\0" + (a.dedupKey + "\0" + a.payload);
      assert AskIdentity(b) == b.producerID + "\0" + (b.dedupKey + "\0" + b.payload);
      SplitNul(a.producerID, a.dedupKey + "\0" + a.payload, b.producerID, b.dedupKey + "\0" + b.payload);
      SplitNul(a.dedupKey, a.payload, b.dedupKey, b.payload);
    }
  }

  lemma SplitNul(p: string, d: string, q: string, e: string)
    requires '\0' !in p && '\0' !in q
    ensures p + "\0" + d == q + "\0" + e ==> p == q && d == e
  {
    if p + "\0" + d == q + "\0" + e {
      var joined := p + "\0" + d;
      assert joined[|p|] == '\0' && joined[|q|] == '\0';
      assert forall i :: 0 <= i < |p| ==> joined[i] == p[i];
      assert forall i :: 0 <= i < |q| ==> joined[i] == q[i];
      assert p == joined[..|p|] && q == joined[..|q|];
      assert d == joined[|p| + 1..] && e == joined[|q| + 1..];
    }
  }

  // ---- a read ----

  /** The open row repeats an ask that an answered row carries. */
  ghost predicate HasAnsweredTwin(items: map<string, Item>, k: string)
    requires k in items
  {
    exists j :: j in items && items[j].state == Answered
                && items[j].producerID + "\0" + items[j].dedupKey + "\0" + items[j].payload
                     == items[k].producerID + "\0" + items[k].dedupKey + "\0" + items[k].payload
  }

  /** A read answers the row: on the board an answered one; an open one with no deadline, or one still
      ahead, whose producer is not reported gone, is an owner or only reports, without an answered twin on
      the board. */
  ghost predicate ReadShows(items: map<string, Item>, k: string, board: bool, gone: set<string>, now: Instant)
    requires k in items
  {
    var x := items[k];
    || (board && x.state == Answered)
    || (x.state == Open && (x.expiresAt == None || now < x.expiresAt.value)
        && (k !in gone || x.mechanism == Ack || IsPrefix("owner:", x.livenessRef))
        && !(board && HasAnsweredTwin(items, k)))
  }

  /** The scan sorts the row out: open, and past its deadline or an asked one reported gone. */
  predicate ScanDooms(x: Item, k: string, gone: set<string>, now: Instant) {
    && x.state == Open
    && ((x.expiresAt.Some? && x.expiresAt.value <= now)
        || (k in gone && x.mechanism != Ack && !IsPrefix("owner:", x.livenessRef)))
  }

  /** The prune takes it: open still, and past its deadline or reported gone, asked or not. */
  predicate PruneTakes(x: Item, k: string, gone: set<string>, now: Instant) {
    && x.state == Open
    && ((x.expiresAt.Some? && x.expiresAt.value <= now) || (k in gone && !IsPrefix("owner:", x.livenessRef)))
  }

  /** An uninterrupted read removes the row when both do. */
  predicate ReadRemoves(x: Item, k: string, gone: set<string>, now: Instant, goneLater: set<string>, later: Instant) {
    ScanDooms(x, k, gone, now) && PruneTakes(x, k, goneLater, later)
  }

  lemma OwnerText(ref: string)
    requires ParseRef(ref) != BadRef
    ensures ParseRef(ref).OwnerRef? <==> IsPrefix("owner:", ref)
  {
    match ParseRef(ref)
    case SessionRef(v) => RefText(ref, v); assert ref[0] == 's';
    case HeartbeatRef(v) => RefText(ref, v); assert ref[0] == 'h';
    case OwnerRef(v) => RefText(ref, v); assert ref[..6] == "owner:";
  }

  lemma KeptByFields(items: map<string, Item>, k: string, board: bool, gone: set<string>, now: Instant)
    requires k in items && RefsOk(items)
    ensures k in KeptSet(items, board, gone, now) - (if board then TwinSet(items) else {}) <==>
              ReadShows(items, k, board, gone, now)
  {
    hide ParseRef;
    OwnerText(items[k].livenessRef);
    assert HasAnsweredTwin(items, k) <==>
             exists j :: j in items && items[j].state == Answered && AskIdentity(items[j]) == AskIdentity(items[k]);
  }

  lemma DeadByFields(items: map<string, Item>, k: string, gone: set<string>, now: Instant)
    requires k in items && RefsOk(items)
    ensures k in DeadSet(items, gone, now) <==> ScanDooms(items[k], k, gone, now)
    ensures Removable(items[k], k in gone, now) <==> PruneTakes(items[k], k, gone, now)
  {
    hide ParseRef;
    OwnerText(items[k].livenessRef);
  }

  lemma RemovedByFields(items: map<string, Item>, k: string, gone: set<string>, now: Instant, goneLater: set<string>,
                        later: Instant)
    requires k in items && RefsOk(items)
    ensures k in PrunedSet(items, SortedKeys(DeadSet(items, gone, now)), goneLater, later) <==>
              ReadRemoves(items[k], k, gone, now, goneLater, later)
  {
    hide ParseRef, SortedKeys, DeadSet, Removable, ScanDooms, PruneTakes;
    DeadByFields(items, k, gone, now);
    DeadByFields(items, k, goneLater, later);
    assert k in SortedKeys(DeadSet(items, gone, now)) <==> k in DeadSet(items, gone, now);
  }

  lemma RowsHold(items: map<string, Item>, chosen: set<string>, k: string)
    requires (forall i :: i in chosen ==> i in items) && (forall i :: i in items ==> items[i].itemID == i) && k in items
    ensures items[k] in Rows(items, SortedKeys(chosen)) <==> k in chosen
  {
    hide SortedKeys;
    var keys := SortedKeys(chosen);
    if k in chosen {
      var i :| 0 <= i < |keys| && keys[i] == k;
      assert Rows(items, keys)[i] == items[k];
    }
    if items[k] in Rows(items, keys) {
      var i :| 0 <= i < |keys| && Rows(items, keys)[i] == items[k];
      assert items[keys[i]].itemID == keys[i];
    }
  }

  /** A read, row by row: what it answers and what it leaves stored, by the fields of each row. */
  lemma ReadByFields(db: Db, board: bool, gone: set<string>, now: Instant, goneLater: set<string>, later: Instant)
    requires Consistent(db) && RefsOk(db.items)
    ensures ReadTx(db, board, gone, now, goneLater, later).result.Ok?
    ensures var out := ReadTx(db, board, gone, now, goneLater, later);
            forall k :: k in db.items ==>
              && (db.items[k] in out.result.value <==> ReadShows(db.items, k, board, gone, now))
              && (k in out.db.items <==> !ReadRemoves(db.items[k], k, gone, now, goneLater, later))
              && (k in out.db.items ==> out.db.items[k] == db.items[k])
    ensures forall x :: x in ReadTx(db, board, gone, now, goneLater, later).result.value ==>
              x.itemID in db.items && db.items[x.itemID] == x
  {
    hide ReadTx, Consistent, KeptSet, TwinSet, DeadSet, PrunedSet, ReadShows, ReadRemoves, RefsOk, SortedKeys;
    var out := ReadTx(db, board, gone, now, goneLater, later);
    UninterruptedRead(db, board, gone, now, goneLater, later);
    ReadPrunes(db, board, gone, now, goneLater, later);
    var shown := KeptSet(db.items, board, gone, now) - (if board then TwinSet(db.items) else {});
    KeptAreRows(db.items, board, gone, now);
    RowsOwnTheirIds(db);
    forall k | k in db.items
      ensures db.items[k] in out.result.value <==> ReadShows(db.items, k, board, gone, now)
      ensures k in out.db.items <==> !ReadRemoves(db.items[k], k, gone, now, goneLater, later)
    {
      RowsHold(db.items, shown, k);
      KeptByFields(db.items, k, board, gone, now);
      RemovedByFields(db.items, k, gone, now, goneLater, later);
    }
    forall x | x in out.result.value ensures x.itemID in db.items && db.items[x.itemID] == x {
      var keys := SortedKeys(shown);
      var i :| 0 <= i < |keys| && Rows(db.items, keys)[i] == x;
      assert keys[i] in shown;
    }
  }

  lemma KeptAreRows(items: map<string, Item>, board: bool, gone: set<string>, now: Instant)
    ensures forall k :: k in KeptSet(items, board, gone, now) ==> k in items
  {
    hide Keeps;
  }

  lemma RowsOwnTheirIds(db: Db)
    requires Consistent(db)
    ensures forall k :: k in db.items ==> db.items[k].itemID == k
  {
    hide AllTrusted, Encodable;
  }

  /** Deadlines alone: of an open row whose producer neither probe reports gone, and without an answered
      twin on the board. No deadline: always answered, always kept. A deadline d: answered exactly before
      d, and kept exactly when the scan or the prune is before d; at d it is past. */
  lemma DeadlineDecides(db: Db, k: string, board: bool, gone: set<string>, now: Instant, goneLater: set<string>,
                        later: Instant)
    requires Consistent(db) && RefsOk(db.items) && k in db.items && db.items[k].state == Open
    requires k !in gone && k !in goneLater && !(board && HasAnsweredTwin(db.items, k))
    ensures var out := ReadTx(db, board, gone, now, goneLater, later);
            && out.result.Ok?
            && match db.items[k].expiresAt
               case None => db.items[k] in out.result.value && k in out.db.items
               case Some(d) =>
                 && (db.items[k] in out.result.value <==> now < d)
                 && (k in out.db.items <==> now < d || later < d)
                 && (now == d ==> db.items[k] !in out.result.value) && (now == later == d ==> k !in out.db.items)
  {
    hide ReadTx, Consistent, RefsOk, HasAnsweredTwin;
    ReadByFields(db, board, gone, now, goneLater, later);
  }

  // ---- a sweep ----

  /** An answer older than the cutoff, or an open row repeating an ask that a younger answer carries. */
  ghost predicate SweepTakes(items: map<string, Item>, k: string, cutoff: Instant)
    requires k in items
  {
    || (items[k].state == Answered && items[k].answeredAt.Some? && items[k].answeredAt.value < cutoff)
    || (items[k].state == Open
        && exists j :: j in items && items[j].state == Answered
                       && !(items[j].answeredAt.Some? && items[j].answeredAt.value < cutoff)
                       && items[j].producerID + "\0" + items[j].dedupKey + "\0" + items[j].payload
                            == items[k].producerID + "\0" + items[k].dedupKey + "\0" + items[k].payload)
  }

  lemma SweptByFields(items: map<string, Item>, k: string, cutoff: Instant)
    requires k in items
    ensures k in SweptKeys(items, cutoff) <==> SweepTakes(items, k, cutoff)
  {
    assert StandsAnswered(items, cutoff, AskIdentity(items[k])) <==>
             exists j :: j in items && items[j].state == Answered && !Due(items[j], cutoff)
                         && AskIdentity(items[j]) == AskIdentity(items[k]);
  }

  /** A sweep, row by row: a taken row is closed at its own stamp and keeps every other field, any other is
      as it was; the count is of the rows that changed. */
  lemma SweepByFields(db: Db, cutoff: Instant, stamp: string -> Instant)
    requires Consistent(db)
    ensures var out := SweepTx(db, cutoff, stamp);
            && out.db.items.Keys == db.items.Keys
            && (forall k :: k in db.items ==>
                  out.db.items[k] == if SweepTakes(db.items, k, cutoff)
                                     then db.items[k].(state := Closed, closedAt := Some(stamp(k))) else db.items[k])
            && out.count == |set k | k in db.items && out.db.items[k] != db.items[k]|
  {
    hide SweepTx, Consistent, SweepTakes, SweptKeys;
    SweepMeaning(db, cutoff, stamp);
    var out := SweepTx(db, cutoff, stamp);
    forall k | k in db.items ensures k in SweptKeys(db.items, cutoff) <==> SweepTakes(db.items, k, cutoff) {
      SweptByFields(db.items, k, cutoff);
    }
    forall k | k in db.items ensures out.db.items[k] != db.items[k] <==> k in SweptKeys(db.items, cutoff) {
      if SweepTakes(db.items, k, cutoff) { TakenAreNotClosed(db.items, k, cutoff); }
    }
    SweptAreRows(db.items, cutoff);
    assert (set k | k in db.items && out.db.items[k] != db.items[k]) == SweptKeys(db.items, cutoff);
  }

  lemma TakenAreNotClosed(items: map<string, Item>, k: string, cutoff: Instant)
    requires k in items && SweepTakes(items, k, cutoff)
    ensures items[k].state != Closed
  {
  }

  lemma SweptAreRows(items: map<string, Item>, cutoff: Instant)
    ensures forall k :: k in SweptKeys(items, cutoff) ==> k in items
  {
    hide SweepCloses;
  }
}
