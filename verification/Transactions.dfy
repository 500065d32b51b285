/** The store's write transactions as functions of the database they read
    (pkg/attention-store-impl.go, -flag.go, -rate.go, -attempt.go). Clock readings, fresh ids and
    liveness verdicts are arguments. */
module Transactions {
  import opened Calendar
  import opened Items
  import opened Derived
  import opened Indexes

  /** isProducerLiveWith: an owner is never probed, a ref of no model is an error. */
  function Liveness(item: Item, gone: bool): Result<bool> {
    match ParseRef(item.livenessRef)
    case BadRef => Err(InvalidLivenessRef)
    case OwnerRef(_) => Ok(true)
    case _ => Ok(!gone)
  }

  // ---- Push ----

  datatype Pushed = Suppressed(item: Item) | Added(item: Item)

  datatype PushOutcome = PushOutcome(db: Db, result: Result<Pushed>)

  function Adding(db: Db, r: Request, id: string, now: Instant): PushOutcome {
    PushOutcome(Put(db, NewItem(r, id, now)), Ok(Added(NewItem(r, id, now))))
  }

  /** Push: gone is the verdict on the producer of the open row already holding the key. */
  function PushTx(db: Db, r: Request, id: string, now: Instant, gone: bool): PushOutcome {
    if !ValidRequest(r) then PushOutcome(db, Err(ValidationFailed))
    else
      var built := Ensure(db, DedupKind);
      var key := DedupKeyOf(r.producerID, r.dedupKey);
      if key !in built.dedup then Adding(built, r, id, now)
      else
        var existing := built.dedup[key];
        match Liveness(existing, gone)
        case Err(e) => PushOutcome(db, Err(e))
        case Ok(live) =>
          if !live then Adding(built, r, id, now)
          else PushOutcome(Put(built, Repushed(existing, r, now)), Ok(Suppressed(Repushed(existing, r, now))))
  }

  // ---- Answer, Escalate, Close, Flag, Unflag, Rate ----

  function EditTx(db: Db, id: string, e: Edit): Result<Db> {
    if Precheck(e).Some? then Err(Precheck(e).value)
    else if id !in db.items then Err(ItemNotFound)
    else
      match Apply(db.items[id], e)
      case Write(item) => Ok(Put(db, item))
      case Keep(_) => Ok(db)
      case Refuse(error) => Err(error)
  }

  // ---- RecordAttempt and Delivery ----

  function AttemptTx(db: Db, id: string, carrier: string, outcome: string, now: Instant): Result<Db> {
    if id !in db.items then Err(ItemNotFound)
    else if carrier == "" || outcome !in {"delivered", "failed", "held"} then Err(ValidationFailed)
    else Ok(db.(attempts := db.attempts[id := Attempt(id, carrier, outcome, now)]))
  }

  // ---- the read ----

  datatype Stored = Stored(key: string, item: Item)

  /** The entries a cursor delivers, the marker skipped by name. */
  function EntriesAt(ix: Index, keys: seq<string>): seq<Stored>
    requires forall k :: k in keys ==> k in ix
  {
    if keys == [] then []
    else
      var key, before := keys[|keys| - 1], EntriesAt(ix, keys[..|keys| - 1]);
      if key == MARKER then before else before + [Stored(key, ix[key])]
  }

  function Entries(ix: Index): seq<Stored> { EntriesAt(ix, Lex.SortedKeys(ix.Keys)) }

  datatype Disposition = KeepIt | RemoveIt | Neither

  /** classifyForRead: answered first, expiry before liveness, reports survive their producer. */
  function Classify(item: Item, board: bool, gone: bool, now: Instant): Result<Disposition> {
    if item.state == Answered && board then Ok(KeepIt)
    else if item.state != Open then Ok(Neither)
    else if IsExpired(item, now) then Ok(RemoveIt)
    else
      match Liveness(item, gone)
      case Err(e) => Err(e)
      case Ok(live) => if live || !IsAsked(item) then Ok(KeepIt) else Ok(RemoveIt)
  }

  datatype Sorting = Sorting(kept: seq<Item>, dead: seq<string>)

  /** The read's loop over its snapshot; gone names the keys whose producer the probe reported gone. */
  function ClassifyAll(entries: seq<Stored>, board: bool, gone: set<string>, now: Instant): Result<Sorting> {
    if entries == [] then Ok(Sorting([], []))
    else
      var last := entries[|entries| - 1];
      match ClassifyAll(entries[..|entries| - 1], board, gone, now)
      case Err(e) => Err(e)
      case Ok(before) =>
        match Classify(last.item, board, last.key in gone, now)
        case Err(e) => Err(e)
        case Ok(KeepIt) => Ok(before.(kept := before.kept + [last.item]))
        case Ok(RemoveIt) => Ok(before.(dead := before.dead + [last.key]))
        case Ok(Neither) => Ok(before)
  }

  function AnsweredAsks(items: seq<Item>): set<string> {
    set i | 0 <= i < |items| && items[i].state == Answered :: AskIdentity(items[i])
  }

  function WithoutTwins(items: seq<Item>, answered: set<string>): seq<Item> {
    if items == [] then []
    else
      var last, before := items[|items| - 1], WithoutTwins(items[..|items| - 1], answered);
      if last.state == Open && AskIdentity(last) in answered then before else before + [last]
  }

  /** suppressAnsweredTwins. */
  function SuppressTwins(items: seq<Item>): seq<Item> { WithoutTwins(items, AnsweredAsks(items)) }

  /** stillRemovable: state, then expiry, then the prune's own liveness verdict. */
  function StillRemovable(db: Db, key: string, gone: set<string>, now: Instant): Result<bool> {
    if key !in db.items || db.items[key].state != Open then Ok(false)
    else if IsExpired(db.items[key], now) then Ok(true)
    else
      match Liveness(db.items[key], key in gone)
      case Err(e) => Err(e)
      case Ok(live) => Ok(!live)
  }

  /** pruneDead: one compare-and-delete transaction, aborted whole by an error. */
  function PruneTx(db: Db, keys: seq<string>, gone: set<string>, now: Instant): Result<Db>
    decreases |keys|
  {
    if keys == [] then Ok(db)
    else
      match StillRemovable(db, keys[0], gone, now)
      case Err(e) => Err(e)
      case Ok(remove) => PruneTx(if remove then Remove(db, keys[0]) else db, keys[1..], gone, now)
  }

  // ---- loops of the read, as the source runs them ----

  method ClassifySnapshot(entries: seq<Stored>, board: bool, gone: set<string>, now: Instant)
    returns (r: Result<Sorting>)
    ensures r == ClassifyAll(entries, board, gone, now)
  {
    var kept: seq<Item>, dead: seq<string> := [], [];
    for i := 0 to |entries|
      invariant ClassifyAll(entries[..i], board, gone, now) == Ok(Sorting(kept, dead))
    {
      assert entries[..i + 1][..i] == entries[..i];
      var d := Classify(entries[i].item, board, entries[i].key in gone, now);
      match d {
        case Err(e) =>
          ClassifyErrs(entries, board, gone, now, i + 1);
          return Err(e);
        case Ok(KeepIt) => kept := kept + [entries[i].item];
        case Ok(RemoveIt) => dead := dead + [entries[i].key];
        case Ok(Neither) =>
      }
    }
    assert entries[..|entries|] == entries;
    return Ok(Sorting(kept, dead));
  }

  /** An error met on the way is the whole scan's error. */
  lemma {:induction false} ClassifyErrs(entries: seq<Stored>, board: bool, gone: set<string>, now: Instant, n: nat)
    requires n <= |entries| && ClassifyAll(entries[..n], board, gone, now).Err?
    ensures ClassifyAll(entries, board, gone, now) == ClassifyAll(entries[..n], board, gone, now)
    decreases |entries| - n
  {
    if n == |entries| { assert entries[..n] == entries; } else {
      assert entries[..n + 1][..n] == entries[..n];
      ClassifyErrs(entries, board, gone, now, n + 1);
    }
  }

  method SuppressAnsweredTwins(items: seq<Item>) returns (kept: seq<Item>)
    ensures kept == SuppressTwins(items)
  {
    var answered: set<string> := {};
    for i := 0 to |items|
      invariant answered == AnsweredAsks(items[..i])
    {
      assert forall j :: 0 <= j < i + 1 ==> items[..i + 1][j] == items[j];
      assert forall j :: 0 <= j < i ==> items[..i][j] == items[j];
      if items[i].state == Answered {
        assert AskIdentity(items[..i + 1][i]) in AnsweredAsks(items[..i + 1]);
        answered := answered + {AskIdentity(items[i])};
      }
      assert AnsweredAsks(items[..i]) <= AnsweredAsks(items[..i + 1]) by {
        forall a | a in AnsweredAsks(items[..i]) ensures a in AnsweredAsks(items[..i + 1]) {
          var j :| 0 <= j < i && items[..i][j].state == Answered && AskIdentity(items[..i][j]) == a;
          assert items[..i + 1][j].state == Answered;
        }
      }
      assert AnsweredAsks(items[..i + 1]) <= answered by {
        forall a | a in AnsweredAsks(items[..i + 1]) ensures a in answered {
          var j :| 0 <= j < i + 1 && items[..i + 1][j].state == Answered && AskIdentity(items[..i + 1][j]) == a;
          if j < i { assert items[..i][j].state == Answered; }
        }
      }
    }
    assert items[..|items|] == items;
    if answered == {} {
      NoTwins(items, answered);
      return items;
    }
    kept := [];
    for i := 0 to |items|
      invariant kept == WithoutTwins(items[..i], answered)
    {
      assert items[..i + 1][..i] == items[..i];
      if !(items[i].state == Open && AskIdentity(items[i]) in answered) { kept := kept + [items[i]]; }
    }
  }

  lemma {:induction false} NoTwins(items: seq<Item>, answered: set<string>)
    requires forall i :: 0 <= i < |items| && items[i].state == Open ==> AskIdentity(items[i]) !in answered
    ensures WithoutTwins(items, answered) == items
  {
    if items != [] {
      NoTwins(items[..|items| - 1], answered);
      assert items == items[..|items| - 1] + [items[|items| - 1]];
    }
  }

  method PruneDead(db: Db, keys: seq<string>, gone: set<string>, now: Instant) returns (r: Result<Db>)
    ensures r == PruneTx(db, keys, gone, now)
  {
    var tx := db;
    for i := 0 to |keys|
      invariant PruneTx(db, keys, gone, now) == PruneTx(tx, keys[i..], gone, now)
    {
      assert keys[i..][1..] == keys[i + 1..];
      var remove := StillRemovable(tx, keys[i], gone, now);
      if remove.Err? { return Err(remove.error); }
      if remove.value { tx := Remove(tx, keys[i]); }
    }
    return Ok(tx);
  }
}
