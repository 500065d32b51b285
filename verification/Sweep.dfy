/** SweepAnswered and its helpers (pkg/attention-store-impl.go:1565-1790). */
module Sweep {
  import opened Calendar
  import opened Items
  import opened Lex
  import opened Derived
  import opened Indexes

  datatype Closing = Closing(db: Db, count: nat)

  /** The rows a pass closes, in scan order; each is re-read and its state re-checked before the
      write. stamp gives the clock reading taken at each close. */
  function CloseAll(db: Db, keys: seq<string>, from: State, stamp: string -> Instant): Closing
    decreases |keys|
  {
    if keys == [] then Closing(db, 0)
    else
      var key, before := keys[|keys| - 1], CloseAll(db, keys[..|keys| - 1], from, stamp);
      if key in before.db.items && before.db.items[key].state == from
      then Closing(Put(before.db, SweptClosed(before.db.items[key], stamp(key))), before.count + 1)
      else before
  }

  predicate Due(item: Item, cutoff: Instant) {
    item.state == Answered && item.answeredAt.Some? && item.answeredAt.value < cutoff
  }

  /** dueAnsweredKeys over the first keys of the live index. */
  function DueKeys(live: Index, keys: seq<string>, cutoff: Instant): seq<string>
    requires forall k :: k in keys ==> k in live
  {
    if keys == [] then []
    else
      var key, before := keys[|keys| - 1], DueKeys(live, keys[..|keys| - 1], cutoff);
      if key != MARKER && Due(live[key], cutoff) then before + [key] else before
  }

  function TwinAsks(live: Index): set<string> {
    set key | key in live && key != MARKER && live[key].state == Answered :: AskIdentity(live[key])
  }

  function ReraiseKeys(live: Index, keys: seq<string>, twins: set<string>): seq<string>
    requires forall k :: k in keys ==> k in live
  {
    if keys == [] then []
    else
      var key, before := keys[|keys| - 1], ReraiseKeys(live, keys[..|keys| - 1], twins);
      if key != MARKER && live[key].state == Open && AskIdentity(live[key]) in twins then before + [key] else before
  }

  /** SweepAnswered: the age pass, then the re-raises of what is still answered. */
  function SweepTx(db: Db, cutoff: Instant, stamp: string -> Instant): Closing {
    var built := Ensure(db, LiveKind);
    var aged := CloseAll(built, DueKeys(built.live, SortedKeys(built.live.Keys), cutoff), Answered, stamp);
    var twins := TwinAsks(aged.db.live);
    if twins == {} then aged
    else
      var rest := CloseAll(aged.db, ReraiseKeys(aged.db.live, SortedKeys(aged.db.live.Keys), twins), Open, stamp);
      Closing(rest.db, aged.count + rest.count)
  }

  // ---- the loops, as the source runs them ----

  lemma DueStep(live: Index, keys: seq<string>, i: nat, cutoff: Instant)
    requires i < |keys| && forall k :: k in keys ==> k in live
    ensures keys[i] in live && forall k :: k in keys[..i + 1] || k in keys[..i] ==> k in live
    ensures var before := DueKeys(live, keys[..i], cutoff);
            DueKeys(live, keys[..i + 1], cutoff) ==
              if keys[i] != MARKER && Due(live[keys[i]], cutoff) then before + [keys[i]] else before
  {
    hide Due;
    assert keys[..i + 1][..i] == keys[..i];
  }

  lemma ReraiseStep(live: Index, keys: seq<string>, i: nat, twins: set<string>)
    requires i < |keys| && forall k :: k in keys ==> k in live
    ensures keys[i] in live && forall k :: k in keys[..i + 1] || k in keys[..i] ==> k in live
    ensures var before := ReraiseKeys(live, keys[..i], twins);
            ReraiseKeys(live, keys[..i + 1], twins) ==
              if keys[i] != MARKER && live[keys[i]].state == Open && AskIdentity(live[keys[i]]) in twins
              then before + [keys[i]] else before
  {
    hide AskIdentity;
    assert keys[..i + 1][..i] == keys[..i];
  }

  lemma NoKeysYet(live: Index, cutoff: Instant, twins: set<string>)
    ensures DueKeys(live, [], cutoff) == [] && ReraiseKeys(live, [], twins) == []
  {
  }

  method DueAnsweredKeys(live: Index, cutoff: Instant) returns (due: seq<string>)
    ensures due == DueKeys(live, SortedKeys(live.Keys), cutoff)
  {
    hide DueKeys, Due, SortedKeys;
    var keys := SortedKeys(live.Keys);
    due := [];
    NoKeysYet(live, cutoff, {});
    assert keys[..0] == [];
    for i := 0 to |keys|
      invariant forall k :: k in keys[..i] ==> k in live
      invariant due == DueKeys(live, keys[..i], cutoff)
    {
      DueStep(live, keys, i, cutoff);
      if keys[i] != MARKER && Due(live[keys[i]], cutoff) { due := due + [keys[i]]; }
    }
    assert keys[..|keys|] == keys;
  }

  method ClosePass(db: Db, keys: seq<string>, from: State, stamp: string -> Instant) returns (r: Closing)
    ensures r == CloseAll(db, keys, from, stamp)
  {
    hide Put;
    var tx, count := db, 0;
    for i := 0 to |keys|
      invariant CloseAll(db, keys[..i], from, stamp) == Closing(tx, count)
    {
      assert keys[..i + 1][..i] == keys[..i];
      if keys[i] in tx.items && tx.items[keys[i]].state == from {
        tx := Put(tx, SweptClosed(tx.items[keys[i]], stamp(keys[i])));
        count := count + 1;
      }
    }
    assert keys[..|keys|] == keys;
    return Closing(tx, count);
  }

  method ReraisedKeys(live: Index, twins: set<string>) returns (due: seq<string>)
    ensures due == ReraiseKeys(live, SortedKeys(live.Keys), twins)
  {
    hide ReraiseKeys, AskIdentity, SortedKeys;
    var keys := SortedKeys(live.Keys);
    due := [];
    NoKeysYet(live, 0, twins);
    assert keys[..0] == [];
    for i := 0 to |keys|
      invariant forall k :: k in keys[..i] ==> k in live
      invariant due == ReraiseKeys(live, keys[..i], twins)
    {
      ReraiseStep(live, keys, i, twins);
      if keys[i] != MARKER && live[keys[i]].state == Open && AskIdentity(live[keys[i]]) in twins {
        due := due + [keys[i]];
      }
    }
    assert keys[..|keys|] == keys;
  }

  method SweepAnswered(db: Db, cutoff: Instant, stamp: string -> Instant) returns (r: Closing)
    ensures r == SweepTx(db, cutoff, stamp)
  {
    hide Put, Ensure;
    var built := EnsureIndex(db, LiveKind);
    var due := DueAnsweredKeys(built.live, cutoff);
    var aged := ClosePass(built, due, Answered, stamp);
    var twins := TwinAsks(aged.db.live);
    if twins == {} { return aged; }
    var reraises := ReraisedKeys(aged.db.live, twins);
    var rest := ClosePass(aged.db, reraises, Open, stamp);
    return Closing(rest.db, aged.count + rest.count);
  }

  // ---- meaning ----

  ghost predicate AllKept(items: map<string, Item>) { forall k :: k in items ==> WellKept(items[k]) }

  function ClosedBy(items: map<string, Item>, keys: seq<string>, from: State): set<string> {
    set k | k in items && k in keys && items[k].state == from
  }

  predicate Distinct(keys: seq<string>) { forall i, j :: 0 <= i < j < |keys| ==> keys[i] != keys[j] }

  /** What closing the rows in shut does to a bucket. */
  ghost predicate ClosesExactly(items: map<string, Item>, items': map<string, Item>, shut: set<string>,
                                stamp: string -> Instant) {
    && items'.Keys == items.Keys
    && forall k :: k in items ==> items'[k] == if k in shut then SweptClosed(items[k], stamp(k)) else items[k]
  }

  lemma PutRow(db: Db, item: Item)
    ensures Put(db, item).items == db.items[item.itemID := item] && Put(db, item).attempts == db.attempts
    ensures Put(db, item).hasItems
  {
  }

  lemma CloseOne(db: Db, key: string, now: Instant)
    requires Consistent(db) && key in db.items
    ensures var db' := Put(db, SweptClosed(db.items[key], now));
            && Consistent(db') && db'.items == db.items[key := SweptClosed(db.items[key], now)]
            && (MARKER in db.live ==> MARKER in db'.live)
  {
    hide Put;
    var item := SweptClosed(db.items[key], now);
    PutConsistent(db, item); PutKeepsMarks(db, item, LiveKind); PutRow(db, item);
  }

  lemma ClosedByStep(items: map<string, Item>, front: seq<string>, key: string, from: State)
    requires key !in front
    ensures var hit := key in items && items[key].state == from;
            && ClosedBy(items, front + [key], from) == ClosedBy(items, front, from) + (if hit then {key} else {})
            && |ClosedBy(items, front + [key], from)| == |ClosedBy(items, front, from)| + (if hit then 1 else 0)
            && key !in ClosedBy(items, front, from)
  {
    hide ClosedBy;
    var hit := key in items && items[key].state == from;
    forall k
      ensures k in ClosedBy(items, front + [key], from) <==> k in ClosedBy(items, front, from) || (hit && k == key)
    {
      ClosedByHolds(items, front, from, k);
      ClosedByHolds(items, front + [key], from, k);
      assert k in front + [key] <==> k in front || k == key;
    }
    ClosedByHolds(items, front, from, key);
    OneMore(ClosedBy(items, front, from), ClosedBy(items, front + [key], from), key, hit);
  }

  lemma ClosedByHolds(items: map<string, Item>, keys: seq<string>, from: State, k: string)
    ensures k in ClosedBy(items, keys, from) <==> k in items && k in keys && items[k].state == from
  {
  }

  lemma OneMore<T>(before: set<T>, after: set<T>, x: T, hit: bool)
    requires x !in before && forall y :: y in after <==> y in before || (hit && y == x)
    ensures after == before + (if hit then {x} else {}) && |after| == |before| + if hit then 1 else 0
  {
    assert after == before + if hit then {x} else {};
  }

  lemma ClosesStep(items: map<string, Item>, before: map<string, Item>, shut: set<string>, key: string,
                   stamp: string -> Instant)
    requires ClosesExactly(items, before, shut, stamp) && key !in shut
    ensures key in items <==> key in before
    ensures key in items ==>
              && before[key] == items[key]
              && ClosesExactly(items, before[key := SweptClosed(items[key], stamp(key))], shut + {key}, stamp)
  {
    hide SweptClosed;
  }

  lemma {:induction false} CloseAllMeaning(db: Db, keys: seq<string>, from: State, stamp: string -> Instant)
    requires Consistent(db) && Distinct(keys) && from != Closed
    ensures Consistent(CloseAll(db, keys, from, stamp).db)
    ensures CloseAll(db, keys, from, stamp).count == |ClosedBy(db.items, keys, from)|
    ensures ClosesExactly(db.items, CloseAll(db, keys, from, stamp).db.items, ClosedBy(db.items, keys, from), stamp)
    ensures MARKER in db.live ==> MARKER in CloseAll(db, keys, from, stamp).db.live
    decreases |keys|
  {
    hide Put, Consistent, SweptClosed, ClosesExactly, ClosedBy;
    if keys == [] {
      NothingCloses(db.items, from, stamp);
    } else {
      var front, key := keys[..|keys| - 1], keys[|keys| - 1];
      assert keys == front + [key] && key !in front;
      CloseAllMeaning(db, front, from, stamp);
      ClosedByStep(db.items, front, key, from);
      var before := CloseAll(db, front, from, stamp);
      ClosesStep(db.items, before.db.items, ClosedBy(db.items, front, from), key, stamp);
      if key in db.items && db.items[key].state == from {
        CloseOne(before.db, key, stamp(key));
      } else {
        assert ClosedBy(db.items, keys, from) == ClosedBy(db.items, front, from);
      }
    }
  }

  lemma NothingCloses(items: map<string, Item>, from: State, stamp: string -> Instant)
    ensures ClosedBy(items, [], from) == {} && ClosesExactly(items, items, {}, stamp)
  {
  }

  /** The rows a sweep closes: answers older than the cutoff, and open rows repeating an ask that a
      younger answer still stands for. */
  predicate StandsAnswered(items: map<string, Item>, cutoff: Instant, ask: string) {
    exists k :: k in items && items[k].state == Answered && !Due(items[k], cutoff) && AskIdentity(items[k]) == ask
  }

  predicate SweepCloses(items: map<string, Item>, cutoff: Instant, k: string)
    requires k in items
  {
    Due(items[k], cutoff) || (items[k].state == Open && StandsAnswered(items, cutoff, AskIdentity(items[k])))
  }

  function DueSet(items: map<string, Item>, cutoff: Instant): set<string> {
    set k | k in items && Due(items[k], cutoff)
  }

  function ReraiseSet(items: map<string, Item>, twins: set<string>): set<string> {
    set k | k in items && items[k].state == Open && AskIdentity(items[k]) in twins
  }

  function SweptKeys(items: map<string, Item>, cutoff: Instant): set<string> {
    set k | k in items && SweepCloses(items, cutoff, k)
  }

  lemma {:induction false} DueKeysAre(live: Index, keys: seq<string>, cutoff: Instant)
    requires (forall k :: k in keys ==> k in live) && Distinct(keys)
    ensures forall k :: k in DueKeys(live, keys, cutoff) <==> k in keys && k != MARKER && Due(live[k], cutoff)
    ensures Distinct(DueKeys(live, keys, cutoff))
  {
    if keys != [] {
      assert keys == keys[..|keys| - 1] + [keys[|keys| - 1]];
      DueKeysAre(live, keys[..|keys| - 1], cutoff);
    }
  }

  lemma {:induction false} ReraiseKeysAre(live: Index, keys: seq<string>, twins: set<string>)
    requires (forall k :: k in keys ==> k in live) && Distinct(keys)
    ensures forall k :: k in ReraiseKeys(live, keys, twins) <==>
              k in keys && k != MARKER && live[k].state == Open && AskIdentity(live[k]) in twins
    ensures Distinct(ReraiseKeys(live, keys, twins))
  {
    if keys != [] {
      assert keys == keys[..|keys| - 1] + [keys[|keys| - 1]];
      ReraiseKeysAre(live, keys[..|keys| - 1], twins);
    }
  }

  /** A trusted live index is the non-closed part of the bucket, by value. */
  lemma LiveIsNonClosed(db: Db)
    requires Consistent(db) && MARKER in db.live
    ensures forall k :: k != MARKER ==> (k in db.live <==> k in db.items && db.items[k].state != Closed)
    ensures forall k :: k != MARKER && k in db.live ==> db.live[k] == db.items[k]
  {
    hide Consistent;
    IndexedById(db, LiveKind);
  }

  lemma CardinalityOfUnion(a: set<string>, b: set<string>)
    requires a !! b
    ensures |a + b| == |a| + |b|
  {
  }

  /** The live index shows the non-closed rows. */
  ghost predicate Shows(live: Index, items: map<string, Item>) {
    && MARKER !in items
    && (forall k :: k != MARKER ==> (k in live <==> k in items && items[k].state != Closed))
    && (forall k :: k != MARKER && k in live ==> live[k] == items[k])
  }

  lemma DueMatches(live: Index, items: map<string, Item>, cutoff: Instant)
    requires Shows(live, items)
    ensures ClosedBy(items, DueKeys(live, SortedKeys(live.Keys), cutoff), Answered) == DueSet(items, cutoff)
    ensures Distinct(DueKeys(live, SortedKeys(live.Keys), cutoff))
  {
    hide SortedKeys, DueKeys;
    IncreasingDistinct(SortedKeys(live.Keys));
    DueKeysAre(live, SortedKeys(live.Keys), cutoff);
  }

  lemma ReraisesMatch(live: Index, items: map<string, Item>, twins: set<string>)
    requires Shows(live, items)
    ensures ClosedBy(items, ReraiseKeys(live, SortedKeys(live.Keys), twins), Open) == ReraiseSet(items, twins)
    ensures Distinct(ReraiseKeys(live, SortedKeys(live.Keys), twins))
  {
    hide SortedKeys, ReraiseKeys, AskIdentity;
    IncreasingDistinct(SortedKeys(live.Keys));
    ReraiseKeysAre(live, SortedKeys(live.Keys), twins);
  }

  /** The age pass closes the due answers. */
  lemma AgePass(built: Db, cutoff: Instant, stamp: string -> Instant)
    requires Consistent(built) && MARKER in built.live
    ensures var r := CloseAll(built, DueKeys(built.live, SortedKeys(built.live.Keys), cutoff), Answered, stamp);
            && Consistent(r.db) && MARKER in r.db.live && r.count == |DueSet(built.items, cutoff)|
            && ClosesExactly(built.items, r.db.items, DueSet(built.items, cutoff), stamp)
  {
    hide CloseAll, Consistent, DueKeys, SortedKeys, ClosesExactly, DueSet, ClosedBy, Distinct;
    LiveIsNonClosed(built);
    RowsAvoidMarker(built);
    DueMatches(built.live, built.items, cutoff);
    CloseAllMeaning(built, DueKeys(built.live, SortedKeys(built.live.Keys), cutoff), Answered, stamp);
  }

  /** The second pass closes the open rows whose ask is among the twins. */
  lemma ReraisePass(aged: Db, twins: set<string>, stamp: string -> Instant)
    requires Consistent(aged) && MARKER in aged.live
    ensures var r := CloseAll(aged, ReraiseKeys(aged.live, SortedKeys(aged.live.Keys), twins), Open, stamp);
            && Consistent(r.db) && r.count == |ReraiseSet(aged.items, twins)|
            && ClosesExactly(aged.items, r.db.items, ReraiseSet(aged.items, twins), stamp)
  {
    hide CloseAll, Consistent, ReraiseKeys, SortedKeys, ClosesExactly, ReraiseSet, ClosedBy, Distinct;
    LiveIsNonClosed(aged);
    RowsAvoidMarker(aged);
    ReraisesMatch(aged.live, aged.items, twins);
    CloseAllMeaning(aged, ReraiseKeys(aged.live, SortedKeys(aged.live.Keys), twins), Open, stamp);
  }

  lemma RowsAvoidMarker(db: Db)
    requires Consistent(db)
    ensures MARKER !in db.items
  {
    hide AllTrusted;
  }

  /** A sweep closes exactly the rows the rule names, counts them, and touches no other row. */
  lemma SweepMeaning(db: Db, cutoff: Instant, stamp: string -> Instant)
    requires Consistent(db)
    ensures var r := SweepTx(db, cutoff, stamp);
            && Consistent(r.db) && r.count == |SweptKeys(db.items, cutoff)|
            && ClosesExactly(db.items, r.db.items, SweptKeys(db.items, cutoff), stamp)
  {
    hide Ensure, Consistent, CloseAll, DueKeys, ReraiseKeys, Due, AskIdentity, TwinAsks, ClosesExactly, SweptKeys,
         SortedKeys;
    EnsureConsistent(db, LiveKind);
    var built := Ensure(db, LiveKind);
    AgePass(built, cutoff, stamp);
    var aged := CloseAll(built, DueKeys(built.live, SortedKeys(built.live.Keys), cutoff), Answered, stamp);
    var twins := TwinAsks(aged.db.live);
    ReraisePass(aged.db, twins, stamp);
    var again := CloseAll(aged.db, ReraiseKeys(aged.db.live, SortedKeys(aged.db.live.Keys), twins), Open, stamp);
    CombinePasses(db.items, aged.db, again.db.items, cutoff, stamp);
  }

  lemma ComposeCloses(items: map<string, Item>, mid: map<string, Item>, final: map<string, Item>,
                      a: set<string>, b: set<string>, stamp: string -> Instant)
    requires ClosesExactly(items, mid, a, stamp) && ClosesExactly(mid, final, b, stamp) && a !! b
    ensures ClosesExactly(items, final, a + b, stamp)
  {
    hide SweptClosed;
  }

  /** The two passes together close the rows the rule names. */
  lemma CombinePasses(items: map<string, Item>, aged: Db, final: map<string, Item>, cutoff: Instant,
                      stamp: string -> Instant)
    requires Consistent(aged) && MARKER in aged.live
    requires ClosesExactly(items, aged.items, DueSet(items, cutoff), stamp)
    requires var twins := TwinAsks(aged.live);
             var second := ReraiseSet(aged.items, twins);
             ClosesExactly(aged.items, final, second, stamp)
    ensures var twins := TwinAsks(aged.live);
            var first := DueSet(items, cutoff);
            var second := ReraiseSet(aged.items, twins);
            && |SweptKeys(items, cutoff)| == |first| + |second|
            && (twins == {} ==> |second| == 0 && SweptKeys(items, cutoff) == first)
            && ClosesExactly(items, final, SweptKeys(items, cutoff), stamp)
  {
    hide Consistent, Due, AskIdentity, TwinAsks, StandsAnswered, ClosesExactly, SweptKeys;
    var twins := TwinAsks(aged.live);
    var first := DueSet(items, cutoff);
    var second := ReraiseSet(aged.items, twins);
    LiveIsNonClosed(aged);
    RowsAvoidMarker(aged);
    TwinsAre(items, aged, first, cutoff, stamp);
    DueAreAnswered(items, cutoff);
    SweptKeysSplit(items, aged.items, first, second, twins, cutoff, stamp);
    CardinalityOfUnion(first, second);
    ComposeCloses(items, aged.items, final, first, second, stamp);
    if twins == {} { assert second == {}; assert first + second == first; }
  }

  lemma DueAreAnswered(items: map<string, Item>, cutoff: Instant)
    ensures forall k :: k in items && Due(items[k], cutoff) ==> items[k].state == Answered
  {
  }

  lemma SweptKeysSplit(items: map<string, Item>, aged: map<string, Item>, first: set<string>, second: set<string>,
                       twins: set<string>, cutoff: Instant, stamp: string -> Instant)
    requires first == DueSet(items, cutoff)
    requires ClosesExactly(items, aged, first, stamp)
    requires forall ask :: ask in twins <==> StandsAnswered(items, cutoff, ask)
    requires second == ReraiseSet(aged, twins)
    ensures first !! second && SweptKeys(items, cutoff) == first + second
  {
    hide StandsAnswered, AskIdentity;
  }

  /** After the age pass the live index's twins are the asks that still stand answered. */
  lemma TwinsAre(items: map<string, Item>, aged: Db, first: set<string>, cutoff: Instant, stamp: string -> Instant)
    requires MARKER !in aged.items && ClosesExactly(items, aged.items, first, stamp)
    requires forall k :: k in items ==> (k in first <==> Due(items[k], cutoff))
    requires forall k :: k != MARKER ==> (k in aged.live <==> k in aged.items && aged.items[k].state != Closed)
    requires forall k :: k != MARKER && k in aged.live ==> aged.live[k] == aged.items[k]
    ensures forall ask :: ask in TwinAsks(aged.live) <==> StandsAnswered(items, cutoff, ask)
  {
    forall ask | StandsAnswered(items, cutoff, ask) ensures ask in TwinAsks(aged.live) {
      var k :| k in items && items[k].state == Answered && !Due(items[k], cutoff) && AskIdentity(items[k]) == ask;
      assert k in aged.live && aged.live[k] == items[k];
    }
  }

  // ---- consequences ----

  /** After a sweep: no over-age answer, no open row beside a standing answer to the same ask, and a
      re-raise with no standing answer is left as it was. */
  lemma SweepLeavesNoneDue(db: Db, cutoff: Instant, stamp: string -> Instant, k: string)
    requires Consistent(db) && k in db.items
    ensures var items' := SweepTx(db, cutoff, stamp).db.items;
            && k in items' && !Due(items'[k], cutoff)
            && (items'[k].state == Open ==>
                 forall j :: j in items' && items'[j].state == Answered ==>
                   AskIdentity(items'[j]) != AskIdentity(items'[k]))
            && (db.items[k].state == Open && !StandsAnswered(db.items, cutoff, AskIdentity(db.items[k])) ==>
                 items'[k] == db.items[k])
            && (db.items[k].state == Closed ==> items'[k] == db.items[k])
  {
    hide SweepTx, Consistent;
    SweepMeaning(db, cutoff, stamp);
    var items' := SweepTx(db, cutoff, stamp).db.items;
    if items'[k].state == Open {
      forall j | j in items' && items'[j].state == Answered ensures AskIdentity(items'[j]) != AskIdentity(items'[k]) {
        assert items'[j] == db.items[j] && items'[k] == db.items[k];
      }
    }
  }

  /** A second sweep at the same instant closes nothing and writes nothing. */
  lemma SweepTwice(db: Db, cutoff: Instant, stamp: string -> Instant, again: string -> Instant)
    requires Consistent(db)
    ensures var once := SweepTx(db, cutoff, stamp).db;
            SweepTx(once, cutoff, again).count == 0 && SweepTx(once, cutoff, again).db.items == once.items
  {
    hide SweepTx, Consistent;
    SweepMeaning(db, cutoff, stamp);
    var once := SweepTx(db, cutoff, stamp).db;
    SweepMeaning(once, cutoff, again);
    forall k | k in once.items ensures !SweepCloses(once.items, cutoff, k) {
      SweepLeavesNoneDue(db, cutoff, stamp, k);
    }
    assert SweptKeys(once.items, cutoff) == {};
    assert forall k :: k in once.items ==> SweepTx(once, cutoff, again).db.items[k] == once.items[k];
  }
}
