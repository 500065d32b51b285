/** Derived indexes over a bucket of rows: what an index may hold, what one write does to it and
    what a rebuild makes of it (rebuildIndex, reconcileIndex, reconcileDedupIndex). */
module Derived {
  import opened Lex

  /** The built marker lives in the index's own bucket. */
  const MARKER: string := "!"

  /** Which rows an index admits, and under which key. */
  datatype Shape<!T> = Shape(idOf: T -> string, worthy: T -> bool, keyOf: (string, T) -> string)

  ghost predicate Keyed<T>(shape: Shape<T>, rows: map<string, T>) {
    forall id :: id in rows ==> shape.idOf(rows[id]) == id && shape.keyOf(id, rows[id]) != MARKER
  }

  /** No two rows share a key. */
  ghost predicate Separated<T>(shape: Shape<T>, rows: map<string, T>) {
    forall a, b :: a in rows && b in rows && a != b ==> shape.keyOf(a, rows[a]) != shape.keyOf(b, rows[b])
  }

  /** Every entry is, by value, a stored row that belongs there under that key. */
  ghost predicate Sound<T>(shape: Shape<T>, rows: map<string, T>, ix: map<string, T>) {
    forall key :: key in ix && key != MARKER ==>
      && shape.idOf(ix[key]) in rows && rows[shape.idOf(ix[key])] == ix[key]
      && shape.worthy(ix[key]) && shape.keyOf(shape.idOf(ix[key]), ix[key]) == key
  }

  /** Every row that belongs there has its entry. */
  ghost predicate Complete<T>(shape: Shape<T>, rows: map<string, T>, ix: map<string, T>) {
    forall id :: id in rows && shape.worthy(rows[id]) ==>
      shape.keyOf(id, rows[id]) in ix && ix[shape.keyOf(id, rows[id])] == rows[id]
  }

  ghost predicate Exact<T>(shape: Shape<T>, rows: map<string, T>, ix: map<string, T>) {
    Sound(shape, rows, ix) && Complete(shape, rows, ix)
  }

  /** Every key a worthy row carries has an entry. */
  ghost predicate Represented<T>(shape: Shape<T>, rows: map<string, T>, ix: map<string, T>) {
    forall id :: id in rows && shape.worthy(rows[id]) ==> shape.keyOf(id, rows[id]) in ix
  }

  // ---- one write ----

  /** reconcileIndex, after the row's previous key, where it moved, has been removed. */
  function Reconcile<T>(shape: Shape<T>, rows: map<string, T>, ix: map<string, T>, row: T): map<string, T> {
    var id := shape.idOf(row);
    var key := shape.keyOf(id, row);
    var kept := if id in rows && shape.keyOf(id, rows[id]) != key then ix - {shape.keyOf(id, rows[id])} else ix;
    if shape.worthy(row) then kept[key := row] else kept - {key}
  }

  lemma ReconcileExact<T>(shape: Shape<T>, rows: map<string, T>, ix: map<string, T>, row: T)
    requires Exact(shape, rows, ix)
    requires Keyed(shape, rows[shape.idOf(row) := row]) && Keyed(shape, rows)
    requires Separated(shape, rows[shape.idOf(row) := row]) && Separated(shape, rows)
    ensures Exact(shape, rows[shape.idOf(row) := row], Reconcile(shape, rows, ix, row))
  {
    var id := shape.idOf(row);
    var key := shape.keyOf(id, row);
    var next, rows' := Reconcile(shape, rows, ix, row), rows[id := row];
    assert rows'[id] == row;
    forall k | k in next && k != MARKER
      ensures shape.idOf(next[k]) in rows' && rows'[shape.idOf(next[k])] == next[k]
      ensures shape.worthy(next[k]) && shape.keyOf(shape.idOf(next[k]), next[k]) == k
    {
      if k != key { assert k in ix && next[k] == ix[k]; }
    }
    forall other | other in rows' && shape.worthy(rows'[other])
      ensures shape.keyOf(other, rows'[other]) in next && next[shape.keyOf(other, rows'[other])] == rows'[other]
    {
      if other != id { assert rows'[other] == rows[other]; }
    }
  }

  lemma ReconcileKeepsMark<T>(shape: Shape<T>, rows: map<string, T>, ix: map<string, T>, row: T)
    requires Keyed(shape, rows[shape.idOf(row) := row]) && Keyed(shape, rows) && MARKER in ix
    ensures MARKER in Reconcile(shape, rows, ix, row)
    ensures MARKER in ReconcileShared(shape, ix, row)
  {
    assert rows[shape.idOf(row) := row][shape.idOf(row)] == row;
  }

  /** Removes the entry only when it is this row's. */
  function DropOwn<T>(shape: Shape<T>, ix: map<string, T>, key: string, id: string): map<string, T> {
    if key in ix && shape.idOf(ix[key]) == id then ix - {key} else ix
  }

  /** reconcileDedupIndex: rows may share a key, so another row's entry is left alone. */
  function ReconcileShared<T>(shape: Shape<T>, ix: map<string, T>, row: T): map<string, T> {
    var key := shape.keyOf(shape.idOf(row), row);
    if shape.worthy(row) then ix[key := row] else DropOwn(shape, ix, key, shape.idOf(row))
  }

  lemma ReconcileSharedSound<T>(shape: Shape<T>, rows: map<string, T>, ix: map<string, T>, row: T)
    requires Sound(shape, rows, ix)
    requires var id := shape.idOf(row);
             id in rows ==> shape.keyOf(id, rows[id]) == shape.keyOf(id, row)
    ensures Sound(shape, rows[shape.idOf(row) := row], ReconcileShared(shape, ix, row))
  {
    var id := shape.idOf(row);
    var key := shape.keyOf(id, row);
    var next, rows' := ReconcileShared(shape, ix, row), rows[id := row];
    forall k | k in next && k != MARKER
      ensures shape.idOf(next[k]) in rows' && rows'[shape.idOf(next[k])] == next[k]
      ensures shape.worthy(next[k]) && shape.keyOf(shape.idOf(next[k]), next[k]) == k
    {
      if k != key || !shape.worthy(row) {
        assert k in ix && next[k] == ix[k];
      }
    }
  }

  /** Where no other worthy row has the row's key, every worthy row keeps its own entry. */
  lemma ReconcileSharedComplete<T>(shape: Shape<T>, rows: map<string, T>, ix: map<string, T>, row: T)
    requires Keyed(shape, rows) && Complete(shape, rows, ix)
    requires shape.worthy(row) ==>
               forall other :: other in rows && other != shape.idOf(row) && shape.worthy(rows[other]) ==>
                 shape.keyOf(other, rows[other]) != shape.keyOf(shape.idOf(row), row)
    ensures Complete(shape, rows[shape.idOf(row) := row], ReconcileShared(shape, ix, row))
  {
    var id := shape.idOf(row);
    var next, rows' := ReconcileShared(shape, ix, row), rows[id := row];
    forall other | other in rows' && shape.worthy(rows'[other])
      ensures shape.keyOf(other, rows'[other]) in next && next[shape.keyOf(other, rows'[other])] == rows'[other]
    {
      if other != id { assert rows'[other] == rows[other]; }
    }
  }

  lemma RemoveSharedComplete<T>(shape: Shape<T>, rows: map<string, T>, ix: map<string, T>, id: string)
    requires id in rows && Keyed(shape, rows) && Complete(shape, rows, ix)
    ensures Complete(shape, rows - {id}, DropOwn(shape, ix, shape.keyOf(id, rows[id]), id))
  {
  }

  // ---- removal ----

  lemma RemoveExact<T>(shape: Shape<T>, rows: map<string, T>, ix: map<string, T>, id: string)
    requires id in rows && Keyed(shape, rows) && Separated(shape, rows) && Exact(shape, rows, ix)
    ensures Exact(shape, rows - {id}, ix - {shape.keyOf(id, rows[id])})
  {
    var next, rows' := ix - {shape.keyOf(id, rows[id])}, rows - {id};
    forall k | k in next && k != MARKER
      ensures shape.idOf(next[k]) in rows' && rows'[shape.idOf(next[k])] == next[k]
      ensures shape.worthy(next[k]) && shape.keyOf(shape.idOf(next[k]), next[k]) == k
    {
      assert k in ix && next[k] == ix[k];
    }
  }

  lemma RemoveSharedSound<T>(shape: Shape<T>, rows: map<string, T>, ix: map<string, T>, id: string)
    requires id in rows && Keyed(shape, rows) && Sound(shape, rows, ix)
    ensures Sound(shape, rows - {id}, DropOwn(shape, ix, shape.keyOf(id, rows[id]), id))
  {
    var next, rows' := DropOwn(shape, ix, shape.keyOf(id, rows[id]), id), rows - {id};
    forall k | k in next && k != MARKER
      ensures shape.idOf(next[k]) in rows' && rows'[shape.idOf(next[k])] == next[k]
      ensures shape.worthy(next[k]) && shape.keyOf(shape.idOf(next[k]), next[k]) == k
    {
      assert k in ix && next[k] == ix[k];
    }
  }

  // ---- rebuild ----

  /** The entries a rebuild adds, in cursor order: a later row overwrites an equal key. */
  function Wanted<T>(shape: Shape<T>, rows: map<string, T>, keys: seq<string>): map<string, T>
    requires forall k :: k in keys ==> k in rows
  {
    if keys == [] then map[]
    else
      var last := keys[|keys| - 1];
      var before := Wanted(shape, rows, keys[..|keys| - 1]);
      if shape.worthy(rows[last]) then before[shape.keyOf(last, rows[last]) := rows[last]] else before
  }

  /** What a rebuild leaves: the wanted entries, and the marker if there was one. */
  function Rebuilt<T>(shape: Shape<T>, rows: map<string, T>, ix: map<string, T>): map<string, T> {
    var want := Wanted(shape, rows, SortedKeys(rows.Keys));
    if MARKER in ix && MARKER !in want then want[MARKER := ix[MARKER]] else want
  }

  /** The stale keys of a scan, in cursor order. */
  method StaleKeys<T>(ix: map<string, T>, want: set<string>) returns (stale: seq<string>)
    ensures forall k :: k in stale <==> k in ix && k != MARKER && k !in want
  {
    var indexed := SortedKeys(ix.Keys);
    stale := [];
    for i := 0 to |indexed|
      invariant forall k :: k in stale <==> k in indexed[..i] && k != MARKER && k !in want
    {
      assert indexed[..i + 1] == indexed[..i] + [indexed[i]];
      if indexed[i] != MARKER && indexed[i] !in want { stale := stale + [indexed[i]]; }
    }
    assert indexed[..|indexed|] == indexed;
  }

  method RemoveKeys<T>(ix: map<string, T>, stale: seq<string>) returns (r: map<string, T>)
    ensures forall k :: k in r <==> k in ix && k !in stale
    ensures forall k :: k in r ==> r[k] == ix[k]
  {
    r := ix;
    for i := 0 to |stale|
      invariant forall k :: k in r <==> k in ix && k !in stale[..i]
      invariant forall k :: k in r ==> r[k] == ix[k]
    {
      assert stale[..i + 1] == stale[..i] + [stale[i]];
      r := r - {stale[i]};
    }
    assert stale[..|stale|] == stale;
  }

  lemma WantedStep<T>(shape: Shape<T>, rows: map<string, T>, keys: seq<string>, i: nat)
    requires i < |keys| && forall k :: k in keys ==> k in rows
    ensures forall k :: k in keys[..i] || k in keys[..i + 1] ==> k in rows
    ensures Wanted(shape, rows, keys[..i + 1]) ==
              if shape.worthy(rows[keys[i]])
              then Wanted(shape, rows, keys[..i])[shape.keyOf(keys[i], rows[keys[i]]) := rows[keys[i]]]
              else Wanted(shape, rows, keys[..i])
  {
    assert keys[..i + 1][..i] == keys[..i];
  }

  lemma WantedNothing<T>(shape: Shape<T>, rows: map<string, T>)
    ensures Wanted(shape, rows, []) == map[]
  {
  }

  lemma OverlayStep<T>(ix: map<string, T>, w: map<string, T>, key: string, row: T)
    ensures (ix + w)[key := row] == ix + w[key := row]
  {
  }

  /** The adding pass: the index overlaid with the wanted entries. */
  method AddWorthy<T>(shape: Shape<T>, rows: map<string, T>, ix: map<string, T>)
    returns (r: map<string, T>, want: set<string>)
    ensures want == Wanted(shape, rows, SortedKeys(rows.Keys)).Keys
    ensures r == ix + Wanted(shape, rows, SortedKeys(rows.Keys))
  {
    hide SortedKeys, Wanted;
    var keys := SortedKeys(rows.Keys);
    ghost var added: map<string, T> := map[];
    assert keys[..0] == [];
    WantedNothing(shape, rows);
    want, r := {}, ix;
    assert ix + map[] == ix;
    for i := 0 to |keys|
      invariant forall k :: k in keys[..i] ==> k in rows
      invariant added == Wanted(shape, rows, keys[..i])
      invariant want == added.Keys && r == ix + added
    {
      WantedStep(shape, rows, keys, i);
      assert keys[i] in keys;
      var row := rows[keys[i]];
      if shape.worthy(row) {
        var key := shape.keyOf(keys[i], row);
        OverlayStep(ix, added, key, row);
        added := added[key := row];
        want := want + {key};
        r := r[key := row];
      }
    }
    assert keys[..|keys|] == keys;
  }

  /** rebuildIndex: one pass adds, one finds what is stale, one removes it. */
  method RebuildIndex<T>(shape: Shape<T>, rows: map<string, T>, ix: map<string, T>) returns (r: map<string, T>)
    ensures r == Rebuilt(shape, rows, ix)
  {
    hide SortedKeys, Wanted;
    var full, want := AddWorthy(shape, rows, ix);
    var stale := StaleKeys(full, want);
    r := RemoveKeys(full, stale);
    CutOverlay(ix, Wanted(shape, rows, SortedKeys(rows.Keys)), r);
  }

  /** The overlay cut down to the wanted keys and the marker is the wanted entries and the marker. */
  lemma CutOverlay<T>(ix: map<string, T>, wanted: map<string, T>, r: map<string, T>)
    requires forall k :: k in r <==> k in ix + wanted && (k == MARKER || k in wanted)
    requires forall k :: k in r ==> r[k] == (ix + wanted)[k]
    ensures r == if MARKER in ix && MARKER !in wanted then wanted[MARKER := ix[MARKER]] else wanted
  {
    var spec := if MARKER in ix && MARKER !in wanted then wanted[MARKER := ix[MARKER]] else wanted;
    assert forall k :: k in r <==> k in spec;
    assert forall k :: k in r ==> r[k] == spec[k];
  }

  lemma {:induction false} WantedExact<T>(shape: Shape<T>, rows: map<string, T>, keys: seq<string>)
    requires Keyed(shape, rows) && forall k :: k in keys ==> k in rows
    ensures MARKER !in Wanted(shape, rows, keys)
    ensures Sound(shape, rows, Wanted(shape, rows, keys))
    ensures forall i :: 0 <= i < |keys| && shape.worthy(rows[keys[i]]) ==>
              shape.keyOf(keys[i], rows[keys[i]]) in Wanted(shape, rows, keys)
    ensures Separated(shape, rows) ==> forall i :: 0 <= i < |keys| && shape.worthy(rows[keys[i]]) ==>
              shape.keyOf(keys[i], rows[keys[i]]) in Wanted(shape, rows, keys)
              && Wanted(shape, rows, keys)[shape.keyOf(keys[i], rows[keys[i]])] == rows[keys[i]]
  {
    if keys != [] {
      var front, last := keys[..|keys| - 1], keys[|keys| - 1];
      WantedExact(shape, rows, front);
      assert last in rows;
      forall i | 0 <= i < |keys| && i < |keys| - 1 ensures keys[i] == front[i] {}
    }
  }

  /** From any prior contents a rebuild is exact in both directions and keeps the marker apart;
      where rows may share a key, every key a worthy row carries gets one worthy representative. */
  lemma RebuildRestores<T>(shape: Shape<T>, rows: map<string, T>, ix: map<string, T>)
    requires Keyed(shape, rows)
    ensures Sound(shape, rows, Rebuilt(shape, rows, ix))
    ensures Represented(shape, rows, Rebuilt(shape, rows, ix))
    ensures Separated(shape, rows) ==> Complete(shape, rows, Rebuilt(shape, rows, ix))
    ensures MARKER in Rebuilt(shape, rows, ix) <==> MARKER in ix
    ensures MARKER in ix ==> Rebuilt(shape, rows, ix)[MARKER] == ix[MARKER]
  {
    var keys := SortedKeys(rows.Keys);
    WantedExact(shape, rows, keys);
    forall id | id in rows && shape.worthy(rows[id])
      ensures shape.keyOf(id, rows[id]) in Wanted(shape, rows, keys)
      ensures Separated(shape, rows) ==> Wanted(shape, rows, keys)[shape.keyOf(id, rows[id])] == rows[id]
    {
      assert id in keys;
      var i :| 0 <= i < |keys| && keys[i] == id;
    }
  }

  /** The marker's own value plays no part. */
  lemma MarkedSame<T>(shape: Shape<T>, rows: map<string, T>, ix: map<string, T>, value: T)
    requires Keyed(shape, rows)
    ensures Sound(shape, rows, ix) ==> Sound(shape, rows, ix[MARKER := value])
    ensures Complete(shape, rows, ix) ==> Complete(shape, rows, ix[MARKER := value])
    ensures Represented(shape, rows, ix) ==> Represented(shape, rows, ix[MARKER := value])
  {
  }
}
