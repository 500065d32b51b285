/** The session ledger and its list cache (pkg/session-ledger-store.go): writes in one transaction, each
    followed by an invalidation; reads served from a cache guarded by a generation. */
module Ledger {
  import opened Text
  import opened Lex

  /** A ledger row: its key and the rest of its encoded fields. */
  datatype Entry = Entry(sessionID: string, fields: map<string, string>)

  type Rows = map<string, Entry>

  /** The merge of a patch into a row, None when it is refused. */
  type Patch = Entry -> Option<Entry>

  /** SessionLedgerEntry.Validate, the merge and the encoder are the store's surroundings. */
  datatype Env = Env(valid: Entry -> bool, encode: seq<Entry> -> string)

  datatype Write = PostRow(entry: Entry) | PatchRow(id: string, patch: Patch) | ImportRows(entries: seq<Entry>)

  // ---- the writes ----

  function Imported(env: Env, rows: Rows, entries: seq<Entry>): Option<Rows>
    decreases |entries|
  {
    if entries == [] then Some(rows)
    else
      var e := entries[0];
      if !env.valid(e) then None
      else Imported(env, if e.sessionID in rows then rows else rows[e.sessionID := e], entries[1..])
  }

  /** What a write leaves, None when its transaction is rolled back. */
  function Written(env: Env, rows: Rows, w: Write): Option<Rows> {
    match w
    case PostRow(e) => if env.valid(e) then Some(rows[e.sessionID := e]) else None
    case PatchRow(id, patch) =>
      if id !in rows then Some(rows)
      else
        var next := patch(rows[id]);
        if next == None || !env.valid(next.value) then None else Some(rows[id := next.value])
    case ImportRows(entries) => Imported(env, rows, entries)
  }

  /** The first entry that names the key. */
  predicate FirstFor(entries: seq<Entry>, id: string, k: int) {
    0 <= k < |entries| && entries[k].sessionID == id && forall j :: 0 <= j < k ==> entries[j].sessionID != id
  }

  ghost predicate Names(entries: seq<Entry>, id: string) { exists k :: FirstFor(entries, id, k) }

  /** Import goes through exactly when every row is valid; it keeps every row that is there and adds, for
      each other key, the first row that names it. */
  lemma {:induction false} ImportMeaning(env: Env, rows: Rows, entries: seq<Entry>)
    ensures Imported(env, rows, entries).Some? <==> forall k :: 0 <= k < |entries| ==> env.valid(entries[k])
    ensures Imported(env, rows, entries).Some? ==>
              var after := Imported(env, rows, entries).value;
              && (forall id :: id in after <==> id in rows || Names(entries, id))
              && (forall id :: id in rows ==> after[id] == rows[id])
              && (forall id, k :: id !in rows && FirstFor(entries, id, k) ==> id in after && after[id] == entries[k])
    decreases |entries|
  {
    if entries != [] {
      var e, rest := entries[0], entries[1..];
      var next := if e.sessionID in rows then rows else rows[e.sessionID := e];
      ImportMeaning(env, next, rest);
      forall id ensures Names(entries, id) <==> e.sessionID == id || Names(rest, id) { FirstOrLater(entries, id); }
      if Imported(env, rows, entries).Some? {
        forall id, k | id !in rows && FirstFor(entries, id, k)
          ensures id in Imported(env, rows, entries).value && Imported(env, rows, entries).value[id] == entries[k] {
          if k > 0 { assert entries[0].sessionID != id; FirstShift(entries, id, k); assert id !in next; }
          else { assert id in next; }
        }
      }
    }
  }

  lemma FirstShift(entries: seq<Entry>, id: string, k: int)
    requires k > 0 && FirstFor(entries, id, k)
    ensures FirstFor(entries[1..], id, k - 1)
  {
    forall j | 0 <= j < k - 1 ensures entries[1..][j].sessionID != id { assert entries[j + 1].sessionID != id; }
  }

  lemma FirstOrLater(entries: seq<Entry>, id: string)
    requires entries != []
    ensures Names(entries, id) <==> entries[0].sessionID == id || Names(entries[1..], id)
  {
    if entries[0].sessionID == id { assert FirstFor(entries, id, 0); }
    else if Names(entries[1..], id) {
      var k :| FirstFor(entries[1..], id, k);
      forall j | 0 <= j < k + 1 ensures entries[j].sessionID != id {
        if j > 0 { assert entries[1..][j - 1].sessionID != id; }
      }
      assert FirstFor(entries, id, k + 1);
    } else if Names(entries, id) {
      var k :| FirstFor(entries, id, k);
      if k > 0 { FirstShift(entries, id, k); }
    }
  }

  /** A second import of the same rows adds nothing, whatever was written in between that keeps keys. */
  lemma ImportIdempotent(env: Env, rows: Rows, entries: seq<Entry>, later: Rows)
    requires Imported(env, rows, entries).Some? && Imported(env, rows, entries).value.Keys <= later.Keys
    ensures Imported(env, later, entries) == Some(later)
  {
    ImportMeaning(env, rows, entries);
    ImportMeaning(env, later, entries);
    var after := Imported(env, later, entries).value;
    assert after == later;
  }

  // ---- the lists ----

  function RowsAt(rows: Rows, keys: seq<string>): seq<Entry>
    requires forall k :: k in keys ==> k in rows
  {
    if keys == [] then []
    else
      assert forall k :: k in keys[..|keys| - 1] ==> k in keys;
      RowsAt(rows, keys[..|keys| - 1]) + [rows[keys[|keys| - 1]]]
  }

  /** Every row, in key order. */
  function Listing(rows: Rows): seq<Entry> { RowsAt(rows, SortedKeys(rows.Keys)) }

  lemma {:induction false} RowsAtPlaces(rows: Rows, keys: seq<string>)
    requires forall k :: k in keys ==> k in rows
    ensures |RowsAt(rows, keys)| == |keys| && forall i :: 0 <= i < |keys| ==> RowsAt(rows, keys)[i] == rows[keys[i]]
  {
    if keys != [] {
      assert forall k :: k in keys[..|keys| - 1] ==> k in keys;
      RowsAtPlaces(rows, keys[..|keys| - 1]);
    }
  }

  /** The list holds every stored row once, each at the place of its key in cursor order. */
  ghost predicate ListsRows(list: seq<Entry>, rows: Rows) {
    && |list| == |rows|
    && (forall i :: 0 <= i < |list| ==> SortedKeys(rows.Keys)[i] in rows && list[i] == rows[SortedKeys(rows.Keys)[i]])
    && (forall id :: id in rows ==> rows[id] in list)
  }

  lemma ListingIsRows(rows: Rows)
    ensures ListsRows(Listing(rows), rows)
  {
    hide SortedKeys, RowsAt;
    var keys := SortedKeys(rows.Keys);
    RowsAtPlaces(rows, keys);
    assert |keys| == |rows.Keys| == |rows|;
    forall i | 0 <= i < |keys| ensures keys[i] in rows { assert keys[i] in keys; }
    forall id | id in rows ensures rows[id] in Listing(rows) {
      assert id in keys;
      var i :| 0 <= i < |keys| && keys[i] == id;
      assert Listing(rows)[i] == rows[id];
    }
  }

  /** An empty listing is a nil slice, which the cache reads as nothing held. */
  function Held(entries: seq<Entry>): Option<seq<Entry>> { if entries == [] then None else Some(entries) }

  class LedgerStore {
    const env: Env
    var rows: Rows
    var gen: nat
    var body: Option<string>
    var entries: Option<seq<Entry>>

    constructor (env: Env)
      ensures Valid() && rows == map[] && this.env == env
    {
      this.env := env;
      rows, gen, body, entries := map[], 0, None, None;
    }

    /** What is cached is what the rows list. */
    predicate Valid()
      reads this
    {
      (entries.Some? ==> entries.value == Listing(rows)) && (body.Some? ==> body.value == env.encode(Listing(rows)))
    }

    method Invalidate()
      modifies this`gen, this`body, this`entries
      ensures gen == old(gen) + 1 && body == None && entries == None
    {
      gen, body, entries := gen + 1, None, None;
    }

    method Post(entry: Entry) returns (ok: bool)
      requires Valid()
      modifies this
      ensures Valid() && gen > old(gen) && ok == env.valid(entry)
      ensures rows == if ok then old(rows)[entry.sessionID := entry] else old(rows)
    {
      ok := env.valid(entry);
      if ok { rows := rows[entry.sessionID := entry]; }
      Invalidate();
    }

    /** found is false for an absent row, which is no error; a refused patch changes nothing. */
    method PatchEntry(id: string, patch: Patch) returns (merged: Option<Entry>, refused: bool)
      requires Valid()
      modifies this
      ensures Valid() && gen > old(gen)
      ensures refused == Written(env, old(rows), PatchRow(id, patch)).None?
      ensures rows == if refused then old(rows) else Written(env, old(rows), PatchRow(id, patch)).value
      ensures merged.Some? <==> id in old(rows) && !refused
      ensures merged.Some? ==> rows[id] == merged.value && patch(old(rows)[id]) == merged
    {
      merged, refused := None, false;
      if id in rows {
        var next := patch(rows[id]);
        if next == None || !env.valid(next.value) { refused := true; }
        else { rows, merged := rows[id := next.value], next; }
      }
      Invalidate();
    }

    /** Import: all rows or, when one is invalid, none; added counts the new keys. */
    method Import(incoming: seq<Entry>) returns (added: Option<nat>)
      requires Valid()
      modifies this
      ensures Valid() && gen > old(gen)
      ensures added.Some? <==> Imported(env, old(rows), incoming).Some?
      ensures rows == if added.Some? then Imported(env, old(rows), incoming).value else old(rows)
      ensures added.Some? ==> |rows.Keys| == |old(rows).Keys| + added.value
    {
      var tx := rows;
      var count: nat := 0;
      for i := 0 to |incoming|
        invariant rows == old(rows) && gen == old(gen)
        invariant Imported(env, tx, incoming[i..]) == Imported(env, old(rows), incoming)
        invariant |tx.Keys| == |old(rows).Keys| + count
      {
        var entry := incoming[i];
        assert incoming[i..][1..] == incoming[i + 1..];
        if !env.valid(entry) {
          Invalidate();
          return None;
        }
        if entry.sessionID in tx { continue; }
        assert (tx[entry.sessionID := entry]).Keys == tx.Keys + {entry.sessionID};
        tx, count := tx[entry.sessionID := entry], count + 1;
      }
      rows := tx;
      Invalidate();
      return Some(count);
    }

    method List() returns (list: seq<Entry>)
      requires Valid()
      modifies this`entries
      ensures Valid() && list == Listing(rows) && ListsRows(list, rows)
    {
      hide ListsRows, Listing;
      ListingIsRows(rows);
      if entries.Some? { return entries.value; }
      list := Listing(rows);
      entries := Held(list);
    }

    method ListJSON() returns (text: string)
      requires Valid()
      modifies this`entries, this`body
      ensures Valid() && exists list :: ListsRows(list, rows) && text == env.encode(list)
    {
      hide ListsRows, Listing;
      ListingIsRows(rows);
      if body.Some? { return body.value; }
      var list := List();
      text := env.encode(list);
      body := Some(text);
    }
  }
}
