/** Uniqueness across sessions: any interleaving of inserts, flushes and loads of earlier
    flushes (storage/table.go, bloom/bloom.go). */
module Lineage {
  import opened Wrappers
  import opened Words
  import opened Types
  import opened Bloom
  import opened SegmentFormat
  import opened Table

  /** A flushed file, with the keys that had been accepted on the way to it and the file its
      session was loaded from. */
  datatype Snapshot = Snapshot(data: Bytes, keys: seq<Bytes>, base: Option<nat>)

  /** The running table, the keys accepted on the way to it through every session before it,
      the files flushed so far, and the file the running session was loaded from. */
  datatype World = World(table: TableState, keys: seq<Bytes>, files: seq<Snapshot>, base: Option<nat>)

  datatype Event =
    | InsertEvent(row: Row)
    | FlushEvent
    | LoadEvent(file: nat)

  /** One event. A flush that fails, or whose file is too large for a byte slice, leaves no
      file; a load that fails leaves the running table. Loading an older file goes back to its
      keys: rows inserted after that flush are not part of what is loaded. */
  ghost function Step(h: Hash, w: World, e: Event): World
    requires ValidState(w.table)
  {
    match e
    case InsertEvent(row) =>
      var (after, outcome) := InsertRow(h, w.table, row);
      var keys := if outcome.Accepted? then w.keys + [RowKey(w.table.schema, row).value] else w.keys;
      w.(table := after, keys := keys)
    case FlushEvent =>
      (match FlushBytes(w.table)
       case Err(_) => w
       case Ok(data) => if |data| < TWO_63 then w.(files := w.files + [Snapshot(data, w.keys, w.base)]) else w)
    case LoadEvent(i) =>
      if i >= |w.files| then w
      else
        match LoadState(w.files[i].data)
        case Err(_) => w
        case Ok(table) => World(table, w.files[i].keys, w.files, Some(i))
  }

  // ---- The invariant ----

  ghost predicate Distinct(keys: seq<Bytes>) {
    forall i, j :: 0 <= i < j < |keys| ==> keys[i] != keys[j]
  }

  ghost predicate AllFound(h: Hash, f: FilterState, keys: seq<Bytes>)
    requires ValidFilter(f)
  {
    forall i :: 0 <= i < |keys| ==> ContainsKey(h, f, keys[i])
  }

  /** The filter remembers every key of the lineage, and no key is there twice. */
  ghost predicate Guarded(h: Hash, table: TableState, keys: seq<Bytes>) {
    ValidState(table) && table.bloom.Some? && AllFound(h, table.bloom.value, keys) && Distinct(keys)
  }

  /** Whatever a file loads as has the schema and is guarded for the keys of its lineage. */
  ghost predicate Safe(h: Hash, schema: Schema, s: Snapshot) {
    LoadState(s.data).Ok? ==>
      LoadState(s.data).value.schema == schema && Guarded(h, LoadState(s.data).value, s.keys)
  }

  ghost predicate Inv(h: Hash, w: World) {
    Guarded(h, w.table, w.keys) && forall i :: 0 <= i < |w.files| ==> Safe(h, w.table.schema, w.files[i])
  }

  lemma InsertKeepsGuard(h: Hash, w: World, row: Row)
    requires Guarded(h, w.table, w.keys)
    ensures var w' := Step(h, w, InsertEvent(row)); Guarded(h, w'.table, w'.keys)
  {
    var w' := Step(h, w, InsertEvent(row));
    InsertExact(h, w.table, row);
    InsertKeepsValid(h, w.table, row);
    hide ContainsKey, AddKey, ValidState, InsertRow;
    if InsertRow(h, w.table, row).1.Accepted? {
      var f, key := w.table.bloom.value, RowKey(w.table.schema, row).value;
      forall i | 0 <= i < |w'.keys| ensures ContainsKey(h, AddKey(h, f, key), w'.keys[i]) {
        AddKeepsFound(h, f, key, w'.keys[i]);
      }
      assert forall i :: 0 <= i < |w.keys| ==> w.keys[i] != key;
    }
  }

  lemma FlushedIsSafe(h: Hash, table: TableState, keys: seq<Bytes>)
    requires Guarded(h, table, keys) && FlushBytes(table).Ok? && |FlushBytes(table).value| < TWO_63
    ensures forall base :: Safe(h, table.schema, Snapshot(FlushBytes(table).value, keys, base))
  {
    hide FlushBytes, LoadState, AllFound, Distinct, ValidFilter, ValidSchema;
    LoadOfFlush(table);
  }

  lemma StepKeepsInv(h: Hash, w: World, e: Event)
    requires Inv(h, w)
    ensures Inv(h, Step(h, w, e)) && Step(h, w, e).table.schema == w.table.schema
  {
    match e
    case InsertEvent(row) =>
      hide InsertRow, Safe;
      InsertKeepsValid(h, w.table, row);
      InsertKeepsGuard(h, w, row);
    case FlushEvent =>
      hide Safe, FlushBytes;
      if FlushBytes(w.table).Ok? && |FlushBytes(w.table).value| < TWO_63 {
        FlushedIsSafe(h, w.table, w.keys);
      }
    case LoadEvent(i) =>
      hide LoadState, Guarded;
      if i < |w.files| { assert Safe(h, w.table.schema, w.files[i]); }
  }

  // ---- Runs ----

  ghost function Run(h: Hash, w: World, events: seq<Event>): (r: World)
    requires Inv(h, w)
    ensures Inv(h, r) && r.table.schema == w.table.schema
  {
    if events == [] then w
    else
      var before := Run(h, w, events[..|events| - 1]);
      StepKeepsInv(h, before, events[|events| - 1]);
      Step(h, before, events[|events| - 1])
  }

  /** A table just created with a filter. */
  ghost function Created(schema: Schema, m: u64, k: byte): (w: World)
    requires ValidSchema(schema) && 1 <= m <= MAX_M && MIN_K <= k <= MAX_K
    ensures forall h: Hash :: Inv(h, w)
  {
    World(TableState(schema, [], Some(Fresh(m, k)), 0, 0), [], [], None)
  }

  /** Uniqueness over whole runs: after any events on a table created with a filter, the keys
      accepted in the lineage of the running table are pairwise distinct, and inserting a row
      with any of them is refused and changes nothing but the rejection count. */
  lemma NoKeyTwice(h: Hash, schema: Schema, m: u64, k: byte, events: seq<Event>, row: Row)
    requires ValidSchema(schema) && 1 <= m <= MAX_M && MIN_K <= k <= MAX_K
    ensures var w := Run(h, Created(schema, m, k), events);
      && Distinct(w.keys)
      && (RowKey(schema, row).Some? && RowKey(schema, row).value in w.keys ==>
            InsertRow(h, w.table, row) == Reject(w.table, DuplicateKey))
  {
  }

  // ---- Persistence: flushed keys survive every later session ----

  /** The events load no file flushed before file number from. */
  ghost predicate LoadsFrom(events: seq<Event>, from: nat) {
    forall i :: 0 <= i < |events| && events[i].LoadEvent? ==> events[i].file >= from
  }

  ghost predicate Remembers(w: World, keys: seq<Bytes>, from: nat) {
    keys <= w.keys && forall i :: from <= i < |w.files| ==> keys <= w.files[i].keys
  }

  lemma StepRemembers(h: Hash, w: World, e: Event, keys: seq<Bytes>, from: nat)
    requires Inv(h, w) && Remembers(w, keys, from)
    requires e.LoadEvent? ==> e.file >= from
    ensures Remembers(Step(h, w, e), keys, from)
  {
    hide Inv, InsertRow, FlushBytes, LoadState;
  }

  lemma {:induction false} RunRemembers(h: Hash, w: World, events: seq<Event>, keys: seq<Bytes>, from: nat)
    requires Inv(h, w) && Remembers(w, keys, from) && LoadsFrom(events, from)
    ensures Remembers(Run(h, w, events), keys, from)
  {
    if events != [] {
      var init := events[..|events| - 1];
      RunRemembers(h, w, init, keys, from);
      hide Inv, Remembers, Step;
      StepRemembers(h, Run(h, w, init), events[|events| - 1], keys, from);
    }
  }

  /** A key accepted before a flush is refused by every insert of every later session that
      descends from that flush or from a later one. */
  lemma FlushedKeysStayRefused(h: Hash, w: World, flushed: World, events: seq<Event>, row: Row)
    requires Inv(h, w) && flushed == Step(h, w, FlushEvent) && Inv(h, flushed)
    requires FlushBytes(w.table).Ok? && |FlushBytes(w.table).value| < TWO_63
    requires LoadsFrom(events, |w.files|)
    ensures var later := Run(h, flushed, events);
      && w.keys <= later.keys
      && (RowKey(w.table.schema, row).Some? && RowKey(w.table.schema, row).value in w.keys ==>
            InsertRow(h, later.table, row) == Reject(later.table, DuplicateKey))
  {
    assert Remembers(flushed, w.keys, |w.files|);
    RunRemembers(h, flushed, events, w.keys, |w.files|);
    var later := Run(h, flushed, events);
    hide Run, ContainsKey, ValidFilter, ValidSchema, Step, FlushBytes;
    var key := RowKey(later.table.schema, row);
    if key.Some? && key.value in w.keys {
      var i :| 0 <= i < |w.keys| && w.keys[i] == key.value;
      assert later.keys[i] == key.value;
      assert ContainsKey(h, later.table.bloom.value, later.keys[i]);
    }
  }
}
