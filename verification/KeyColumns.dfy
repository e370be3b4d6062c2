/** Uniqueness as a reader of the files sees it: the key columns of a file and of the files its
    sessions were loaded from hold no value twice (storage/table.go, storage/segment.go). */
module KeyColumns {
  import opened Wrappers
  import opened Words
  import opened Types
  import opened Encoding
  import opened Bloom
  import opened SegmentFormat
  import Rle
  import opened Table
  import opened Lineage
  import opened EndToEnd

  /** The key column as it is read from a file. */
  ghost function KeyColumn(s: Schema, data: Bytes): Result<seq<Value>, SegmentError> {
    match ParseImage(data)
    case Err(e) => Err(e)
    case Ok(img) => DecodeColumn(img.body, s.pk)
  }

  function KeyBytes(s: Schema, vs: seq<Value>): (keys: seq<Bytes>)
    requires ValidSchema(s) && AllOfType(vs, PkType(s))
    ensures |keys| == |vs| && forall i :: 0 <= i < |vs| ==> Some(keys[i]) == PkBytes(vs[i], PkType(s))
  {
    seq(|vs|, i requires 0 <= i < |vs| => PkBytes(vs[i], PkType(s)).value)
  }

  ghost predicate NoValueTwice(vs: seq<Value>) {
    forall i, j :: 0 <= i < j < |vs| ==> vs[i] != vs[j]
  }

  lemma DistinctKeysDistinctValues(s: Schema, vs: seq<Value>)
    requires ValidSchema(s) && AllOfType(vs, PkType(s)) && Distinct(KeyBytes(s, vs))
    ensures NoValueTwice(vs)
  {
    var keys := KeyBytes(s, vs);
    hide ValidSchema, AllOfType, KeyBytes;
    forall i, j | 0 <= i < j < |vs| ensures vs[i] != vs[j] {
      assert keys[i] != keys[j];
    }
  }

  lemma KeyBytesConcat(s: Schema, a: seq<Value>, b: seq<Value>)
    requires ValidSchema(s) && AllOfType(a, PkType(s)) && AllOfType(b, PkType(s))
    ensures AllOfType(a + b, PkType(s)) && KeyBytes(s, a + b) == KeyBytes(s, a) + KeyBytes(s, b)
  {
    hide ValidSchema, HasType;
  }

  /** Within a column a value is among others iff its key is among theirs. */
  lemma KeyAmongKeys(s: Schema, v: Value, vs: seq<Value>)
    requires ValidSchema(s) && HasType(v, PkType(s)) && AllOfType(vs, PkType(s))
    ensures v in vs <==> PkBytes(v, PkType(s)).value in KeyBytes(s, vs)
  {
    var keys := KeyBytes(s, vs);
    hide ValidSchema, KeyBytes, PkBytes;
    if v in vs {
      var i :| 0 <= i < |vs| && vs[i] == v;
      assert keys[i] in keys;
    }
    if PkBytes(v, PkType(s)).value in keys {
      var i :| 0 <= i < |keys| && keys[i] == PkBytes(v, PkType(s)).value;
      PkBytesInjective(v, vs[i], PkType(s));
    }
  }

  // ---- The key column of one table and its file ----

  function OwnColumn(st: TableState): (vs: seq<Value>)
    requires ValidState(st)
    ensures |vs| == |st.rows| && AllOfType(vs, PkType(st.schema))
  {
    OwnColumnTyped(st);
    ColumnOf(st.rows, PKIndex(st.schema))
  }

  lemma OwnColumnTyped(st: TableState)
    requires ValidState(st)
    ensures forall r :: 0 <= r < |st.rows| ==> |st.rows[r]| > PKIndex(st.schema)
    ensures AllOfType(ColumnOf(st.rows, PKIndex(st.schema)), PkType(st.schema))
  {
    var i := PKIndex(st.schema);
    forall r | 0 <= r < |st.rows| ensures |st.rows[r]| > i && HasType(st.rows[r][i], PkType(st.schema)) {
      assert RowFits(st.schema.columns, st.rows[r]);
    }
    hide HasType, ValidFilter;
  }

  lemma OwnKeys(st: TableState)
    requires ValidState(st)
    ensures KeyBytes(st.schema, OwnColumn(st)) == KeysOf(st.schema, st.rows)
  {
    var vs := OwnColumn(st);
    forall r | 0 <= r < |st.rows| ensures Some(KeysOf(st.schema, st.rows)[r]) == PkBytes(vs[r], PkType(st.schema)) {
      assert RowFits(st.schema.columns, st.rows[r]);
      hide PkBytes;
    }
    hide PkBytes, ValidSchema, ValidFilter, RowFits;
  }

  /** A key column without repetitions takes at least a byte a row, so a file that can be held
      has fewer than 2^63 rows. */
  lemma RowsFitTheFile(st: TableState)
    requires ValidState(st) && NoValueTwice(OwnColumn(st))
    requires FlushBytes(st).Ok? && |FlushBytes(st).value| < TWO_63
    ensures Holdable(st)
  {
    var columns, i := st.schema.columns, PKIndex(st.schema);
    var vs := OwnColumn(st);
    assert forall r :: 0 <= r < |st.rows| ==> RowFits(columns, st.rows[r]);
    var img := ImageOf(columns, st.rows, st.schema.pk, st.bloom);
    assert Wellformed(img) && FlushBytes(st).value == Serialize(img);
    hide Serialize, ValidFilter, RowFits, ValidSchema;
    PartsAreSmall(img);
    assert SmallEntry(img.body.entries[i]) && img.body.entries[i].payload == Rle.Encode(vs);
    assert Rle.NoAdjacentEqual(vs);
    Rle.SizeBound(vs);
  }

  lemma FlushedKeyColumn(st: TableState)
    requires ValidState(st) && Holdable(st)
    ensures KeyColumn(st.schema, FlushBytes(st).value) == Ok(OwnColumn(st))
  {
    FlushedHoldsRows(st);
    var i := PKIndex(st.schema);
    assert st.schema.columns[i].name == st.schema.pk;
    hide ParseImage, DecodeColumn, FlushBytes, ValidFilter;
  }

  // ---- The files of a run ----

  ghost function BaseKeys(files: seq<Snapshot>, base: Option<nat>): seq<Bytes> {
    match base
    case None => []
    case Some(i) => if i < |files| then files[i].keys else []
  }

  /** The tally of file i is that of the file before it and the keys of its own key column. */
  ghost predicate FileTracked(s: Schema, files: seq<Snapshot>, i: nat)
    requires ValidSchema(s) && i < |files|
  {
    var f := files[i];
    && (f.base.Some? ==> f.base.value < i)
    && KeyColumn(s, f.data).Ok? && AllOfType(KeyColumn(s, f.data).value, PkType(s))
    && f.keys == BaseKeys(files, f.base) + KeyBytes(s, KeyColumn(s, f.data).value)
    && Distinct(f.keys)
  }

  ghost predicate Tracked(h: Hash, w: World) {
    && Inv(h, w)
    && (w.base.Some? ==> w.base.value < |w.files|)
    && w.keys == BaseKeys(w.files, w.base) + KeysOf(w.table.schema, w.table.rows)
    && forall i :: 0 <= i < |w.files| ==> FileTracked(w.table.schema, w.files, i)
  }

  /** The key values in file i and in the files its sessions were loaded from, oldest first. */
  ghost function ChainColumn(s: Schema, files: seq<Snapshot>, base: Option<nat>): seq<Value>
    decreases if base.Some? then base.value + 1 else 0
  {
    match base
    case None => []
    case Some(i) =>
      if i < |files| && KeyColumn(s, files[i].data).Ok? && (files[i].base.Some? ==> files[i].base.value < i) then
        ChainColumn(s, files, files[i].base) + KeyColumn(s, files[i].data).value
      else []
  }

  lemma {:induction false} ChainIsKeys(s: Schema, files: seq<Snapshot>, base: Option<nat>)
    requires ValidSchema(s) && forall i :: 0 <= i < |files| ==> FileTracked(s, files, i)
    requires base.Some? ==> base.value < |files|
    ensures AllOfType(ChainColumn(s, files, base), PkType(s))
    ensures KeyBytes(s, ChainColumn(s, files, base)) == BaseKeys(files, base)
    decreases if base.Some? then base.value + 1 else 0
  {
    hide ValidSchema, KeyColumn, KeyBytes, Distinct, AllOfType;
    if base.Some? {
      var f := files[base.value];
      assert FileTracked(s, files, base.value);
      ChainIsKeys(s, files, f.base);
      KeyBytesConcat(s, ChainColumn(s, files, f.base), KeyColumn(s, f.data).value);
    } else {
      NoKeys(s);
    }
  }

  lemma NoKeys(s: Schema)
    requires ValidSchema(s)
    ensures AllOfType([], PkType(s)) && KeyBytes(s, []) == []
  {
  }

  // ---- Every step keeps track ----

  lemma FilesGrow(s: Schema, files: seq<Snapshot>, f: Snapshot, i: nat)
    requires ValidSchema(s) && i < |files| && FileTracked(s, files, i)
    ensures FileTracked(s, files + [f], i)
  {
    hide ValidSchema, KeyColumn, KeyBytes, Distinct, AllOfType;
  }

  lemma FlushTracked(h: Hash, w: World)
    requires Tracked(h, w) && FlushBytes(w.table).Ok? && |FlushBytes(w.table).value| < TWO_63
    ensures FileTracked(w.table.schema, w.files + [Snapshot(FlushBytes(w.table).value, w.keys, w.base)], |w.files|)
  {
    var own := OwnColumn(w.table);
    var before := BaseKeys(w.files, w.base);
    OwnKeys(w.table);
    hide FlushBytes, ValidState, ValidSchema, OwnColumn, KeysOf, KeyBytes, FileTracked, KeyColumn;
    DistinctTail(before, KeyBytes(w.table.schema, own));
    DistinctKeysDistinctValues(w.table.schema, own);
    RowsFitTheFile(w.table);
    FlushedKeyColumn(w.table);
    hide Holdable, Inv, Tracked;
    TrackedFile(w.table.schema, w.files, Snapshot(FlushBytes(w.table).value, w.keys, w.base), own);
  }

  lemma DistinctTail(a: seq<Bytes>, b: seq<Bytes>)
    requires Distinct(a + b)
    ensures Distinct(b)
  {
    var all := a + b;
    forall i, j | 0 <= i < j < |b| ensures b[i] != b[j] {
      assert all[|a| + i] != all[|a| + j];
    }
  }

  lemma TrackedFile(s: Schema, files: seq<Snapshot>, f: Snapshot, own: seq<Value>)
    requires ValidSchema(s) && AllOfType(own, PkType(s)) && KeyColumn(s, f.data) == Ok(own)
    requires f.base.Some? ==> f.base.value < |files|
    requires f.keys == BaseKeys(files, f.base) + KeyBytes(s, own) && Distinct(f.keys)
    ensures FileTracked(s, files + [f], |files|)
  {
    hide ValidSchema, KeyColumn, KeyBytes, Distinct, AllOfType;
  }

  lemma StepKeepsTrack(h: Hash, w: World, e: Event)
    requires Tracked(h, w)
    ensures Tracked(h, Step(h, w, e)) && Step(h, w, e).table.schema == w.table.schema
  {
    StepKeepsInv(h, w, e);
    hide Inv, FileTracked, ValidSchema, FlushBytes, InsertRow;
    match e
    case InsertEvent(row) => InsertTracked(h, w, row);
    case FlushEvent => FlushKeepsTrack(h, w);
    case LoadEvent(i) =>
      hide ParseImage;
      if i < |w.files| { ConcatNil(w.files[i].keys); }
  }

  lemma FlushKeepsTrack(h: Hash, w: World)
    requires Tracked(h, w) && Inv(h, Step(h, w, FlushEvent))
    ensures Tracked(h, Step(h, w, FlushEvent))
  {
    assert ValidState(w.table);
    hide Inv, FileTracked, ValidSchema, FlushBytes;
    if FlushBytes(w.table).Ok? && |FlushBytes(w.table).value| < TWO_63 {
      FlushTracked(h, w);
      var f := Snapshot(FlushBytes(w.table).value, w.keys, w.base);
      forall i | 0 <= i < |w.files| ensures FileTracked(w.table.schema, w.files + [f], i) {
        FilesGrow(w.table.schema, w.files, f, i);
      }
    }
  }

  lemma InsertTracked(h: Hash, w: World, row: Row)
    requires Tracked(h, w) && Inv(h, Step(h, w, InsertEvent(row)))
    ensures Step(h, w, InsertEvent(row)).table.schema == w.table.schema
    ensures Tracked(h, Step(h, w, InsertEvent(row)))
  {
    InsertKeepsValid(h, w.table, row);
    InsertExact(h, w.table, row);
    hide InsertRow, Inv, FileTracked, ValidSchema, ContainsKey, AddKey, ValidFilter;
    if InsertRow(h, w.table, row).1.Accepted? {
      var s, rows := w.table.schema, w.table.rows;
      KeysOfAppend(s, rows, row);
      ConcatAssoc(BaseKeys(w.files, w.base), KeysOf(s, rows), [RowKey(s, row).value]);
    }
  }

  lemma KeysOfAppend(s: Schema, rows: seq<Row>, row: Row)
    requires ValidSchema(s) && AllRowsFit(s.columns, rows) && RowFits(s.columns, row)
    ensures AllRowsFit(s.columns, rows + [row])
    ensures KeysOf(s, rows + [row]) == KeysOf(s, rows) + [RowKey(s, row).value]
  {
    hide ValidSchema, RowFits;
  }

  lemma {:induction false} RunKeepsTrack(h: Hash, w: World, events: seq<Event>)
    requires Tracked(h, w)
    ensures Tracked(h, Run(h, w, events))
  {
    assert Inv(h, w);
    hide Tracked, Step, Inv;
    if events != [] {
      RunKeepsTrack(h, w, events[..|events| - 1]);
      StepKeepsTrack(h, Run(h, w, events[..|events| - 1]), events[|events| - 1]);
    }
  }

  lemma CreatedTracked(h: Hash, schema: Schema, m: u64, k: byte)
    requires ValidSchema(schema) && 1 <= m <= MAX_M && MIN_K <= k <= MAX_K
    ensures Tracked(h, Created(schema, m, k))
  {
    hide ValidSchema, Inv;
  }

  // ---- What a reader sees ----

  /** After any run on a created table, the key column of every file reads back, and across the
      file and the files its sessions were loaded from no key value occurs twice. */
  lemma FilesHoldNoKeyTwice(h: Hash, schema: Schema, m: u64, k: byte, events: seq<Event>, i: nat)
    requires ValidSchema(schema) && 1 <= m <= MAX_M && MIN_K <= k <= MAX_K
    requires i < |Run(h, Created(schema, m, k), events).files|
    ensures var files := Run(h, Created(schema, m, k), events).files;
      && KeyColumn(schema, files[i].data).Ok?
      && (files[i].base.Some? ==> files[i].base.value < i)
      && ChainColumn(schema, files, Some(i)) == ChainColumn(schema, files, files[i].base) + KeyColumn(schema, files[i].data).value
      && NoValueTwice(ChainColumn(schema, files, Some(i)))
  {
    var w := Run(h, Created(schema, m, k), events);
    CreatedTracked(h, schema, m, k);
    hide ValidSchema, Run, Created, Inv, KeyColumn, KeyBytes;
    RunKeepsTrack(h, Created(schema, m, k), events);
    assert FileTracked(schema, w.files, i);
    ChainIsKeys(schema, w.files, Some(i));
    hide Distinct;
    DistinctKeysDistinctValues(schema, ChainColumn(schema, w.files, Some(i)));
  }

  /** The key values of the files the running session descends from, then its own. */
  ghost function SessionColumn(w: World): seq<Value>
    requires ValidState(w.table)
  {
    ChainColumn(w.table.schema, w.files, w.base) + OwnColumn(w.table)
  }

  lemma SessionIsKeys(h: Hash, w: World)
    requires Tracked(h, w)
    ensures AllOfType(SessionColumn(w), PkType(w.table.schema))
    ensures KeyBytes(w.table.schema, SessionColumn(w)) == w.keys
  {
    assert ValidState(w.table);
    hide Inv, KeyBytes, ChainColumn, FileTracked, KeysOf, AllOfType, ValidState;
    ChainIsKeys(w.table.schema, w.files, w.base);
    OwnKeys(w.table);
    KeyBytesConcat(w.table.schema, ChainColumn(w.table.schema, w.files, w.base), OwnColumn(w.table));
  }

  /** After any run, inserting a row whose key value is in the session's own rows or anywhere in
      the files it descends from is refused as a duplicate. */
  lemma SeenValuesAreRefused(h: Hash, schema: Schema, m: u64, k: byte, events: seq<Event>, row: Row)
    requires ValidSchema(schema) && 1 <= m <= MAX_M && MIN_K <= k <= MAX_K
    requires |row| == |schema.columns|
    ensures var w := Run(h, Created(schema, m, k), events);
      && NoValueTwice(SessionColumn(w))
      && (row[PKIndex(schema)] in SessionColumn(w) ==> InsertRow(h, w.table, row) == Reject(w.table, DuplicateKey))
  {
    var w := Run(h, Created(schema, m, k), events);
    CreatedTracked(h, schema, m, k);
    NoKeyTwice(h, schema, m, k, events, row);
    hide ValidSchema, Run, Created, Inv, KeyBytes, InsertRow, Tracked, SessionColumn, PkBytes, Distinct;
    RunKeepsTrack(h, Created(schema, m, k), events);
    SessionIsKeys(h, w);
    DistinctKeysDistinctValues(schema, SessionColumn(w));
    if row[PKIndex(schema)] in SessionColumn(w) {
      KeyAmongKeys(schema, row[PKIndex(schema)], SessionColumn(w));
    }
  }
}
