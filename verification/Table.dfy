/** The write surface: a schema, a buffer and the filter that guards it (storage/table.go). */
module Table {
  import opened Wrappers
  import opened Words
  import opened Types
  import opened Bloom
  import opened Buffer
  import opened SegmentFormat
  import opened SegmentStore

  datatype Reason = WrongLength | BadKey | DuplicateKey | BadRow

  datatype Outcome = Accepted | Rejected(reason: Reason)

  datatype TableError =
    | SchemaInvalid
    | BloomInvalid
    | Incompatible
    | Unreadable(error: SegmentError)

  /** TableOptions, with the outcome of the Bloom sizing formulas in place of their inputs. */
  datatype TableOptions = BloomDisabled | BloomSize(m: u64, k: byte) | BloomOutOfRange

  /** What a table holds: the buffered rows, the filter if there is one, the two counters. */
  datatype TableState = TableState(schema: Schema, rows: seq<Row>, bloom: Option<FilterState>, accepted: u64, rejected: u64)

  ghost predicate ValidState(st: TableState) {
    && ValidSchema(st.schema)
    && AllRowsFit(st.schema.columns, st.rows)
    && (st.bloom.Some? ==> ValidFilter(st.bloom.value))
  }

  // ---- Keys ----

  /** The bytes a primary key is hashed by, or None if the value is not of the key's type. */
  function PkBytes(v: Value, t: ColumnType): (r: Option<Bytes>)
    ensures r.Some? <==> HasType(v, t)
  {
    match t
    case Int64 => if v.Int? then Some(LE64(ToU64(v.i))) else None
    case Float64 => if v.Float? then Some(LE64(v.bits)) else None
    case String => if v.Str? then Some(v.s) else None
    case OtherType(_) => None
  }

  /** Within a column, equal key bytes mean the same value, bit for bit. */
  lemma PkBytesInjective(a: Value, b: Value, t: ColumnType)
    requires HasType(a, t) && HasType(b, t) && PkBytes(a, t) == PkBytes(b, t)
    ensures a == b
  {
    match t
    case Int64 => LE64Injective(ToU64(a.i), ToU64(b.i));
    case Float64 => LE64Injective(a.bits, b.bits);
    case String =>
  }

  function PkType(s: Schema): ColumnType
    requires ValidSchema(s)
  {
    s.columns[PKIndex(s)].ty
  }

  function RowKey(s: Schema, row: Row): (r: Option<Bytes>)
    requires ValidSchema(s)
    ensures RowFits(s.columns, row) ==> r.Some?
  {
    if |row| != |s.columns| then None else PkBytes(row[PKIndex(s)], PkType(s))
  }

  // ---- Insert, as a step between states ----

  function Reject(st: TableState, reason: Reason): (TableState, Outcome) {
    (st.(rejected := (st.rejected + 1) % TWO_64), Rejected(reason))
  }

  function Accept(st: TableState, row: Row, bloom: Option<FilterState>): (TableState, Outcome) {
    (st.(rows := st.rows + [row], bloom := bloom, accepted := (st.accepted + 1) % TWO_64), Accepted)
  }

  /** The checks of Insert in their order: length, key type, filter, the other values. */
  function InsertRow(h: Hash, st: TableState, row: Row): (r: (TableState, Outcome))
    requires ValidState(st)
  {
    if |row| != |st.schema.columns| then Reject(st, WrongLength)
    else
      match st.bloom
      case None => if RowFits(st.schema.columns, row) then Accept(st, row, None) else Reject(st, BadRow)
      case Some(f) =>
        match RowKey(st.schema, row)
        case None => Reject(st, BadKey)
        case Some(key) =>
          if ContainsKey(h, f, key) then Reject(st, DuplicateKey)
          else if RowFits(st.schema.columns, row) then Accept(st, row, Some(AddKey(h, f, key)))
          else Reject(st, BadRow)
  }

  lemma InsertKeepsValid(h: Hash, st: TableState, row: Row)
    requires ValidState(st)
    ensures ValidState(InsertRow(h, st, row).0)
    ensures InsertRow(h, st, row).0.schema == st.schema
    ensures InsertRow(h, st, row).0.bloom.Some? <==> st.bloom.Some?
  {
    hide ContainsKey, AddKey, RowKey, ValidSchema, RowFits, ValidFilter;
  }

  /** A row is accepted iff it fits the schema and its key is not in the filter; an accepted
      row is appended and its key added; a rejected one changes neither rows nor filter. */
  lemma InsertExact(h: Hash, st: TableState, row: Row)
    requires ValidState(st)
    ensures var (after, outcome) := InsertRow(h, st, row);
      && (outcome.Accepted? <==>
            RowFits(st.schema.columns, row)
            && (st.bloom.Some? ==> !ContainsKey(h, st.bloom.value, RowKey(st.schema, row).value)))
      && (outcome.Accepted? ==> after.rows == st.rows + [row] && after.rejected == st.rejected)
      && (outcome.Accepted? && st.bloom.Some? ==>
            after.bloom == Some(AddKey(h, st.bloom.value, RowKey(st.schema, row).value)))
      && (outcome.Rejected? ==> after == st.(rejected := (st.rejected + 1) % TWO_64))
  {
  }

  /** The reason of a rejection is that of the first check that fails: length, then with a
      filter the key's type and the filter's answer, then the other values. */
  lemma ReasonExact(h: Hash, st: TableState, row: Row)
    requires ValidState(st)
    ensures var n, k := |st.schema.columns|, PKIndex(st.schema);
      var outcome := InsertRow(h, st, row).1;
      && (outcome == Rejected(WrongLength) <==> |row| != n)
      && (outcome == Rejected(BadKey) <==> |row| == n && st.bloom.Some? && !HasType(row[k], st.schema.columns[k].ty))
      && (outcome == Rejected(DuplicateKey) <==>
            |row| == n && st.bloom.Some? && HasType(row[k], st.schema.columns[k].ty)
            && ContainsKey(h, st.bloom.value, PkBytes(row[k], st.schema.columns[k].ty).value))
      && (outcome == Rejected(BadRow) <==>
            && |row| == n && (exists i :: 0 <= i < n && !HasType(row[i], st.schema.columns[i].ty))
            && (st.bloom.Some? ==>
                  HasType(row[k], st.schema.columns[k].ty)
                  && !ContainsKey(h, st.bloom.value, PkBytes(row[k], st.schema.columns[k].ty).value)))
  {
    hide ContainsKey, AddKey, PKIndex, HasType;
  }

  /** The key bytes: eight for a number, lowest first, of an integer's two's complement or a
      float's pattern; a string is its own key. */
  lemma PkBytesExactly(v: Value, t: ColumnType)
    requires HasType(v, t)
    ensures var b := PkBytes(v, t).value;
      && (v.Int? ==> |b| == 8 && FromLE64(b) == v.i % 0x1_0000_0000_0000_0000)
      && (v.Float? ==> |b| == 8 && FromLE64(b) == v.bits)
      && (v.Str? ==> b == v.s)
  {
    if v.Int? {
      LE64RoundTrip(ToU64(v.i));
      TwosComplement(v.i, 0);
    }
    if v.Float? { LE64RoundTrip(v.bits); }
    hide LE64, FromLE64, ToU64;
  }

  // ---- Sessions of inserts ----

  function InsertAll(h: Hash, st: TableState, rows: seq<Row>): (r: TableState)
    requires ValidState(st)
    ensures ValidState(r) && r.schema == st.schema && (r.bloom.Some? <==> st.bloom.Some?)
  {
    if rows == [] then st
    else
      var before := InsertAll(h, st, rows[..|rows| - 1]);
      InsertKeepsValid(h, before, rows[|rows| - 1]);
      InsertRow(h, before, rows[|rows| - 1]).0
  }

  /** The rows of a session that were accepted, in order. */
  function AcceptedRows(h: Hash, st: TableState, rows: seq<Row>): (r: seq<Row>)
    requires ValidState(st)
  {
    if rows == [] then []
    else
      var init, last := rows[..|rows| - 1], rows[|rows| - 1];
      AcceptedRows(h, st, init) + if InsertRow(h, InsertAll(h, st, init), last).1.Accepted? then [last] else []
  }

  function KeysOf(s: Schema, rows: seq<Row>): (keys: seq<Bytes>)
    requires ValidSchema(s) && AllRowsFit(s.columns, rows)
    ensures |keys| == |rows|
    ensures forall i :: 0 <= i < |rows| ==> keys[i] == RowKey(s, rows[i]).value
  {
    seq(|rows|, i requires 0 <= i < |rows| => RowKey(s, rows[i]).value)
  }

  /** The books balance after n calls that accepted the rows ok: the buffer grew by those rows,
      every call was counted once, the filter got the accepted keys and nothing else and counted
      each of them. */
  ghost predicate Balanced(h: Hash, st: TableState, n: nat, ok: seq<Row>, after: TableState)
    requires ValidState(st)
  {
    && AllRowsFit(st.schema.columns, ok)
    && |ok| <= n
    && after.rows == st.rows + ok
    && after.accepted == (st.accepted + |ok|) % TWO_64
    && after.rejected == (st.rejected + (n - |ok|)) % TWO_64
    && (st.bloom.Some? ==> after.bloom == Some(AddAll(h, st.bloom.value, KeysOf(st.schema, ok))))
    && (st.bloom.Some? ==> after.bloom.value.nAdded == (st.bloom.value.nAdded + |ok|) % TWO_64)
  }

  lemma {:induction false} Accounting(h: Hash, st: TableState, rows: seq<Row>)
    requires ValidState(st)
    ensures Balanced(h, st, |rows|, AcceptedRows(h, st, rows), InsertAll(h, st, rows))
  {
    if rows == [] {
      ConcatNil(st.rows);
    } else {
      var init, last := rows[..|rows| - 1], rows[|rows| - 1];
      Accounting(h, st, init);
      var before, ok := InsertAll(h, st, init), AcceptedRows(h, st, init);
      ConcatNil(ok);
      hide ValidState, Balanced, InsertRow;
      AccountingStep(h, st, |init|, before, ok, last);
    }
  }

  lemma ModSucc(a: nat, k: nat)
    ensures ((a + k) % TWO_64 + 1) % TWO_64 == (a + (k + 1)) % TWO_64
  {
  }

  lemma AccountingStep(h: Hash, st: TableState, n: nat, before: TableState, ok: seq<Row>, last: Row)
    requires ValidState(st) && ValidState(before) && before.schema == st.schema
    requires before.bloom.Some? <==> st.bloom.Some?
    requires Balanced(h, st, n, ok, before)
    ensures var (after, outcome) := InsertRow(h, before, last);
      Balanced(h, st, n + 1, if outcome.Accepted? then ok + [last] else ok, after)
  {
    hide ValidSchema, ContainsKey, AddKey, ValidFilter;
    InsertExact(h, before, last);
    hide InsertRow;
    if InsertRow(h, before, last).1.Accepted? {
      ModSucc(st.accepted, |ok|);
      ConcatAssoc(st.rows, ok, [last]);
      hide RowFits;
      var keys := KeysOf(st.schema, ok + [last]);
      assert keys[..|keys| - 1] == KeysOf(st.schema, ok);
      if st.bloom.Some? { CountAdded(h, st.bloom.value, keys); }
    } else {
      ModSucc(st.rejected, n - |ok|);
    }
  }

  /** In a table created with a filter, a row that fits is refused as a duplicate exactly when
      every bit position of its key is a position of some key accepted before it. */
  lemma DuplicateExactly(h: Hash, schema: Schema, m: u64, k: byte, rows: seq<Row>, row: Row)
    requires ValidSchema(schema) && 1 <= m <= MAX_M && MIN_K <= k <= MAX_K
    requires RowFits(schema.columns, row)
    ensures var st := TableState(schema, [], Some(Fresh(m, k)), 0, 0);
      var key := RowKey(schema, row).value;
      var seen := KeysOf(schema, InsertAll(h, st, rows).rows);
      && (InsertRow(h, InsertAll(h, st, rows), row).1 == Rejected(DuplicateKey)
          <==> forall i: nat :: i < k ==> WordCovered(h, m, k, seen, key, i))
      && (key in seen ==> InsertRow(h, InsertAll(h, st, rows), row).1 == Rejected(DuplicateKey))
  {
    hide ValidSchema, ContainsKey, AddAll, Covered, RowFits;
    var st := TableState(schema, [], Some(Fresh(m, k)), 0, 0);
    Accounting(h, st, rows);
    ConcatNil(AcceptedRows(h, st, rows));
    ContainsExact(h, m, k, KeysOf(schema, InsertAll(h, st, rows).rows), RowKey(schema, row).value);
  }

  // ---- Flush and load, on bytes ----

  function FlushBytes(st: TableState): Result<Bytes, SegmentError>
    requires ValidState(st)
  {
    assert forall r :: 0 <= r < |st.rows| ==> RowFits(st.schema.columns, st.rows[r]);
    SegmentBytes(st.schema.columns, st.rows, st.schema.pk, st.bloom)
  }

  /** A flush fails on more columns than two bytes count or on a type the format has no tag for,
      and on nothing else. */
  lemma FlushFailsExactly(st: TableState)
    requires ValidState(st)
    ensures var columns := st.schema.columns;
      && (FlushBytes(st) == Err(TooManyColumns) <==> |columns| > 65535)
      && (FlushBytes(st) == Err(UnknownColumnType) <==>
            |columns| <= 65535
            && exists i :: 0 <= i < |columns| && columns[i].ty !in {Int64, Float64, String})
      && (FlushBytes(st).Ok? || FlushBytes(st) == Err(TooManyColumns) || FlushBytes(st) == Err(UnknownColumnType))
  {
    assert forall r :: 0 <= r < |st.rows| ==> RowFits(st.schema.columns, st.rows[r]);
    hide Serialize, ImageOf, RowFits, ValidFilter;
  }

  ghost function LoadState(d: Bytes): Result<TableState, TableError> {
    match ParseImage(d)
    case Err(e) => Err(Unreadable(e))
    case Ok(img) =>
      if img.body.version != 2 || img.body.pkName == [] || img.bloom == None then Err(Incompatible)
      else if !ValidSchema(SchemaOf(img.body)) then Err(SchemaInvalid)
      else Ok(TableState(SchemaOf(img.body), [], img.bloom, 0, 0))
  }

  /** Flushing and loading keeps the schema and the filter bit for bit, and empties the buffer.
      It fails exactly for a table without a filter or with an empty key name. */
  lemma LoadOfFlush(st: TableState)
    requires ValidState(st) && FlushBytes(st).Ok? && |FlushBytes(st).value| < TWO_63
    ensures LoadState(FlushBytes(st).value)
         == if st.bloom == None || st.schema.pk == [] then Err(Incompatible)
            else Ok(TableState(st.schema, [], st.bloom, 0, 0))
  {
    assert forall r :: 0 <= r < |st.rows| ==> RowFits(st.schema.columns, st.rows[r]);
    var img := ImageOf(st.schema.columns, st.rows, st.schema.pk, st.bloom);
    hide Serialize, ParseImage, ValidSchema, ValidFilter;
    SegmentRoundTrip(img);
  }

  /** The refused case by an input: a valid schema whose one column, the key, is named by the
      empty string. Its empty table flushes, and the file does not load. */
  lemma EmptyKeyNameDoesNotLoad()
    ensures var st := TableState(Schema([], [Column([], Int64)]), [], Some(Fresh(1, 1)), 0, 0);
      && ValidState(st) && FlushBytes(st).Ok? && LoadState(FlushBytes(st).value) == Err(Incompatible)
  {
    var columns := [Column([], Int64)];
    var st := TableState(Schema([], columns), [], Some(Fresh(1, 1)), 0, 0);
    assert Names(columns, []) by { assert columns[0].name == []; }
    OneColumnSize(ImageOf(columns, [], [], st.bloom));
    assert ColumnOf([], 0) == [];
    hide LoadState, Serialize, ImageOf, Fresh;
    LoadOfFlush(st);
  }

  // ---- The table object ----

  ghost function BloomParts(f: Filter?): set<object>
    reads f
  {
    if f == null then {} else var g: Filter := f; {g, g.bits}
  }

  class Table {
    const schema: Schema
    const buf: WriteBuffer
    const bloom: Filter?
    const pkIdx: nat
    const pkType: ColumnType
    var accepted: u64
    var rejected: u64

    ghost predicate Valid()
      reads this, buf, bloom, BloomParts(bloom)
    {
      && ValidSchema(schema) && pkIdx == PKIndex(schema) && pkType == PkType(schema)
      && buf.schema == schema && buf.Valid()
      && (bloom != null ==> bloom.Valid())
    }

    ghost function State(): (st: TableState)
      reads this, buf, bloom, BloomParts(bloom)
      ensures Valid() ==> ValidState(st)
    {
      TableState(schema, buf.contents, FilterOf(bloom), accepted, rejected)
    }

    constructor Make(schema: Schema, buf: WriteBuffer, bloom: Filter?)
      requires ValidSchema(schema) && buf.schema == schema && buf.Valid()
      ensures this.schema == schema && this.buf == buf && this.bloom == bloom
      ensures accepted == 0 && rejected == 0
      ensures pkIdx == PKIndex(schema) && pkType == PkType(schema)
    {
      this.schema, this.buf, this.bloom := schema, buf, bloom;
      this.pkIdx, this.pkType := PKIndex(schema), PkType(schema);
      this.accepted, this.rejected := 0, 0;
    }

    method Insert(row: Row) returns (r: Outcome)
      requires Valid()
      modifies this, buf, BloomParts(bloom)
      ensures Valid()
      ensures bloom != null ==> (State(), r) == InsertRow(bloom.hash, old(State()), row)
      ensures bloom == null ==> forall h: Hash :: (State(), r) == InsertRow(h, old(State()), row)
      ensures bloom != null ==> bloom.bits == old(bloom.bits)
    {
      hide ValidSchema, ContainsKey, AddKey, Columnar, HasType, RowFits, ValidFilter, PKIndex;
      if |row| != |schema.columns| {
        rejected := (rejected + 1) % TWO_64;
        return Rejected(WrongLength);
      }
      if bloom != null {
        var pkBytes := PkBytes(row[pkIdx], pkType);
        if pkBytes == None {
          rejected := (rejected + 1) % TWO_64;
          return Rejected(BadKey);
        }
        var found := bloom.Contains(pkBytes.value);
        if found {
          rejected := (rejected + 1) % TWO_64;
          return Rejected(DuplicateKey);
        }
        var ok := buf.Append(row);
        if !ok {
          rejected := (rejected + 1) % TWO_64;
          return Rejected(BadRow);
        }
        bloom.Add(pkBytes.value);
        accepted := (accepted + 1) % TWO_64;
        return Accepted;
      }
      var ok := buf.Append(row);
      if !ok {
        rejected := (rejected + 1) % TWO_64;
        return Rejected(BadRow);
      }
      accepted := (accepted + 1) % TWO_64;
      return Accepted;
    }

    /** Flush writes the buffered rows and the filter; it changes nothing in the table. */
    method Flush(w: Writer) returns (err: Option<SegmentError>)
      requires Valid()
      modifies w
      ensures Valid() && State() == old(State())
      ensures err == None ==> FlushBytes(State()).Ok? && w.data == old(w.data) + FlushBytes(State()).value
      ensures err.Some? ==> FlushBytes(State()) == Err(err.value) && old(w.data) <= w.data
    {
      hide SegmentBytes, ValidSchema;
      err := WriteSegment(w, buf, schema.pk, bloom);
    }
  }

  method CreateTable(hash: Hash, schema: Schema, opts: TableOptions) returns (r: Result<Table, TableError>)
    requires opts.BloomSize? ==> 1 <= opts.m <= TWO_63 && MIN_K <= opts.k <= MAX_K
    ensures r.Err? ==> r.error == (if ValidSchema(schema) then BloomInvalid else SchemaInvalid)
    ensures r.Ok? <==> ValidSchema(schema) && !opts.BloomOutOfRange?
    ensures r.Ok? ==> fresh(r.value) && fresh(r.value.buf) && fresh(BloomParts(r.value.bloom))
    ensures r.Ok? ==> r.value.Valid()
    ensures r.Ok? ==>
      r.value.State() == TableState(schema, [], if opts.BloomSize? then Some(Fresh(opts.m, opts.k)) else None, 0, 0)
    ensures r.Ok? && r.value.bloom != null ==> r.value.bloom.hash == hash
  {
    var err := Validate(schema);
    hide ValidSchema;
    if err.Some? {
      return Err(SchemaInvalid);
    }
    var bf: Filter? := null;
    if opts.BloomOutOfRange? {
      return Err(BloomInvalid);
    }
    if opts.BloomSize? {
      bf := new Filter.New(hash, opts.m, opts.k);
    }
    var buf := new WriteBuffer(schema);
    var t := new Table.Make(schema, buf, bf);
    return Ok(t);
  }

  /** LoadTable on the bytes of a file. The loaded table is usable unless the file carries a
      filter whose size check wrapped (see Bloom.UnmarshalSafe). */
  method LoadTable(hash: Hash, data: Bytes) returns (r: Result<Table, TableError>)
    ensures r.Err? ==> LoadState(data) == Err(r.error)
    ensures r.Ok? ==> LoadState(data) == Ok(r.value.State())
    ensures r.Ok? ==> fresh(r.value) && fresh(r.value.buf) && fresh(BloomParts(r.value.bloom))
    ensures r.Ok? ==> r.value.bloom != null && r.value.bloom.hash == hash
    ensures r.Ok? ==> (r.value.Valid() <==> ValidFilter(r.value.bloom.State()))
  {
    hide ParseImage, BlocksMatch, Columns;
    var seg := ParseSegment(hash, data);
    if seg.Err? {
      return Err(Unreadable(seg.error));
    }
    var s := seg.value;
    if s.version != 2 {
      return Err(Incompatible);
    }
    if s.pkName == [] {
      return Err(Incompatible);
    }
    if s.bloomFilter == null {
      return Err(Incompatible);
    }
    var err := Validate(s.schema);
    hide ValidSchema;
    if err.Some? {
      return Err(SchemaInvalid);
    }
    var buf := new WriteBuffer(s.schema);
    var t := new Table.Make(s.schema, buf, s.bloomFilter);
    return Ok(t);
  }
}
