/** When a parsed query makes the executor crash, on any segment and on any rows, and inputs that
    do it. */
module Crashes {
  import opened Wrappers
  import opened Words
  import opened Types
  import opened QueryAst
  import opened Bloom
  import opened SegmentFormat
  import opened Table
  import opened Lexer
  import opened Parser
  import opened Printer
  import opened Compare
  import opened Aggregate
  import opened Eval
  import opened WhereClause
  import Rle
  import EndToEnd

  // ---- On any segment ----

  /** The grouped query's columns exist, have the types it needs, and decode. */
  ghost predicate GroupsRead(b: Body, q: Query) {
    && ColumnIndex(Columns(b.entries), q.groupBy).Some? && ReadData(b, q.groupBy).Ok?
    && (q.groupAgg == AggSumColumn ==> CheckSum(Columns(b.entries), q.sumColumn).Ok? && ReadData(b, q.sumColumn).Ok?)
  }

  /** The group keys of the selected rows. */
  ghost function PickedKeys(b: Body, q: Query, sel: Option<seq<bool>>): seq<Value>
    requires GroupsRead(b, q) && (sel.Some? ==> |sel.value| == b.rowCount)
  {
    Pick(ReadData(b, q.groupBy).value, sel, b.rowCount)
  }

  /** The int64 sum of some group of the selected rows overflows. */
  ghost predicate PickedSumOverflows(b: Body, q: Query, sel: Option<seq<bool>>)
    requires GroupsRead(b, q) && (sel.Some? ==> |sel.value| == b.rowCount)
  {
    && q.groupAgg == AggSumColumn && CheckSum(Columns(b.entries), q.sumColumn) == Ok(Int64)
    && var keys, vals := ReadData(b, q.groupBy).value, ReadData(b, q.sumColumn).value;
       PickLength(keys, sel, b.rowCount);
       PickLength(vals, sel, b.rowCount);
       SomeGroupOverflows(Pick(keys, sel, b.rowCount), Pick(vals, sel, b.rowCount))
  }

  /** The filter selects, the columns read, no group overflows, and some selected row has a NaN
      in the group column: its accumulator is looked up again and not found. */
  ghost predicate LosesAccumulator(b: Body, q: Query) {
    && q.projection == ProjGrouped && SelectQuery(b, q).Ok? && GroupsRead(b, q)
    && SomeNaN(PickedKeys(b, q, SelectQuery(b, q).value))
    && !PickedSumOverflows(b, q, SelectQuery(b, q).value)
  }

  lemma SelectKind(b: Body, q: Query)
    requires Shaped(q)
    ensures SelectQuery(b, q) != Err(Malformed) && SelectQuery(b, q) != Err(Crash)
  {
    if q.filter.Some? {
      FilterFailureKind(b, q.filter.value);
    }
    hide Select;
  }

  lemma {:induction false} ReadAllKind(b: Body, names: seq<Bytes>)
    ensures ReadAll(b, names) != Err(Malformed) && ReadAll(b, names) != Err(Crash)
  {
    hide DecodeColumn;
    if names != [] {
      ReadAllKind(b, names[1..]);
    }
  }

  lemma GroupedKind(fadd: FloatAdd, b: Body, q: Query, sel: Option<seq<bool>>)
    requires sel.Some? ==> |sel.value| == b.rowCount
    ensures ExecGrouped(fadd, b, q, sel) != Err(Malformed)
    ensures ExecGrouped(fadd, b, q, sel) == Err(Crash)
       <==> GroupsRead(b, q) && SomeNaN(PickedKeys(b, q, sel)) && !PickedSumOverflows(b, q, sel)
  {
    hide DecodeColumn, ColumnIndex, SomeNaN, SomeGroupOverflows, Pick, FirstOccurrences, Members;
    assert ReadData(b, q.groupBy) != Err(Crash) && ReadData(b, q.sumColumn) != Err(Crash);
    assert ReadData(b, q.groupBy) != Err(Malformed) && ReadData(b, q.sumColumn) != Err(Malformed);
    hide ReadData;
  }

  lemma UngroupedKind(fadd: FloatAdd, b: Body, q: Query, sel: Option<seq<bool>>)
    requires sel.Some? ==> |sel.value| == b.rowCount
    ensures ExecSum(fadd, b, q, sel) != Err(Malformed) && ExecSum(fadd, b, q, sel) != Err(Crash)
    ensures forall names :: ExecProject(b, names, sel) != Err(Malformed) && ExecProject(b, names, sel) != Err(Crash)
  {
    forall names ensures ExecProject(b, names, sel) != Err(Malformed) && ExecProject(b, names, sel) != Err(Crash) {
      ReadAllKind(b, names);
      hide ReadAll, ProjectRows;
    }
    hide DecodeColumn, ColumnIndex, Pick, Overflows, ReadAll;
  }

  lemma ShapedCrashesExactly(fadd: FloatAdd, b: Body, q: Query)
    requires Shaped(q)
    ensures ExecuteOn(fadd, b, q) != Err(Malformed)
    ensures ExecuteOn(fadd, b, q) == Err(Crash) <==> LosesAccumulator(b, q)
  {
    SelectKind(b, q);
    if SelectQuery(b, q).Ok? {
      GroupedKind(fadd, b, q, SelectQuery(b, q).value);
      UngroupedKind(fadd, b, q, SelectQuery(b, q).value);
    }
    hide Shaped, SelectQuery, ExecGrouped, ExecSum, ExecProject, GroupsRead, PickedKeys, PickedSumOverflows, SomeNaN;
    hide CountResult, KeptCount;
  }

  /** On every segment, a query that parses never reaches the executor's malformed branch, and
      crashes it exactly when the query is grouped and a NaN key loses its accumulator. */
  lemma ParsedQueryCrashesExactly(pf: ParseFloat, fadd: FloatAdd, b: Body, input: Bytes, q: Query)
    requires ParseText(pf, input) == Ok(q)
    ensures ExecuteOn(fadd, b, q) != Err(Malformed)
    ensures ExecuteOn(fadd, b, q) == Err(Crash) <==> LosesAccumulator(b, q)
  {
    ParseGivesShaped(pf, input);
    hide ParseText, ExecuteOn, Shaped, LosesAccumulator;
    ShapedCrashesExactly(fadd, b, q);
  }

  // ---- On rows ----

  /** A grouped query passes every check made before rows are looked at. */
  ghost predicate GroupsInOrder(columns: seq<Column>, q: Query) {
    && (q.filter.Some? ==> CheckFilter(columns, q.filter.value) == None)
    && ColumnIndex(columns, q.groupBy).Some?
    && (q.groupAgg == AggSumColumn ==> CheckSum(columns, q.sumColumn).Ok?)
  }

  /** Some group of the kept rows has an int64 sum that overflows. */
  ghost predicate GroupSumOverflows(columns: seq<Column>, kept: seq<Row>, q: Query) {
    && q.groupAgg == AggSumColumn && CheckSum(columns, q.sumColumn) == Ok(Int64)
    && SomeGroupOverflows(CellsOf(columns, kept, q.groupBy), CellsOf(columns, kept, q.sumColumn))
  }

  lemma UngroupedDoesNotCrash(fadd: FloatAdd, columns: seq<Column>, rows: seq<Row>, q: Query)
    requires Shaped(q) && q.projection != ProjGrouped
    ensures RowByRow(fadd, columns, rows, q) != Err(Malformed) && RowByRow(fadd, columns, rows, q) != Err(Crash)
  {
    if q.filter.Some? { FilterErrorKind(columns, q.filter.value); }
    hide KeptRows, CheckFilter, Shaped, CellsOf, ColumnIndex, AllExist, Overflows, ProjectedRows;
  }

  lemma GroupedCrashesExactly(fadd: FloatAdd, columns: seq<Column>, rows: seq<Row>, q: Query)
    requires Shaped(q) && q.projection == ProjGrouped
    ensures var kept := KeptRows(columns, rows, q);
      && RowByRow(fadd, columns, rows, q) != Err(Malformed)
      && (RowByRow(fadd, columns, rows, q) == Err(Crash) <==>
            GroupsInOrder(columns, q) && SomeNaN(CellsOf(columns, kept, q.groupBy)) && !GroupSumOverflows(columns, kept, q))
  {
    if q.filter.Some? { FilterErrorKind(columns, q.filter.value); }
    assert AllExist(columns, ProjectionColumns(columns, q));
    hide KeptRows, CheckFilter, Shaped, SomeGroupOverflows, SomeNaN, CellsOf, ColumnIndex, AllExist;
  }

  /** The same for the row-by-row meaning, which Execute has on the flush of a table. */
  lemma ParsedQueryCrashesOnRows(pf: ParseFloat, fadd: FloatAdd, columns: seq<Column>, rows: seq<Row>, input: Bytes, q: Query)
    requires ParseText(pf, input) == Ok(q)
    ensures var kept := KeptRows(columns, rows, q);
      && RowByRow(fadd, columns, rows, q) != Err(Malformed)
      && (RowByRow(fadd, columns, rows, q) == Err(Crash) <==>
            && q.projection == ProjGrouped && GroupsInOrder(columns, q)
            && SomeNaN(CellsOf(columns, kept, q.groupBy)) && !GroupSumOverflows(columns, kept, q))
  {
    ParseGivesShaped(pf, input);
    hide ParseText, RowByRow, Shaped, KeptRows, GroupsInOrder, GroupSumOverflows, SomeNaN, CellsOf;
    if q.projection == ProjGrouped {
      GroupedCrashesExactly(fadd, columns, rows, q);
    } else {
      UngroupedDoesNotCrash(fadd, columns, rows, q);
    }
  }

  // ---- An input ----

  const X: Bytes := [0x78]  // "x"
  const NAN: u64 := 0x7FF8_0000_0000_0001

  /** A table with one float column and one row that holds a NaN. */
  const NAN_COLUMNS := [Column(X, Float64)]
  const NAN_ROWS: seq<Row> := [[Float(NAN)]]

  /** SELECT x, COUNT(*) GROUP BY x */
  const NAN_QUERY := Query(ProjGrouped, [X], [], X, AggCountStar, None)

  lemma NaNQueryParses(pf: ParseFloat)
    ensures Shaped(NAN_QUERY) && ParseText(pf, Print(pf, NAN_QUERY)) == Ok(NAN_QUERY)
  {
    assert IsName(X);
    ParsePrint(pf, NAN_QUERY);
    hide ParseText, Print;
  }

  lemma NaNRowsCrash(fadd: FloatAdd)
    ensures RowByRow(fadd, NAN_COLUMNS, NAN_ROWS, NAN_QUERY) == Err(Crash)
  {
    assert KeptRows(NAN_COLUMNS, NAN_ROWS, NAN_QUERY) == NAN_ROWS by {
      assert KeptRows(NAN_COLUMNS, [], NAN_QUERY) == [];
      assert NAN_ROWS[..0] == [];
    }
    assert ColumnIndex(NAN_COLUMNS, X) == Some(0);
    assert CellsOf(NAN_COLUMNS, NAN_ROWS, X) == [Float(NAN)];
    assert Unordered([Float(NAN)][0]);
    hide KeptRows, CellsOf, ColumnIndex;
  }

  /** A created table that keys its rows by the column. */
  const NAN_TABLE := TableState(Schema(X, NAN_COLUMNS), [], Some(Fresh(1, 1)), 0, 0)

  lemma NaNTableValid()
    ensures ValidState(NAN_TABLE) && RowFits(NAN_COLUMNS, NAN_ROWS[0])
  {
    assert NAN_COLUMNS[0].name == X;
  }

  lemma NaNRowIsAccepted(h: Hash)
    requires ValidState(NAN_TABLE)
    ensures InsertAll(h, NAN_TABLE, NAN_ROWS).rows == NAN_ROWS
    ensures |InsertAll(h, NAN_TABLE, NAN_ROWS).bloom.value.bits| == 1
  {
    NaNTableValid();
    var row := NAN_ROWS[0];
    assert NAN_ROWS[..0] == [] && NAN_ROWS == [] + [row];
    assert InsertAll(h, NAN_TABLE, []) == NAN_TABLE;
    var key := RowKey(NAN_TABLE.schema, row).value;
    hide ValidState, RowFits;
    assert !ContainsKey(h, Fresh(1, 1), key) by {
      ZeroHasNoBits(Position(h, 1, key, 0) % 8);
      assert !BitAt(Fresh(1, 1).bits, Position(h, 1, key, 0));
    }
    hide ContainsKey, Fresh;
    InsertExact(h, NAN_TABLE, row);
    hide InsertRow;
  }

  /** Create, insert the one row, flush, parse, parse the text, execute: it crashes. */
  lemma NaNTableCrashes(h: Hash, pf: ParseFloat, fadd: FloatAdd)
    ensures ValidState(NAN_TABLE) && Shaped(NAN_QUERY)
    ensures ParseText(pf, Print(pf, NAN_QUERY)) == Ok(NAN_QUERY)
    ensures var data := FlushBytes(InsertAll(h, NAN_TABLE, NAN_ROWS));
      data.Ok? && ParseImage(data.value).Ok? && ExecuteOn(fadd, ParseImage(data.value).value.body, NAN_QUERY) == Err(Crash)
  {
    NaNTableValid();
    NaNQueryParses(pf);
    NaNRowsCrash(fadd);
    NaNRowIsAccepted(h);
    var after := InsertAll(h, NAN_TABLE, NAN_ROWS);
    hide ParseText, Print, ValidState, InsertAll, ExecuteOn, RowByRow, ParseImage;
    NaNFileSize(after);
    hide FlushBytes;
    EndToEnd.QueryOfFlush(fadd, after, NAN_QUERY);
  }

  lemma NaNFileSize(st: TableState)
    requires ValidState(st) && st.schema == NAN_TABLE.schema && st.rows == NAN_ROWS
    requires st.bloom.Some? && |st.bloom.value.bits| == 1
    ensures EndToEnd.Holdable(st)
  {
    var img := ImageOf(NAN_COLUMNS, NAN_ROWS, X, st.bloom);
    assert ColumnOf(NAN_ROWS, 0) == [Float(NAN)];
    assert |Rle.Encode([Float(NAN)])| == 9 by {
      Rle.EncodeStep([Float(NAN)], 1);
      assert [Float(NAN)][1..] == [];
    }
    hide Rle.Encode, Serialize;
    OneColumnSize(img);
  }
}
