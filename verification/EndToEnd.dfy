/** The stages composed: rows accepted by a table, flushed to bytes, parsed back and queried. */
module EndToEnd {
  import opened Wrappers
  import opened Words
  import opened Types
  import opened Encoding
  import opened QueryAst
  import opened Bloom
  import opened SegmentFormat
  import opened SegmentStore
  import opened Table
  import opened Parser
  import opened Aggregate
  import opened Eval
  import opened Refinement
  import opened Reference
  import opened Exec

  /** A flushed file that a Go program can hold: fewer than 2^63 bytes and rows. */
  ghost predicate Holdable(st: TableState)
    requires ValidState(st)
  {
    FlushBytes(st).Ok? && |FlushBytes(st).value| < TWO_63 && |st.rows| < TWO_63
  }

  /** A parsed flush holds exactly the rows of the table, column by column. */
  lemma FlushedHoldsRows(st: TableState)
    requires ValidState(st) && Holdable(st)
    ensures ParseImage(FlushBytes(st).value).Ok?
    ensures Holds(ParseImage(FlushBytes(st).value).value.body, st.schema.columns, st.rows)
  {
    var columns := st.schema.columns;
    assert forall r :: 0 <= r < |st.rows| ==> RowFits(columns, st.rows[r]);
    var img := ImageOf(columns, st.rows, st.schema.pk, st.bloom);
    assert FlushBytes(st).value == Serialize(img) && Wellformed(img);
    SegmentRoundTrip(img);
    PartsAreSmall(img);
    hide Serialize, ParseImage, Wellformed, HasDuplicate, DecodeColumn, Small, SmallEntry, FlushBytes, ValidFilter, RowFits;
    forall i | 0 <= i < |columns|
      ensures DecodeColumn(img.body, columns[i].name) == Ok(ColumnOf(st.rows, i))
    {
      WrittenColumnReadsBack(columns, st.rows, st.schema.pk, st.bloom, i);
    }
  }

  /** End to end: for every valid table, querying the parsed flush gives what evaluating the
      query row by row over the table's rows gives, answer or error. */
  lemma QueryOfFlush(fadd: FloatAdd, st: TableState, q: Query)
    requires ValidState(st) && Holdable(st)
    ensures ParseImage(FlushBytes(st).value).Ok?
    ensures ExecuteOn(fadd, ParseImage(FlushBytes(st).value).value.body, q)
         == RowByRow(fadd, st.schema.columns, st.rows, q)
  {
    FlushedHoldsRows(st);
    hide Holds, ExecuteOn, RowByRow, ParseImage, FlushBytes, ValidState;
    ExecuteIsRowByRow(fadd, ParseImage(FlushBytes(st).value).value.body, st.schema.columns, st.rows, q);
  }

  /** The same from the first insert on: the answer is over the accepted rows in the order in
      which they were inserted. */
  lemma QueryOfInserts(h: Hash, fadd: FloatAdd, st: TableState, rows: seq<Row>, q: Query)
    requires ValidState(st) && Holdable(InsertAll(h, st, rows))
    ensures var data := FlushBytes(InsertAll(h, st, rows)).value;
      && ParseImage(data).Ok?
      && ExecuteOn(fadd, ParseImage(data).value.body, q)
         == RowByRow(fadd, st.schema.columns, st.rows + AcceptedRows(h, st, rows), q)
  {
    Accounting(h, st, rows);
    hide RowByRow, ExecuteOn, ParseImage, FlushBytes, Holdable;
    QueryOfFlush(fadd, InsertAll(h, st, rows), q);
  }

  lemma TableIsTabular(st: TableState)
    requires ValidState(st) && Holdable(st)
    ensures Tabular(st.schema.columns, st.rows)
  {
  }

  /** So every result of a query on a flushed file is the one described: over exactly the wanted
      rows, every cell the one it should be. */
  lemma ResultOfFlush(fadd: FloatAdd, st: TableState, q: Query) returns (sel: seq<Row>)
    requires ValidState(st) && Holdable(st) && Shaped(q)
    requires ParseImage(FlushBytes(st).value).Ok? && ExecuteOn(fadd, ParseImage(FlushBytes(st).value).value.body, q).Ok?
    ensures Selected(sel, st.schema.columns, st.rows, q) && (q.filter == None ==> sel == st.rows)
    ensures IsResult(fadd, st.schema.columns, sel, q, ExecuteOn(fadd, ParseImage(FlushBytes(st).value).value.body, q).value)
  {
    TableIsTabular(st);
    hide Holdable, ExecuteOn, RowByRow, ParseImage, FlushBytes, ValidState, IsResult, Selected, Tabular, Shaped;
    QueryOfFlush(fadd, st, q);
    sel := ResultExactly(fadd, st.schema.columns, st.rows, q);
  }

  /** SELECT * on a flushed file returns the table's rows, or those the condition wants, under
      the schema's names. */
  lemma StarOfFlush(fadd: FloatAdd, st: TableState, q: Query, sel: seq<Row>)
    requires ValidState(st) && Holdable(st) && Shaped(q) && q.projection == ProjStar
    requires FilterTyped(st.schema.columns, q) && Selected(sel, st.schema.columns, st.rows, q)
    ensures ParseImage(FlushBytes(st).value).Ok?
    ensures ExecuteOn(fadd, ParseImage(FlushBytes(st).value).value.body, q)
         == Ok(QueryResult(ColumnNames(st.schema.columns), sel, false))
    ensures q.filter == None ==> sel == st.rows
  {
    TableIsTabular(st);
    hide Holdable, ExecuteOn, RowByRow, ParseImage, FlushBytes, ValidState, FilterTyped, Selected, Tabular, Shaped;
    QueryOfFlush(fadd, st, q);
    StarReturnsRows(fadd, st.schema.columns, st.rows, q, sel);
  }

  /** SUM over one wanted row of a flushed file is that row's cell. */
  lemma SumOfOneRowOfFlush(fadd: FloatAdd, st: TableState, q: Query, row: Row, i: int64)
    requires ValidState(st) && Holdable(st) && Shaped(q) && q.projection == ProjSumColumn
    requires FilterTyped(st.schema.columns, q) && ColumnHas(st.schema.columns, q.sumColumn, Int64)
    requires Selected([row], st.schema.columns, st.rows, q) && CellIs(st.schema.columns, row, q.sumColumn, Int(i))
    ensures ParseImage(FlushBytes(st).value).Ok?
    ensures ExecuteOn(fadd, ParseImage(FlushBytes(st).value).value.body, q)
         == Ok(QueryResult([SumHeader(q.sumColumn)], [[Int(i)]], true))
  {
    TableIsTabular(st);
    hide Holdable, ExecuteOn, RowByRow, ParseImage, FlushBytes, ValidState, FilterTyped, Selected, Tabular, Shaped;
    Headers();
    hide ColumnHas, CellIs, Ascii, SumHeader;
    QueryOfFlush(fadd, st, q);
    SumOfOneRow(fadd, st.schema.columns, st.rows, q, row, i);
  }

  // ---- The objects, end to end ----

  /** Parse the text, parse the bytes, execute. */
  method QueryBytes(hash: Hash, pf: ParseFloat, fadd: FloatAdd, data: Bytes, text: Bytes) returns (r: Option<Answer>)
    ensures r == match (ParseText(pf, text), ParseImage(data))
                 case (Ok(q), Ok(img)) => Some(ExecuteOn(fadd, img.body, q))
                 case _ => None
  {
    hide ExecuteOn, ParseText, ParseImage, BlocksMatch, FilterOf;
    var q := Parse(pf, text);
    if q.Err? {
      return None;
    }
    var seg := ParseSegment(hash, data);
    if seg.Err? {
      return None;
    }
    var answer := Exec.Execute(fadd, seg.value, q.value);
    return Some(answer);
  }

  /** Create a table with a filter, insert rows, flush. */
  method BuildFile(hash: Hash, schema: Schema, m: u64, k: byte, rows: seq<Row>) returns (r: Result<Bytes, SegmentError>)
    requires ValidSchema(schema) && 1 <= m <= TWO_63 && MIN_K <= k <= MAX_K
    ensures r == FlushBytes(InsertAll(hash, TableState(schema, [], Some(Fresh(m, k)), 0, 0), rows))
  {
    hide ValidSchema, InsertRow, FlushBytes, ValidFilter;
    var created := CreateTable(hash, schema, BloomSize(m, k));
    var t := created.value;
    ghost var st := t.State();
    for i := 0 to |rows|
      invariant t.Valid() && t.bloom != null && t.bloom.hash == hash
      invariant fresh(t) && fresh(t.buf) && fresh(BloomParts(t.bloom))
      invariant t.State() == InsertAll(hash, st, rows[..i])
    {
      PrefixSplit(rows, i, i + 1);
      assert rows[..i + 1][..i] == rows[..i];
      var outcome := t.Insert(rows[i]);
    }
    assert rows[..|rows|] == rows;
    var w := new Writer();
    var err := t.Flush(w);
    if err.Some? {
      return Err(err.value);
    }
    ConcatNil(FlushBytes(t.State()).value);
    return Ok(w.data);
  }

  /** The whole path on the objects: when the flushed file can be held, a text that parses is
      answered as row by row over the accepted rows, and a text that does not parse is not
      answered. */
  method Pipeline(hash: Hash, pf: ParseFloat, fadd: FloatAdd, schema: Schema, m: u64, k: byte, rows: seq<Row>, text: Bytes)
    returns (r: Option<Answer>)
    requires ValidSchema(schema) && 1 <= m <= TWO_63 && MIN_K <= k <= MAX_K
    ensures var st := TableState(schema, [], Some(Fresh(m, k)), 0, 0);
      Holdable(InsertAll(hash, st, rows)) ==>
        r == match ParseText(pf, text)
             case Err(_) => None
             case Ok(q) => Some(RowByRow(fadd, schema.columns, AcceptedRows(hash, st, rows), q))
  {
    hide ValidSchema, RowByRow, ExecuteOn, ParseText, ParseImage, FlushBytes, ValidFilter, InsertAll, AcceptedRows, Holdable;
    var data := BuildFile(hash, schema, m, k, rows);
    if data.Err? {
      NotHoldable(InsertAll(hash, TableState(schema, [], Some(Fresh(m, k)), 0, 0), rows));
      return None;
    }
    r := QueryBytes(hash, pf, fadd, data.value, text);
    ghost var st := TableState(schema, [], Some(Fresh(m, k)), 0, 0);
    if Holdable(InsertAll(hash, st, rows)) {
      QueryOfInserts(hash, fadd, st, rows, if ParseText(pf, text).Ok? then ParseText(pf, text).value else EMPTY_QUERY);
      ConcatNil(AcceptedRows(hash, st, rows));
    }
  }

  lemma NotHoldable(st: TableState)
    requires ValidState(st) && FlushBytes(st).Err?
    ensures !Holdable(st)
  {
  }
}
