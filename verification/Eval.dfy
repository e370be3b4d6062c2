/** Two meanings of a query: on the decoded columns of a segment, with selection vectors, as
    the executor works (query/exec.go), and row by row on a list of rows. */
module Eval {
  import opened Wrappers
  import opened Words
  import opened Types
  import opened QueryAst
  import opened SegmentFormat
  import opened Precedence
  import opened Compare
  import opened Aggregate

  datatype QueryResult = QueryResult(columns: seq<Bytes>, rows: seq<Row>, isAggregate: bool)

  type Answer = Result<QueryResult, QueryError>

  const COUNT_HEADER: Bytes := [0x43, 0x4F, 0x55, 0x4E, 0x54, 0x28, 0x2A, 0x29]  // "COUNT(*)"

  /** "SUM(" + col + ")" */
  function SumHeader(col: Bytes): Bytes {
    [0x53, 0x55, 0x4D, 0x28] + col + [0x29]
  }

  // ---- Checks that do not look at data ----

  /** evalComparison's checks: the column exists and the literal has its type. */
  function CheckComparison(columns: seq<Column>, c: Comparison): Option<QueryError> {
    match ColumnIndex(columns, c.column)
    case None => Some(UnknownColumn)
    case Some(i) =>
      if columns[i].ty.OtherType? then Some(UnsupportedType)
      else if !HasType(c.value, columns[i].ty) then Some(TypeMismatch)
      else None
  }

  /** The first error of a filter, in the order the executor meets its nodes. */
  function CheckFilter(columns: seq<Column>, e: FilterExpr): Option<QueryError>
  {
    if e.comparison.Some? then CheckComparison(columns, e.comparison.value)
    else if e.and.Nodes? then if e.and.list == [] then Some(Crash) else CheckAll(columns, e.and.list)
    else if e.or.Nodes? then if e.or.list == [] then Some(Crash) else CheckAll(columns, e.or.list)
    else Some(Malformed)
  }

  function CheckAll(columns: seq<Column>, es: seq<FilterExpr>): Option<QueryError> {
    if es == [] then None
    else
      match CheckFilter(columns, es[0])
      case Some(err) => Some(err)
      case None => CheckAll(columns, es[1..])
  }

  function CheckSum(columns: seq<Column>, name: Bytes): Result<ColumnType, QueryError> {
    match ColumnIndex(columns, name)
    case None => Err(UnknownColumn)
    case Some(i) =>
      if columns[i].ty.Int64? || columns[i].ty.Float64? then Ok(columns[i].ty) else Err(TypeMismatch)
  }

  /** The columns a plain projection or SUM reads. */
  function ProjectionColumns(columns: seq<Column>, q: Query): seq<Bytes> {
    match q.projection
    case ProjColumns => q.columns
    case ProjStar => seq(|columns|, i requires 0 <= i < |columns| => columns[i].name)
    case ProjSumColumn => [q.sumColumn]
    case _ => []
  }

  predicate AllExist(columns: seq<Column>, names: seq<Bytes>) {
    forall i :: 0 <= i < |names| ==> ColumnIndex(columns, names[i]).Some?
  }

  // ---- On columns ----

  function ReadData(b: Body, name: Bytes): (r: Result<seq<Value>, QueryError>)
    ensures r.Ok? ==> |r.value| == b.rowCount
  {
    match DecodeColumn(b, name)
    case Err(e) => Err(ReadFailed(e))
    case Ok(vs) => Ok(vs)
  }

  function Scan(vs: seq<Value>, op: FilterOp, w: Value): (sel: seq<bool>)
    ensures |sel| == |vs|
    ensures forall i :: 0 <= i < |vs| ==> sel[i] == Matches(vs[i], op, w)
  {
    seq(|vs|, i requires 0 <= i < |vs| => Matches(vs[i], op, w))
  }

  function Combine(conj: bool, a: seq<bool>, b: seq<bool>): (r: seq<bool>)
    requires |a| == |b|
    ensures |r| == |a|
    ensures forall i :: 0 <= i < |a| ==> r[i] == if conj then a[i] && b[i] else a[i] || b[i]
  {
    seq(|a|, i requires 0 <= i < |a| => if conj then a[i] && b[i] else a[i] || b[i])
  }

  function SelectLeaf(b: Body, c: Comparison): (r: Result<seq<bool>, QueryError>)
    ensures r.Ok? ==> |r.value| == b.rowCount
  {
    match CheckComparison(Columns(b.entries), c)
    case Some(err) => Err(err)
    case None =>
      match ReadData(b, c.column)
      case Err(err) => Err(err)
      case Ok(vs) => Ok(Scan(vs, c.op, c.value))
  }

  /** The selection vector of a filter. */
  function Select(b: Body, e: FilterExpr): (r: Result<seq<bool>, QueryError>)
    ensures r.Ok? ==> |r.value| == b.rowCount
  {
    if e.comparison.Some? then SelectLeaf(b, e.comparison.value)
    else if e.and.Nodes? then if e.and.list == [] then Err(Crash) else SelectAll(b, e.and.list, true)
    else if e.or.Nodes? then if e.or.list == [] then Err(Crash) else SelectAll(b, e.or.list, false)
    else Err(Malformed)
  }

  function SelectAll(b: Body, es: seq<FilterExpr>, conj: bool): (r: Result<seq<bool>, QueryError>)
    ensures r.Ok? ==> |r.value| == b.rowCount
  {
    if es == [] then Ok(Repeat(conj, b.rowCount))
    else
      match Select(b, es[0])
      case Err(err) => Err(err)
      case Ok(first) =>
        match SelectAll(b, es[1..], conj)
        case Err(err) => Err(err)
        case Ok(rest) => Ok(Combine(conj, first, rest))
  }

  /** The filter of a query: no vector when there is no WHERE. */
  function SelectQuery(b: Body, q: Query): (r: Result<Option<seq<bool>>, QueryError>)
    ensures r.Ok? && r.value.Some? ==> |r.value.value| == b.rowCount
  {
    match q.filter
    case None => Ok(None)
    case Some(e) => (match Select(b, e) case Err(err) => Err(err) case Ok(sel) => Ok(Some(sel)))
  }

  predicate Keeps(sel: Option<seq<bool>>, i: nat)
    requires sel.Some? ==> i < |sel.value|
  {
    sel == None || sel.value[i]
  }

  /** The values of the first n rows that are kept, in order. */
  function Pick(vs: seq<Value>, sel: Option<seq<bool>>, n: nat): (r: seq<Value>)
    requires n <= |vs| && (sel.Some? ==> n <= |sel.value|)
  {
    if n == 0 then []
    else Pick(vs, sel, n - 1) + if Keeps(sel, n - 1) then [vs[n - 1]] else []
  }

  function KeptCount(sel: Option<seq<bool>>, n: nat): (k: nat)
    requires sel.Some? ==> n <= |sel.value|
    ensures k <= n
  {
    if n == 0 then 0 else KeptCount(sel, n - 1) + if Keeps(sel, n - 1) then 1 else 0
  }

  /** Several columns, or the first failure. */
  function ReadAll(b: Body, names: seq<Bytes>): (r: Result<seq<seq<Value>>, QueryError>)
    ensures r.Ok? ==> |r.value| == |names| && forall j :: 0 <= j < |names| ==> |r.value[j]| == b.rowCount
  {
    if names == [] then Ok([])
    else
      match ReadData(b, names[0])
      case Err(err) => Err(err)
      case Ok(vs) => (match ReadAll(b, names[1..]) case Err(err) => Err(err) case Ok(rest) => Ok([vs] + rest))
  }

  function RowAt(cols: seq<seq<Value>>, i: nat): (row: Row)
    requires forall j :: 0 <= j < |cols| ==> i < |cols[j]|
    ensures |row| == |cols| && forall j :: 0 <= j < |cols| ==> row[j] == cols[j][i]
  {
    seq(|cols|, j requires 0 <= j < |cols| => cols[j][i])
  }

  function ProjectRows(cols: seq<seq<Value>>, sel: Option<seq<bool>>, n: nat): seq<Row>
    requires (forall j :: 0 <= j < |cols| ==> n <= |cols[j]|) && (sel.Some? ==> n <= |sel.value|)
  {
    if n == 0 then []
    else ProjectRows(cols, sel, n - 1) + if Keeps(sel, n - 1) then [RowAt(cols, n - 1)] else []
  }

  function CountResult(n: nat): QueryResult {
    QueryResult([COUNT_HEADER], [[Uint(n % TWO_64)]], true)
  }

  ghost function SumResult(fadd: FloatAdd, name: Bytes, t: ColumnType, vs: seq<Value>): Answer {
    match SumOf(fadd, t, vs)
    case Err(err) => Err(err)
    case Ok(v) => Ok(QueryResult([SumHeader(name)], [[v]], true))
  }

  ghost function GroupResult(fadd: FloatAdd, q: Query, agg: Aggregation, keys: seq<Value>, vals: seq<Value>): Answer
    requires |keys| == |vals|
  {
    match GroupRows(fadd, agg, keys, vals)
    case Err(err) => Err(err)
    case Ok(rows) =>
      Ok(QueryResult([q.groupBy, if q.groupAgg == AggSumColumn then SumHeader(q.sumColumn) else COUNT_HEADER], rows, false))
  }

  lemma {:induction false} PickLength(a: seq<Value>, sel: Option<seq<bool>>, n: nat)
    requires n <= |a| && (sel.Some? ==> n <= |sel.value|)
    ensures |Pick(a, sel, n)| == KeptCount(sel, n)
  {
    if n > 0 {
      PickLength(a, sel, n - 1);
    }
  }

  ghost function ExecSum(fadd: FloatAdd, b: Body, q: Query, sel: Option<seq<bool>>): Answer
    requires sel.Some? ==> |sel.value| == b.rowCount
  {
    match CheckSum(Columns(b.entries), q.sumColumn)
    case Err(err) => Err(err)
    case Ok(t) =>
      match ReadData(b, q.sumColumn)
      case Err(err) => Err(err)
      case Ok(vs) => SumResult(fadd, q.sumColumn, t, Pick(vs, sel, b.rowCount))
  }

  ghost function ExecProject(b: Body, names: seq<Bytes>, sel: Option<seq<bool>>): Answer
    requires sel.Some? ==> |sel.value| == b.rowCount
  {
    match ReadAll(b, names)
    case Err(err) => Err(err)
    case Ok(cols) => Ok(QueryResult(names, ProjectRows(cols, sel, b.rowCount), false))
  }

  /** The aggregated column of a grouped query: the keys themselves when rows are counted. */
  function ReadAggregated(b: Body, q: Query, keys: seq<Value>): (r: Result<(Aggregation, seq<Value>), QueryError>)
    requires |keys| == b.rowCount
    ensures r.Ok? ==> |r.value.1| == b.rowCount
  {
    if q.groupAgg == AggCountStar then Ok((CountRows, keys))
    else
      match CheckSum(Columns(b.entries), q.sumColumn)
      case Err(err) => Err(err)
      case Ok(t) =>
        match ReadData(b, q.sumColumn)
        case Err(err) => Err(err)
        case Ok(vs) => Ok((SumColumn(t), vs))
  }

  ghost function ExecGrouped(fadd: FloatAdd, b: Body, q: Query, sel: Option<seq<bool>>): Answer
    requires sel.Some? ==> |sel.value| == b.rowCount
  {
    if ColumnIndex(Columns(b.entries), q.groupBy) == None then Err(UnknownColumn)
    else
      match ReadData(b, q.groupBy)
      case Err(err) => Err(err)
      case Ok(keys) =>
        match ReadAggregated(b, q, keys)
        case Err(err) => Err(err)
        case Ok((agg, vals)) =>
          PickLength(keys, sel, b.rowCount);
          PickLength(vals, sel, b.rowCount);
          GroupResult(fadd, q, agg, Pick(keys, sel, b.rowCount), Pick(vals, sel, b.rowCount))
  }

  /** Execute: the projection's columns first, then the filter, then the projection itself. */
  ghost function ExecuteOn(fadd: FloatAdd, b: Body, q: Query): Answer {
    var names := ProjectionColumns(Columns(b.entries), q);
    if !AllExist(Columns(b.entries), names) then Err(UnknownColumn)
    else
      match SelectQuery(b, q)
      case Err(err) => Err(err)
      case Ok(sel) =>
        match q.projection
        case ProjCountStar => Ok(CountResult(KeptCount(sel, b.rowCount)))
        case ProjSumColumn => ExecSum(fadd, b, q, sel)
        case ProjGrouped => ExecGrouped(fadd, b, q, sel)
        case _ => ExecProject(b, names, sel)
  }

  // ---- On rows ----

  /** The cell of a row a column name stands for. */
  function Cell(columns: seq<Column>, row: Row, name: Bytes): Value {
    match ColumnIndex(columns, name)
    case None => Nil
    case Some(i) => if i < |row| then row[i] else Nil
  }

  predicate RowMatches(columns: seq<Column>, row: Row, c: Comparison) {
    Matches(Cell(columns, row, c.column), c.op, c.value)
  }

  function RowTest(columns: seq<Column>, row: Row): Comparison -> bool {
    c => RowMatches(columns, row, c)
  }

  predicate RowTrue(columns: seq<Column>, row: Row, e: FilterExpr) {
    Truth(e, RowTest(columns, row))
  }

  predicate RowKept(columns: seq<Column>, row: Row, q: Query) {
    q.filter == None || RowTrue(columns, row, q.filter.value)
  }

  function KeptRows(columns: seq<Column>, rows: seq<Row>, q: Query): seq<Row> {
    if rows == [] then []
    else
      var init, last := rows[..|rows| - 1], rows[|rows| - 1];
      KeptRows(columns, init, q) + if RowKept(columns, last, q) then [last] else []
  }

  function CellsOf(columns: seq<Column>, rows: seq<Row>, name: Bytes): (vs: seq<Value>)
    ensures |vs| == |rows| && forall i :: 0 <= i < |rows| ==> vs[i] == Cell(columns, rows[i], name)
  {
    seq(|rows|, i requires 0 <= i < |rows| => Cell(columns, rows[i], name))
  }

  function CellsOfRow(columns: seq<Column>, row: Row, names: seq<Bytes>): (r: Row)
    ensures |r| == |names| && forall j :: 0 <= j < |names| ==> r[j] == Cell(columns, row, names[j])
  {
    seq(|names|, j requires 0 <= j < |names| => Cell(columns, row, names[j]))
  }

  function ProjectedRows(columns: seq<Column>, rows: seq<Row>, names: seq<Bytes>): (rs: seq<Row>)
    ensures |rs| == |rows| && forall i :: 0 <= i < |rows| ==> rs[i] == CellsOfRow(columns, rows[i], names)
  {
    seq(|rows|, i requires 0 <= i < |rows| => CellsOfRow(columns, rows[i], names))
  }

  /** The aggregation of a grouped query, once its column is known to be summable. */
  ghost function GroupRowByRow(fadd: FloatAdd, columns: seq<Column>, kept: seq<Row>, q: Query): Answer {
    if ColumnIndex(columns, q.groupBy) == None then Err(UnknownColumn)
    else
      var keys := CellsOf(columns, kept, q.groupBy);
      if q.groupAgg == AggCountStar then GroupResult(fadd, q, CountRows, keys, keys)
      else
        match CheckSum(columns, q.sumColumn)
        case Err(err) => Err(err)
        case Ok(t) => GroupResult(fadd, q, SumColumn(t), keys, CellsOf(columns, kept, q.sumColumn))
  }

  /** A query row by row: keep the rows whose cells satisfy the filter, then count, add up,
      project or group what is kept. */
  ghost function RowByRow(fadd: FloatAdd, columns: seq<Column>, rows: seq<Row>, q: Query): Answer {
    var names := ProjectionColumns(columns, q);
    var kept := KeptRows(columns, rows, q);
    if !AllExist(columns, names) then Err(UnknownColumn)
    else if q.filter.Some? && CheckFilter(columns, q.filter.value).Some? then Err(CheckFilter(columns, q.filter.value).value)
    else
      match q.projection
      case ProjCountStar => Ok(CountResult(|kept|))
      case ProjSumColumn =>
        (match CheckSum(columns, q.sumColumn)
         case Err(err) => Err(err)
         case Ok(t) => SumResult(fadd, q.sumColumn, t, CellsOf(columns, kept, q.sumColumn)))
      case ProjGrouped => GroupRowByRow(fadd, columns, kept, q)
      case _ => Ok(QueryResult(names, ProjectedRows(columns, kept, names), false))
  }
}
