/** Grouped and ungrouped aggregates agree: the rows of a grouped query add up to the answer of
    the same aggregate without GROUP BY. */
module GroupTotals {
  import opened Wrappers
  import opened Words
  import opened Types
  import opened QueryAst
  import opened SegmentFormat
  import opened Compare
  import opened Aggregate
  import opened Eval

  /** The number in the second cell of a row. */
  function Number(row: Row): int {
    if |row| != 2 then 0
    else
      match row[1]
      case Uint(n) => n
      case Int(i) => i
      case _ => 0
  }

  function RowTotal(rows: seq<Row>): int {
    if rows == [] then 0 else RowTotal(rows[..|rows| - 1]) + Number(rows[|rows| - 1])
  }

  ghost predicate AreGroups(fadd: FloatAdd, agg: Aggregation, ks: seq<Value>, keys: seq<Value>, vals: seq<Value>, rows: seq<Row>)
    requires |keys| == |vals|
  {
    |rows| == |ks| && forall j :: 0 <= j < |ks| ==> rows[j] == [ks[j], AggregateCell(fadd, agg, Members(keys, vals, ks[j]))]
  }

  lemma {:induction false} MembersBounded(keys: seq<Value>, vals: seq<Value>, k: Value)
    requires |keys| == |vals|
    ensures |Members(keys, vals, k)| <= |keys|
  {
    hide KeyEqual;
    if keys != [] {
      var n := |keys| - 1;
      MembersBounded(keys[..n], vals[..n], k);
    }
  }

  lemma {:induction false} CountsTotal(fadd: FloatAdd, ks: seq<Value>, keys: seq<Value>, vals: seq<Value>, rows: seq<Row>)
    requires |keys| == |vals| < TWO_64 && AreGroups(fadd, CountRows, ks, keys, vals, rows)
    ensures RowTotal(rows) == TotalCount(ks, keys, vals)
    decreases |ks|
  {
    hide Members;
    if ks != [] {
      var n := |ks| - 1;
      CountsTotal(fadd, ks[..n], keys, vals, rows[..n]);
      MembersBounded(keys, vals, ks[n]);
      assert rows[n] == [ks[n], AggregateCell(fadd, CountRows, Members(keys, vals, ks[n]))];
    }
  }

  lemma {:induction false} SumsTotal(fadd: FloatAdd, ks: seq<Value>, keys: seq<Value>, vals: seq<Value>, rows: seq<Row>)
    requires |keys| == |vals| && AreGroups(fadd, SumColumn(Int64), ks, keys, vals, rows)
    requires forall j :: 0 <= j < |ks| ==> !Overflows(Members(keys, vals, ks[j]))
    ensures RowTotal(rows) == TotalSum(ks, keys, vals)
    decreases |ks|
  {
    hide Members, Overflows;
    if ks != [] {
      var n := |ks| - 1;
      SumsTotal(fadd, ks[..n], keys, vals, rows[..n]);
      NoOverflowIsExact(Members(keys, vals, ks[n]));
      assert rows[n] == [ks[n], AggregateCell(fadd, SumColumn(Int64), Members(keys, vals, ks[n]))];
    }
  }

  lemma NoGroupSumOverflows(keys: seq<Value>, vals: seq<Value>)
    requires |keys| == |vals| && !SomeGroupOverflows(keys, vals)
    ensures forall j :: 0 <= j < |FirstOccurrences(keys)| ==> !Overflows(Members(keys, vals, FirstOccurrences(keys)[j]))
  {
    hide Members, Overflows;
    forall j | 0 <= j < |FirstOccurrences(keys)| ensures !Overflows(Members(keys, vals, FirstOccurrences(keys)[j])) {
      OccurrencesAreKeys(keys, j);
      var i :| 0 <= i < |keys| && keys[i] == FirstOccurrences(keys)[j];
    }
  }

  lemma GroupRowsAreGroups(fadd: FloatAdd, agg: Aggregation, keys: seq<Value>, vals: seq<Value>)
    requires |keys| == |vals| && GroupRows(fadd, agg, keys, vals).Ok?
    ensures AreGroups(fadd, agg, FirstOccurrences(keys), keys, vals, GroupRows(fadd, agg, keys, vals).value)
    ensures !SomeNaN(keys) && (agg == SumColumn(Int64) ==> !SomeGroupOverflows(keys, vals))
  {
    hide FirstOccurrences, Members, AggregateCell, SomeNaN, SomeGroupOverflows;
  }

  /** The counts of the groups add up to the number of rows. */
  lemma CountsAddUp(fadd: FloatAdd, keys: seq<Value>)
    requires |keys| < TWO_64 && GroupRows(fadd, CountRows, keys, keys).Ok?
    ensures RowTotal(GroupRows(fadd, CountRows, keys, keys).value) == |keys|
  {
    GroupRowsAreGroups(fadd, CountRows, keys, keys);
    hide GroupRows, AreGroups, SomeNaN, FirstOccurrences;
    GroupsPartition(keys, keys);
    CountsTotal(fadd, FirstOccurrences(keys), keys, keys, GroupRows(fadd, CountRows, keys, keys).value);
  }

  /** The int64 sums of the groups add up to the exact sum of all values. */
  lemma SumsAddUp(fadd: FloatAdd, keys: seq<Value>, vals: seq<Value>)
    requires |keys| == |vals| && GroupRows(fadd, SumColumn(Int64), keys, vals).Ok?
    ensures RowTotal(GroupRows(fadd, SumColumn(Int64), keys, vals).value) == ExactSum(vals)
  {
    GroupRowsAreGroups(fadd, SumColumn(Int64), keys, vals);
    hide GroupRows, AreGroups, SomeNaN, FirstOccurrences, SomeGroupOverflows;
    NoGroupSumOverflows(keys, vals);
    GroupsPartition(keys, vals);
    SumsTotal(fadd, FirstOccurrences(keys), keys, vals, GroupRows(fadd, SumColumn(Int64), keys, vals).value);
  }

  /** COUNT(*) and SUM(column) with the WHERE clause of a grouped query. */
  function CountQuery(q: Query): Query {
    EMPTY_QUERY.(projection := ProjCountStar, filter := q.filter)
  }

  function SumQuery(q: Query): Query {
    EMPTY_QUERY.(projection := ProjSumColumn, sumColumn := q.sumColumn, filter := q.filter)
  }

  // ---- On any segment ----

  lemma GroupedOn(fadd: FloatAdd, b: Body, q: Query)
    requires q.projection == ProjGrouped && ExecuteOn(fadd, b, q).Ok?
    ensures SelectQuery(b, q).Ok? && ReadData(b, q.groupBy).Ok?
    ensures var sel, keys := SelectQuery(b, q).value, ReadData(b, q.groupBy).value;
      ReadAggregated(b, q, keys).Ok? &&
      var (agg, vals) := ReadAggregated(b, q, keys).value;
      && |Pick(keys, sel, b.rowCount)| == |Pick(vals, sel, b.rowCount)| == KeptCount(sel, b.rowCount)
      && GroupRows(fadd, agg, Pick(keys, sel, b.rowCount), Pick(vals, sel, b.rowCount))
         == Ok(ExecuteOn(fadd, b, q).value.rows)
  {
    hide ReadData, SelectQuery, ReadAggregated, GroupRows, Pick, KeptCount, ColumnIndex;
    var sel, keys := SelectQuery(b, q).value, ReadData(b, q.groupBy).value;
    var (_, vals) := ReadAggregated(b, q, keys).value;
    PickLength(keys, sel, b.rowCount);
    PickLength(vals, sel, b.rowCount);
  }

  /** On every segment the counts of a grouped query add up to COUNT(*) under the same WHERE. */
  lemma GroupCountsAddUp(fadd: FloatAdd, b: Body, q: Query)
    requires q.projection == ProjGrouped && q.groupAgg == AggCountStar && ExecuteOn(fadd, b, q).Ok?
    ensures var total := RowTotal(ExecuteOn(fadd, b, q).value.rows);
      && 0 <= total < TWO_64
      && ExecuteOn(fadd, b, CountQuery(q)) == Ok(QueryResult([COUNT_HEADER], [[Uint(total)]], true))
  {
    GroupedOn(fadd, b, q);
    var sel, keys := SelectQuery(b, q).value, ReadData(b, q.groupBy).value;
    CountOn(fadd, b, q);
    hide ExecuteOn, SelectQuery, ReadData, Pick, KeptCount, RowTotal, GroupRows;
    CountsAddUp(fadd, Pick(keys, sel, b.rowCount));
  }

  lemma CountOn(fadd: FloatAdd, b: Body, q: Query)
    requires SelectQuery(b, q).Ok?
    ensures KeptCount(SelectQuery(b, q).value, b.rowCount) <= b.rowCount
    ensures ExecuteOn(fadd, b, CountQuery(q))
         == Ok(QueryResult([COUNT_HEADER], [[Uint(KeptCount(SelectQuery(b, q).value, b.rowCount))]], true))
  {
    assert SelectQuery(b, CountQuery(q)) == SelectQuery(b, q);
    hide SelectQuery, KeptCount;
  }

  /** On every segment the int64 sums of a grouped query add up to SUM under the same WHERE, when
      both succeed. */
  lemma GroupSumsAddUp(fadd: FloatAdd, b: Body, q: Query)
    requires q.projection == ProjGrouped && q.groupAgg == AggSumColumn
    requires CheckSum(Columns(b.entries), q.sumColumn) == Ok(Int64)
    requires ExecuteOn(fadd, b, q).Ok? && ExecuteOn(fadd, b, SumQuery(q)).Ok?
    ensures var total := RowTotal(ExecuteOn(fadd, b, q).value.rows);
      && InInt64(total)
      && ExecuteOn(fadd, b, SumQuery(q)) == Ok(QueryResult([SumHeader(q.sumColumn)], [[Int(total)]], true))
  {
    GroupedOn(fadd, b, q);
    var sel, keys := SelectQuery(b, q).value, ReadData(b, q.groupBy).value;
    SumOn(fadd, b, q);
    var vals := ReadData(b, q.sumColumn).value;
    hide ExecuteOn, SelectQuery, ReadData, Pick, RowTotal, GroupRows, CheckSum, ExactSum, KeptCount;
    SumsAddUp(fadd, Pick(keys, sel, b.rowCount), Pick(vals, sel, b.rowCount));
  }

  lemma SumOn(fadd: FloatAdd, b: Body, q: Query)
    requires CheckSum(Columns(b.entries), q.sumColumn) == Ok(Int64) && SelectQuery(b, q).Ok?
    requires ExecuteOn(fadd, b, SumQuery(q)).Ok?
    ensures ReadData(b, q.sumColumn).Ok?
    ensures var sum := ExactSum(Pick(ReadData(b, q.sumColumn).value, SelectQuery(b, q).value, b.rowCount));
      InInt64(sum) && ExecuteOn(fadd, b, SumQuery(q)) == Ok(QueryResult([SumHeader(q.sumColumn)], [[Int(sum)]], true))
  {
    assert SelectQuery(b, SumQuery(q)) == SelectQuery(b, q);
    hide SelectQuery, ReadData, Pick, Overflows, ExactSum, ColumnIndex;
    NoOverflowIsExact(Pick(ReadData(b, q.sumColumn).value, SelectQuery(b, q).value, b.rowCount));
  }

  // ---- On rows ----

  /** What a grouped query that succeeds returns. */
  lemma GroupedAnswer(fadd: FloatAdd, columns: seq<Column>, rows: seq<Row>, q: Query)
    requires q.projection == ProjGrouped && RowByRow(fadd, columns, rows, q).Ok?
    ensures var kept := KeptRows(columns, rows, q);
      var keys := CellsOf(columns, kept, q.groupBy);
      var vals := if q.groupAgg == AggCountStar then keys else CellsOf(columns, kept, q.sumColumn);
      && (q.groupAgg == AggSumColumn ==> CheckSum(columns, q.sumColumn).Ok?)
      && var agg := if q.groupAgg == AggCountStar then CountRows else SumColumn(CheckSum(columns, q.sumColumn).value);
      && GroupRows(fadd, agg, keys, vals) == Ok(RowByRow(fadd, columns, rows, q).value.rows)
      && (q.filter.Some? ==> CheckFilter(columns, q.filter.value) == None)
  {
  }

  lemma GroupCountsAddUpOnRows(fadd: FloatAdd, columns: seq<Column>, rows: seq<Row>, q: Query)
    requires q.projection == ProjGrouped && q.groupAgg == AggCountStar && |rows| < TWO_64
    requires RowByRow(fadd, columns, rows, q).Ok?
    ensures var total := RowTotal(RowByRow(fadd, columns, rows, q).value.rows);
      && 0 <= total < TWO_64
      && RowByRow(fadd, columns, rows, CountQuery(q)) == Ok(QueryResult([COUNT_HEADER], [[Uint(total)]], true))
  {
    GroupedAnswer(fadd, columns, rows, q);
    CountAnswer(fadd, columns, rows, q);
    hide RowByRow, KeptRows, CheckFilter, CellsOf, GroupRows, RowTotal;
    CountsAddUp(fadd, CellsOf(columns, KeptRows(columns, rows, q), q.groupBy));
  }

  lemma CountAnswer(fadd: FloatAdd, columns: seq<Column>, rows: seq<Row>, q: Query)
    requires (q.filter.Some? ==> CheckFilter(columns, q.filter.value) == None) && |rows| < TWO_64
    ensures |KeptRows(columns, rows, q)| <= |rows|
    ensures RowByRow(fadd, columns, rows, CountQuery(q))
         == Ok(QueryResult([COUNT_HEADER], [[Uint(|KeptRows(columns, rows, q)|)]], true))
  {
    SameKept(columns, rows, q, CountQuery(q));
    hide KeptRows, CheckFilter;
  }

  lemma GroupSumsAddUpOnRows(fadd: FloatAdd, columns: seq<Column>, rows: seq<Row>, q: Query)
    requires q.projection == ProjGrouped && q.groupAgg == AggSumColumn
    requires CheckSum(columns, q.sumColumn) == Ok(Int64)
    requires RowByRow(fadd, columns, rows, q).Ok? && RowByRow(fadd, columns, rows, SumQuery(q)).Ok?
    ensures var total := RowTotal(RowByRow(fadd, columns, rows, q).value.rows);
      && InInt64(total)
      && RowByRow(fadd, columns, rows, SumQuery(q)) == Ok(QueryResult([SumHeader(q.sumColumn)], [[Int(total)]], true))
  {
    var kept := KeptRows(columns, rows, q);
    GroupedAnswer(fadd, columns, rows, q);
    SumAnswer(fadd, columns, rows, q);
    hide RowByRow, KeptRows, CheckFilter, CellsOf, GroupRows, RowTotal, CheckSum, ExactSum;
    SumsAddUp(fadd, CellsOf(columns, kept, q.groupBy), CellsOf(columns, kept, q.sumColumn));
  }

  lemma SumAnswer(fadd: FloatAdd, columns: seq<Column>, rows: seq<Row>, q: Query)
    requires CheckSum(columns, q.sumColumn) == Ok(Int64) && RowByRow(fadd, columns, rows, SumQuery(q)).Ok?
    ensures var sum := ExactSum(CellsOf(columns, KeptRows(columns, rows, q), q.sumColumn));
      && InInt64(sum)
      && RowByRow(fadd, columns, rows, SumQuery(q)) == Ok(QueryResult([SumHeader(q.sumColumn)], [[Int(sum)]], true))
  {
    SameKept(columns, rows, q, SumQuery(q));
    hide KeptRows, CheckFilter, CellsOf, Overflows, ExactSum;
    NoOverflowIsExact(CellsOf(columns, KeptRows(columns, rows, q), q.sumColumn));
  }

  lemma {:induction false} SameKept(columns: seq<Column>, rows: seq<Row>, q: Query, p: Query)
    requires q.filter == p.filter
    ensures KeptRows(columns, rows, q) == KeptRows(columns, rows, p)
    ensures |KeptRows(columns, rows, q)| <= |rows|
  {
    hide RowTrue;
    if rows != [] {
      SameKept(columns, rows[..|rows| - 1], q, p);
    }
  }
}
