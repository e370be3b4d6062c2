/** The columnar meaning of a query equals its row-by-row meaning whenever the columns of the
    segment are the columns of the rows. */
module Refinement {
  import opened Wrappers
  import opened Words
  import opened Types
  import opened QueryAst
  import opened SegmentFormat
  import opened Precedence
  import opened Compare
  import opened Aggregate
  import opened Eval

  /** The segment holds exactly the rows, column by column. */
  ghost predicate Holds(b: Body, columns: seq<Column>, rows: seq<Row>) {
    && Columns(b.entries) == columns && !HasDuplicate(columns) && AllKnown(columns)
    && b.rowCount == |rows| && AllRowsFit(columns, rows)
    && forall i :: 0 <= i < |columns| ==> DecodeColumn(b, columns[i].name) == Ok(ColumnOf(rows, i))
  }

  lemma ReadDataIsCells(b: Body, columns: seq<Column>, rows: seq<Row>, name: Bytes)
    requires Holds(b, columns, rows) && ColumnIndex(columns, name).Some?
    ensures ReadData(b, name) == Ok(CellsOf(columns, rows, name))
  {
    var i := ColumnIndex(columns, name).value;
    assert DecodeColumn(b, columns[i].name) == Ok(ColumnOf(rows, i));
    hide DecodeColumn, ColumnIndex, Names;
    forall r | 0 <= r < |rows| ensures ColumnOf(rows, i)[r] == Cell(columns, rows[r], name) {
      assert RowFits(columns, rows[r]);
    }
    assert ColumnOf(rows, i) == CellsOf(columns, rows, name);
  }

  // ---- Selection vectors ----

  lemma LeafIsRows(b: Body, columns: seq<Column>, rows: seq<Row>, c: Comparison)
    requires Holds(b, columns, rows)
    ensures match CheckComparison(columns, c)
            case Some(err) => SelectLeaf(b, c) == Err(err)
            case None =>
              && SelectLeaf(b, c).Ok?
              && forall r :: 0 <= r < |rows| ==> SelectLeaf(b, c).value[r] == RowMatches(columns, rows[r], c)
  {
  }

  lemma {:induction false} SelectIsRows(b: Body, columns: seq<Column>, rows: seq<Row>, e: FilterExpr)
    requires Holds(b, columns, rows)
    ensures match CheckFilter(columns, e)
            case Some(err) => Select(b, e) == Err(err)
            case None =>
              && Select(b, e).Ok?
              && forall r :: 0 <= r < |rows| ==> Select(b, e).value[r] == RowTrue(columns, rows[r], e)
  {
    hide Holds, SelectLeaf, CheckComparison, RowMatches;
    if e.comparison.Some? {
      LeafIsRows(b, columns, rows, e.comparison.value);
    } else if e.and.Nodes? {
      SelectAllIsRows(b, columns, rows, e.and.list, true);
    } else if e.or.Nodes? {
      SelectAllIsRows(b, columns, rows, e.or.list, false);
    }
  }

  /** All, or some, of the children are true of a row. */
  ghost predicate Joined(columns: seq<Column>, row: Row, es: seq<FilterExpr>, conj: bool) {
    if conj then forall k :: 0 <= k < |es| ==> RowTrue(columns, row, es[k])
    else exists k :: 0 <= k < |es| && RowTrue(columns, row, es[k])
  }

  lemma JoinedStep(columns: seq<Column>, row: Row, es: seq<FilterExpr>, conj: bool)
    requires es != []
    ensures Joined(columns, row, es, conj)
       <==> if conj then RowTrue(columns, row, es[0]) && Joined(columns, row, es[1..], conj)
            else RowTrue(columns, row, es[0]) || Joined(columns, row, es[1..], conj)
  {
  }

  lemma {:induction false} SelectAllIsRows(b: Body, columns: seq<Column>, rows: seq<Row>, es: seq<FilterExpr>, conj: bool)
    requires Holds(b, columns, rows)
    ensures match CheckAll(columns, es)
            case Some(err) => SelectAll(b, es, conj) == Err(err)
            case None =>
              && SelectAll(b, es, conj).Ok?
              && forall r :: 0 <= r < |rows| ==> SelectAll(b, es, conj).value[r] == Joined(columns, rows[r], es, conj)
  {
    assert b.rowCount == |rows|;
    hide Holds, RowTrue;
    if es != [] {
      SelectIsRows(b, columns, rows, es[0]);
      SelectAllIsRows(b, columns, rows, es[1..], conj);
      forall r | 0 <= r < |rows|
        ensures Joined(columns, rows[r], es, conj)
           <==> if conj then RowTrue(columns, rows[r], es[0]) && Joined(columns, rows[r], es[1..], conj)
                else RowTrue(columns, rows[r], es[0]) || Joined(columns, rows[r], es[1..], conj)
      {
        JoinedStep(columns, rows[r], es, conj);
      }
      hide Joined, Select, CheckFilter;
    }
  }

  /** The vector keeps exactly the rows the filter keeps. */
  ghost predicate Agrees(sel: Option<seq<bool>>, columns: seq<Column>, rows: seq<Row>, q: Query) {
    && (sel.Some? ==> |sel.value| == |rows|)
    && forall r :: 0 <= r < |rows| ==> (Keeps(sel, r) <==> RowKept(columns, rows[r], q))
  }

  lemma SelectQueryIsRows(b: Body, columns: seq<Column>, rows: seq<Row>, q: Query)
    requires Holds(b, columns, rows)
    ensures if q.filter.Some? && CheckFilter(columns, q.filter.value).Some?
            then SelectQuery(b, q) == Err(CheckFilter(columns, q.filter.value).value)
            else SelectQuery(b, q).Ok? && Agrees(SelectQuery(b, q).value, columns, rows, q)
  {
    if q.filter.Some? {
      SelectIsRows(b, columns, rows, q.filter.value);
      hide Select, CheckFilter, RowTrue;
    }
  }

  // ---- From picked cells to kept rows ----

  lemma {:induction false} PickIsKept(columns: seq<Column>, rows: seq<Row>, q: Query, sel: Option<seq<bool>>, name: Bytes, n: nat)
    requires Agrees(sel, columns, rows, q) && n <= |rows|
    ensures Pick(CellsOf(columns, rows, name), sel, n) == CellsOf(columns, KeptRows(columns, rows[..n], q), name)
    ensures KeptCount(sel, n) == |KeptRows(columns, rows[..n], q)|
  {
    hide Cell, RowKept;
    if n > 0 {
      PickIsKept(columns, rows, q, sel, name, n - 1);
      assert rows[..n][..n - 1] == rows[..n - 1] && rows[..n][n - 1] == rows[n - 1];
      var init := KeptRows(columns, rows[..n - 1], q);
      assert Keeps(sel, n - 1) <==> RowKept(columns, rows[n - 1], q);
      hide Agrees, Keeps;
      assert CellsOf(columns, init + [rows[n - 1]], name) == CellsOf(columns, init, name) + [Cell(columns, rows[n - 1], name)];
    }
  }

  lemma {:induction false} ReadAllIsCells(b: Body, columns: seq<Column>, rows: seq<Row>, names: seq<Bytes>)
    requires Holds(b, columns, rows) && AllExist(columns, names)
    ensures ReadAll(b, names).Ok?
    ensures forall j :: 0 <= j < |names| ==> ReadAll(b, names).value[j] == CellsOf(columns, rows, names[j])
  {
    hide Holds, ReadData;
    if names != [] {
      assert ColumnIndex(columns, names[0]).Some?;
      assert AllExist(columns, names[1..]);
      hide ColumnIndex;
      ReadDataIsCells(b, columns, rows, names[0]);
      ReadAllIsCells(b, columns, rows, names[1..]);
      assert forall j :: 1 <= j < |names| ==> names[j] == names[1..][j - 1];
    }
  }

  lemma RowAtIsCells(columns: seq<Column>, rows: seq<Row>, names: seq<Bytes>, cols: seq<seq<Value>>, i: nat)
    requires |cols| == |names| && i < |rows|
    requires forall j :: 0 <= j < |names| ==> |cols[j]| == |rows| && cols[j] == CellsOf(columns, rows, names[j])
    ensures RowAt(cols, i) == CellsOfRow(columns, rows[i], names)
  {
  }

  lemma {:induction false} ProjectIsKept(columns: seq<Column>, rows: seq<Row>, q: Query, sel: Option<seq<bool>>,
      names: seq<Bytes>, cols: seq<seq<Value>>, n: nat)
    requires Agrees(sel, columns, rows, q) && n <= |rows| && |cols| == |names|
    requires forall j :: 0 <= j < |names| ==> |cols[j]| == |rows| && cols[j] == CellsOf(columns, rows, names[j])
    ensures ProjectRows(cols, sel, n) == ProjectedRows(columns, KeptRows(columns, rows[..n], q), names)
  {
    hide Cell, RowKept;
    if n > 0 {
      ProjectIsKept(columns, rows, q, sel, names, cols, n - 1);
      RowAtIsCells(columns, rows, names, cols, n - 1);
      assert rows[..n][..n - 1] == rows[..n - 1] && rows[..n][n - 1] == rows[n - 1];
      var init, last := KeptRows(columns, rows[..n - 1], q), rows[n - 1];
      assert Keeps(sel, n - 1) <==> RowKept(columns, last, q);
      hide Agrees, Keeps, RowAt;
      assert ProjectedRows(columns, init + [last], names)
          == ProjectedRows(columns, init, names) + [CellsOfRow(columns, last, names)];
    }
  }

  // ---- The projections ----

  lemma SumIsRows(fadd: FloatAdd, b: Body, columns: seq<Column>, rows: seq<Row>, q: Query, sel: Option<seq<bool>>)
    requires Holds(b, columns, rows) && Agrees(sel, columns, rows, q)
    ensures ExecSum(fadd, b, q, sel)
         == match CheckSum(columns, q.sumColumn)
            case Err(err) => Err(err)
            case Ok(t) => SumResult(fadd, q.sumColumn, t, CellsOf(columns, KeptRows(columns, rows, q), q.sumColumn))
  {
    hide ReadData, SumResult, DecodeColumn;
    if CheckSum(columns, q.sumColumn).Ok? {
      ReadDataIsCells(b, columns, rows, q.sumColumn);
      PickIsKept(columns, rows, q, sel, q.sumColumn, |rows|);
      assert rows[..|rows|] == rows;
    }
  }

  lemma ProjectIsRows(b: Body, columns: seq<Column>, rows: seq<Row>, q: Query, sel: Option<seq<bool>>, names: seq<Bytes>)
    requires Holds(b, columns, rows) && Agrees(sel, columns, rows, q) && AllExist(columns, names)
    ensures ExecProject(b, names, sel)
         == Ok(QueryResult(names, ProjectedRows(columns, KeptRows(columns, rows, q), names), false))
  {
    hide ReadAll, DecodeColumn, AllExist;
    ReadAllIsCells(b, columns, rows, names);
    ProjectIsKept(columns, rows, q, sel, names, ReadAll(b, names).value, |rows|);
    assert rows[..|rows|] == rows;
    assert b.rowCount == |rows|;
    hide Holds, ProjectRows, KeptRows, ProjectedRows;
  }

  lemma GroupedIsRows(fadd: FloatAdd, b: Body, columns: seq<Column>, rows: seq<Row>, q: Query, sel: Option<seq<bool>>)
    requires Holds(b, columns, rows) && Agrees(sel, columns, rows, q)
    ensures ExecGrouped(fadd, b, q, sel) == GroupRowByRow(fadd, columns, KeptRows(columns, rows, q), q)
  {
    hide ReadData, GroupResult, DecodeColumn, ColumnIndex;
    assert rows[..|rows|] == rows;
    assert b.rowCount == |rows|;
    if ColumnIndex(columns, q.groupBy).Some? {
      ReadDataIsCells(b, columns, rows, q.groupBy);
      PickIsKept(columns, rows, q, sel, q.groupBy, |rows|);
      if q.groupAgg == AggSumColumn && CheckSum(columns, q.sumColumn).Ok? {
        ReadDataIsCells(b, columns, rows, q.sumColumn);
        PickIsKept(columns, rows, q, sel, q.sumColumn, |rows|);
      }
    }
    hide Pick, KeptRows, CellsOf, AllRowsFit, Agrees;
  }

  /** The executor's meaning on columns is the row-by-row meaning: same columns, same rows in
      the same order, and the same error in the same cases. */
  lemma ExecuteIsRowByRow(fadd: FloatAdd, b: Body, columns: seq<Column>, rows: seq<Row>, q: Query)
    requires Holds(b, columns, rows)
    ensures ExecuteOn(fadd, b, q) == RowByRow(fadd, columns, rows, q)
  {
    var names := ProjectionColumns(columns, q);
    assert Columns(b.entries) == columns && b.rowCount == |rows|;
    SelectQueryIsRows(b, columns, rows, q);
    if AllExist(columns, names) && SelectQuery(b, q).Ok? {
      var sel := SelectQuery(b, q).value;
      match q.projection
      case ProjCountStar =>
        PickIsKept(columns, rows, q, sel, [], |rows|);
        assert rows[..|rows|] == rows;
      case ProjSumColumn => SumIsRows(fadd, b, columns, rows, q, sel);
      case ProjGrouped => GroupedIsRows(fadd, b, columns, rows, q, sel);
      case _ => ProjectIsRows(b, columns, rows, q, sel, names);
    }
    hide ExecSum, ExecGrouped, ExecProject, GroupRowByRow, SelectQuery, KeptRows, SumResult, ProjectedRows, AllExist;
    hide Holds, Agrees, CheckFilter, CountResult, CheckSum;
  }
}
