/** What the answer to a query is, described without an evaluator: which rows are selected, what
    stands in every cell of the result, and when there is no result. The row-by-row meaning is
    proved to be exactly that. */
module Reference {
  import opened Wrappers
  import opened Words
  import opened Types
  import opened QueryAst
  import opened Precedence
  import opened Parser
  import opened Grammar
  import opened Compare
  import opened Aggregate
  import opened Eval
  import opened WhereClause

  /** Rows of a table: one value of its type for each of differently named columns. */
  ghost predicate Tabular(columns: seq<Column>, rows: seq<Row>) {
    !HasDuplicate(columns) && AllKnown(columns) && AllRowsFit(columns, rows)
  }

  // ---- Choosing positions ----

  ghost predicate Ascending(idx: seq<nat>, n: nat) {
    && (forall k :: 0 <= k < |idx| ==> idx[k] < n)
    && (forall a, b :: 0 <= a < b < |idx| ==> idx[a] < idx[b])
  }

  /** idx lists exactly the positions below n that satisfy p, in order. */
  ghost predicate Chosen(idx: seq<nat>, n: nat, p: nat -> bool) {
    Ascending(idx, n) && forall r: nat :: r < n ==> (r in idx <==> p(r))
  }

  function At<T>(xs: seq<T>, idx: seq<nat>): (ys: seq<T>)
    requires forall k :: 0 <= k < |idx| ==> idx[k] < |xs|
    ensures |ys| == |idx| && forall k :: 0 <= k < |idx| ==> ys[k] == xs[idx[k]]
  {
    seq(|idx|, k requires 0 <= k < |idx| => xs[idx[k]])
  }

  /** One more position at the end is chosen or not. */
  lemma ChosenNext(idx: seq<nat>, n: nat, p: nat -> bool)
    requires Chosen(idx, n, p)
    ensures Chosen(if p(n) then idx + [n] else idx, n + 1, p)
  {
    var next := if p(n) then idx + [n] else idx;
    forall r: nat | r < n + 1 ensures r in next <==> p(r) {
      if r == n && r in idx { assert false; }
    }
  }

  lemma ChosenSame(idx: seq<nat>, n: nat, p: nat -> bool, q: nat -> bool)
    requires Chosen(idx, n, p) && forall r: nat :: r < n ==> p(r) == q(r)
    ensures Chosen(idx, n, q)
  {
  }

  // ---- Which rows ----

  /** The comparison holds of the row's cell in the first column of its name. */
  ghost predicate Passes(columns: seq<Column>, row: Row, c: Comparison) {
    exists i: nat :: FirstNamed(columns, c.column, i) && i < |row| && Compares(row[i], c.op, c.value)
  }

  ghost function Tests(columns: seq<Column>, row: Row): Comparison -> bool {
    c => Passes(columns, row, c)
  }

  /** There is no WHERE, or its condition, AND before OR, holds of the row. */
  ghost predicate Wanted(columns: seq<Column>, row: Row, q: Query)
    requires Shaped(q)
  {
    q.filter.Some? ==>
      StandardReading(Conditions(q.filter.value).0, Conditions(q.filter.value).1, Tests(columns, row))
  }

  ghost function WantedAt(columns: seq<Column>, rows: seq<Row>, q: Query): nat -> bool
    requires Shaped(q)
  {
    (r: nat) => r < |rows| && Wanted(columns, rows[r], q)
  }

  /** sel is the rows the query wants, in order. */
  ghost predicate Selected(sel: seq<Row>, columns: seq<Column>, rows: seq<Row>, q: Query)
    requires Shaped(q)
  {
    exists idx :: Chosen(idx, |rows|, WantedAt(columns, rows, q)) && sel == At(rows, idx)
  }

  // ---- What stands in a result ----

  ghost predicate CellIs(columns: seq<Column>, row: Row, name: Bytes, v: Value) {
    exists i: nat :: FirstNamed(columns, name, i) && i < |row| && row[i] == v
  }

  /** vs are the cells of the rows in the column of that name. */
  ghost predicate CellsAre(columns: seq<Column>, rows: seq<Row>, name: Bytes, vs: seq<Value>) {
    |vs| == |rows| && forall k :: 0 <= k < |rows| ==> CellIs(columns, rows[k], name, vs[k])
  }

  ghost predicate ColumnHas(columns: seq<Column>, name: Bytes, t: ColumnType) {
    exists i: nat :: FirstNamed(columns, name, i) && columns[i].ty == t
  }

  /** v is the sum of the cells of an int64 or float64 column. */
  ghost predicate IsSum(fadd: FloatAdd, t: ColumnType, vs: seq<Value>, v: Value) {
    || (t == Int64 && v.Int? && exists xs: seq<int64> :: vs == Ints(xs) && v.i == Sum(xs))
    || (t == Float64 && v.Float? && exists bits: seq<u64> :: vs == Floats(bits) && v.bits == Fold(fadd, 0, bits))
  }

  ghost predicate SumsColumn(fadd: FloatAdd, columns: seq<Column>, rows: seq<Row>, name: Bytes, v: Value) {
    exists t, vs :: ColumnHas(columns, name, t) && CellsAre(columns, rows, name, vs) && IsSum(fadd, t, vs, v)
  }

  /** Position p is the first that holds its key. */
  ghost function FirstWithKey(keys: seq<Value>): nat -> bool {
    (p: nat) => p < |keys| && forall e: nat :: e < p ==> !Same(keys[e], keys[p])
  }

  ghost function WithKey(keys: seq<Value>, k: Value): nat -> bool {
    (p: nat) => p < |keys| && Same(keys[p], k)
  }

  /** v is the aggregate of the rows whose key is k. */
  ghost predicate IsGroupCell(fadd: FloatAdd, columns: seq<Column>, sel: seq<Row>, keys: seq<Value>, q: Query, k: Value, v: Value)
    requires |keys| == |sel|
  {
    exists members :: Chosen(members, |sel|, WithKey(keys, k)) &&
      if q.groupAgg == AggCountStar then v == Uint(|members| % 0x1_0000_0000_0000_0000)
      else SumsColumn(fadd, columns, At(sel, members), q.sumColumn, v)
  }

  /** One row for each key, where the key first occurs, with the key and its group's cell. */
  ghost predicate AreGroupRows(fadd: FloatAdd, columns: seq<Column>, sel: seq<Row>, keys: seq<Value>, q: Query, rows: seq<Row>)
    requires |keys| == |sel|
  {
    exists first :: Chosen(first, |keys|, FirstWithKey(keys)) && |rows| == |first| &&
      forall j :: 0 <= j < |rows| ==>
        |rows[j]| == 2 && rows[j][0] == keys[first[j]]
        && IsGroupCell(fadd, columns, sel, keys, q, keys[first[j]], rows[j][1])
  }

  /** The result of a query over the selected rows. */
  ghost predicate IsResult(fadd: FloatAdd, columns: seq<Column>, sel: seq<Row>, q: Query, res: QueryResult) {
    match q.projection
    case ProjStar =>
      && |res.columns| == |columns| && (forall i :: 0 <= i < |columns| ==> res.columns[i] == columns[i].name)
      && res.rows == sel && !res.isAggregate
    case ProjColumns =>
      && res.columns == q.columns && |res.rows| == |sel| && !res.isAggregate
      && forall k :: 0 <= k < |sel| ==> IsProjection(columns, sel[k], q.columns, res.rows[k])
    case ProjCountStar =>
      res.columns == [Ascii("COUNT(*)")] && res.rows == [[Uint(|sel| % 0x1_0000_0000_0000_0000)]] && res.isAggregate
    case ProjSumColumn =>
      && res.columns == [Ascii("SUM(") + q.sumColumn + Ascii(")")] && res.isAggregate
      && |res.rows| == 1 && |res.rows[0]| == 1 && SumsColumn(fadd, columns, sel, q.sumColumn, res.rows[0][0])
    case ProjGrouped =>
      && res.columns == [q.groupBy, if q.groupAgg == AggCountStar then Ascii("COUNT(*)")
                                    else Ascii("SUM(") + q.sumColumn + Ascii(")")]
      && !res.isAggregate
      && exists keys :: CellsAre(columns, sel, q.groupBy, keys) && AreGroupRows(fadd, columns, sel, keys, q, res.rows)
  }

  ghost predicate IsProjection(columns: seq<Column>, row: Row, names: seq<Bytes>, out: Row) {
    |out| == |names| && forall j :: 0 <= j < |names| ==> CellIs(columns, row, names[j], out[j])
  }

  // ---- The evaluator keeps the wanted rows ----

  lemma CellExactly(columns: seq<Column>, row: Row, name: Bytes, i: nat)
    requires RowFits(columns, row) && FirstNamed(columns, name, i)
    ensures Cell(columns, row, name) == row[i] && CellIs(columns, row, name, row[i])
    ensures HasType(row[i], columns[i].ty)
  {
    ColumnIndexExactly(columns, name, i);
    hide ColumnIndex;
  }

  lemma TestExactly(columns: seq<Column>, row: Row, c: Comparison)
    requires RowFits(columns, row) && CheckComparison(columns, c) == None
    ensures RowMatches(columns, row, c) <==> Passes(columns, row, c)
  {
    ComparisonChecked(columns, c);
    var i: nat :| FirstNamed(columns, c.column, i) && HasType(c.value, columns[i].ty);
    CellExactly(columns, row, c.column, i);
    MatchesExactly(row[i], c.op, c.value, columns[i].ty);
    ColumnIndexExactly(columns, c.column, i);
    forall k: nat | FirstNamed(columns, c.column, k) ensures k == i {
      ColumnIndexExactly(columns, c.column, k);
    }
    hide Matches, Compares, ColumnIndex, CheckComparison;
  }

  lemma ReadingAgrees(cs: seq<Comparison>, ops: seq<Connective>, f: Comparison -> bool, g: Comparison -> bool)
    requires |cs| == |ops| + 1 && forall i :: 0 <= i < |cs| ==> f(cs[i]) == g(cs[i])
    ensures StandardReading(cs, ops, f) <==> StandardReading(cs, ops, g)
  {
    forall a: nat, b: nat ensures BlockTrue(cs, ops, f, a, b) <==> BlockTrue(cs, ops, g, a, b) {
    }
    hide BlockTrue;
  }

  lemma WantedExactly(columns: seq<Column>, row: Row, q: Query)
    requires Shaped(q) && RowFits(columns, row)
    requires q.filter.Some? ==> CheckFilter(columns, q.filter.value) == None
    ensures RowKept(columns, row, q) <==> Wanted(columns, row, q)
  {
    if q.filter.Some? {
      var e := q.filter.value;
      var (cs, ops) := Conditions(e);
      KeptExactly(columns, row, q);
      TreeRecovered(e);
      LeavesInOrder(cs, ops);
      FilterFirstError(columns, e);
      FirstErrorExactly(CheckOn(columns), cs);
      hide Conditions, WhereTree, TreeLeaves, CheckFilter, FirstError, RowKept, StandardReading;
      forall i | 0 <= i < |cs| ensures RowTest(columns, row)(cs[i]) == Tests(columns, row)(cs[i]) {
        assert CheckOn(columns)(cs[i]) == None;
        TestExactly(columns, row, cs[i]);
      }
      ReadingAgrees(cs, ops, RowTest(columns, row), Tests(columns, row));
    }
  }

  lemma {:induction false} KeptAreSelected(columns: seq<Column>, rows: seq<Row>, q: Query) returns (idx: seq<nat>)
    requires Shaped(q) && AllRowsFit(columns, rows)
    requires q.filter.Some? ==> CheckFilter(columns, q.filter.value) == None
    ensures Chosen(idx, |rows|, WantedAt(columns, rows, q)) && KeptRows(columns, rows, q) == At(rows, idx)
  {
    hide RowKept, Wanted, CheckFilter, Shaped;
    if rows == [] {
      idx := [];
    } else {
      var n := |rows| - 1;
      assert AllRowsFit(columns, rows[..n]) && RowFits(columns, rows[n]);
      var init := KeptAreSelected(columns, rows[..n], q);
      WantedExactly(columns, rows[n], q);
      AtNext(rows, init);
      ConcatNil(KeptRows(columns, rows[..n], q));
      assert WantedAt(columns, rows, q)(n) == Wanted(columns, rows[n], q);
      assert forall r: nat :: r < n ==> WantedAt(columns, rows[..n], q)(r) == WantedAt(columns, rows, q)(r);
      hide RowFits, AllRowsFit, At, WantedAt;
      ChosenSame(init, n, WantedAt(columns, rows[..n], q), WantedAt(columns, rows, q));
      ChosenNext(init, n, WantedAt(columns, rows, q));
      idx := if Wanted(columns, rows[n], q) then init + [n] else init;
    }
  }

  lemma AllSelected(columns: seq<Column>, rows: seq<Row>, q: Query, sel: seq<Row>)
    requires Shaped(q) && q.filter == None && Selected(sel, columns, rows, q)
    ensures sel == rows
  {
    var idx :| Chosen(idx, |rows|, WantedAt(columns, rows, q)) && sel == At(rows, idx);
    forall r: nat | r < |rows| ensures r in idx { assert WantedAt(columns, rows, q)(r); }
    AllPositions(idx, |rows|);
  }

  lemma {:induction false} AscendingLength(idx: seq<nat>, n: nat)
    requires Ascending(idx, n)
    ensures |idx| <= n
    decreases |idx|
  {
    if idx != [] {
      AscendingLength(idx[..|idx| - 1], idx[|idx| - 1]);
    }
  }

  lemma {:induction false} AllPositions(idx: seq<nat>, n: nat)
    requires Ascending(idx, n) && forall r: nat :: r < n ==> r in idx
    ensures |idx| == n && forall k :: 0 <= k < n ==> idx[k] == k
    decreases n
  {
    AscendingLength(idx, n);
    if n > 0 {
      assert n - 1 in idx;
      var k :| 0 <= k < |idx| && idx[k] == n - 1;
      var last := idx[|idx| - 1];
      assert last < n;
      assert k == |idx| - 1;
      forall r: nat | r < n - 1 ensures r in idx[..k] {
        assert r in idx;
      }
      AllPositions(idx[..k], n - 1);
    }
  }

  // ---- The evaluator's cells ----

  lemma CellsExactly(columns: seq<Column>, rows: seq<Row>, name: Bytes, i: nat)
    requires AllRowsFit(columns, rows) && FirstNamed(columns, name, i)
    ensures CellsAre(columns, rows, name, CellsOf(columns, rows, name))
    ensures AllOfType(CellsOf(columns, rows, name), columns[i].ty)
  {
    hide RowFits, Cell, HasType, CellIs;
    forall k | 0 <= k < |rows|
      ensures CellIs(columns, rows[k], name, CellsOf(columns, rows, name)[k])
      ensures HasType(CellsOf(columns, rows, name)[k], columns[i].ty)
    {
      CellExactly(columns, rows[k], name, i);
    }
  }

  /** The column SUM needs: it exists and is of a type that adds up. */
  lemma SumCheckedExactly(columns: seq<Column>, name: Bytes)
    ensures CheckSum(columns, name) == Err(UnknownColumn) <==> !Names(columns, name)
    ensures forall t :: CheckSum(columns, name) == Ok(t) <==> (t == Int64 || t == Float64) && ColumnHas(columns, name, t)
    ensures CheckSum(columns, name) == Err(TypeMismatch)
       <==> Names(columns, name) && !ColumnHas(columns, name, Int64) && !ColumnHas(columns, name, Float64)
    ensures CheckSum(columns, name).Ok? || CheckSum(columns, name) == Err(UnknownColumn) || CheckSum(columns, name) == Err(TypeMismatch)
  {
    var found := ColumnIndex(columns, name);
    forall i: nat ensures found == Some(i) <==> FirstNamed(columns, name, i) {
      ColumnIndexExactly(columns, name, i);
    }
    hide ColumnIndex;
    if found.Some? { assert FirstNamed(columns, name, found.value); }
    hide FirstNamed;
  }

  lemma SumCellExactly(fadd: FloatAdd, t: ColumnType, vs: seq<Value>)
    requires AllOfType(vs, t) && (t == Int64 || t == Float64)
    ensures !(t == Int64 && Overflows(vs)) ==> IsSum(fadd, t, vs, SumCell(fadd, t, vs))
  {
    if t == Int64 {
      var xs := IntsOfColumn(vs);
      ExactSumIsSum(xs);
      if !Overflows(vs) { NoOverflowIsExact(vs); }
    } else {
      var bits := FloatsOfColumn(vs);
      FloatSumIsFold(fadd, bits);
    }
    hide Overflows, Sum, Fold, ExactSum, FloatSum;
  }

  lemma SumColumnExactly(fadd: FloatAdd, columns: seq<Column>, rows: seq<Row>, name: Bytes, t: ColumnType)
    requires AllRowsFit(columns, rows) && CheckSum(columns, name) == Ok(t)
    requires !(t == Int64 && Overflows(CellsOf(columns, rows, name)))
    ensures SumsColumn(fadd, columns, rows, name, SumCell(fadd, t, CellsOf(columns, rows, name)))
  {
    SumCheckedExactly(columns, name);
    var i: nat :| FirstNamed(columns, name, i) && columns[i].ty == t;
    CellsExactly(columns, rows, name, i);
    SumCellExactly(fadd, t, CellsOf(columns, rows, name));
    hide CheckSum, CellsOf, CellsAre, IsSum, SumCell, Overflows, FirstNamed, AllOfType;
  }

  // ---- The evaluator's groups ----

  lemma {:induction false} FirstOccurrencesChosen(keys: seq<Value>, t: ColumnType) returns (first: seq<nat>)
    requires AllOfType(keys, t)
    ensures Chosen(first, |keys|, FirstWithKey(keys)) && FirstOccurrences(keys) == At(keys, first)
  {
    if keys == [] {
      first := [];
    } else {
      var n := |keys| - 1;
      assert AllOfType(keys[..n], t);
      var init := FirstOccurrencesChosen(keys[..n], t);
      SeenExactly(keys, n, t);
      AtNext(keys, init);
      assert forall p: nat :: p < n ==> FirstWithKey(keys[..n])(p) == FirstWithKey(keys)(p) by { hide Same; }
      hide AllOfType, Seen, FirstWithKey, At;
      ChosenSame(init, n, FirstWithKey(keys[..n]), FirstWithKey(keys));
      ChosenNext(init, n, FirstWithKey(keys));
      first := if FirstWithKey(keys)(n) then init + [n] else init;
    }
  }

  lemma AtNext<T>(xs: seq<T>, idx: seq<nat>)
    requires xs != [] && forall k :: 0 <= k < |idx| ==> idx[k] < |xs| - 1
    ensures At(xs, idx) == At(xs[..|xs| - 1], idx)
    ensures At(xs, idx + [|xs| - 1]) == At(xs[..|xs| - 1], idx) + [xs[|xs| - 1]]
  {
  }

  lemma SeenExactly(keys: seq<Value>, n: nat, t: ColumnType)
    requires AllOfType(keys, t) && n < |keys|
    ensures Seen(keys[..n], keys[n]) <==> !FirstWithKey(keys)(n)
  {
    forall e: nat | e < n ensures KeyEqual(keys[..n][e], keys[n]) <==> Same(keys[e], keys[n]) {
      assert HasType(keys[e], t) && HasType(keys[n], t);
      KeyEqualExactly(keys[e], keys[n], t);
    }
    hide KeyEqual, Same, HasType;
    if !FirstWithKey(keys)(n) {
      var e: nat :| e < n && Same(keys[e], keys[n]);
      assert KeyEqual(keys[..n][e], keys[n]);
    }
  }

  /** The positions of the members of a group. */
  function MemberPositions(keys: seq<Value>, k: Value): (idx: seq<nat>)
    ensures forall j :: 0 <= j < |idx| ==> idx[j] < |keys|
  {
    if keys == [] then []
    else
      var n := |keys| - 1;
      MemberPositions(keys[..n], k) + if KeyEqual(keys[n], k) then [n] else []
  }

  lemma {:induction false} MembersAt(keys: seq<Value>, vals: seq<Value>, k: Value)
    requires |vals| == |keys|
    ensures Members(keys, vals, k) == At(vals, MemberPositions(keys, k))
  {
    if keys != [] {
      var n := |keys| - 1;
      MembersAt(keys[..n], vals[..n], k);
      AtNext(vals, MemberPositions(keys[..n], k));
      ConcatNil(MemberPositions(keys[..n], k));
      ConcatNil(Members(keys[..n], vals[..n], k));
      hide KeyEqual, At;
    }
  }

  lemma {:induction false} MembersChosen(keys: seq<Value>, k: Value, t: ColumnType)
    requires AllOfType(keys, t) && HasType(k, t)
    ensures Chosen(MemberPositions(keys, k), |keys|, WithKey(keys, k))
  {
    if keys != [] {
      var n := |keys| - 1;
      assert AllOfType(keys[..n], t) && HasType(keys[n], t);
      MembersChosen(keys[..n], k, t);
      var init := MemberPositions(keys[..n], k);
      KeyEqualExactly(keys[n], k, t);
      assert forall p: nat :: p < n ==> WithKey(keys[..n], k)(p) == WithKey(keys, k)(p) by { hide Same; }
      assert WithKey(keys, k)(n) == Same(keys[n], k);
      ConcatNil(init);
      hide AllOfType, HasType, Same, KeyEqual, WithKey;
      ChosenSame(init, n, WithKey(keys[..n], k), WithKey(keys, k));
      ChosenNext(init, n, WithKey(keys, k));
      hide Chosen;
    }
  }

  lemma CellsOfChosen(columns: seq<Column>, rows: seq<Row>, name: Bytes, idx: seq<nat>)
    requires forall k :: 0 <= k < |idx| ==> idx[k] < |rows|
    ensures CellsOf(columns, At(rows, idx), name) == At(CellsOf(columns, rows, name), idx)
  {
    hide Cell;
  }

  lemma GroupCellExactly(fadd: FloatAdd, columns: seq<Column>, sel: seq<Row>, q: Query, keys: seq<Value>, t: ColumnType, k: Value)
    requires AllRowsFit(columns, sel) && |keys| == |sel| && AllOfType(keys, t) && HasType(k, t)
    requires q.groupAgg == AggSumColumn ==>
      CheckSum(columns, q.sumColumn).Ok?
      && !(CheckSum(columns, q.sumColumn).value == Int64 && Overflows(Members(keys, CellsOf(columns, sel, q.sumColumn), k)))
    ensures var agg := if q.groupAgg == AggCountStar then CountRows else SumColumn(CheckSum(columns, q.sumColumn).value);
      var vals := if q.groupAgg == AggCountStar then keys else CellsOf(columns, sel, q.sumColumn);
      IsGroupCell(fadd, columns, sel, keys, q, k, AggregateCell(fadd, agg, Members(keys, vals, k)))
  {
    var members := MemberPositions(keys, k);
    MembersChosen(keys, k, t);
    MembersAt(keys, keys, k);
    if q.groupAgg == AggSumColumn {
      MembersAt(keys, CellsOf(columns, sel, q.sumColumn), k);
      CellsOfChosen(columns, sel, q.sumColumn, members);
      assert forall m :: 0 <= m < |members| ==> RowFits(columns, At(sel, members)[m]);
      hide RowFits, Members, CellsOf, Overflows, CheckSum, SumCell, SumsColumn;
      SumColumnExactly(fadd, columns, At(sel, members), q.sumColumn, CheckSum(columns, q.sumColumn).value);
    }
  }

  // ---- The result ----

  lemma Headers()
    ensures COUNT_HEADER == Ascii("COUNT(*)")
    ensures forall col :: SumHeader(col) == Ascii("SUM(") + col + Ascii(")")
  {
    var s, p := Ascii("SUM("), Ascii(")");
    assert s == [0x53, 0x55, 0x4D, 0x28] && p == [0x29];
    hide Ascii;
  }

  lemma CountResultExactly(columns: seq<Column>, sel: seq<Row>, q: Query, fadd: FloatAdd)
    requires q.projection == ProjCountStar
    ensures IsResult(fadd, columns, sel, q, CountResult(|sel|))
  {
    Headers();
    hide Ascii;
  }

  lemma SumResultExactly(fadd: FloatAdd, columns: seq<Column>, sel: seq<Row>, q: Query, t: ColumnType)
    requires q.projection == ProjSumColumn && AllRowsFit(columns, sel) && CheckSum(columns, q.sumColumn) == Ok(t)
    requires SumResult(fadd, q.sumColumn, t, CellsOf(columns, sel, q.sumColumn)).Ok?
    ensures IsResult(fadd, columns, sel, q, SumResult(fadd, q.sumColumn, t, CellsOf(columns, sel, q.sumColumn)).value)
  {
    Headers();
    hide Ascii, SumCell, CellsOf, Overflows, SumsColumn, CheckSum, AllRowsFit;
    SumColumnExactly(fadd, columns, sel, q.sumColumn, t);
  }

  lemma ProjectionExactly(columns: seq<Column>, row: Row, names: seq<Bytes>)
    requires RowFits(columns, row) && AllExist(columns, names)
    ensures IsProjection(columns, row, names, CellsOfRow(columns, row, names))
  {
    forall j | 0 <= j < |names| ensures CellIs(columns, row, names[j], CellsOfRow(columns, row, names)[j]) {
      var i := ColumnIndex(columns, names[j]).value;
      ColumnIndexExactly(columns, names[j], i);
      CellExactly(columns, row, names[j], i);
    }
    hide ColumnIndex, Cell;
  }

  lemma ColumnsResultExactly(fadd: FloatAdd, columns: seq<Column>, sel: seq<Row>, q: Query)
    requires q.projection == ProjColumns && AllRowsFit(columns, sel) && AllExist(columns, q.columns)
    ensures IsResult(fadd, columns, sel, q, QueryResult(q.columns, ProjectedRows(columns, sel, q.columns), false))
  {
    forall k | 0 <= k < |sel| ensures IsProjection(columns, sel[k], q.columns, CellsOfRow(columns, sel[k], q.columns)) {
      assert RowFits(columns, sel[k]);
      ProjectionExactly(columns, sel[k], q.columns);
    }
    hide IsProjection, CellsOfRow, RowFits, AllExist;
  }

  /** Projecting a row to all columns in order gives the row. */
  lemma WholeRow(columns: seq<Column>, row: Row)
    requires !HasDuplicate(columns) && RowFits(columns, row)
    ensures CellsOfRow(columns, row, ColumnNames(columns)) == row
  {
    forall i | 0 <= i < |columns| ensures CellsOfRow(columns, row, ColumnNames(columns))[i] == row[i] {
      ColumnIndexUnique(columns, i);
    }
    hide ColumnIndex, Cell;
  }

  function ColumnNames(columns: seq<Column>): (names: seq<Bytes>)
    ensures |names| == |columns| && forall i :: 0 <= i < |columns| ==> names[i] == columns[i].name
  {
    seq(|columns|, i requires 0 <= i < |columns| => columns[i].name)
  }

  lemma StarResultExactly(fadd: FloatAdd, columns: seq<Column>, sel: seq<Row>, q: Query)
    requires q.projection == ProjStar && Tabular(columns, sel)
    ensures var names := ProjectionColumns(columns, q);
      && AllExist(columns, names)
      && IsResult(fadd, columns, sel, q, QueryResult(names, ProjectedRows(columns, sel, names), false))
  {
    var names := ProjectionColumns(columns, q);
    assert names == ColumnNames(columns);
    forall i | 0 <= i < |names| ensures ColumnIndex(columns, names[i]).Some? {
      ColumnIndexUnique(columns, i);
    }
    forall k | 0 <= k < |sel| ensures CellsOfRow(columns, sel[k], names) == sel[k] {
      assert RowFits(columns, sel[k]);
      WholeRow(columns, sel[k]);
    }
    hide CellsOfRow, RowFits, ColumnIndex, ProjectionColumns;
    assert ProjectedRows(columns, sel, names) == sel;
  }

  lemma GroupRowsExactly(fadd: FloatAdd, columns: seq<Column>, sel: seq<Row>, q: Query, i: nat)
    requires AllRowsFit(columns, sel) && FirstNamed(columns, q.groupBy, i)
    requires q.groupAgg == AggSumColumn ==> CheckSum(columns, q.sumColumn).Ok?
    ensures var keys := CellsOf(columns, sel, q.groupBy);
      var agg := if q.groupAgg == AggCountStar then CountRows else SumColumn(CheckSum(columns, q.sumColumn).value);
      var vals := if q.groupAgg == AggCountStar then keys else CellsOf(columns, sel, q.sumColumn);
      GroupRows(fadd, agg, keys, vals).Ok? ==>
        CellsAre(columns, sel, q.groupBy, keys)
        && AreGroupRows(fadd, columns, sel, keys, q, GroupRows(fadd, agg, keys, vals).value)
  {
    var keys, t := CellsOf(columns, sel, q.groupBy), columns[i].ty;
    var agg := if q.groupAgg == AggCountStar then CountRows else SumColumn(CheckSum(columns, q.sumColumn).value);
    var vals := if q.groupAgg == AggCountStar then keys else CellsOf(columns, sel, q.sumColumn);
    CellsExactly(columns, sel, q.groupBy, i);
    if GroupRows(fadd, agg, keys, vals).Ok? {
      var first := FirstOccurrencesChosen(keys, t);
      var out := GroupRows(fadd, agg, keys, vals).value;
      assert forall j :: 0 <= j < |first| ==> out[j] == [keys[first[j]], AggregateCell(fadd, agg, Members(keys, vals, keys[first[j]]))];
      assert agg == SumColumn(Int64) ==> !SomeGroupOverflows(keys, vals);
      hide GroupRows, CellsAre, CellsOf, CheckSum, AllRowsFit, HasType, AggregateCell, Members, FirstNamed, FirstWithKey, Overflows;
      hide Chosen, FirstOccurrences;
      forall j | 0 <= j < |first|
        ensures IsGroupCell(fadd, columns, sel, keys, q, keys[first[j]], AggregateCell(fadd, agg, Members(keys, vals, keys[first[j]])))
      {
        assert HasType(keys[first[j]], t);
        hide IsGroupCell;
        GroupCellExactly(fadd, columns, sel, q, keys, t, keys[first[j]]);
      }
      hide IsGroupCell;
    }
  }

  lemma GroupResultExactly(fadd: FloatAdd, columns: seq<Column>, sel: seq<Row>, q: Query)
    requires q.projection == ProjGrouped && AllRowsFit(columns, sel) && GroupRowByRow(fadd, columns, sel, q).Ok?
    ensures IsResult(fadd, columns, sel, q, GroupRowByRow(fadd, columns, sel, q).value)
  {
    var i := ColumnIndex(columns, q.groupBy).value;
    ColumnIndexExactly(columns, q.groupBy, i);
    GroupRowsExactly(fadd, columns, sel, q, i);
    Headers();
    hide Ascii, ColumnIndex, CheckSum, CellsOf, GroupRows, AreGroupRows, CellsAre, AllRowsFit;
  }

  lemma SelectedFit(columns: seq<Column>, rows: seq<Row>, q: Query, sel: seq<Row>)
    requires Shaped(q) && AllRowsFit(columns, rows) && Selected(sel, columns, rows, q)
    ensures AllRowsFit(columns, sel)
  {
    hide RowFits, WantedAt;
  }

  /** Every result is the one described: over exactly the wanted rows, in order. */
  lemma ResultExactly(fadd: FloatAdd, columns: seq<Column>, rows: seq<Row>, q: Query) returns (sel: seq<Row>)
    requires Shaped(q) && Tabular(columns, rows) && RowByRow(fadd, columns, rows, q).Ok?
    ensures Selected(sel, columns, rows, q) && (q.filter == None ==> sel == rows)
    ensures IsResult(fadd, columns, sel, q, RowByRow(fadd, columns, rows, q).value)
  {
    sel := KeptRows(columns, rows, q);
    var idx := KeptAreSelected(columns, rows, q);
    SelectedFit(columns, rows, q, sel);
    if q.filter == None { AllSelected(columns, rows, q, sel); }
    assert Tabular(columns, sel);
    hide KeptRows, CheckFilter, Shaped, AllExist, Tabular, Selected, AllRowsFit, Chosen, WantedAt, IsResult;
    match q.projection
    case ProjStar => StarResultExactly(fadd, columns, sel, q);
    case ProjColumns => ColumnsResultExactly(fadd, columns, sel, q);
    case ProjCountStar => CountResultExactly(columns, sel, q, fadd);
    case ProjSumColumn =>
      hide SumResult, CheckSum;
      SumResultExactly(fadd, columns, sel, q, CheckSum(columns, q.sumColumn).value);
    case ProjGrouped =>
      hide GroupRowByRow;
      GroupResultExactly(fadd, columns, sel, q);
  }

  // ---- When there is no result ----

  /** The projection names a column there is none of. */
  ghost predicate MissesColumn(columns: seq<Column>, q: Query) {
    || (q.projection == ProjColumns && exists j :: 0 <= j < |q.columns| && !Names(columns, q.columns[j]))
    || (q.projection == ProjSumColumn && !Names(columns, q.sumColumn))
  }

  /** The literal has the type of the first column of the comparison's name. */
  ghost predicate Typed(columns: seq<Column>, c: Comparison) {
    exists i: nat :: FirstNamed(columns, c.column, i) && HasType(c.value, columns[i].ty)
  }

  /** Comparison i of the WHERE condition is the first that is not typed. */
  ghost predicate MistypedFirstAt(columns: seq<Column>, q: Query, i: nat)
    requires Shaped(q)
  {
    && q.filter.Some? && i < |Conditions(q.filter.value).0| && !Typed(columns, Conditions(q.filter.value).0[i])
    && forall j :: 0 <= j < i ==> Typed(columns, Conditions(q.filter.value).0[j])
  }

  ghost predicate FilterTyped(columns: seq<Column>, q: Query)
    requires Shaped(q)
  {
    q.filter.Some? ==>
      forall i :: 0 <= i < |Conditions(q.filter.value).0| ==> Typed(columns, Conditions(q.filter.value).0[i])
  }

  /** Some stretch of the int64 cells from the first row on adds up to no int64. */
  ghost predicate CellsLeaveInt64(columns: seq<Column>, rows: seq<Row>, name: Bytes) {
    exists xs: seq<int64>, n: nat :: CellsAre(columns, rows, name, Ints(xs)) && LeavesInt64(xs, n)
  }

  lemma CellsUnique(columns: seq<Column>, rows: seq<Row>, name: Bytes, vs: seq<Value>, i: nat)
    requires AllRowsFit(columns, rows) && FirstNamed(columns, name, i) && CellsAre(columns, rows, name, vs)
    ensures vs == CellsOf(columns, rows, name)
  {
    forall k | 0 <= k < |rows| ensures vs[k] == CellsOf(columns, rows, name)[k] {
      assert RowFits(columns, rows[k]) && CellIs(columns, rows[k], name, vs[k]);
      var c: nat :| FirstNamed(columns, name, c) && c < |rows[k]| && rows[k][c] == vs[k];
      CellExactly(columns, rows[k], name, c);
      hide FirstNamed, Cell, CellIs, RowFits;
    }
  }

  lemma LeavesExactly(columns: seq<Column>, rows: seq<Row>, name: Bytes)
    requires AllRowsFit(columns, rows) && ColumnHas(columns, name, Int64)
    ensures Overflows(CellsOf(columns, rows, name)) <==> CellsLeaveInt64(columns, rows, name)
  {
    var i: nat :| FirstNamed(columns, name, i) && columns[i].ty == Int64;
    var vs := CellsOf(columns, rows, name);
    CellsExactly(columns, rows, name, i);
    var xs := IntsOfColumn(vs);
    OverflowsExactly(xs);
    hide AllRowsFit, FirstNamed, CellsOf, Overflows, AllOfType, LeavesInt64, Ints, CellsAre;
    forall ys: seq<int64>, n: nat | CellsAre(columns, rows, name, Ints(ys)) && LeavesInt64(ys, n)
      ensures Overflows(vs)
    {
      CellsUnique(columns, rows, name, Ints(ys), i);
      OverflowsExactly(ys);
    }
  }

  lemma FilterErrors(columns: seq<Column>, q: Query)
    requires Shaped(q) && q.filter.Some?
    ensures CheckFilter(columns, q.filter.value) == None <==> FilterTyped(columns, q)
    ensures forall i: nat :: MistypedFirstAt(columns, q, i) ==>
      CheckFilter(columns, q.filter.value) == CheckComparison(columns, Conditions(q.filter.value).0[i])
  {
    var e := q.filter.value;
    var (cs, ops) := Conditions(e);
    TreeRecovered(e);
    LeavesInOrder(cs, ops);
    FilterFirstError(columns, e);
    FirstErrorExactly(CheckOn(columns), cs);
    hide WhereTree, TreeLeaves, Conditions, FirstError, CheckFilter, Shaped;
    forall i | 0 <= i < |cs| ensures CheckOn(columns)(cs[i]) == None <==> Typed(columns, cs[i]) {
      ComparisonChecked(columns, cs[i]);
    }
    hide Typed, CheckComparison;
    forall i: nat | MistypedFirstAt(columns, q, i)
      ensures CheckFilter(columns, e) == CheckComparison(columns, cs[i])
    {
      assert FailsFirstAt(CheckOn(columns), cs, i);
    }
  }

  lemma MissingExactly(columns: seq<Column>, q: Query)
    requires Shaped(q) && !HasDuplicate(columns)
    ensures AllExist(columns, ProjectionColumns(columns, q)) <==> !MissesColumn(columns, q)
  {
    hide TwoLevel;
    if q.projection == ProjStar {
      forall i | 0 <= i < |columns| ensures ColumnIndex(columns, columns[i].name).Some? {
        ColumnIndexUnique(columns, i);
      }
    }
    hide ColumnIndex, Names;
    if q.projection == ProjSumColumn {
      assert ProjectionColumns(columns, q)[0] == q.sumColumn;
    }
  }

  /** The errors in the order in which they are found: a projected column that is missing, then
      the first comparison that is not typed, with the error that ComparisonChecked gives it. */
  lemma EarlyErrors(fadd: FloatAdd, columns: seq<Column>, rows: seq<Row>, q: Query)
    requires Shaped(q) && Tabular(columns, rows)
    ensures MissesColumn(columns, q) ==> RowByRow(fadd, columns, rows, q) == Err(UnknownColumn)
    ensures !MissesColumn(columns, q) ==> forall i: nat :: MistypedFirstAt(columns, q, i) ==>
      CheckComparison(columns, Conditions(q.filter.value).0[i]).Some?
      && RowByRow(fadd, columns, rows, q) == Err(CheckComparison(columns, Conditions(q.filter.value).0[i]).value)
  {
    MissingExactly(columns, q);
    if q.filter.Some? { FilterErrors(columns, q); }
    hide Shaped, KeptRows, CheckFilter, ProjectionColumns, AllExist, MissesColumn, Conditions, SumResult, GroupRowByRow;
    forall i: nat | MistypedFirstAt(columns, q, i) ensures CheckComparison(columns, Conditions(q.filter.value).0[i]).Some? {
      ComparisonChecked(columns, Conditions(q.filter.value).0[i]);
    }
    hide CheckComparison, Typed;
  }

  lemma PastChecks(columns: seq<Column>, q: Query)
    requires Shaped(q) && !HasDuplicate(columns) && !MissesColumn(columns, q) && FilterTyped(columns, q)
    ensures AllExist(columns, ProjectionColumns(columns, q))
    ensures q.filter.Some? ==> CheckFilter(columns, q.filter.value) == None
  {
    MissingExactly(columns, q);
    if q.filter.Some? { FilterErrors(columns, q); }
    hide Shaped, AllExist, CheckFilter, MissesColumn, FilterTyped;
  }

  /** Behind these checks a projection or a count has a result; a sum fails iff its column has
      no type that adds up or the sum of some stretch of the int64 cells from the first wanted
      row on is no int64. */
  lemma LateErrors(fadd: FloatAdd, columns: seq<Column>, rows: seq<Row>, q: Query) returns (sel: seq<Row>)
    requires Shaped(q) && Tabular(columns, rows) && !MissesColumn(columns, q) && FilterTyped(columns, q)
    requires q.projection != ProjGrouped
    ensures Selected(sel, columns, rows, q)
    ensures q.projection != ProjSumColumn ==> RowByRow(fadd, columns, rows, q).Ok?
    ensures q.projection == ProjSumColumn ==>
      && (RowByRow(fadd, columns, rows, q) == Err(TypeMismatch) <==>
            !ColumnHas(columns, q.sumColumn, Int64) && !ColumnHas(columns, q.sumColumn, Float64))
      && (RowByRow(fadd, columns, rows, q) == Err(SumOverflow) <==>
            ColumnHas(columns, q.sumColumn, Int64) && CellsLeaveInt64(columns, sel, q.sumColumn))
      && (RowByRow(fadd, columns, rows, q).Ok? || RowByRow(fadd, columns, rows, q) == Err(TypeMismatch)
          || RowByRow(fadd, columns, rows, q) == Err(SumOverflow))
  {
    PastChecks(columns, q);
    sel := KeptRows(columns, rows, q);
    var idx := KeptAreSelected(columns, rows, q);
    SelectedFit(columns, rows, q, sel);
    if q.projection == ProjSumColumn {
      SumCheckedExactly(columns, q.sumColumn);
      if ColumnHas(columns, q.sumColumn, Int64) { LeavesExactly(columns, sel, q.sumColumn); }
      OneType(columns, q.sumColumn);
    }
    hide Shaped, KeptRows, CheckFilter, AllExist, FilterTyped, Selected, Tabular, CellsLeaveInt64, ColumnHas;
    hide CellsOf, Overflows, CheckSum, SumCell, Chosen, WantedAt;
  }

  lemma OneType(columns: seq<Column>, name: Bytes)
    ensures !(ColumnHas(columns, name, Int64) && ColumnHas(columns, name, Float64))
  {
    forall i: nat, j: nat | FirstNamed(columns, name, i) && FirstNamed(columns, name, j) ensures i == j {
      ColumnIndexExactly(columns, name, i);
      ColumnIndexExactly(columns, name, j);
    }
    hide FirstNamed;
  }

  /** The int64 sum of the rows with the key of row p leaves int64. */
  ghost predicate GroupLeavesInt64(columns: seq<Column>, sel: seq<Row>, keys: seq<Value>, name: Bytes, p: nat)
    requires |keys| == |sel|
  {
    p < |sel| && exists members :: Chosen(members, |sel|, WithKey(keys, keys[p])) && CellsLeaveInt64(columns, At(sel, members), name)
  }

  lemma {:induction false} ChosenUnique(a: seq<nat>, b: seq<nat>, n: nat, p: nat -> bool)
    requires Chosen(a, n, p) && Chosen(b, n, p)
    ensures a == b
    decreases n
  {
    AscendingLength(a, n);
    AscendingLength(b, n);
    if n > 0 {
      var a', b' := WithoutLast(a, n - 1), WithoutLast(b, n - 1);
      BelowChosen(a, n, p);
      BelowChosen(b, n, p);
      ChosenUnique(a', b', n - 1, p);
      hide Chosen, Ascending;
    }
  }

  /** The positions without the last one, if that is n. */
  function WithoutLast(idx: seq<nat>, n: nat): seq<nat> {
    if idx != [] && idx[|idx| - 1] == n then idx[..|idx| - 1] else idx
  }

  lemma BelowChosen(idx: seq<nat>, n: nat, p: nat -> bool)
    requires n > 0 && Chosen(idx, n, p)
    ensures Chosen(WithoutLast(idx, n - 1), n - 1, p)
    ensures idx == WithoutLast(idx, n - 1) + if p(n - 1) then [n - 1] else []
  {
    assert p(n - 1) <==> n - 1 in idx;
    if idx != [] && idx[|idx| - 1] == n - 1 {
      var init := idx[..|idx| - 1];
      assert idx == init + [n - 1];
      assert Ascending(init, n - 1);
      hide Ascending;
      forall r: nat | r < n - 1 ensures r in init <==> p(r) {
        assert r in idx <==> r in init || r == n - 1;
      }
    } else {
      NotThere(idx, n);
      ConcatNil(idx);
      hide Ascending;
    }
  }

  lemma NotThere(idx: seq<nat>, n: nat)
    requires n > 0 && Ascending(idx, n) && (idx != [] ==> idx[|idx| - 1] != n - 1)
    ensures Ascending(idx, n - 1) && n - 1 !in idx
  {
    forall k | 0 <= k < |idx| ensures idx[k] < n - 1 {
      assert idx[k] <= idx[|idx| - 1];
    }
  }

  lemma GroupLeavesExactly(columns: seq<Column>, sel: seq<Row>, keys: seq<Value>, name: Bytes, p: nat, t: ColumnType)
    requires AllRowsFit(columns, sel) && |keys| == |sel| && AllOfType(keys, t) && p < |sel|
    requires ColumnHas(columns, name, Int64)
    ensures Overflows(Members(keys, CellsOf(columns, sel, name), keys[p])) <==> GroupLeavesInt64(columns, sel, keys, name, p)
  {
    assert HasType(keys[p], t);
    var members := MemberPositions(keys, keys[p]);
    MembersChosen(keys, keys[p], t);
    MembersAt(keys, CellsOf(columns, sel, name), keys[p]);
    CellsOfChosen(columns, sel, name, members);
    assert AllRowsFit(columns, At(sel, members)) by { hide RowFits; }
    LeavesExactly(columns, At(sel, members), name);
    hide AllRowsFit, Chosen, WithKey, ColumnHas, CellsOf, Members, Overflows, CellsLeaveInt64, HasType;
    forall other | Chosen(other, |sel|, WithKey(keys, keys[p])) ensures other == members {
      ChosenUnique(other, members, |sel|, WithKey(keys, keys[p]));
    }
  }

  ghost predicate HoldsNaN(keys: seq<Value>) {
    exists p :: 0 <= p < |keys| && keys[p].Float? && NotANumber(keys[p].bits)
  }

  /** A grouped query behind the checks of its filter: the columns it needs, then overflow in a
      group, then a NaN key. */
  lemma GroupErrors(fadd: FloatAdd, columns: seq<Column>, rows: seq<Row>, q: Query) returns (sel: seq<Row>, keys: seq<Value>)
    requires Shaped(q) && Tabular(columns, rows) && FilterTyped(columns, q) && q.projection == ProjGrouped
    ensures Selected(sel, columns, rows, q) && |keys| == |sel|
    ensures RowByRow(fadd, columns, rows, q) == Err(UnknownColumn)
       <==> !Names(columns, q.groupBy) || (q.groupAgg == AggSumColumn && !Names(columns, q.sumColumn))
    ensures Names(columns, q.groupBy) ==> CellsAre(columns, sel, q.groupBy, keys)
    ensures RowByRow(fadd, columns, rows, q) == Err(TypeMismatch)
       <==> Names(columns, q.groupBy) && q.groupAgg == AggSumColumn && Names(columns, q.sumColumn)
            && !ColumnHas(columns, q.sumColumn, Int64) && !ColumnHas(columns, q.sumColumn, Float64)
    ensures RowByRow(fadd, columns, rows, q) == Err(SumOverflow)
       <==> Names(columns, q.groupBy) && q.groupAgg == AggSumColumn && ColumnHas(columns, q.sumColumn, Int64)
            && exists p: nat :: GroupLeavesInt64(columns, sel, keys, q.sumColumn, p)
    ensures RowByRow(fadd, columns, rows, q) == Err(Crash)
       ==> Names(columns, q.groupBy) && HoldsNaN(keys)
    ensures RowByRow(fadd, columns, rows, q).Ok? ==> !HoldsNaN(keys)
    ensures RowByRow(fadd, columns, rows, q).Ok? || RowByRow(fadd, columns, rows, q).error in
      {UnknownColumn, TypeMismatch, SumOverflow, Crash}
  {
    assert !MissesColumn(columns, q);
    PastChecks(columns, q);
    sel := KeptRows(columns, rows, q);
    keys := CellsOf(columns, sel, q.groupBy);
    var idx := KeptAreSelected(columns, rows, q);
    SelectedFit(columns, rows, q, sel);
    assert RowByRow(fadd, columns, rows, q) == GroupRowByRow(fadd, columns, sel, q);
    hide RowByRow, Shaped, KeptRows, FilterTyped, Selected, Chosen, WantedAt;
    GroupedOutcome(fadd, columns, sel, q);
  }

  lemma GroupedOutcome(fadd: FloatAdd, columns: seq<Column>, sel: seq<Row>, q: Query)
    requires AllRowsFit(columns, sel)
    ensures var keys := CellsOf(columns, sel, q.groupBy); var r := GroupRowByRow(fadd, columns, sel, q);
      && (r == Err(UnknownColumn)
          <==> !Names(columns, q.groupBy) || (q.groupAgg == AggSumColumn && !Names(columns, q.sumColumn)))
      && (Names(columns, q.groupBy) ==> CellsAre(columns, sel, q.groupBy, keys))
      && (r == Err(TypeMismatch)
          <==> Names(columns, q.groupBy) && q.groupAgg == AggSumColumn && Names(columns, q.sumColumn)
               && !ColumnHas(columns, q.sumColumn, Int64) && !ColumnHas(columns, q.sumColumn, Float64))
      && (r == Err(SumOverflow)
          <==> Names(columns, q.groupBy) && q.groupAgg == AggSumColumn && ColumnHas(columns, q.sumColumn, Int64)
               && exists p: nat :: GroupLeavesInt64(columns, sel, keys, q.sumColumn, p))
      && (r == Err(Crash) ==> Names(columns, q.groupBy) && HoldsNaN(keys))
      && (r.Ok? ==> !HoldsNaN(keys))
      && (r.Ok? || r.error in {UnknownColumn, TypeMismatch, SumOverflow, Crash})
  {
    var keys := CellsOf(columns, sel, q.groupBy);
    SumCheckedExactly(columns, q.sumColumn);
    OneType(columns, q.sumColumn);
    NaNKeys(keys);
    var found := ColumnIndex(columns, q.groupBy);
    hide SomeNaN, HoldsNaN, ColumnHas, ColumnIndex;
    if found.Some? {
      ColumnIndexExactly(columns, q.groupBy, found.value);
      CellsExactly(columns, sel, q.groupBy, found.value);
      if ColumnHas(columns, q.sumColumn, Int64) {
        GroupOverflowExactly(columns, sel, keys, q.sumColumn, columns[found.value].ty);
      }
    }
    hide CellsOf, CellsAre, GroupLeavesInt64, SomeGroupOverflows, CheckSum, AllRowsFit, Names, AllOfType, FirstOccurrences;
  }

  lemma GroupOverflowExactly(columns: seq<Column>, sel: seq<Row>, keys: seq<Value>, name: Bytes, t: ColumnType)
    requires AllRowsFit(columns, sel) && |keys| == |sel| && AllOfType(keys, t) && ColumnHas(columns, name, Int64)
    ensures SomeGroupOverflows(keys, CellsOf(columns, sel, name))
       <==> exists p: nat :: GroupLeavesInt64(columns, sel, keys, name, p)
  {
    hide AllRowsFit, AllOfType, ColumnHas, CellsOf, Members, Overflows;
    forall p: nat | p < |sel|
      ensures Overflows(Members(keys, CellsOf(columns, sel, name), keys[p])) <==> GroupLeavesInt64(columns, sel, keys, name, p)
    {
      GroupLeavesExactly(columns, sel, keys, name, p, t);
    }
    assert forall p: nat :: GroupLeavesInt64(columns, sel, keys, name, p) ==> p < |sel|;
    hide GroupLeavesInt64;
  }

  lemma NaNKeys(keys: seq<Value>)
    ensures SomeNaN(keys) <==> HoldsNaN(keys)
  {
    forall p | 0 <= p < |keys| ensures Unordered(keys[p]) <==> keys[p].Float? && NotANumber(keys[p].bits) {
      if keys[p].Float? { NaNExactly(keys[p].bits); }
    }
    hide Unordered, NotANumber;
  }

  // ---- What that comes to ----

  lemma SelectedUnique(a: seq<Row>, b: seq<Row>, columns: seq<Column>, rows: seq<Row>, q: Query)
    requires Shaped(q) && Selected(a, columns, rows, q) && Selected(b, columns, rows, q)
    ensures a == b
  {
    var i :| Chosen(i, |rows|, WantedAt(columns, rows, q)) && a == At(rows, i);
    var j :| Chosen(j, |rows|, WantedAt(columns, rows, q)) && b == At(rows, j);
    ChosenUnique(i, j, |rows|, WantedAt(columns, rows, q));
  }

  /** SELECT * without WHERE returns the whole table under the schema's names; with WHERE, the
      wanted rows. */
  lemma StarReturnsRows(fadd: FloatAdd, columns: seq<Column>, rows: seq<Row>, q: Query, sel: seq<Row>)
    requires Shaped(q) && Tabular(columns, rows) && q.projection == ProjStar
    requires FilterTyped(columns, q) && Selected(sel, columns, rows, q)
    ensures RowByRow(fadd, columns, rows, q) == Ok(QueryResult(ColumnNames(columns), sel, false))
    ensures q.filter == None ==> sel == rows
  {
    var other := LateErrors(fadd, columns, rows, q);
    var own := ResultExactly(fadd, columns, rows, q);
    SelectedUnique(sel, own, columns, rows, q);
    assert RowByRow(fadd, columns, rows, q).value.columns == ColumnNames(columns);
    hide RowByRow, Shaped, Selected, FilterTyped;
  }

  /** SELECT a, b returns under exactly these names the cells of the columns so named. */
  lemma ColumnsReturnCells(fadd: FloatAdd, columns: seq<Column>, rows: seq<Row>, q: Query, sel: seq<Row>)
    requires Shaped(q) && Tabular(columns, rows) && q.projection == ProjColumns && !MissesColumn(columns, q)
    requires FilterTyped(columns, q) && Selected(sel, columns, rows, q)
    ensures RowByRow(fadd, columns, rows, q).Ok?
    ensures var res := RowByRow(fadd, columns, rows, q).value;
      && res.columns == q.columns && |res.rows| == |sel| && !res.isAggregate
      && forall k :: 0 <= k < |sel| ==> IsProjection(columns, sel[k], q.columns, res.rows[k])
  {
    var other := LateErrors(fadd, columns, rows, q);
    var own := ResultExactly(fadd, columns, rows, q);
    SelectedUnique(sel, own, columns, rows, q);
    hide RowByRow, Shaped, Selected, FilterTyped, MissesColumn, IsProjection;
  }

  /** SUM over one wanted row is that row's cell. */
  lemma SumOfOneRow(fadd: FloatAdd, columns: seq<Column>, rows: seq<Row>, q: Query, row: Row, i: int64)
    requires Shaped(q) && Tabular(columns, rows) && q.projection == ProjSumColumn && FilterTyped(columns, q)
    requires ColumnHas(columns, q.sumColumn, Int64) && Selected([row], columns, rows, q)
    requires CellIs(columns, row, q.sumColumn, Int(i))
    ensures RowByRow(fadd, columns, rows, q)
         == Ok(QueryResult([Ascii("SUM(") + q.sumColumn + Ascii(")")], [[Int(i)]], true))
  {
    var sel := [row];
    assert !MissesColumn(columns, q);
    OneType(columns, q.sumColumn);
    var other := LateErrors(fadd, columns, rows, q);
    SelectedUnique(sel, other, columns, rows, q);
    hide RowByRow, Shaped, Selected, FilterTyped, MissesColumn, Tabular, Ascii;
    forall xs: seq<int64>, n: nat | CellsAre(columns, sel, q.sumColumn, Ints(xs)) ensures !LeavesInt64(xs, n) {
      OneCell(columns, row, q.sumColumn, i, Ints(xs));
      OneNumber(xs, i, n);
    }
    assert !CellsLeaveInt64(columns, sel, q.sumColumn);
    var own := ResultExactly(fadd, columns, rows, q);
    SelectedUnique(sel, own, columns, rows, q);
    var res := RowByRow(fadd, columns, rows, q).value;
    OneSum(fadd, columns, row, q.sumColumn, i, res.rows[0][0]);
    assert res.rows == [[Int(i)]];
  }

  lemma OneCell(columns: seq<Column>, row: Row, name: Bytes, i: int64, vs: seq<Value>)
    requires CellIs(columns, row, name, Int(i)) && CellsAre(columns, [row], name, vs)
    ensures vs == [Int(i)]
  {
    assert CellIs(columns, [row][0], name, vs[0]);
    var a: nat :| FirstNamed(columns, name, a) && a < |row| && row[a] == Int(i);
    var b: nat :| FirstNamed(columns, name, b) && b < |row| && row[b] == vs[0];
    ColumnIndexExactly(columns, name, a);
    ColumnIndexExactly(columns, name, b);
  }

  lemma OneNumber(xs: seq<int64>, i: int64, n: nat)
    requires Ints(xs) == [Int(i)]
    ensures !LeavesInt64(xs, n) && Sum(xs) == i
  {
    assert |xs| == |Ints(xs)| == 1 && Ints(xs)[0] == Int(xs[0]);
    assert xs[1..] == [] && Sum(xs) == xs[0] + Sum(xs[1..]);
    var ys: seq<int> := xs;
    assert n <= |xs| ==> n == 0 || n == 1;
    if n == 0 { assert ys[..n] == []; }
    if n == 1 { assert ys[..n] == ys; }
  }

  lemma OneSum(fadd: FloatAdd, columns: seq<Column>, row: Row, name: Bytes, i: int64, v: Value)
    requires ColumnHas(columns, name, Int64) && CellIs(columns, row, name, Int(i))
    requires SumsColumn(fadd, columns, [row], name, v)
    ensures v == Int(i)
  {
    var t, vs :| ColumnHas(columns, name, t) && CellsAre(columns, [row], name, vs) && IsSum(fadd, t, vs, v);
    OneCell(columns, row, name, i, vs);
    OneType(columns, name);
    hide CellsAre, CellIs, ColumnHas;
    var xs: seq<int64> :| vs == Ints(xs) && v.i == Sum(xs);
    OneNumber(xs, i, 0);
  }
}
