/** The executor (query/exec.go): selection vectors combined in place, running sums, hash
    grouping. Each routine computes its part of Eval.ExecuteOn on the segment's contents. */
module Exec {
  import opened Wrappers
  import opened Words
  import opened Types
  import opened QueryAst
  import opened SegmentFormat
  import opened SegmentStore
  import opened Compare
  import opened Aggregate
  import opened Eval
  import opened GroupScan

  method ReadSegmentColumn(seg: Segment, name: Bytes) returns (r: Result<seq<Value>, QueryError>)
    requires seg.Valid()
    modifies seg`decoded
    ensures seg.Valid() && r == ReadData(seg.Contents(), name)
  {
    hide DecodeColumn;
    var v := seg.ReadColumn(name);
    if v.Err? {
      return Err(ReadFailed(v.error));
    }
    return Ok(v.value);
  }

  // ---- Filters ----

  /** scanInt64, scanFloat64 and scanString: one comparison a row. */
  method ScanColumn(vals: seq<Value>, op: FilterOp, w: Value) returns (out: array<bool>)
    ensures fresh(out) && out[..] == Eval.Scan(vals, op, w)
  {
    out := new bool[|vals|];
    for i := 0 to |vals|
      invariant forall k :: 0 <= k < i ==> out[k] == Matches(vals[k], op, w)
    {
      out[i] := Matches(vals[i], op, w);
    }
  }

  method EvalComparison(seg: Segment, c: Comparison) returns (r: Result<array<bool>, QueryError>)
    requires seg.Valid()
    modifies seg`decoded
    ensures seg.Valid()
    ensures r.Err? ==> SelectLeaf(seg.Contents(), c) == Err(r.error)
    ensures r.Ok? ==> fresh(r.value) && SelectLeaf(seg.Contents(), c) == Ok(r.value[..])
  {
    hide ReadData, BlocksMatch, ColumnIndex;
    var columns := seg.schema.columns;
    var idx := ColumnIndex(columns, c.column);
    if idx == None {
      return Err(UnknownColumn);
    }
    var colType := columns[idx.value].ty;
    if colType.OtherType? {
      return Err(UnsupportedType);
    }
    if !HasType(c.value, colType) {
      return Err(TypeMismatch);
    }
    var v := ReadSegmentColumn(seg, c.column);
    if v.Err? {
      return Err(v.error);
    }
    var out := ScanColumn(v.value, c.op, c.value);
    return Ok(out);
  }

  /** acc[i] = acc[i] && next[i], or with ||. */
  method CombineInto(conj: bool, acc: array<bool>, next: array<bool>)
    requires acc.Length == next.Length && acc != next
    modifies acc
    ensures acc[..] == Combine(conj, old(acc[..]), next[..])
  {
    for i := 0 to acc.Length
      invariant forall k :: 0 <= k < i ==> acc[k] == if conj then old(acc[k]) && next[k] else old(acc[k]) || next[k]
      invariant forall k :: i <= k < acc.Length ==> acc[k] == old(acc[k])
      invariant next[..] == old(next[..])
    {
      acc[i] := if conj then acc[i] && next[i] else acc[i] || next[i];
    }
  }

  lemma CombineAssoc(conj: bool, a: seq<bool>, b: seq<bool>, c: seq<bool>)
    requires |a| == |b| == |c|
    ensures Combine(conj, Combine(conj, a, b), c) == Combine(conj, a, Combine(conj, b, c))
  {
  }

  lemma CombineNeutral(conj: bool, a: seq<bool>)
    ensures Combine(conj, a, Repeat(conj, |a|)) == a
  {
  }

  /** evaluate: a leaf scans its column; the children of a group are evaluated in turn and
      folded into the first one's vector. */
  method Evaluate(seg: Segment, e: FilterExpr) returns (r: Result<array<bool>, QueryError>)
    requires seg.Valid()
    modifies seg`decoded
    ensures seg.Valid()
    ensures r.Err? ==> Select(seg.Contents(), e) == Err(r.error)
    ensures r.Ok? ==> fresh(r.value) && Select(seg.Contents(), e) == Ok(r.value[..])
    decreases e, 1
  {
    hide SelectLeaf, BlocksMatch;
    if e.comparison.Some? {
      r := EvalComparison(seg, e.comparison.value);
    } else if e.and.Nodes? {
      if |e.and.list| == 0 {
        return Err(Crash);
      }
      r := EvaluateGroup(seg, e, e.and.list, true);
    } else if e.or.Nodes? {
      if |e.or.list| == 0 {
        return Err(Crash);
      }
      r := EvaluateGroup(seg, e, e.or.list, false);
    } else {
      return Err(Malformed);
    }
  }

  /** The two group branches of evaluate, which differ in the operator only. */
  method EvaluateGroup(seg: Segment, ghost e: FilterExpr, list: seq<FilterExpr>, conj: bool)
    returns (r: Result<array<bool>, QueryError>)
    requires seg.Valid() && list != []
    requires (e.and.Nodes? && list == e.and.list) || (e.or.Nodes? && list == e.or.list)
    modifies seg`decoded
    ensures seg.Valid()
    ensures r.Err? ==> SelectAll(seg.Contents(), list, conj) == Err(r.error)
    ensures r.Ok? ==> fresh(r.value) && SelectAll(seg.Contents(), list, conj) == Ok(r.value[..])
    decreases e, 0
  {
    hide Select, BlocksMatch;
    ghost var b := seg.Contents();
    ghost var whole := SelectAll(b, list, conj);
    var first := Evaluate(seg, list[0]);
    if first.Err? {
      return first;
    }
    var acc := first.value;
    for k := 1 to |list|
      invariant seg.Valid() && seg.Contents() == b && fresh(acc) && acc.Length == b.rowCount
      invariant match SelectAll(b, list[k..], conj)
                case Err(err) => whole == Err(err)
                case Ok(rest) => whole == Ok(Combine(conj, acc[..], rest))
    {
      assert list[k..][0] == list[k] && list[k..][1..] == list[k + 1..];
      var next := Evaluate(seg, list[k]);
      if next.Err? {
        return next;
      }
      if SelectAll(b, list[k + 1..], conj).Ok? {
        CombineAssoc(conj, acc[..], next.value[..], SelectAll(b, list[k + 1..], conj).value);
      }
      CombineInto(conj, acc, next.value);
    }
    assert list[|list|..] == [];
    CombineNeutral(conj, acc[..]);
    return Ok(acc);
  }

  // ---- Projections ----

  /** The selection vector as a value; null is the unfiltered case. */
  ghost function SelOf(selection: array?<bool>): Option<seq<bool>>
    reads selection
  {
    if selection == null then None else Some(selection[..])
  }

  method ExecCount(rowCount: nat, selection: array?<bool>) returns (r: QueryResult)
    requires selection != null ==> selection.Length == rowCount
    ensures r == CountResult(KeptCount(SelOf(selection), rowCount))
  {
    var n := 0;
    if selection == null {
      AllKept(rowCount);
      n := rowCount % TWO_64;
    } else {
      for i := 0 to selection.Length
        invariant n == KeptCount(SelOf(selection), i) % TWO_64
      {
        if selection[i] {
          n := (n + 1) % TWO_64;
        }
      }
    }
    return QueryResult([COUNT_HEADER], [[Uint(n)]], true);
  }

  lemma {:induction false} AllKept(n: nat)
    ensures KeptCount(None, n) == n
  {
    if n > 0 {
      AllKept(n - 1);
    }
  }

  method SumInt64(vals: seq<Value>, selection: array?<bool>) returns (r: Result<int64, QueryError>)
    requires selection != null ==> selection.Length == |vals|
    ensures r.Err? <==> Overflows(Pick(vals, SelOf(selection), |vals|))
    ensures r.Err? ==> r.error == SumOverflow
    ensures r.Ok? ==> r.value == ExactSum(Pick(vals, SelOf(selection), |vals|))
  {
    hide Overflows, ExactSum;
    var sum: int64 := 0;
    ghost var sel := SelOf(selection);
    EmptyDoesNotOverflow();
    EmptySum();
    for i := 0 to |vals|
      invariant sum == ExactSum(Pick(vals, sel, i)) && !Overflows(Pick(vals, sel, i))
    {
      ghost var so := Pick(vals, sel, i);
      if selection != null && !selection[i] {
        ConcatNil(so);
        continue;
      }
      var (newSum, ok) := AddInt64Checked(sum, IntOf(vals[i]));
      OverflowsAppend(so, vals[i]);
      if !ok {
        PrefixOverflows(vals, sel, i + 1, |vals|);
        return Err(SumOverflow);
      }
      sum := newSum;
    }
    return Ok(sum);
  }

  lemma EmptySum()
    ensures ExactSum([]) == 0
  {
  }

  lemma {:induction false} PrefixOverflows(vals: seq<Value>, sel: Option<seq<bool>>, n: nat, m: nat)
    requires n <= m <= |vals| && (sel.Some? ==> m <= |sel.value|) && Overflows(Pick(vals, sel, n))
    ensures Overflows(Pick(vals, sel, m))
    decreases m - n
  {
    hide Overflows;
    if n < m {
      OverflowsAppend(Pick(vals, sel, n), vals[n]);
      ConcatNil(Pick(vals, sel, n));
      PrefixOverflows(vals, sel, n + 1, m);
    }
  }

  method SumFloat64(fadd: FloatAdd, vals: seq<Value>, selection: array?<bool>) returns (sum: u64)
    requires selection != null ==> selection.Length == |vals|
    ensures sum == FloatSum(fadd, Pick(vals, SelOf(selection), |vals|))
  {
    sum := 0;
    ghost var sel := SelOf(selection);
    for i := 0 to |vals|
      invariant sum == FloatSum(fadd, Pick(vals, sel, i))
    {
      ghost var so := Pick(vals, sel, i);
      if selection != null && !selection[i] {
        ConcatNil(so);
        continue;
      }
      assert (so + [vals[i]])[..|so|] == so;
      sum := fadd(sum, BitsOf(vals[i]));
    }
  }

  method ExecSumOn(fadd: FloatAdd, seg: Segment, q: Query, selection: array?<bool>) returns (r: Answer)
    requires seg.Valid() && (selection != null ==> selection.Length == seg.rowCount)
    modifies seg`decoded
    ensures seg.Valid() && r == ExecSum(fadd, seg.Contents(), q, SelOf(selection))
  {
    hide ReadData, BlocksMatch, ColumnIndex, Overflows, ExactSum, FloatSum, Pick;
    var t := CheckSum(seg.schema.columns, q.sumColumn);
    if t.Err? {
      return Err(t.error);
    }
    var v := ReadSegmentColumn(seg, q.sumColumn);
    if v.Err? {
      return Err(v.error);
    }
    if t.value.Int64? {
      var sum := SumInt64(v.value, selection);
      if sum.Err? {
        return Err(sum.error);
      }
      return Ok(QueryResult([SumHeader(q.sumColumn)], [[Int(sum.value)]], true));
    }
    var sum := SumFloat64(fadd, v.value, selection);
    return Ok(QueryResult([SumHeader(q.sumColumn)], [[Float(sum)]], true));
  }

  method ReadColumns(seg: Segment, names: seq<Bytes>) returns (r: Result<seq<seq<Value>>, QueryError>)
    requires seg.Valid()
    modifies seg`decoded
    ensures seg.Valid() && r == ReadAll(seg.Contents(), names)
  {
    hide ReadData, BlocksMatch;
    var decoded: seq<seq<Value>> := [];
    ghost var b := seg.Contents();
    ghost var whole := ReadAll(b, names);
    assert names[0..] == names;
    if whole.Ok? { ConcatNil(whole.value); }
    for i := 0 to |names|
      invariant seg.Valid() && seg.Contents() == b
      invariant match ReadAll(b, names[i..])
                case Err(err) => whole == Err(err)
                case Ok(rest) => whole == Ok(decoded + rest)
    {
      assert names[i..][0] == names[i] && names[i..][1..] == names[i + 1..];
      var v := ReadSegmentColumn(seg, names[i]);
      if v.Err? {
        return Err(v.error);
      }
      if ReadAll(b, names[i + 1..]).Ok? {
        ConcatAssoc(decoded, [v.value], ReadAll(b, names[i + 1..]).value);
      }
      decoded := decoded + [v.value];
    }
    assert names[|names|..] == [];
    ConcatNil(decoded);
    return Ok(decoded);
  }

  method BuildRow(decoded: seq<seq<Value>>, i: nat) returns (row: Row)
    requires forall j :: 0 <= j < |decoded| ==> i < |decoded[j]|
    ensures row == RowAt(decoded, i)
  {
    row := [];
    for j := 0 to |decoded|
      invariant |row| == j && forall k :: 0 <= k < j ==> row[k] == decoded[k][i]
    {
      row := row + [decoded[j][i]];
    }
  }

  method MaterializeRows(decoded: seq<seq<Value>>, total: nat, selection: array?<bool>) returns (rows: seq<Row>)
    requires forall j :: 0 <= j < |decoded| ==> |decoded[j]| == total
    requires selection != null ==> selection.Length == total
    ensures rows == ProjectRows(decoded, SelOf(selection), total)
  {
    hide RowAt;
    rows := [];
    ghost var sel := SelOf(selection);
    for i := 0 to total
      invariant rows == ProjectRows(decoded, sel, i)
    {
      if selection != null && !selection[i] {
        ConcatNil(rows);
        continue;
      }
      var row := BuildRow(decoded, i);
      rows := rows + [row];
    }
  }

  method ExecProjectOn(seg: Segment, cols: seq<Bytes>, selection: array?<bool>) returns (r: Answer)
    requires seg.Valid() && (selection != null ==> selection.Length == seg.rowCount)
    modifies seg`decoded
    ensures seg.Valid() && r == ExecProject(seg.Contents(), cols, SelOf(selection))
  {
    hide ReadAll, BlocksMatch, ProjectRows;
    var read := ReadColumns(seg, cols);
    if read.Err? {
      return Err(read.error);
    }
    var rows := MaterializeRows(read.value, seg.rowCount, selection);
    return Ok(QueryResult(cols, rows, false));
  }

  // ---- GROUP BY ----

  /** The scan of execGrouped: one accumulator a key, keys in order of discovery. */
  method ScanGroups(fadd: FloatAdd, agg: Aggregation, gCol: seq<Value>, vals: seq<Value>, selection: array?<bool>)
    returns (r: Option<(seq<Value>, map<Value, Accumulator>)>)
    requires |gCol| == |vals| && (selection != null ==> selection.Length == |gCol|)
    ensures |Pick(gCol, SelOf(selection), |gCol|)| == |Pick(vals, SelOf(selection), |gCol|)|
    ensures r == None ==>
      agg == SumColumn(Int64) && SomeGroupOverflows(Pick(gCol, SelOf(selection), |gCol|), Pick(vals, SelOf(selection), |gCol|))
    ensures r.Some? ==>
      Scanned(fadd, agg, Pick(gCol, SelOf(selection), |gCol|), Pick(vals, SelOf(selection), |gCol|), r.value.0, r.value.1)
  {
    hide Scanned, Accumulate, SomeGroupOverflows, Accumulates, Members, Unordered, Canon;
    ghost var sel, n := SelOf(selection), |gCol|;
    PickLength(gCol, sel, n);
    PickLength(vals, sel, n);
    var keys: seq<Value> := [];
    var groups: map<Value, Accumulator> := map[];
    NothingScanned(fadd, agg);
    for i := 0 to |gCol|
      invariant |Pick(gCol, sel, i)| == |Pick(vals, sel, i)|
      invariant Scanned(fadd, agg, Pick(gCol, sel, i), Pick(vals, sel, i), keys, groups)
    {
      ghost var ks, vs := Pick(gCol, sel, i), Pick(vals, sel, i);
      if selection != null && !selection[i] {
        ConcatNil(ks);
        ConcatNil(vs);
        continue;
      }
      var key := gCol[i];
      var found := InMap(groups, key);
      var acc := if found then groups[Canon(key)] else ZERO_ACCUMULATOR;
      var next := Accumulate(fadd, agg, acc, vals[i]);
      assert acc == Current(groups, key);
      if next == None {
        GroupOverflow(fadd, agg, ks, vs, keys, groups, key, vals[i]);
        PickLength(gCol, sel, i + 1);
        PickLength(vals, sel, i + 1);
        PickOverflowPersists(gCol, vals, sel, i + 1, n);
        return None;
      }
      ScanStep(fadd, agg, ks, vs, keys, groups, key, vals[i]);
      if !found {
        keys := keys + [key];
      }
      if !Unordered(key) {
        groups := groups[Canon(key) := next.value];
      }
    }
    return Some((keys, groups));
  }

  lemma NothingScanned(fadd: FloatAdd, agg: Aggregation)
    ensures Scanned(fadd, agg, [], [], [], map[])
  {
  }

  lemma GroupOverflow(fadd: FloatAdd, agg: Aggregation, ks: seq<Value>, vs: seq<Value>, keys: seq<Value>,
      groups: map<Value, Accumulator>, key: Value, v: Value)
    requires |ks| == |vs| && Scanned(fadd, agg, ks, vs, keys, groups)
    requires Accumulate(fadd, agg, Current(groups, key), v) == None
    ensures agg == SumColumn(Int64) && SomeGroupOverflows(ks + [key], vs + [v])
  {
    CurrentAccumulates(fadd, agg, ks, vs, keys, groups, key);
    AccumulateStep(fadd, agg, Members(ks, vs, key), Current(groups, key), v);
    hide Scanned, Members, Accumulates, Overflows;
    if Unordered(key) {
      FirstValueFits(fadd, agg, v);
    }
    hide Accumulate, SomeGroupOverflows;
    OverflowArises(fadd, ks, vs, key, v, Current(groups, key));
  }

  /** The emission of execGrouped: the accumulator of each key is looked up again, and one that
      a NaN key lost is dereferenced as nil. */
  method EmitGroups(ghost fadd: FloatAdd, agg: Aggregation, ghost ks: seq<Value>, ghost vs: seq<Value>, keys: seq<Value>, groups: map<Value, Accumulator>)
    returns (r: Result<seq<Row>, QueryError>)
    requires |ks| == |vs| && Scanned(fadd, agg, ks, vs, keys, groups)
    ensures r == GroupRows(fadd, agg, ks, vs)
  {
    hide Members, AggregateCell, SomeGroupOverflows, FirstOccurrences, Accumulates;
    if agg == SumColumn(Int64) {
      NoGroupOverflows(fadd, ks, vs, keys, groups);
    }
    var rows: seq<Row> := [];
    for j := 0 to |keys|
      invariant |rows| == j
      invariant forall i :: 0 <= i < j ==> !Unordered(keys[i])
      invariant forall i :: 0 <= i < j ==> rows[i] == [keys[i], AggregateCell(fadd, agg, Members(ks, vs, keys[i]))]
    {
      var k := keys[j];
      EmittedKey(fadd, agg, ks, vs, keys, groups, j);
      if !InMap(groups, k) {
        return Err(Crash);
      }
      var acc := groups[Canon(k)];
      rows := rows + [[k, CellOf(agg, acc)]];
    }
    assert keys == FirstOccurrences(ks);
    if SomeNaN(ks) { NaNsAreEmitted(ks); }
    ghost var want := GroupRows(fadd, agg, ks, vs);
    assert want.Ok? && |want.value| == |rows|;
    assert forall i :: 0 <= i < |rows| ==> want.value[i] == rows[i];
    assert rows == want.value;
    return Ok(rows);
  }

  lemma EmittedKey(fadd: FloatAdd, agg: Aggregation, ks: seq<Value>, vs: seq<Value>, keys: seq<Value>,
      groups: map<Value, Accumulator>, j: nat)
    requires |ks| == |vs| && Scanned(fadd, agg, ks, vs, keys, groups) && j < |keys|
    ensures InMap(groups, keys[j]) <==> !Unordered(keys[j])
    ensures !InMap(groups, keys[j]) ==> SomeNaN(ks)
    ensures InMap(groups, keys[j]) ==>
      CellOf(agg, groups[Canon(keys[j])]) == AggregateCell(fadd, agg, Members(ks, vs, keys[j]))
  {
    hide Accumulates, CellOf, AggregateCell;
    var k := keys[j];
    OccurrencesAreKeys(ks, j);
    var i :| 0 <= i < |ks| && ks[i] == k;
    KeyEqualIsCanon(k, k);
    LookupIsSeen(fadd, agg, ks, vs, keys, groups, k);
    if InMap(groups, k) {
      CurrentAccumulates(fadd, agg, ks, vs, keys, groups, k);
      AccumulatedCell(fadd, agg, Members(ks, vs, k), groups[Canon(k)]);
    }
    if Unordered(k) {
      assert Unordered(ks[i]);
    } else {
      assert KeyEqual(ks[i], k);
    }
    hide Scanned, Members, KeyEqual, FirstOccurrences;
  }

  /** A NaN key is never recognized, so every one is listed. */
  lemma {:induction false} NaNsAreEmitted(ks: seq<Value>)
    requires SomeNaN(ks)
    ensures SomeNaN(FirstOccurrences(ks))
  {
    var n := |ks| - 1;
    var init, last := ks[..n], ks[n];
    var before, all := FirstOccurrences(init), FirstOccurrences(ks);
    if Unordered(last) {
      forall i | 0 <= i < n ensures !KeyEqual(init[i], last) { KeyEqualIsCanon(init[i], last); }
      assert all == before + [last] && Unordered(all[|before|]);
    } else {
      var i :| 0 <= i < |ks| && Unordered(ks[i]);
      assert Unordered(init[i]);
      NaNsAreEmitted(init);
      var j :| 0 <= j < |before| && Unordered(before[j]);
      assert all[j] == before[j];
    }
  }

  method ExecGroupedOn(fadd: FloatAdd, seg: Segment, q: Query, selection: array?<bool>) returns (r: Answer)
    requires seg.Valid() && (selection != null ==> selection.Length == seg.rowCount)
    modifies seg`decoded
    ensures seg.Valid() && r == ExecGrouped(fadd, seg.Contents(), q, SelOf(selection))
  {
    hide ReadData, BlocksMatch, ColumnIndex, Pick, GroupRows, Scanned, SomeGroupOverflows;
    ghost var sel, n := SelOf(selection), seg.rowCount;
    if ColumnIndex(seg.schema.columns, q.groupBy) == None {
      return Err(UnknownColumn);
    }
    var gCol := ReadSegmentColumn(seg, q.groupBy);
    if gCol.Err? {
      return Err(gCol.error);
    }
    var agg, vals := CountRows, gCol.value;
    if q.groupAgg == AggSumColumn {
      var t := CheckSum(seg.schema.columns, q.sumColumn);
      if t.Err? {
        return Err(t.error);
      }
      var sv := ReadSegmentColumn(seg, q.sumColumn);
      if sv.Err? {
        return Err(sv.error);
      }
      agg, vals := SumColumn(t.value), sv.value;
    }
    PickLength(gCol.value, sel, n);
    PickLength(vals, sel, n);
    var scan := ScanGroups(fadd, agg, gCol.value, vals, selection);
    if scan == None {
      OverflowingGroups(fadd, agg, Pick(gCol.value, sel, n), Pick(vals, sel, n));
      return Err(SumOverflow);
    }
    var (keys, groups) := scan.value;
    var rows := EmitGroups(fadd, agg, Pick(gCol.value, sel, n), Pick(vals, sel, n), keys, groups);
    if rows.Err? {
      return Err(rows.error);
    }
    var header := if q.groupAgg == AggSumColumn then SumHeader(q.sumColumn) else COUNT_HEADER;
    return Ok(QueryResult([q.groupBy, header], rows.value, false));
  }

  lemma OverflowingGroups(fadd: FloatAdd, agg: Aggregation, ks: seq<Value>, vs: seq<Value>)
    requires |ks| == |vs| && agg == SumColumn(Int64) && SomeGroupOverflows(ks, vs)
    ensures GroupRows(fadd, agg, ks, vs) == Err(SumOverflow)
  {
  }

  // ---- Execute ----

  method NamesOf(columns: seq<Column>) returns (names: seq<Bytes>)
    ensures names == seq(|columns|, i requires 0 <= i < |columns| => columns[i].name)
  {
    names := [];
    for i := 0 to |columns|
      invariant |names| == i && forall j :: 0 <= j < i ==> names[j] == columns[j].name
    {
      names := names + [columns[i].name];
    }
  }

  /** Execute on an open segment: the answer depends on the file's contents only, and running
      it leaves the contents as they were, so it may be repeated in any order. */
  method Execute(fadd: FloatAdd, seg: Segment, q: Query) returns (r: Answer)
    requires seg.Valid()
    modifies seg`decoded
    ensures seg.Valid() && seg.Contents() == old(seg.Contents())
    ensures r == ExecuteOn(fadd, seg.Contents(), q)
  {
    hide BlocksMatch, ColumnIndex, Select, ExecSum, ExecGrouped, ExecProject, CountResult, KeptCount;
    var columns := seg.schema.columns;
    var projCols: seq<Bytes> := [];
    match q.projection {
      case ProjColumns => projCols := q.columns;
      case ProjStar => projCols := NamesOf(columns);
      case ProjSumColumn => projCols := [q.sumColumn];
      case _ =>
    }
    assert projCols == ProjectionColumns(columns, q);
    for i := 0 to |projCols|
      invariant forall j :: 0 <= j < i ==> ColumnIndex(columns, projCols[j]).Some?
    {
      if ColumnIndex(columns, projCols[i]) == None {
        return Err(UnknownColumn);
      }
    }
    var selection: array?<bool> := null;
    if q.filter.Some? {
      var sel := Evaluate(seg, q.filter.value);
      if sel.Err? {
        return Err(sel.error);
      }
      selection := sel.value;
    }
    assert SelectQuery(seg.Contents(), q) == Ok(SelOf(selection));
    match q.projection {
      case ProjCountStar =>
        var count := ExecCount(seg.rowCount, selection);
        return Ok(count);
      case ProjSumColumn => r := ExecSumOn(fadd, seg, q, selection);
      case ProjGrouped => r := ExecGroupedOn(fadd, seg, q, selection);
      case _ => r := ExecProjectOn(seg, projCols, selection);
    }
  }
}
