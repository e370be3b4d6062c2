/** What a parsed WHERE clause keeps and when it fails, stated on the flat condition as it was
    written: comparisons joined by AND and OR. */
module WhereClause {
  import opened Wrappers
  import opened Words
  import opened Types
  import opened QueryAst
  import opened SegmentFormat
  import opened Precedence
  import opened Parser
  import opened Grammar
  import opened Aggregate
  import opened Eval

  // ---- Which rows ----

  /** A parsed query keeps a row iff some stretch of its comparisons joined by AND is true of
      the row throughout: AND binds tighter than OR. */
  lemma KeptExactly(columns: seq<Column>, row: Row, q: Query)
    requires Shaped(q) && q.filter.Some?
    ensures var (cs, ops) := Conditions(q.filter.value);
      RowKept(columns, row, q) <==> StandardReading(cs, ops, RowTest(columns, row))
  {
    var (cs, ops) := Conditions(q.filter.value);
    TreeRecovered(q.filter.value);
    PrecedenceCorrect(cs, ops, RowTest(columns, row));
    hide StandardReading, RowTest, Conditions;
  }

  // ---- Which error ----

  /** What a comparison fails with on a segment, if it does: its checks, then reading its
      column. */
  function Failure(b: Body, c: Comparison): Option<QueryError> {
    match SelectLeaf(b, c)
    case Err(err) => Some(err)
    case Ok(_) => None
  }

  function FailureOn(b: Body): Comparison -> Option<QueryError> {
    c => Failure(b, c)
  }

  function CheckOn(columns: seq<Column>): Comparison -> Option<QueryError> {
    c => CheckComparison(columns, c)
  }

  /** The error of the first comparison that has one. */
  function FirstError(fails: Comparison -> Option<QueryError>, cs: seq<Comparison>): Option<QueryError> {
    if cs == [] then None
    else
      match fails(cs[0])
      case Some(err) => Some(err)
      case None => FirstError(fails, cs[1..])
  }

  ghost predicate FailsFirstAt(fails: Comparison -> Option<QueryError>, cs: seq<Comparison>, i: nat) {
    i < |cs| && fails(cs[i]).Some? && forall j :: 0 <= j < i ==> fails(cs[j]) == None
  }

  /** FirstError without the recursion: none iff nothing fails, else that of the first failing
      comparison. */
  lemma {:induction false} FirstErrorExactly(fails: Comparison -> Option<QueryError>, cs: seq<Comparison>)
    ensures FirstError(fails, cs) == None <==> forall i :: 0 <= i < |cs| ==> fails(cs[i]) == None
    ensures forall i: nat :: FailsFirstAt(fails, cs, i) ==> FirstError(fails, cs) == fails(cs[i])
    ensures FirstError(fails, cs).Some? ==> exists i: nat :: FailsFirstAt(fails, cs, i)
  {
    if cs != [] {
      var rest := cs[1..];
      FirstErrorExactly(fails, rest);
      assert forall i :: 1 <= i < |cs| ==> cs[i] == rest[i - 1];
      if fails(cs[0]).Some? {
        assert FailsFirstAt(fails, cs, 0);
      } else {
        forall i: nat | FailsFirstAt(fails, cs, i) ensures FailsFirstAt(fails, rest, i - 1) {
        }
        if FirstError(fails, cs).Some? {
          var i: nat :| FailsFirstAt(fails, rest, i);
          assert FailsFirstAt(fails, cs, i + 1);
        }
      }
    }
  }

  lemma {:induction false} FirstErrorConcat(fails: Comparison -> Option<QueryError>, a: seq<Comparison>, b: seq<Comparison>)
    ensures FirstError(fails, a + b)
         == match FirstError(fails, a) case Some(err) => Some(err) case None => FirstError(fails, b)
    decreases |a|
  {
    if a == [] {
      ConcatNil(b);
    } else {
      assert (a + b)[1..] == a[1..] + b;
      FirstErrorConcat(fails, a[1..], b);
    }
  }

  lemma LeafFails(b: Body, e: FilterExpr)
    requires IsLeaf(e)
    ensures match FirstError(FailureOn(b), TreeLeaves(e))
            case Some(err) => Select(b, e) == Err(err)
            case None => Select(b, e).Ok?
  {
    hide SelectLeaf;
    var one := TreeLeaves(e);
    assert one[1..] == [] && FailureOn(b)(one[0]) == Failure(b, e.comparison.value);
  }

  lemma {:induction false} LeavesFail(b: Body, es: seq<FilterExpr>, conj: bool)
    requires forall i :: 0 <= i < |es| ==> IsLeaf(es[i])
    ensures match FirstError(FailureOn(b), ListLeaves(es))
            case Some(err) => SelectAll(b, es, conj) == Err(err)
            case None => SelectAll(b, es, conj).Ok?
  {
    hide SelectLeaf;
    if es != [] {
      LeavesFail(b, es[1..], conj);
      LeafFails(b, es[0]);
      FirstErrorConcat(FailureOn(b), TreeLeaves(es[0]), ListLeaves(es[1..]));
    }
  }

  lemma {:induction false} ChildrenFail(b: Body, es: seq<FilterExpr>, conj: bool)
    requires forall i :: 0 <= i < |es| ==> IsLeaf(es[i]) || IsConjunction(es[i])
    ensures match FirstError(FailureOn(b), ListLeaves(es))
            case Some(err) => SelectAll(b, es, conj) == Err(err)
            case None => SelectAll(b, es, conj).Ok?
  {
    hide SelectLeaf;
    if es != [] {
      ChildrenFail(b, es[1..], conj);
      if IsLeaf(es[0]) { LeafFails(b, es[0]); }
      FirstErrorConcat(FailureOn(b), TreeLeaves(es[0]), ListLeaves(es[1..]));
      if IsConjunction(es[0]) {
        LeavesFail(b, es[0].and.list, true);
      }
    }
  }

  /** On any segment a parsed filter fails with the failure of its first failing comparison in
      source order, be it a check or a column that does not decode, and succeeds iff none
      fails. */
  lemma FilterFailsFirst(b: Body, e: FilterExpr)
    requires TwoLevel(e)
    ensures match FirstError(FailureOn(b), TreeLeaves(e))
            case Some(err) => Select(b, e) == Err(err)
            case None => Select(b, e).Ok?
  {
    if IsConjunction(e) {
      LeavesFail(b, e.and.list, true);
    } else if IsLeaf(e) {
      LeafFails(b, e);
    } else {
      ChildrenFail(b, e.or.list, false);
    }
    hide SelectLeaf, SelectAll, ListLeaves;
  }

  /** So it never fails for the shape of the tree. */
  lemma FilterFailureKind(b: Body, e: FilterExpr)
    requires TwoLevel(e)
    ensures Select(b, e) != Err(Malformed) && Select(b, e) != Err(Crash)
  {
    var fails := FailureOn(b);
    FilterFailsFirst(b, e);
    FirstErrorExactly(fails, TreeLeaves(e));
    if FirstError(fails, TreeLeaves(e)).Some? {
      var i: nat :| FailsFirstAt(fails, TreeLeaves(e), i);
      FailureKind(b, TreeLeaves(e)[i]);
    }
    hide Failure, Select, TreeLeaves, TwoLevel;
  }

  lemma FailureKind(b: Body, c: Comparison)
    ensures Failure(b, c) != Some(Malformed) && Failure(b, c) != Some(Crash)
  {
    hide ColumnIndex, DecodeColumn;
  }

  // ---- The checks alone ----

  lemma {:induction false} LeavesCheck(columns: seq<Column>, es: seq<FilterExpr>)
    requires forall i :: 0 <= i < |es| ==> IsLeaf(es[i])
    ensures CheckAll(columns, es) == FirstError(CheckOn(columns), ListLeaves(es))
  {
    hide CheckComparison;
    if es != [] {
      LeavesCheck(columns, es[1..]);
      FirstErrorConcat(CheckOn(columns), [es[0].comparison.value], ListLeaves(es[1..]));
    }
  }

  lemma {:induction false} ChildrenCheck(columns: seq<Column>, es: seq<FilterExpr>)
    requires forall i :: 0 <= i < |es| ==> IsLeaf(es[i]) || IsConjunction(es[i])
    ensures CheckAll(columns, es) == FirstError(CheckOn(columns), ListLeaves(es))
  {
    hide CheckComparison;
    if es != [] {
      ChildrenCheck(columns, es[1..]);
      FirstErrorConcat(CheckOn(columns), TreeLeaves(es[0]), ListLeaves(es[1..]));
      if IsConjunction(es[0]) {
        LeavesCheck(columns, es[0].and.list);
      }
    }
  }

  /** The same where every column decodes: the first comparison that fails its checks. */
  lemma FilterFirstError(columns: seq<Column>, e: FilterExpr)
    requires TwoLevel(e)
    ensures CheckFilter(columns, e) == FirstError(CheckOn(columns), TreeLeaves(e))
  {
    if IsConjunction(e) {
      LeavesCheck(columns, e.and.list);
    } else if !IsLeaf(e) {
      ChildrenCheck(columns, e.or.list);
    }
    hide CheckComparison, CheckAll, ListLeaves;
  }

  lemma FilterErrorKind(columns: seq<Column>, e: FilterExpr)
    requires TwoLevel(e)
    ensures CheckFilter(columns, e) != Some(Malformed) && CheckFilter(columns, e) != Some(Crash)
  {
    var fails := CheckOn(columns);
    FilterFirstError(columns, e);
    FirstErrorExactly(fails, TreeLeaves(e));
    if FirstError(fails, TreeLeaves(e)).Some? {
      var i: nat :| FailsFirstAt(fails, TreeLeaves(e), i);
      assert CheckComparison(columns, TreeLeaves(e)[i]) == fails(TreeLeaves(e)[i]);
    }
    hide CheckFilter, TreeLeaves, TwoLevel, ColumnIndex;
  }

  /** A comparison passes its checks iff the first column of its name exists and has the
      literal's type; the three errors say which part fails. */
  lemma ComparisonChecked(columns: seq<Column>, c: Comparison)
    ensures CheckComparison(columns, c) == None
       <==> exists i: nat :: FirstNamed(columns, c.column, i) && HasType(c.value, columns[i].ty)
    ensures CheckComparison(columns, c) == Some(UnknownColumn) <==> !Names(columns, c.column)
    ensures CheckComparison(columns, c) == Some(UnsupportedType)
       <==> exists i: nat :: FirstNamed(columns, c.column, i) && !KnownType(columns[i].ty)
    ensures CheckComparison(columns, c) == Some(TypeMismatch)
       <==> exists i: nat :: FirstNamed(columns, c.column, i) && KnownType(columns[i].ty) && !HasType(c.value, columns[i].ty)
  {
    var found := ColumnIndex(columns, c.column);
    if found.Some? {
      assert FirstNamed(columns, c.column, found.value);
    }
    forall i: nat | FirstNamed(columns, c.column, i) ensures found == Some(i) {
    }
  }
}
