/** The parsed form of a query (query/parser.go). */
module QueryAst {
  import opened Wrappers
  import opened Words
  import opened Types

  datatype ProjectionKind = ProjColumns | ProjStar | ProjCountStar | ProjSumColumn | ProjGrouped

  datatype AggregateKind = AggCountStar | AggSumColumn

  datatype FilterOp = OpEq | OpNeq | OpLt | OpGt | OpLte | OpGte

  datatype Comparison = Comparison(column: Bytes, op: FilterOp, value: Value, pos: nat)

  /** One node of the WHERE tree. As in the source nothing but the parser keeps more or fewer
      than one of the three from being set. */
  datatype FilterExpr = FilterExpr(comparison: Option<Comparison>, and: Nodes, or: Nodes)

  /** A Go slice of nodes, nil or not. */
  datatype Nodes = NilNodes | Nodes(list: seq<FilterExpr>)

  /** Columns, SumColumn, GroupBy and GroupAgg keep their zero values where the query has none. */
  datatype Query = Query(
    projection: ProjectionKind,
    columns: seq<Bytes>,
    sumColumn: Bytes,
    groupBy: Bytes,
    groupAgg: AggregateKind,
    filter: Option<FilterExpr>)

  const EMPTY_QUERY := Query(ProjColumns, [], [], [], AggCountStar, None)

  function Leaf(c: Comparison): FilterExpr {
    FilterExpr(Some(c), NilNodes, NilNodes)
  }

  function AndNode(es: seq<FilterExpr>): FilterExpr {
    FilterExpr(None, Nodes(es), NilNodes)
  }

  function OrNode(es: seq<FilterExpr>): FilterExpr {
    FilterExpr(None, NilNodes, Nodes(es))
  }
}
