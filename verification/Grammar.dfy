/** The grammar of queries as sentences, and the proof that the parser accepts exactly the
    sentences and builds the query each stands for (query/parser.go). */
module Grammar {
  import opened Wrappers
  import opened Words
  import opened Types
  import opened QueryAst
  import opened Lexer
  import opened Precedence
  import opened Parser

  /** What one token of a sentence must be: a fixed word or sign, the column of a comparison at
      its position, or any token that reads as the literal. */
  datatype Pattern = Exact(kind: TokKind, text: Bytes) | ColumnAt(name: Bytes, pos: nat) | Lit(value: Value)

  function OpText(op: FilterOp): Bytes {
    match op
    case OpEq => [EQUALS]
    case OpNeq => [BANG, EQUALS]
    case OpLt => [LESS]
    case OpGt => [GREATER]
    case OpLte => [LESS, EQUALS]
    case OpGte => [GREATER, EQUALS]
  }

  function Name(n: Bytes): Pattern { Exact(Ident, n) }

  function Word(w: Bytes): Pattern { Exact(Keyword, w) }

  const OPEN := Exact(LParen, [LPAREN])
  const CLOSE := Exact(RParen, [RPAREN])
  const ALL := Exact(Star, [STAR])
  const SEPARATOR := Exact(Comma, [COMMA])

  // ---- Flat conditions and trees ----

  /** The groups of a two-level tree. */
  function ChildGroup(e: FilterExpr): seq<Comparison> {
    if e.comparison.Some? then [e.comparison.value]
    else if e.and.Nodes? then NodeComparisons(e.and.list)
    else []
  }

  function NodeComparisons(es: seq<FilterExpr>): (cs: seq<Comparison>)
    ensures |cs| == |es|
  {
    seq(|es|, i requires 0 <= i < |es| =>
      if es[i].comparison.Some? then es[i].comparison.value else Comparison([], OpEq, Nil, 0))
  }

  function TreeGroups(e: FilterExpr): (gs: seq<seq<Comparison>>)
    ensures e.or.Nodes? ==> |gs| == |e.or.list| && forall i :: 0 <= i < |gs| ==> gs[i] == ChildGroup(e.or.list[i])
    ensures !e.or.Nodes? ==> gs == [ChildGroup(e)]
  {
    if e.or.Nodes? then seq(|e.or.list|, i requires 0 <= i < |e.or.list| => ChildGroup(e.or.list[i]))
    else [ChildGroup(e)]
  }

  predicate NoneEmpty(gs: seq<seq<Comparison>>) {
    forall i :: 0 <= i < |gs| ==> gs[i] != []
  }

  /** The connectives between the comparisons of the groups laid end to end. */
  function GroupOps(gs: seq<seq<Comparison>>): (ops: seq<Connective>)
    requires gs != [] && NoneEmpty(gs)
    ensures |Flatten(gs)| == |ops| + 1
  {
    if |gs| == 1 then
      assert Flatten(gs) == gs[0] + Flatten([]);
      Repeat(AndOp, |gs[0]| - 1)
    else
      Repeat(AndOp, |gs[0]| - 1) + [OrOp] + GroupOps(gs[1..])
  }

  function Conditions(e: FilterExpr): (r: (seq<Comparison>, seq<Connective>))
    requires TwoLevel(e)
    ensures |r.0| == |r.1| + 1
  {
    GroupsOfTree(e);
    (Flatten(TreeGroups(e)), GroupOps(TreeGroups(e)))
  }

  // ---- Trees and their groups ----

  lemma GroupsOfTree(e: FilterExpr)
    requires TwoLevel(e)
    ensures TreeGroups(e) != [] && NoneEmpty(TreeGroups(e))
  {
  }

  lemma GroupOfChild(e: FilterExpr)
    requires IsLeaf(e) || IsConjunction(e)
    ensures GroupNode(ChildGroup(e)) == e
  {
  }

  lemma TreeOfGroups(e: FilterExpr)
    requires TwoLevel(e)
    ensures Lower(TreeGroups(e)) == e
  {
    if e.or.Nodes? {
      var gs := TreeGroups(e);
      forall i | 0 <= i < |gs| ensures GroupNode(gs[i]) == e.or.list[i] {
        GroupOfChild(e.or.list[i]);
      }
      assert GroupNodes(gs) == e.or.list;
    } else {
      GroupOfChild(e);
    }
  }

  lemma {:induction false} GroupsOfRun(g: seq<Comparison>, comps: seq<Comparison>, ops: seq<Connective>)
    requires g != [] && |comps| == |ops| + 1
    ensures Groups(g + comps, Repeat(AndOp, |g| - 1) + [OrOp] + ops) == [g] + Groups(comps, ops)
    decreases |g|
  {
    var cs, os := g + comps, Repeat(AndOp, |g| - 1) + [OrOp] + ops;
    assert cs[1..] == g[1..] + comps;
    if |g| == 1 {
      assert os[1..] == ops && cs[1..] == comps && g == [cs[0]];
    } else {
      assert os[1..] == Repeat(AndOp, |g| - 2) + [OrOp] + ops;
      GroupsOfRun(g[1..], comps, ops);
      assert g == [g[0]] + g[1..];
      assert ([g[1..]] + Groups(comps, ops))[1..] == Groups(comps, ops);
    }
  }

  lemma {:induction false} GroupsOfOne(g: seq<Comparison>)
    requires g != []
    ensures Groups(g, Repeat(AndOp, |g| - 1)) == [g]
    decreases |g|
  {
    if |g| > 1 {
      assert Repeat(AndOp, |g| - 1)[1..] == Repeat(AndOp, |g| - 2);
      GroupsOfOne(g[1..]);
      assert g == [g[0]] + g[1..];
    }
  }

  /** Laying groups end to end loses nothing: pass 2 finds them again. */
  lemma {:induction false} GroupsRecovered(gs: seq<seq<Comparison>>)
    requires gs != [] && NoneEmpty(gs)
    ensures Groups(Flatten(gs), GroupOps(gs)) == gs
  {
    if |gs| == 1 {
      assert gs == [gs[0]] && gs[1..] == [];
      ConcatNil(gs[0]);
      GroupsOfOne(gs[0]);
    } else {
      GroupsRecovered(gs[1..]);
      GroupsOfRun(gs[0], Flatten(gs[1..]), GroupOps(gs[1..]));
      assert gs == [gs[0]] + gs[1..];
    }
  }

  /** Every two-level tree is the tree of its own conditions. */
  lemma TreeRecovered(e: FilterExpr)
    requires TwoLevel(e)
    ensures WhereTree(Conditions(e).0, Conditions(e).1) == e
  {
    GroupsOfTree(e);
    GroupsRecovered(TreeGroups(e));
    TreeOfGroups(e);
  }

  lemma {:induction false} OpsRecovered(cs: seq<Comparison>, ops: seq<Connective>)
    requires |cs| == |ops| + 1
    ensures NoneEmpty(Groups(cs, ops))
    ensures GroupOps(Groups(cs, ops)) == ops
    decreases |ops|
  {
    GroupsNonEmpty(cs, ops);
    if ops != [] {
      var rest := Groups(cs[1..], ops[1..]);
      GroupsNonEmpty(cs[1..], ops[1..]);
      OpsRecovered(cs[1..], ops[1..]);
      assert ops == [ops[0]] + ops[1..];
      if ops[0] == AndOp {
        GroupOpsOfPrepend(cs[0], rest);
      } else {
        assert ([[cs[0]]] + rest)[1..] == rest;
      }
    } else {
      assert Repeat(AndOp, 0) == [];
    }
  }

  lemma PrependIsNonEmpty(c: Comparison, gs: seq<seq<Comparison>>)
    requires gs != [] && NoneEmpty(gs)
    ensures NoneEmpty(Prepend([c], gs))
    ensures gs[0] != [] && NoneEmpty(gs[1..])
    ensures Prepend([c], gs)[1..] == gs[1..] && |Prepend([c], gs)[0]| == |gs[0]| + 1
  {
  }

  function LaterOps(gs: seq<seq<Comparison>>): seq<Connective>
    requires NoneEmpty(gs)
  {
    if gs == [] then [] else [OrOp] + GroupOps(gs)
  }

  lemma GroupOpsStep(gs: seq<seq<Comparison>>)
    requires gs != [] && NoneEmpty(gs)
    ensures GroupOps(gs)
         == Repeat(AndOp, |gs[0]| - 1) + LaterOps(gs[1..])
  {
  }

  lemma GroupOpsOfPrepend(c: Comparison, gs: seq<seq<Comparison>>)
    requires gs != [] && NoneEmpty(gs)
    ensures NoneEmpty(Prepend([c], gs))
    ensures GroupOps(Prepend([c], gs)) == [AndOp] + GroupOps(gs)
  {
    PrependIsNonEmpty(c, gs);
    RepeatedOnceMore(|gs[0]| - 1);
    hide Repeat, GroupOps, Prepend, NoneEmpty;
    GroupOpsStep(Prepend([c], gs));
    GroupOpsStep(gs);
    ConcatAssoc([AndOp], Repeat(AndOp, |gs[0]| - 1), LaterOps(gs[1..]));
  }

  lemma RepeatedOnceMore(n: nat)
    ensures Repeat(AndOp, n + 1) == [AndOp] + Repeat(AndOp, n)
  {
  }

  lemma ChildrenOfGroups(gs: seq<seq<Comparison>>)
    requires gs != [] && NoneEmpty(gs)
    ensures TreeGroups(Lower(gs)) == gs
  {
    forall i | 0 <= i < |gs| ensures ChildGroup(GroupNode(gs[i])) == gs[i] {
      if |gs[i]| > 1 {
        assert NodeComparisons(Leaves(gs[i])) == gs[i];
      } else {
        assert gs[i] == [gs[i][0]];
      }
    }
    if |gs| == 1 {
      assert gs == [gs[0]];
    }
  }

  /** The tree of a flat condition gives the condition back. */
  lemma ConditionsRecovered(cs: seq<Comparison>, ops: seq<Connective>)
    requires |cs| == |ops| + 1
    ensures TwoLevel(WhereTree(cs, ops)) && Conditions(WhereTree(cs, ops)) == (cs, ops)
  {
    ShapeCorrect(cs, ops);
    OpsRecovered(cs, ops);
    ChildrenOfGroups(Groups(cs, ops));
    FlattenGroups(cs, ops);
    hide Groups, TwoLevel, Lower;
  }

  // ---- Sentences ----

  function ComparisonSentence(c: Comparison): (ps: seq<Pattern>)
    ensures |ps| == 3
  {
    [ColumnAt(c.column, c.pos), Exact(Op, OpText(c.op)), Lit(c.value)]
  }

  function MoreSentence(cs: seq<Comparison>, ops: seq<Connective>): (ps: seq<Pattern>)
    requires |cs| == |ops|
    ensures |ps| == 4 * |cs|
  {
    if cs == [] then []
    else [Word(if ops[0] == AndOp then AND else OR)] + ComparisonSentence(cs[0]) + MoreSentence(cs[1..], ops[1..])
  }

  function ConditionSentence(e: FilterExpr): seq<Pattern>
    requires TwoLevel(e)
  {
    var (cs, ops) := Conditions(e);
    ComparisonSentence(cs[0]) + MoreSentence(cs[1..], ops)
  }

  function FilterSentence(q: Query): seq<Pattern>
    requires q.filter.Some? ==> TwoLevel(q.filter.value)
  {
    if q.filter.Some? then [Word(WHERE)] + ConditionSentence(q.filter.value) else []
  }

  function NamesSentence(ns: seq<Bytes>): (ps: seq<Pattern>)
    ensures |ps| == 2 * |ns|
  {
    if ns == [] then [] else [SEPARATOR, Name(ns[0])] + NamesSentence(ns[1..])
  }

  function AggregateSentence(count: bool, col: Bytes): (ps: seq<Pattern>)
    ensures |ps| == 4
  {
    if count then [Word(COUNT), OPEN, ALL, CLOSE] else [Word(SUM), OPEN, Name(col), CLOSE]
  }

  function ProjectionSentence(q: Query): seq<Pattern>
    requires q.projection == ProjColumns || q.projection == ProjGrouped ==> q.columns != []
  {
    match q.projection
    case ProjColumns => [Name(q.columns[0])] + NamesSentence(q.columns[1..])
    case ProjStar => [ALL]
    case ProjCountStar => AggregateSentence(true, q.sumColumn)
    case ProjSumColumn => AggregateSentence(false, q.sumColumn)
    case ProjGrouped => [Name(q.columns[0]), SEPARATOR] + AggregateSentence(q.groupAgg == AggCountStar, q.sumColumn)
  }

  function GroupSentence(groupBy: Bytes): seq<Pattern> {
    if groupBy != [] then [Word(GROUP), Word(BY), Name(groupBy)] else []
  }

  /** SELECT projection [WHERE condition] [GROUP BY column] */
  function Sentence(q: Query): seq<Pattern>
    requires Shaped(q)
  {
    [Word(SELECT)] + ProjectionSentence(q) + FilterSentence(q) + GroupSentence(q.groupBy)
  }

  // ---- Tokens that fit a sentence ----

  ghost predicate FitsOne(pf: ParseFloat, t: Token, p: Pattern) {
    match p
    case Exact(kind, text) => t.kind == kind && t.text == text
    case ColumnAt(name, pos) => t.kind == Ident && t.text == name && t.pos == pos
    case Lit(v) => Reads(pf, t, v)
  }

  /** The tokens from i on fit the patterns, with at least the EOF behind them. */
  ghost predicate Fits(pf: ParseFloat, toks: seq<Token>, i: nat, ps: seq<Pattern>) {
    i + |ps| < |toks| && forall k :: 0 <= k < |ps| ==> FitsOne(pf, toks[i + k], ps[k])
  }

  lemma FitsConcat(pf: ParseFloat, toks: seq<Token>, i: nat, a: seq<Pattern>, b: seq<Pattern>)
    ensures Fits(pf, toks, i, a + b) <==> Fits(pf, toks, i, a) && Fits(pf, toks, i + |a|, b)
  {
    hide FitsOne;
    var c := a + b;
    if Fits(pf, toks, i, c) {
      forall k | 0 <= k < |a| ensures FitsOne(pf, toks[i + k], a[k]) {
        assert c[k] == a[k];
      }
      forall k | 0 <= k < |b| ensures FitsOne(pf, toks[i + |a| + k], b[k]) {
        assert FitsOne(pf, toks[i + (|a| + k)], c[|a| + k]) && c[|a| + k] == b[k];
      }
    }
    if Fits(pf, toks, i, a) && Fits(pf, toks, i + |a|, b) {
      forall k | 0 <= k < |c| ensures FitsOne(pf, toks[i + k], c[k]) {
        if k >= |a| { assert FitsOne(pf, toks[i + |a| + (k - |a|)], b[k - |a|]); }
      }
    }
  }

  lemma OneFits(pf: ParseFloat, toks: seq<Token>, i: nat, p: Pattern)
    requires i + 1 < |toks| && FitsOne(pf, toks[i], p)
    ensures Fits(pf, toks, i, [p])
  {
  }

  /** The token that fits pattern k. */
  lemma FitsAt(pf: ParseFloat, toks: seq<Token>, i: nat, ps: seq<Pattern>, k: nat)
    requires Fits(pf, toks, i, ps) && k < |ps|
    ensures FitsOne(pf, toks[i + k], ps[k]) && Next(toks, i + k) == i + k + 1
  {
  }

  // ---- Every sentence is parsed ----

  lemma ComparisonParsed(pf: ParseFloat, toks: seq<Token>, i: nat, c: Comparison)
    requires TokenList(toks) && Fits(pf, toks, i, ComparisonSentence(c))
    ensures PComparison(pf, toks, i) == Ok((c, i + 3))
  {
    hide TokenList, Literal, Reads;
    var ps := ComparisonSentence(c);
    FitsAt(pf, toks, i, ps, 0);
    FitsAt(pf, toks, i, ps, 1);
    FitsAt(pf, toks, i, ps, 2);
    LiteralExactly(pf, toks[i + 2], c.value);
    assert OpOf(OpText(c.op)) == Some(c.op);
    hide Fits, OpOf, OpText;
  }

  lemma PMoreStep(pf: ParseFloat, toks: seq<Token>, i: nat, c: Comparison)
    requires TokenList(toks) && i + 4 < |toks| && IsConnective(toks[i])
    requires PComparison(pf, toks, i + 1) == Ok((c, i + 4))
    ensures PMore(pf, toks, i)
         == match PMore(pf, toks, i + 4)
            case Err(e) => Err(e)
            case Ok(((cs, ops), k)) => Ok((([c] + cs, [ConnectiveOf(toks[i])] + ops), k))
  {
  }

  lemma PMoreEnd(pf: ParseFloat, toks: seq<Token>, i: nat)
    requires TokenList(toks) && i < |toks| && !IsConnective(toks[i]) && toks[i].kind != Ident
    ensures PMore(pf, toks, i) == Ok((([], []), i))
  {
  }

  lemma {:induction false} MoreParsed(pf: ParseFloat, toks: seq<Token>, i: nat, cs: seq<Comparison>, ops: seq<Connective>)
    requires TokenList(toks) && |cs| == |ops| && Fits(pf, toks, i, MoreSentence(cs, ops))
    requires var end := toks[i + |MoreSentence(cs, ops)|]; !IsConnective(end) && end.kind != Ident
    ensures PMore(pf, toks, i) == Ok(((cs, ops), i + |MoreSentence(cs, ops)|))
    decreases |cs|
  {
    hide TokenList, PComparison, ComparisonSentence, PMore;
    if cs == [] {
      PMoreEnd(pf, toks, i);
    } else {
      var word := [Word(if ops[0] == AndOp then AND else OR)];
      var first, rest := ComparisonSentence(cs[0]), MoreSentence(cs[1..], ops[1..]);
      FitsConcat(pf, toks, i, word + first, rest);
      FitsConcat(pf, toks, i, word, first);
      FitsAt(pf, toks, i, word, 0);
      assert IsConnective(toks[i]) && ConnectiveOf(toks[i]) == ops[0];
      hide Fits, IsConnective, ConnectiveOf;
      ComparisonParsed(pf, toks, i + 1, cs[0]);
      MoreParsed(pf, toks, i + 4, cs[1..], ops[1..]);
      PMoreStep(pf, toks, i, cs[0]);
      assert cs == [cs[0]] + cs[1..] && ops == [ops[0]] + ops[1..];
    }
  }

  lemma ConditionParsed(pf: ParseFloat, toks: seq<Token>, i: nat, e: FilterExpr)
    requires TokenList(toks) && TwoLevel(e) && Fits(pf, toks, i, ConditionSentence(e))
    requires var end := toks[i + |ConditionSentence(e)|]; !IsConnective(end) && end.kind != Ident
    ensures PWhere(pf, toks, i) == Ok((e, i + |ConditionSentence(e)|))
  {
    hide TokenList, TwoLevel, MoreSentence, ComparisonSentence, Fits, IsConnective, WhereTree, Conditions, PComparison, PMore;
    var (cs, ops) := Conditions(e);
    var first, more := ComparisonSentence(cs[0]), MoreSentence(cs[1..], ops);
    FitsConcat(pf, toks, i, first, more);
    TreeRecovered(e);
    ComparisonParsed(pf, toks, i, cs[0]);
    MoreParsed(pf, toks, i + 3, cs[1..], ops);
    assert cs == [cs[0]] + cs[1..];
  }

  lemma AggregateParsed(pf: ParseFloat, toks: seq<Token>, i: nat, q: Query, count: bool, col: Bytes)
    requires TokenList(toks) && Fits(pf, toks, i, AggregateSentence(count, col))
    ensures IsAggregate(toks[i])
    ensures PAggregate(toks, i, q)
         == Ok((q.(projection := ProjGrouped, groupAgg := if count then AggCountStar else AggSumColumn,
                   sumColumn := if count then q.sumColumn else col), i + 4))
  {
    hide TokenList;
    var ps := AggregateSentence(count, col);
    FitsAt(pf, toks, i, ps, 0);
    FitsAt(pf, toks, i, ps, 1);
    FitsAt(pf, toks, i, ps, 2);
    FitsAt(pf, toks, i, ps, 3);
    hide Fits;
  }

  lemma {:induction false} NamesParsed(pf: ParseFloat, toks: seq<Token>, i: nat, ns: seq<Bytes>, q: Query)
    requires TokenList(toks) && Fits(pf, toks, i, NamesSentence(ns))
    requires toks[i + |NamesSentence(ns)|].kind != Comma
    ensures PColumns(toks, i, q) == Ok((q.(columns := q.columns + ns), i + |NamesSentence(ns)|))
    decreases |ns|
  {
    hide TokenList;
    if ns == [] {
      ConcatNil(q.columns);
    } else {
      var pair, rest := [SEPARATOR, Name(ns[0])], NamesSentence(ns[1..]);
      FitsConcat(pf, toks, i, pair, rest);
      FitsAt(pf, toks, i, pair, 0);
      FitsAt(pf, toks, i, pair, 1);
      hide Fits;
      NamesParsed(pf, toks, i + 2, ns[1..], q.(columns := q.columns + [ns[0]]));
      assert ns == [ns[0]] + ns[1..];
      ConcatAssoc(q.columns, [ns[0]], ns[1..]);
    }
  }

  lemma ColumnListParsed(pf: ParseFloat, toks: seq<Token>, i: nat, names: seq<Bytes>)
    requires TokenList(toks) && names != [] && Fits(pf, toks, i, [Name(names[0])] + NamesSentence(names[1..]))
    requires toks[i + 1 + |NamesSentence(names[1..])|].kind != Comma
    ensures PProjection(toks, i, EMPTY_QUERY)
         == Ok((EMPTY_QUERY.(projection := ProjColumns, columns := names), i + 1 + |NamesSentence(names[1..])|))
  {
    hide TokenList, NamesSentence, PColumns;
    var head, tail := [Name(names[0])], NamesSentence(names[1..]);
    FitsConcat(pf, toks, i, head, tail);
    FitsAt(pf, toks, i, head, 0);
    hide Fits;
    NamesParsed(pf, toks, i + 1, names[1..], EMPTY_QUERY.(projection := ProjColumns, columns := [names[0]]));
    assert names == [names[0]] + names[1..];
  }

  lemma GroupedListParsed(pf: ParseFloat, toks: seq<Token>, i: nat, name: Bytes, count: bool, col: Bytes)
    requires TokenList(toks) && Fits(pf, toks, i, [Name(name), SEPARATOR] + AggregateSentence(count, col))
    requires toks[i + 6].kind != Comma
    ensures PProjection(toks, i, EMPTY_QUERY)
         == Ok((EMPTY_QUERY.(projection := ProjGrouped, columns := [name],
                             groupAgg := if count then AggCountStar else AggSumColumn,
                             sumColumn := if count then [] else col), i + 6))
  {
    hide TokenList, AggregateSentence, PAggregate, IsAggregate;
    var head, tail := [Name(name), SEPARATOR], AggregateSentence(count, col);
    FitsConcat(pf, toks, i, head, tail);
    FitsAt(pf, toks, i, head, 0);
    FitsAt(pf, toks, i, head, 1);
    hide Fits;
    AggregateParsed(pf, toks, i + 2, EMPTY_QUERY.(projection := ProjColumns, columns := [name]), count, col);
  }

  lemma SimpleProjectionParsed(pf: ParseFloat, toks: seq<Token>, i: nat, q: Query)
    requires TokenList(toks) && Shaped(q) && Fits(pf, toks, i, ProjectionSentence(q))
    requires q.projection == ProjStar || q.projection == ProjCountStar || q.projection == ProjSumColumn
    ensures PProjection(toks, i, EMPTY_QUERY) == Ok((q.(groupBy := [], filter := None), i + |ProjectionSentence(q)|))
  {
    hide TokenList, TwoLevel, PColumns;
    var ps := ProjectionSentence(q);
    FitsAt(pf, toks, i, ps, 0);
    if q.projection != ProjStar {
      FitsAt(pf, toks, i, ps, 1);
      FitsAt(pf, toks, i, ps, 2);
      FitsAt(pf, toks, i, ps, 3);
    }
    hide Fits;
  }

  lemma ProjectionParsed(pf: ParseFloat, toks: seq<Token>, i: nat, q: Query)
    requires TokenList(toks) && Shaped(q) && Fits(pf, toks, i, ProjectionSentence(q))
    requires toks[i + |ProjectionSentence(q)|].kind != Comma
    ensures PProjection(toks, i, EMPTY_QUERY) == Ok((q.(groupBy := [], filter := None), i + |ProjectionSentence(q)|))
  {
    hide TokenList, TwoLevel, Fits, NamesSentence, AggregateSentence, PProjection;
    if q.projection == ProjColumns {
      ColumnListParsed(pf, toks, i, q.columns);
    } else if q.projection == ProjGrouped {
      GroupedListParsed(pf, toks, i, q.columns[0], q.groupAgg == AggCountStar, q.sumColumn);
    } else {
      SimpleProjectionParsed(pf, toks, i, q);
    }
  }

  lemma FilterParsed(pf: ParseFloat, toks: seq<Token>, i: nat, q: Query, start: Query)
    requires TokenList(toks) && (q.filter.Some? ==> TwoLevel(q.filter.value))
    requires Fits(pf, toks, i, FilterSentence(q)) && start.filter == None
    requires var end := toks[i + |FilterSentence(q)|]; end.kind == EOF || IsWordToken(end, GROUP)
    ensures PFilter(pf, toks, i, start) == Ok((start.(filter := q.filter), i + |FilterSentence(q)|))
  {
    hide TokenList, TwoLevel, ConditionSentence, PWhere;
    if q.filter.Some? {
      FitsConcat(pf, toks, i, [Word(WHERE)], ConditionSentence(q.filter.value));
      FitsAt(pf, toks, i, [Word(WHERE)], 0);
      hide Fits;
      ConditionParsed(pf, toks, i + 1, q.filter.value);
    }
  }

  lemma GroupByParsed(pf: ParseFloat, toks: seq<Token>, i: nat, groupBy: Bytes, start: Query)
    requires TokenList(toks) && start.groupBy == []
    requires Fits(pf, toks, i, GroupSentence(groupBy)) && toks[i + |GroupSentence(groupBy)|].kind == EOF
    ensures PGroupBy(toks, i, start) == Ok((start.(groupBy := groupBy), i + |GroupSentence(groupBy)|))
  {
    hide TokenList;
    if groupBy != [] {
      FitsAt(pf, toks, i, GroupSentence(groupBy), 0);
      FitsAt(pf, toks, i, GroupSentence(groupBy), 1);
      FitsAt(pf, toks, i, GroupSentence(groupBy), 2);
    }
    hide Fits;
  }

  /** The clauses of a query side by side in the token list, up to the EOF. */
  ghost predicate LaidOut(pf: ParseFloat, toks: seq<Token>, q: Query, a: nat, b: nat)
    requires Shaped(q)
  {
    && 1 <= a && |toks| >= 2 && IsWordToken(toks[0], SELECT)
    && Fits(pf, toks, 1, ProjectionSentence(q)) && a == 1 + |ProjectionSentence(q)|
    && Fits(pf, toks, a, FilterSentence(q)) && b == a + |FilterSentence(q)|
    && Fits(pf, toks, b, GroupSentence(q.groupBy)) && b + |GroupSentence(q.groupBy)| == |toks| - 1
  }

  /** A sentence of a query is the whole token list but for the EOF. */
  ghost predicate Derives(pf: ParseFloat, toks: seq<Token>, q: Query)
    requires Shaped(q)
  {
    Fits(pf, toks, 0, Sentence(q)) && |toks| == |Sentence(q)| + 1
  }

  lemma SentenceLayout(pf: ParseFloat, toks: seq<Token>, q: Query)
    requires Shaped(q)
    ensures var a := 1 + |ProjectionSentence(q)|; var b := a + |FilterSentence(q)|;
      Derives(pf, toks, q) <==> LaidOut(pf, toks, q, a, b)
  {
    ShapedGrouping(q);
    hide Shaped, GroupingOk, ProjectionSentence, FilterSentence, GroupSentence, TwoLevel, Fits, IsWordToken;
    var s, p, f, g := [Word(SELECT)], ProjectionSentence(q), FilterSentence(q), GroupSentence(q.groupBy);
    assert Sentence(q) == s + p + f + g;
    hide Sentence;
    ClausesFit(pf, toks, s, p, f, g);
    SelectFits(pf, toks);
  }

  lemma ClausesFit(pf: ParseFloat, toks: seq<Token>, s: seq<Pattern>, p: seq<Pattern>, f: seq<Pattern>, g: seq<Pattern>)
    requires |s| == 1
    ensures var a := 1 + |p|; var b := a + |f|;
      Fits(pf, toks, 0, s + p + f + g)
      <==> Fits(pf, toks, 0, s) && Fits(pf, toks, 1, p) && Fits(pf, toks, a, f) && Fits(pf, toks, b, g)
  {
    hide Fits;
    FitsConcat(pf, toks, 0, s + p + f, g);
    FitsConcat(pf, toks, 0, s + p, f);
    FitsConcat(pf, toks, 0, s, p);
  }

  lemma SelectFits(pf: ParseFloat, toks: seq<Token>)
    ensures Fits(pf, toks, 0, [Word(SELECT)]) <==> |toks| >= 2 && IsWordToken(toks[0], SELECT)
  {
    if Fits(pf, toks, 0, [Word(SELECT)]) { FitsAt(pf, toks, 0, [Word(SELECT)], 0); }
    if |toks| >= 2 && IsWordToken(toks[0], SELECT) { OneFits(pf, toks, 0, Word(SELECT)); }
    hide Fits;
  }

  lemma AfterProjection(pf: ParseFloat, toks: seq<Token>, q: Query, a: nat, b: nat)
    requires TokenList(toks) && Shaped(q) && LaidOut(pf, toks, q, a, b)
    ensures toks[a].kind == EOF || toks[a].kind == Keyword
    ensures toks[b].kind == EOF || IsWordToken(toks[b], GROUP)
    ensures toks[|toks| - 1].kind == EOF
  {
    hide ProjectionSentence, TwoLevel, ConditionSentence;
    assert toks[|toks| - 1].kind == EOF;
    hide TokenList;
    if q.groupBy != [] { FitsAt(pf, toks, b, GroupSentence(q.groupBy), 0); }
    if q.filter.Some? { FitsAt(pf, toks, a, FilterSentence(q), 0); }
    hide Fits;
  }

  lemma ParseTokensSteps(pf: ParseFloat, toks: seq<Token>, q1: Query, a: nat, q2: Query, b: nat, q3: Query)
    requires TokenList(toks) && |toks| >= 2 && IsWordToken(toks[0], SELECT) && a < |toks| && b < |toks|
    requires PProjection(toks, 1, EMPTY_QUERY) == Ok((q1, a))
    requires PFilter(pf, toks, a, q1) == Ok((q2, b))
    requires PGroupBy(toks, b, q2) == Ok((q3, |toks| - 1))
    requires GroupingOk(q3)
    ensures ParseTokens(pf, toks) == Ok(q3)
  {
    hide PProjection, PFilter, PGroupBy;
  }

  lemma SentenceParsed(pf: ParseFloat, toks: seq<Token>, q: Query)
    requires TokenList(toks) && Shaped(q) && Derives(pf, toks, q)
    ensures ParseTokens(pf, toks) == Ok(q)
  {
    hide TokenList, TwoLevel, FilterSentence, GroupSentence, ProjectionSentence, Fits, Derives, IsWordToken, Shaped;
    hide PProjection, PFilter, PGroupBy, ParseTokens, GroupingOk;
    ShapedGrouping(q);
    var a := 1 + |ProjectionSentence(q)|;
    var b := a + |FilterSentence(q)|;
    SentenceLayout(pf, toks, q);
    AfterProjection(pf, toks, q, a, b);
    var q1 := q.(groupBy := [], filter := None);
    ProjectionParsed(pf, toks, 1, q);
    FilterParsed(pf, toks, a, q, q1);
    GroupByParsed(pf, toks, b, q.groupBy, q1.(filter := q.filter));
    ParseTokensSteps(pf, toks, q1, a, q1.(filter := q.filter), b, q);
  }

  lemma ShapedGrouping(q: Query)
    requires Shaped(q)
    ensures GroupingOk(q) && (q.filter.Some? ==> TwoLevel(q.filter.value))
    ensures q.projection == ProjColumns || q.projection == ProjGrouped ==> q.columns != []
  {
  }

  // ---- Nothing else is parsed ----

  lemma ParsedComparison(pf: ParseFloat, toks: seq<Token>, i: nat)
    requires TokenList(toks) && i < |toks| && PComparison(pf, toks, i).Ok?
    ensures Fits(pf, toks, i, ComparisonSentence(PComparison(pf, toks, i).value.0))
  {
    hide Literal;
    var (c, _) := PComparison(pf, toks, i).value;
    LiteralExactly(pf, toks[i + 2], c.value);
    hide Reads;
    assert OpText(c.op) == toks[i + 1].text;
    var ps := ComparisonSentence(c);
    assert FitsOne(pf, toks[i + 0], ps[0]) && FitsOne(pf, toks[i + 1], ps[1]) && FitsOne(pf, toks[i + 2], ps[2]);
  }

  lemma {:induction false} ParsedMore(pf: ParseFloat, toks: seq<Token>, i: nat)
    requires TokenList(toks) && i < |toks| && PMore(pf, toks, i).Ok?
    ensures var ((cs, ops), j) := PMore(pf, toks, i).value;
      Fits(pf, toks, i, MoreSentence(cs, ops)) && j == i + |MoreSentence(cs, ops)|
    decreases |toks| - i
  {
    if IsConnective(toks[i]) {
      hide ComparisonSentence, MoreSentence, Fits;
      var (c, j) := PComparison(pf, toks, Next(toks, i)).value;
      ParsedComparison(pf, toks, i + 1);
      ParsedMore(pf, toks, i + 4);
      hide PComparison;
      var ((cs, ops), k) := PMore(pf, toks, i + 4).value;
      PMoreStep(pf, toks, i, c);
      hide PMore, TokenList;
      MoreFits(pf, toks, i, c, cs, ops);
    }
  }

  lemma MoreFits(pf: ParseFloat, toks: seq<Token>, i: nat, c: Comparison, cs: seq<Comparison>, ops: seq<Connective>)
    requires i + 4 < |toks| && IsConnective(toks[i]) && |cs| == |ops|
    requires Fits(pf, toks, i + 1, ComparisonSentence(c)) && Fits(pf, toks, i + 4, MoreSentence(cs, ops))
    ensures Fits(pf, toks, i, MoreSentence([c] + cs, [ConnectiveOf(toks[i])] + ops))
  {
    var op := ConnectiveOf(toks[i]);
    var word := [Word(if op == AndOp then AND else OR)];
    OneFits(pf, toks, i, word[0]);
    hide Fits, ComparisonSentence, IsConnective, ConnectiveOf;
    assert ([c] + cs)[1..] == cs && ([op] + ops)[1..] == ops;
    FitsConcat(pf, toks, i, word, ComparisonSentence(c));
    FitsConcat(pf, toks, i, word + ComparisonSentence(c), MoreSentence(cs, ops));
  }

  lemma ParsedCondition(pf: ParseFloat, toks: seq<Token>, i: nat)
    requires TokenList(toks) && i < |toks| && PWhere(pf, toks, i).Ok?
    ensures var (e, j) := PWhere(pf, toks, i).value;
      TwoLevel(e) && Fits(pf, toks, i, ConditionSentence(e)) && j == i + |ConditionSentence(e)|
  {
    hide TokenList, TwoLevel, MoreSentence, ComparisonSentence, Fits, WhereTree, Conditions, PComparison, PMore;
    var (first, j) := PComparison(pf, toks, i).value;
    var ((cs, ops), k) := PMore(pf, toks, j).value;
    ParsedComparison(pf, toks, i);
    ParsedMore(pf, toks, j);
    ConditionsRecovered([first] + cs, ops);
    assert ([first] + cs)[1..] == cs;
    FitsConcat(pf, toks, i, ComparisonSentence(first), MoreSentence(cs, ops));
  }

  lemma ParsedAggregate(pf: ParseFloat, toks: seq<Token>, i: nat, q: Query)
    requires TokenList(toks) && i < |toks| && IsAggregate(toks[i]) && PAggregate(toks, i, q).Ok?
    requires forall k :: 0 <= k < |toks| ==> FixedSign(toks[k])
    ensures var (q', j) := PAggregate(toks, i, q).value;
      Fits(pf, toks, i, AggregateSentence(q'.groupAgg == AggCountStar, q'.sumColumn)) && j == i + 4
  {
  }

  /** Signs have the one text the lexer gives them. */
  predicate FixedSign(t: Token) {
    && (t.kind == Comma ==> t.text == [COMMA])
    && (t.kind == LParen ==> t.text == [LPAREN])
    && (t.kind == RParen ==> t.text == [RPAREN])
    && (t.kind == Star ==> t.text == [STAR])
  }

  ghost predicate FixedSigns(toks: seq<Token>) {
    forall k :: 0 <= k < |toks| ==> FixedSign(toks[k])
  }

  lemma {:induction false} TilesHaveFixedSigns(input: Bytes, ts: seq<Token>, i: nat)
    requires Tiles(input, ts, i)
    ensures FixedSigns(ts)
    decreases |ts|
  {
    hide IntText, FloatText, IsKeyword, AllSpace, IsWord;
    if |ts| > 1 {
      TilesHaveFixedSigns(input, ts[1..], End(ts[0]));
      assert forall k :: 1 <= k < |ts| ==> ts[k] == ts[1..][k - 1];
    }
  }

  /** What a column list adds: names, or one aggregate right behind the first name. */
  ghost predicate ColumnsAdded(pf: ParseFloat, toks: seq<Token>, i: nat, q: Query, q': Query, j: nat) {
    q.columns <= q'.columns &&
    if q'.projection == ProjGrouped then
      var ps := [SEPARATOR] + AggregateSentence(q'.groupAgg == AggCountStar, q'.sumColumn);
      |q'.columns| == 1 && Fits(pf, toks, i, ps) && j == i + 5
    else
      var ps := NamesSentence(q'.columns[|q.columns|..]);
      Fits(pf, toks, i, ps) && j == i + |ps|
  }

  lemma {:induction false} ParsedColumns(pf: ParseFloat, toks: seq<Token>, i: nat, q: Query)
    requires TokenList(toks) && FixedSigns(toks) && i < |toks| && PColumns(toks, i, q).Ok?
    requires q.projection == ProjColumns && q.columns != []
    ensures ColumnsAdded(pf, toks, i, q, PColumns(toks, i, q).value.0, PColumns(toks, i, q).value.1)
    decreases |toks| - i
  {
    hide PAggregate, AggregateSentence, ColumnsAdded, FixedSigns, IsAggregate;
    if toks[i].kind != Comma {
      NoColumnsAdded(pf, toks, i, q);
    } else {
      var n := Next(toks, i);
      if IsAggregate(toks[n]) {
        ColumnsEndAggregate(toks, i, q);
        AggregateAdded(pf, toks, i, q);
      } else {
        var next := q.(columns := q.columns + [toks[n].text]);
        ParsedColumns(pf, toks, n + 1, next);
        var (q', j) := PColumns(toks, n + 1, next).value;
        NameAdded(pf, toks, i, q, q', j);
      }
    }
  }

  lemma NoColumnsAdded(pf: ParseFloat, toks: seq<Token>, i: nat, q: Query)
    requires i < |toks| && q.projection == ProjColumns
    ensures ColumnsAdded(pf, toks, i, q, q, i)
  {
  }

  lemma AggregateAdded(pf: ParseFloat, toks: seq<Token>, i: nat, q: Query)
    requires TokenList(toks) && FixedSigns(toks) && i + 1 < |toks| && toks[i].kind == Comma
    requires IsAggregate(toks[i + 1]) && PAggregate(toks, i + 1, q).Ok? && |q.columns| == 1
    ensures ColumnsAdded(pf, toks, i, q, PAggregate(toks, i + 1, q).value.0, PAggregate(toks, i + 1, q).value.1)
  {
    assert FixedSign(toks[i]);
    OneFits(pf, toks, i, SEPARATOR);
    ParsedAggregate(pf, toks, i + 1, q);
    AggregateKeeps(toks, i + 1, q);
    var (q', _) := PAggregate(toks, i + 1, q).value;
    hide Fits, TokenList, FixedSigns, AggregateSentence, IsAggregate, PAggregate;
    FitsConcat(pf, toks, i, [SEPARATOR], AggregateSentence(q'.groupAgg == AggCountStar, q'.sumColumn));
  }

  lemma NameAdded(pf: ParseFloat, toks: seq<Token>, i: nat, q: Query, q': Query, j: nat)
    requires FixedSigns(toks) && i + 2 < |toks| && toks[i].kind == Comma && toks[i + 1].kind == Ident && q.columns != []
    requires ColumnsAdded(pf, toks, i + 2, q.(columns := q.columns + [toks[i + 1].text]), q', j)
    ensures ColumnsAdded(pf, toks, i, q, q', j)
  {
    hide AggregateSentence, Fits;
    var name := toks[i + 1].text;
    var pair, all := [Name(name)], q'.columns[|q.columns|..];
    assert q'.columns[..|q.columns| + 1] == q.columns + [name];
    assert q'.columns[..|q.columns|] == q.columns;
    assert q'.projection != ProjGrouped;
    var rest := q'.columns[|q.columns| + 1..];
    assert all[0] == q'.columns[..|q.columns| + 1][|q.columns|] && all[1..] == rest;
    assert FixedSign(toks[i]);
    OneFits(pf, toks, i, SEPARATOR);
    OneFits(pf, toks, i + 1, Name(name));
    FitsConcat(pf, toks, i + 1, pair, NamesSentence(rest));
    FitsConcat(pf, toks, i, [SEPARATOR], pair + NamesSentence(rest));
    ConcatAssoc([SEPARATOR], pair, NamesSentence(rest));
    assert [SEPARATOR] + pair == [SEPARATOR, Name(name)];
  }

  lemma ColumnsEndAggregate(toks: seq<Token>, i: nat, q: Query)
    requires TokenList(toks) && i < |toks| && toks[i].kind == Comma && IsAggregate(toks[Next(toks, i)])
    requires PColumns(toks, i, q).Ok?
    ensures |q.columns| == 1 && i + 1 < |toks| && PColumns(toks, i, q) == PAggregate(toks, i + 1, q)
  {
  }

  lemma AggregateKeeps(toks: seq<Token>, i: nat, q: Query)
    requires TokenList(toks) && i < |toks| && PAggregate(toks, i, q).Ok?
    ensures var q' := PAggregate(toks, i, q).value.0; q'.columns == q.columns && q'.projection == ProjGrouped
  {
  }

  /** COUNT(*) and SUM(column) on their own. */
  lemma ParsedAlone(pf: ParseFloat, toks: seq<Token>, i: nat)
    requires TokenList(toks) && FixedSigns(toks) && i < |toks| && PProjection(toks, i, EMPTY_QUERY).Ok?
    requires toks[i].kind == Keyword
    ensures var (q, j) := PProjection(toks, i, EMPTY_QUERY).value;
      && (q.projection == ProjCountStar || q.projection == ProjSumColumn) && j == i + 4
      && Fits(pf, toks, i, AggregateSentence(q.projection == ProjCountStar, q.sumColumn))
  {
  }

  lemma ParsedSimpleProjection(pf: ParseFloat, toks: seq<Token>, i: nat)
    requires TokenList(toks) && FixedSigns(toks) && i < |toks| && PProjection(toks, i, EMPTY_QUERY).Ok?
    requires toks[i].kind != Ident
    ensures var (q, j) := PProjection(toks, i, EMPTY_QUERY).value;
      && q.projection != ProjColumns && q.projection != ProjGrouped
      && Fits(pf, toks, i, ProjectionSentence(q)) && j == i + |ProjectionSentence(q)|
  {
    hide PColumns, AggregateSentence;
    if toks[i].kind == Star {
      assert FixedSign(toks[i]);
      OneFits(pf, toks, i, ALL);
    } else {
      ParsedAlone(pf, toks, i);
      hide PProjection, Fits;
    }
  }

  lemma ParsedColumnProjection(pf: ParseFloat, toks: seq<Token>, i: nat)
    requires TokenList(toks) && FixedSigns(toks) && i < |toks| && PProjection(toks, i, EMPTY_QUERY).Ok?
    requires toks[i].kind == Ident
    ensures var (q, j) := PProjection(toks, i, EMPTY_QUERY).value;
      && (q.projection == ProjColumns || q.projection == ProjGrouped) && q.columns != []
      && Fits(pf, toks, i, ProjectionSentence(q)) && j == i + |ProjectionSentence(q)|
  {
    hide AggregateSentence, NamesSentence, PColumns, FixedSigns;
    var name := toks[i].text;
    var head := [Name(name)];
    var start := EMPTY_QUERY.(projection := ProjColumns, columns := [name]);
    assert Next(toks, i) == i + 1;
    var (q, j) := PColumns(toks, i + 1, start).value;
    OneFits(pf, toks, i, head[0]);
    hide Fits;
    ColumnsShape(toks, i + 1, start);
    ParsedColumns(pf, toks, i + 1, start);
    hide TokenList;
    if q.projection == ProjGrouped {
      var tail := [SEPARATOR] + AggregateSentence(q.groupAgg == AggCountStar, q.sumColumn);
      FitsConcat(pf, toks, i, head, tail);
      assert ProjectionSentence(q) == head + tail;
    } else {
      FitsConcat(pf, toks, i, head, NamesSentence(q.columns[1..]));
    }
  }

  lemma ParsedProjection(pf: ParseFloat, toks: seq<Token>, i: nat)
    requires TokenList(toks) && FixedSigns(toks) && i < |toks| && PProjection(toks, i, EMPTY_QUERY).Ok?
    ensures var (q, j) := PProjection(toks, i, EMPTY_QUERY).value;
      && (q.projection == ProjColumns || q.projection == ProjGrouped ==> q.columns != [])
      && Fits(pf, toks, i, ProjectionSentence(q)) && j == i + |ProjectionSentence(q)|
  {
    hide PProjection, TokenList, FixedSigns, Fits, ProjectionSentence;
    if toks[i].kind == Ident {
      ParsedColumnProjection(pf, toks, i);
    } else {
      ParsedSimpleProjection(pf, toks, i);
    }
  }

  lemma ParsedFilter(pf: ParseFloat, toks: seq<Token>, i: nat, q: Query)
    requires TokenList(toks) && i < |toks| && PFilter(pf, toks, i, q).Ok? && q.filter == None
    ensures var (q', j) := PFilter(pf, toks, i, q).value;
      && q' == q.(filter := q'.filter) && (q'.filter.Some? ==> TwoLevel(q'.filter.value))
      && Fits(pf, toks, i, FilterSentence(q')) && j == i + |FilterSentence(q')|
  {
    hide PWhere, ConditionSentence, TwoLevel;
    if IsWordToken(toks[i], WHERE) {
      ParsedCondition(pf, toks, Next(toks, i));
      var (e, j) := PWhere(pf, toks, Next(toks, i)).value;
      OneFits(pf, toks, i, Word(WHERE));
      hide Fits;
      FitsConcat(pf, toks, i, [Word(WHERE)], ConditionSentence(e));
    }
  }

  lemma ParsedGroupBy(pf: ParseFloat, toks: seq<Token>, i: nat, q: Query)
    requires TokenList(toks) && i < |toks| && PGroupBy(toks, i, q).Ok? && q.groupBy == []
    ensures var (q', j) := PGroupBy(toks, i, q).value;
      q' == q.(groupBy := q'.groupBy) && Fits(pf, toks, i, GroupSentence(q'.groupBy)) && j == i + |GroupSentence(q'.groupBy)|
  {
  }

  /** The steps a successful parse went through. */
  lemma ParsedSteps(pf: ParseFloat, toks: seq<Token>) returns (q1: Query, a: nat, q2: Query, b: nat)
    requires TokenList(toks) && ParseTokens(pf, toks).Ok?
    ensures |toks| >= 2 && IsWordToken(toks[0], SELECT) && a < |toks| && b < |toks|
    ensures PProjection(toks, 1, EMPTY_QUERY) == Ok((q1, a))
    ensures PFilter(pf, toks, a, q1) == Ok((q2, b))
    ensures PGroupBy(toks, b, q2) == Ok((ParseTokens(pf, toks).value, |toks| - 1))
  {
    assert toks[|toks| - 1].kind == EOF;
    hide PProjection, PFilter, PGroupBy, GroupingOk;
    var step := PProjection(toks, 1, EMPTY_QUERY).value;
    q1, a := step.0, step.1;
    var next := PFilter(pf, toks, a, q1).value;
    q2, b := next.0, next.1;
  }

  lemma ParsedSentence(pf: ParseFloat, toks: seq<Token>)
    requires TokenList(toks) && FixedSigns(toks) && ParseTokens(pf, toks).Ok?
    ensures Shaped(ParseTokens(pf, toks).value) && Derives(pf, toks, ParseTokens(pf, toks).value)
  {
    hide PProjection, PFilter, PGroupBy, TwoLevel, Fits, FixedSigns, ParseTokens;
    ParsedIsShaped(pf, toks);
    var q := ParseTokens(pf, toks).value;
    var q1, a, q2, b := ParsedSteps(pf, toks);
    ProjectionLeaves(toks, 1);
    ParsedProjection(pf, toks, 1);
    ParsedFilter(pf, toks, a, q1);
    ParsedGroupBy(pf, toks, b, q2);
    hide TokenList, GroupSentence, ConditionSentence;
    assert ProjectionSentence(q) == ProjectionSentence(q1);
    assert FilterSentence(q) == FilterSentence(q2);
    hide ProjectionSentence, FilterSentence, Shaped;
    SentenceLayout(pf, toks, q);
  }

  lemma ProjectionLeaves(toks: seq<Token>, i: nat)
    requires TokenList(toks) && i < |toks| && PProjection(toks, i, EMPTY_QUERY).Ok?
    ensures var q := PProjection(toks, i, EMPTY_QUERY).value.0; q.groupBy == [] && q.filter == None
  {
    hide PColumns;
    if toks[i].kind == Ident {
      ColumnsShape(toks, Next(toks, i), EMPTY_QUERY.(projection := ProjColumns, columns := [toks[i].text]));
    }
  }

  /** The parser accepts exactly the sentences of the grammar: on the tokens of any text it
      returns q iff q has one of the four forms and the tokens fit its sentence, positions
      included. */
  lemma ParseExact(pf: ParseFloat, toks: seq<Token>, q: Query)
    requires TokenList(toks) && FixedSigns(toks)
    ensures ParseTokens(pf, toks) == Ok(q) <==> Shaped(q) && Derives(pf, toks, q)
  {
    hide ParseTokens, Shaped, Derives;
    if ParseTokens(pf, toks) == Ok(q) {
      ParsedSentence(pf, toks);
    }
    if Shaped(q) && Derives(pf, toks, q) {
      SentenceParsed(pf, toks, q);
    }
  }

  /** The same from the text on: Parse returns q iff the text has a tokenization that fits the
      sentence of q. */
  lemma ParseTextExact(pf: ParseFloat, input: Bytes, q: Query)
    ensures ParseText(pf, input) == Ok(q)
       <==> Shaped(q) && exists toks :: Tiles(input, toks, 0) && Derives(pf, toks, q)
  {
    hide ParseTokens, Shaped, Derives, LexFrom, Tiles, TokenList, FixedSigns;
    if LexFrom(input, 0).Ok? {
      var toks := LexFrom(input, 0).value;
      LexExact(input, toks);
      TilesAreTokens(input, toks, 0);
      TilesHaveFixedSigns(input, toks, 0);
      ParseExact(pf, toks, q);
    }
    forall toks | Tiles(input, toks, 0) ensures LexFrom(input, 0) == Ok(toks) {
      LexExact(input, toks);
    }
  }
}
