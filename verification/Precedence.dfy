/** From a flat list of comparisons and connectives to the WHERE tree: passes 2 and 3 of
    parseWhere, and what the tree means (query/parser.go). */
module Precedence {
  import opened Wrappers
  import opened Words
  import opened Types
  import opened QueryAst

  datatype Connective = AndOp | OrOp

  // ---- The passes as functions ----

  /** gs with g put in front of its first group. */
  function Prepend(g: seq<Comparison>, gs: seq<seq<Comparison>>): (r: seq<seq<Comparison>>)
    requires gs != []
    ensures |r| == |gs| && r[0] == g + gs[0] && r[1..] == gs[1..]
  {
    [g + gs[0]] + gs[1..]
  }

  /** Pass 2: comparisons joined by AND stay together, OR starts a new group. */
  function Groups(comps: seq<Comparison>, ops: seq<Connective>): (gs: seq<seq<Comparison>>)
    requires |comps| == |ops| + 1
    ensures gs != [] && gs[0] != []
    decreases |ops|
  {
    if ops == [] then [comps]
    else
      var rest := Groups(comps[1..], ops[1..]);
      if ops[0] == AndOp then Prepend([comps[0]], rest) else [[comps[0]]] + rest
  }

  function Leaves(g: seq<Comparison>): (es: seq<FilterExpr>)
    ensures |es| == |g|
    ensures forall i :: 0 <= i < |g| ==> es[i] == Leaf(g[i])
  {
    seq(|g|, i requires 0 <= i < |g| => Leaf(g[i]))
  }

  function GroupNode(g: seq<Comparison>): FilterExpr {
    if |g| == 1 then Leaf(g[0]) else AndNode(Leaves(g))
  }

  function GroupNodes(gs: seq<seq<Comparison>>): (es: seq<FilterExpr>)
    ensures |es| == |gs|
    ensures forall i :: 0 <= i < |gs| ==> es[i] == GroupNode(gs[i])
  {
    seq(|gs|, i requires 0 <= i < |gs| => GroupNode(gs[i]))
  }

  /** Pass 3: a bare comparison or an And for each group, an Or over several groups. */
  function Lower(gs: seq<seq<Comparison>>): FilterExpr {
    if |gs| == 1 then GroupNode(gs[0]) else OrNode(GroupNodes(gs))
  }

  function WhereTree(comps: seq<Comparison>, ops: seq<Connective>): FilterExpr
    requires |comps| == |ops| + 1
  {
    Lower(Groups(comps, ops))
  }

  // ---- The passes as loops ----

  method GroupComparisons(comps: seq<Comparison>, ops: seq<Connective>) returns (groups: seq<seq<Comparison>>)
    requires |comps| == |ops| + 1
    ensures groups == Groups(comps, ops)
  {
    groups := [];
    var cur := [comps[0]];
    ghost var all, was := Groups(comps, ops), [];
    assert comps[0..] == comps && ops[0..] == ops;
    PrependNil(all);
    for i := 0 to |ops|
      invariant cur == was + [comps[i]]
      invariant all == groups + Prepend(was, Groups(comps[i..], ops[i..]))
    {
      ghost var next := Groups(comps[i + 1..], ops[i + 1..]);
      GroupsStep(comps, ops, i);
      hide Groups;
      if ops[i] == AndOp {
        PrependPrepend(was, [comps[i]], next);
        was := cur;
        cur := cur + [comps[i + 1]];
      } else {
        PrependSplit(groups, was, [comps[i]], next);
        was := [];
        PrependNil(next);
        groups := groups + [cur];
        cur := [comps[i + 1]];
      }
    }
    assert comps[|ops|..] == [comps[|ops|]] && ops[|ops|..] == [];
    groups := groups + [cur];
  }

  lemma GroupsStep(comps: seq<Comparison>, ops: seq<Connective>, i: nat)
    requires |comps| == |ops| + 1 && i < |ops|
    ensures Groups(comps[i..], ops[i..])
         == (var next := Groups(comps[i + 1..], ops[i + 1..]);
             if ops[i] == AndOp then Prepend([comps[i]], next) else [[comps[i]]] + next)
  {
  }

  lemma PrependNil(gs: seq<seq<Comparison>>)
    requires gs != []
    ensures Prepend([], gs) == gs
  {
    ConcatNil(gs[0]);
  }

  lemma PrependPrepend(a: seq<Comparison>, b: seq<Comparison>, gs: seq<seq<Comparison>>)
    requires gs != []
    ensures Prepend(a, Prepend(b, gs)) == Prepend(a + b, gs)
  {
    ConcatAssoc(a, b, gs[0]);
  }

  lemma PrependSplit(done: seq<seq<Comparison>>, a: seq<Comparison>, b: seq<Comparison>, gs: seq<seq<Comparison>>)
    ensures done + Prepend(a, [b] + gs) == (done + [a + b]) + gs
  {
  }

  method LowerGroup(members: seq<Comparison>) returns (e: FilterExpr)
    ensures e == GroupNode(members)
  {
    if |members| == 1 {
      return Leaf(members[0]);
    }
    var children: seq<FilterExpr> := [];
    for i := 0 to |members|
      invariant |children| == i && forall j :: 0 <= j < i ==> children[j] == Leaf(members[j])
    {
      children := children + [Leaf(members[i])];
    }
    assert children == Leaves(members);
    return AndNode(children);
  }

  method LowerGroups(groups: seq<seq<Comparison>>) returns (e: FilterExpr)
    requires groups != []
    ensures e == Lower(groups)
  {
    var groupNodes: seq<FilterExpr> := [];
    for i := 0 to |groups|
      invariant |groupNodes| == i && forall j :: 0 <= j < i ==> groupNodes[j] == GroupNode(groups[j])
    {
      var node := LowerGroup(groups[i]);
      groupNodes := groupNodes + [node];
    }
    assert groupNodes == GroupNodes(groups);
    if |groupNodes| == 1 {
      return groupNodes[0];
    }
    return OrNode(groupNodes);
  }

  // ---- What a tree means ----

  /** The truth of a tree, given the truth of its comparisons: a set comparison first, then
      And, then Or, as the executor dispatches. */
  predicate Truth(e: FilterExpr, f: Comparison -> bool) {
    if e.comparison.Some? then f(e.comparison.value)
    else if e.and.Nodes? then forall i :: 0 <= i < |e.and.list| ==> Truth(e.and.list[i], f)
    else if e.or.Nodes? then exists i :: 0 <= i < |e.or.list| && Truth(e.or.list[i], f)
    else false
  }

  ghost predicate AllTrue(g: seq<Comparison>, f: Comparison -> bool) {
    forall i :: 0 <= i < |g| ==> f(g[i])
  }

  /** Positions a to b form a block: joined by AND inside, bounded by OR or an end outside. */
  ghost predicate Block(ops: seq<Connective>, a: nat, b: nat) {
    && a <= b <= |ops|
    && (a == 0 || ops[a - 1] == OrOp)
    && (b == |ops| || ops[b] == OrOp)
    && forall k :: a <= k < b ==> ops[k] == AndOp
  }

  ghost predicate BlockTrue(comps: seq<Comparison>, ops: seq<Connective>, f: Comparison -> bool, a: nat, b: nat)
    requires |comps| == |ops| + 1
  {
    Block(ops, a, b) && forall k :: a <= k <= b ==> f(comps[k])
  }

  /** AND binds tighter than OR: some block of comparisons joined by AND is true throughout. */
  ghost predicate StandardReading(comps: seq<Comparison>, ops: seq<Connective>, f: Comparison -> bool)
    requires |comps| == |ops| + 1
  {
    exists a, b :: BlockTrue(comps, ops, f, a, b)
  }

  ghost predicate SomeGroupTrue(gs: seq<seq<Comparison>>, f: Comparison -> bool) {
    exists i :: 0 <= i < |gs| && AllTrue(gs[i], f)
  }

  lemma GroupNodeTruth(g: seq<Comparison>, f: Comparison -> bool)
    requires g != []
    ensures Truth(GroupNode(g), f) <==> AllTrue(g, f)
  {
  }

  lemma {:induction false} GroupsNonEmpty(comps: seq<Comparison>, ops: seq<Connective>)
    requires |comps| == |ops| + 1
    ensures forall i :: 0 <= i < |Groups(comps, ops)| ==> Groups(comps, ops)[i] != []
    decreases |ops|
  {
    if ops != [] {
      GroupsNonEmpty(comps[1..], ops[1..]);
    }
  }

  lemma LowerTruth(gs: seq<seq<Comparison>>, f: Comparison -> bool)
    requires gs != [] && forall i :: 0 <= i < |gs| ==> gs[i] != []
    ensures Truth(Lower(gs), f) <==> SomeGroupTrue(gs, f)
  {
    if |gs| == 1 {
      GroupNodeTruth(gs[0], f);
    } else {
      var es := GroupNodes(gs);
      forall i | 0 <= i < |gs| ensures Truth(es[i], f) == AllTrue(gs[i], f) {
        GroupNodeTruth(gs[i], f);
      }
    }
  }

  // ---- Blocks and groups ----

  /** The first group is the first block, and its end is where the first OR stands. */
  lemma {:induction false} FirstGroup(comps: seq<Comparison>, ops: seq<Connective>)
    requires |comps| == |ops| + 1
    ensures var n := |Groups(comps, ops)[0]|;
      && 1 <= n <= |comps| && Groups(comps, ops)[0] == comps[..n]
      && Block(ops, 0, n - 1)
    decreases |ops|
  {
    if ops != [] && ops[0] == AndOp {
      FirstGroup(comps[1..], ops[1..]);
      var n := |Groups(comps[1..], ops[1..])[0]|;
      assert comps[..n + 1] == [comps[0]] + comps[1..][..n];
      assert forall k :: 1 <= k < n ==> ops[k] == ops[1..][k - 1];
      if n < |ops| { assert ops[n] == ops[1..][n - 1]; }
    }
  }

  lemma {:induction false} OtherGroups(comps: seq<Comparison>, ops: seq<Connective>)
    requires |comps| == |ops| + 1
    ensures var gs := Groups(comps, ops); var n := |gs[0]|;
      if n == |comps| then |gs| == 1
      else 1 <= n < |comps| && ops[n - 1] == OrOp && gs[1..] == Groups(comps[n..], ops[n..])
    decreases |ops|
  {
    FirstGroup(comps, ops);
    if ops == [] {
    } else if ops[0] == AndOp {
      OtherGroups(comps[1..], ops[1..]);
      var n := |Groups(comps[1..], ops[1..])[0]|;
      if n < |ops| {
        assert comps[1..][n..] == comps[n + 1..] && ops[1..][n..] == ops[n + 1..];
      }
    }
  }

  lemma BlockShift(comps: seq<Comparison>, ops: seq<Connective>, f: Comparison -> bool, n: nat, a: nat, b: nat)
    requires |comps| == |ops| + 1 && 1 <= n < |comps| && ops[n - 1] == OrOp
    ensures BlockTrue(comps[n..], ops[n..], f, a, b) <==> BlockTrue(comps, ops, f, a + n, b + n)
  {
  }

  /** A block either is the first one or lies wholly behind the first OR. */
  lemma BlockIsFirstOrLater(ops: seq<Connective>, n: nat, a: nat, b: nat)
    requires n >= 1 && Block(ops, 0, n - 1) && Block(ops, a, b)
    ensures a == 0 ==> b == n - 1
    ensures a > 0 ==> a >= n && n <= |ops|
  {
  }

  lemma {:induction false} GroupGivesBlock(comps: seq<Comparison>, ops: seq<Connective>, f: Comparison -> bool, i: nat)
    requires |comps| == |ops| + 1 && i < |Groups(comps, ops)| && AllTrue(Groups(comps, ops)[i], f)
    ensures StandardReading(comps, ops, f)
    decreases |ops|
  {
    var gs := Groups(comps, ops);
    var n := |gs[0]|;
    FirstGroup(comps, ops);
    OtherGroups(comps, ops);
    hide Groups;
    if i == 0 {
      forall k | 0 <= k <= n - 1 ensures f(comps[k]) { assert gs[0][k] == comps[k]; }
      assert BlockTrue(comps, ops, f, 0, n - 1);
    } else {
      assert gs[i] == gs[1..][i - 1];
      GroupGivesBlock(comps[n..], ops[n..], f, i - 1);
      var a: nat, b: nat :| BlockTrue(comps[n..], ops[n..], f, a, b);
      BlockShift(comps, ops, f, n, a, b);
    }
  }

  lemma {:induction false} BlockGivesGroup(comps: seq<Comparison>, ops: seq<Connective>, f: Comparison -> bool, a: nat, b: nat)
    requires |comps| == |ops| + 1 && BlockTrue(comps, ops, f, a, b)
    ensures SomeGroupTrue(Groups(comps, ops), f)
    decreases |ops|
  {
    var gs := Groups(comps, ops);
    var n := |gs[0]|;
    FirstGroup(comps, ops);
    OtherGroups(comps, ops);
    BlockIsFirstOrLater(ops, n, a, b);
    hide Groups;
    if a == 0 {
      forall k | 0 <= k < n ensures f(gs[0][k]) { assert gs[0][k] == comps[k]; }
      assert AllTrue(gs[0], f);
    } else {
      BlockShift(comps, ops, f, n, a - n, b - n);
      hide Block;
      BlockGivesGroup(comps[n..], ops[n..], f, a - n, b - n);
      var i :| 0 <= i < |gs[1..]| && AllTrue(gs[1..][i], f);
      assert gs[i + 1] == gs[1..][i];
    }
  }

  lemma ReadingIsGroups(comps: seq<Comparison>, ops: seq<Connective>, f: Comparison -> bool)
    requires |comps| == |ops| + 1
    ensures StandardReading(comps, ops, f) <==> SomeGroupTrue(Groups(comps, ops), f)
  {
    if StandardReading(comps, ops, f) {
      var a: nat, b: nat :| BlockTrue(comps, ops, f, a, b);
      BlockGivesGroup(comps, ops, f, a, b);
    }
    if SomeGroupTrue(Groups(comps, ops), f) {
      var i :| 0 <= i < |Groups(comps, ops)| && AllTrue(Groups(comps, ops)[i], f);
      GroupGivesBlock(comps, ops, f, i);
    }
  }

  /** The tree the three passes build is true exactly when the standard reading of the flat
      condition is, whatever the comparisons' truth values. */
  lemma PrecedenceCorrect(comps: seq<Comparison>, ops: seq<Connective>, f: Comparison -> bool)
    requires |comps| == |ops| + 1
    ensures Truth(WhereTree(comps, ops), f) <==> StandardReading(comps, ops, f)
  {
    GroupsNonEmpty(comps, ops);
    LowerTruth(Groups(comps, ops), f);
    ReadingIsGroups(comps, ops, f);
  }

  // ---- Shape ----

  /** Exactly one of the three branches is set. */
  predicate OneBranch(e: FilterExpr) {
    (e.comparison.Some? && e.and == NilNodes && e.or == NilNodes)
    || (e.comparison == None && e.and.Nodes? && e.or == NilNodes)
    || (e.comparison == None && e.and == NilNodes && e.or.Nodes?)
  }

  predicate IsLeaf(e: FilterExpr) {
    e.comparison.Some? && OneBranch(e)
  }

  predicate IsConjunction(e: FilterExpr) {
    e.and.Nodes? && OneBranch(e) && |e.and.list| >= 2
    && forall i :: 0 <= i < |e.and.list| ==> IsLeaf(e.and.list[i])
  }

  /** The trees the executor relies on: one branch a node, at least two children in a group, at
      most an Or over Ands over comparisons. */
  predicate TwoLevel(e: FilterExpr) {
    IsLeaf(e) || IsConjunction(e)
    || (e.or.Nodes? && OneBranch(e) && |e.or.list| >= 2
        && forall i :: 0 <= i < |e.or.list| ==> IsLeaf(e.or.list[i]) || IsConjunction(e.or.list[i]))
  }

  lemma ShapeCorrect(comps: seq<Comparison>, ops: seq<Connective>)
    requires |comps| == |ops| + 1
    ensures TwoLevel(WhereTree(comps, ops))
  {
    GroupsNonEmpty(comps, ops);
    var gs := Groups(comps, ops);
    hide Groups;
    forall i | 0 <= i < |gs| ensures IsLeaf(GroupNode(gs[i])) || IsConjunction(GroupNode(gs[i])) {
    }
  }

  /** The comparisons of a two-level tree from left to right. */
  function TreeLeaves(e: FilterExpr): seq<Comparison> {
    if e.comparison.Some? then [e.comparison.value]
    else if e.and.Nodes? then ListLeaves(e.and.list)
    else if e.or.Nodes? then ListLeaves(e.or.list)
    else []
  }

  function ListLeaves(es: seq<FilterExpr>): seq<Comparison> {
    if es == [] then [] else TreeLeaves(es[0]) + ListLeaves(es[1..])
  }

  function Flatten(gs: seq<seq<Comparison>>): seq<Comparison> {
    if gs == [] then [] else gs[0] + Flatten(gs[1..])
  }

  lemma {:induction false} FlattenGroups(comps: seq<Comparison>, ops: seq<Connective>)
    requires |comps| == |ops| + 1
    ensures Flatten(Groups(comps, ops)) == comps
    decreases |ops|
  {
    var gs := Groups(comps, ops);
    if ops == [] {
      assert gs[1..] == [];
      ConcatNil(comps);
    } else {
      FlattenGroups(comps[1..], ops[1..]);
      var rest := Groups(comps[1..], ops[1..]);
      assert comps == [comps[0]] + comps[1..];
      if ops[0] == AndOp {
        assert gs[1..] == rest[1..];
        ConcatAssoc([comps[0]], rest[0], Flatten(rest[1..]));
      } else {
        assert gs[1..] == rest;
      }
    }
  }

  lemma {:induction false} LeavesOfLeaves(g: seq<Comparison>)
    ensures ListLeaves(Leaves(g)) == g
  {
    if g != [] {
      assert Leaves(g)[1..] == Leaves(g[1..]);
      LeavesOfLeaves(g[1..]);
      assert g == [g[0]] + g[1..];
    }
  }

  lemma {:induction false} LeavesOfNodes(gs: seq<seq<Comparison>>)
    ensures ListLeaves(GroupNodes(gs)) == Flatten(gs)
  {
    if gs != [] {
      assert GroupNodes(gs)[1..] == GroupNodes(gs[1..]);
      LeavesOfNodes(gs[1..]);
      LeavesOfGroup(gs[0]);
    }
  }

  lemma LeavesOfGroup(g: seq<Comparison>)
    ensures TreeLeaves(GroupNode(g)) == g
  {
    LeavesOfLeaves(g);
  }

  /** The leaves of the tree are the comparisons in source order. */
  lemma LeavesInOrder(comps: seq<Comparison>, ops: seq<Connective>)
    requires |comps| == |ops| + 1
    ensures TreeLeaves(WhereTree(comps, ops)) == comps
  {
    var gs := Groups(comps, ops);
    FlattenGroups(comps, ops);
    if |gs| == 1 {
      LeavesOfGroup(gs[0]);
      assert gs == [gs[0]] && gs[1..] == [];
      ConcatNil(gs[0]);
    } else {
      LeavesOfNodes(gs);
    }
  }
}
