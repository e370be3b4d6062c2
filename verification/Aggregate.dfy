/** What SUM and GROUP BY compute, stated on the selected values in row order (query/exec.go).
    Float addition is a parameter. */
module Aggregate {
  import opened Wrappers
  import opened Words
  import opened Types
  import opened QueryAst
  import opened SegmentFormat
  import opened Compare

  datatype QueryError =
    | UnknownColumn
    | TypeMismatch
    | SumOverflow
    | UnsupportedType
    | Malformed
    | ReadFailed(cause: SegmentError)
    | Crash  // a nil dereference or an index out of range

  type FloatAdd = (u64, u64) -> u64

  // ---- SUM ----

  function IntOf(v: Value): int64 {
    if v.Int? then v.i else 0
  }

  function BitsOf(v: Value): u64 {
    if v.Float? then v.bits else 0
  }

  function ExactSum(vs: seq<Value>): int {
    if vs == [] then 0 else ExactSum(vs[..|vs| - 1]) + IntOf(vs[|vs| - 1])
  }

  /** Some prefix, in row order, has a mathematical sum that is not an int64. */
  ghost predicate Overflows(vs: seq<Value>) {
    exists n :: 0 <= n <= |vs| && !InInt64(ExactSum(vs[..n]))
  }

  function FloatSum(fadd: FloatAdd, vs: seq<Value>): u64 {
    if vs == [] then 0 else fadd(FloatSum(fadd, vs[..|vs| - 1]), BitsOf(vs[|vs| - 1]))
  }

  lemma OverflowsAppend(vs: seq<Value>, v: Value)
    ensures ExactSum(vs + [v]) == ExactSum(vs) + IntOf(v)
    ensures Overflows(vs + [v]) <==> Overflows(vs) || !InInt64(ExactSum(vs) + IntOf(v))
  {
    var all := vs + [v];
    assert all[..|vs|] == vs && all[..|all|] == all;
    assert forall n :: 0 <= n <= |vs| ==> all[..n] == vs[..n];
    if Overflows(vs) {
      var n :| 0 <= n <= |vs| && !InInt64(ExactSum(vs[..n]));
      assert all[..n] == vs[..n];
    }
    if !InInt64(ExactSum(all)) {
      assert !InInt64(ExactSum(all[..|all|]));
    }
  }

  lemma EmptyDoesNotOverflow()
    ensures !Overflows([])
  {
  }

  // ---- The sums on plain numbers ----

  function Sum(xs: seq<int>): int {
    if xs == [] then 0 else xs[0] + Sum(xs[1..])
  }

  /** Addition from the left, starting at acc. */
  function Fold(fadd: FloatAdd, acc: u64, bits: seq<u64>): u64
    decreases |bits|
  {
    if bits == [] then acc else Fold(fadd, fadd(acc, bits[0]), bits[1..])
  }

  function Ints(xs: seq<int64>): (vs: seq<Value>)
    ensures |vs| == |xs| && forall i :: 0 <= i < |xs| ==> vs[i] == Int(xs[i])
  {
    seq(|xs|, i requires 0 <= i < |xs| => Int(xs[i]))
  }

  function Floats(bits: seq<u64>): (vs: seq<Value>)
    ensures |vs| == |bits| && forall i :: 0 <= i < |bits| ==> vs[i] == Float(bits[i])
  {
    seq(|bits|, i requires 0 <= i < |bits| => Float(bits[i]))
  }

  lemma {:induction false} SumAppend(xs: seq<int>, x: int)
    ensures Sum(xs + [x]) == Sum(xs) + x
  {
    if xs == [] {
      assert [x][1..] == [];
    } else {
      assert (xs + [x])[1..] == xs[1..] + [x];
      SumAppend(xs[1..], x);
    }
  }

  lemma {:induction false} FoldAppend(fadd: FloatAdd, acc: u64, bits: seq<u64>, b: u64)
    ensures Fold(fadd, acc, bits + [b]) == fadd(Fold(fadd, acc, bits), b)
    decreases |bits|
  {
    if bits == [] {
      assert [b][1..] == [];
    } else {
      assert (bits + [b])[1..] == bits[1..] + [b];
      FoldAppend(fadd, fadd(acc, bits[0]), bits[1..], b);
    }
  }

  /** The exact sum of int64 cells is the sum of their numbers. */
  lemma {:induction false} ExactSumIsSum(xs: seq<int64>)
    ensures ExactSum(Ints(xs)) == Sum(xs)
  {
    if xs != [] {
      var n := |xs| - 1;
      ExactSumIsSum(xs[..n]);
      assert Ints(xs)[..n] == Ints(xs[..n]) && xs == xs[..n] + [xs[n]];
      SumAppend(xs[..n], xs[n]);
    }
  }

  /** The float sum is the fold of addition over the patterns in order, from positive zero. */
  lemma {:induction false} FloatSumIsFold(fadd: FloatAdd, bits: seq<u64>)
    ensures FloatSum(fadd, Floats(bits)) == Fold(fadd, 0, bits)
  {
    if bits != [] {
      var n := |bits| - 1;
      FloatSumIsFold(fadd, bits[..n]);
      assert Floats(bits)[..n] == Floats(bits[..n]) && bits == bits[..n] + [bits[n]];
      FoldAppend(fadd, 0, bits[..n], bits[n]);
    }
  }

  /** The sum of the first n numbers is not an int64. */
  ghost predicate LeavesInt64(xs: seq<int>, n: nat) {
    n <= |xs| && !(-0x8000_0000_0000_0000 <= Sum(xs[..n]) <= 0x7FFF_FFFF_FFFF_FFFF)
  }

  lemma OverflowsExactly(xs: seq<int64>)
    ensures Overflows(Ints(xs)) <==> exists n: nat :: LeavesInt64(xs, n)
  {
    hide ExactSum, Sum;
    forall n: nat | n <= |xs| ensures ExactSum(Ints(xs)[..n]) == Sum(xs[..n]) {
      assert Ints(xs)[..n] == Ints(xs[..n]);
      ExactSumIsSum(xs[..n]);
    }
    if Overflows(Ints(xs)) {
      var n: nat :| n <= |Ints(xs)| && !InInt64(ExactSum(Ints(xs)[..n]));
      assert LeavesInt64(xs, n);
    }
    forall n: nat | LeavesInt64(xs, n) ensures Overflows(Ints(xs)) {
      assert !InInt64(ExactSum(Ints(xs)[..n]));
    }
  }

  lemma SumOfOne(i: int64, bits: u64, fadd: FloatAdd)
    ensures ExactSum([Int(i)]) == i && FloatSum(fadd, [Float(bits)]) == fadd(0, bits)
  {
    assert [Int(i)][..0] == [] && [Float(bits)][..0] == [];
  }

  lemma {:induction false} ExactSumConcat(a: seq<Value>, b: seq<Value>)
    ensures ExactSum(a + b) == ExactSum(a) + ExactSum(b)
    decreases |b|
  {
    if b == [] {
      ConcatNil(a);
    } else {
      var n := |b| - 1;
      ExactSumConcat(a, b[..n]);
      assert (a + b)[..|a| + n] == a + b[..n];
    }
  }

  lemma FloatSumAppend(fadd: FloatAdd, vs: seq<Value>, bits: u64)
    ensures FloatSum(fadd, vs + [Float(bits)]) == fadd(FloatSum(fadd, vs), bits)
  {
    assert (vs + [Float(bits)])[..|vs|] == vs;
  }

  /** A column of int64 or float64 cells as numbers. */
  lemma IntsOfColumn(vs: seq<Value>) returns (xs: seq<int64>)
    requires AllOfType(vs, Int64)
    ensures vs == Ints(xs)
  {
    xs := seq(|vs|, i requires 0 <= i < |vs| => assert HasType(vs[i], Int64); vs[i].i);
  }

  lemma FloatsOfColumn(vs: seq<Value>) returns (bits: seq<u64>)
    requires AllOfType(vs, Float64)
    ensures vs == Floats(bits)
  {
    bits := seq(|vs|, i requires 0 <= i < |vs| => assert HasType(vs[i], Float64); vs[i].bits);
  }

  /** addInt64Checked: add in two's complement, detect overflow by the signs. */
  function AddInt64Checked(sum: int64, x: int64): (r: (int64, bool))
    ensures r.1 <==> InInt64(sum + x)
    ensures r.1 ==> r.0 == sum + x
  {
    var newSum := Wrap64(sum as int + x as int);
    if (sum > 0 && x > 0 && newSum < 0) || (sum < 0 && x < 0 && newSum >= 0) then (0, false) else (newSum, true)
  }

  /** The cell that holds an exact integer sum. */
  function IntCell(sum: int): Value {
    if InInt64(sum) then Int(sum) else Nil
  }

  function SumCell(fadd: FloatAdd, t: ColumnType, vs: seq<Value>): Value {
    if t.Int64? then IntCell(ExactSum(vs)) else Float(FloatSum(fadd, vs))
  }

  /** The value of SUM over the selected values, or the overflow. */
  ghost function SumOf(fadd: FloatAdd, t: ColumnType, vs: seq<Value>): Result<Value, QueryError> {
    if t.Int64? && Overflows(vs) then Err(SumOverflow) else Ok(SumCell(fadd, t, vs))
  }

  lemma NoOverflowIsExact(vs: seq<Value>)
    requires !Overflows(vs)
    ensures InInt64(ExactSum(vs)) && IntCell(ExactSum(vs)) == Int(ExactSum(vs))
  {
    assert vs[..|vs|] == vs;
  }

  // ---- GROUP BY ----

  ghost predicate Seen(keys: seq<Value>, k: Value) {
    exists i :: 0 <= i < |keys| && KeyEqual(keys[i], k)
  }

  /** Each distinct key once, where it first occurs. */
  ghost function FirstOccurrences(keys: seq<Value>): seq<Value> {
    if keys == [] then []
    else
      var init, last := keys[..|keys| - 1], keys[|keys| - 1];
      if Seen(init, last) then FirstOccurrences(init) else FirstOccurrences(init) + [last]
  }

  /** The values whose row has key k, in row order. */
  function Members(keys: seq<Value>, vals: seq<Value>, k: Value): seq<Value>
    requires |keys| == |vals|
  {
    if keys == [] then []
    else
      var n := |keys| - 1;
      Members(keys[..n], vals[..n], k) + if KeyEqual(keys[n], k) then [vals[n]] else []
  }

  datatype Aggregation = CountRows | SumColumn(ty: ColumnType)

  /** The aggregate of one group. */
  function AggregateCell(fadd: FloatAdd, agg: Aggregation, members: seq<Value>): Value {
    match agg
    case CountRows => Uint(|members| % TWO_64)
    case SumColumn(t) => SumCell(fadd, t, members)
  }

  ghost predicate SomeGroupOverflows(keys: seq<Value>, vals: seq<Value>)
    requires |keys| == |vals|
  {
    exists i :: 0 <= i < |keys| && Overflows(Members(keys, vals, keys[i]))
  }

  ghost predicate SomeNaN(keys: seq<Value>) {
    exists i :: 0 <= i < |keys| && Unordered(keys[i])
  }

  /** One row a group. A sum that leaves int64 in any group is reported; otherwise a NaN key,
      which no map lookup finds again, crashes the emission of the rows. */
  ghost function GroupRows(fadd: FloatAdd, agg: Aggregation, keys: seq<Value>, vals: seq<Value>): Result<seq<Row>, QueryError>
    requires |keys| == |vals|
  {
    if agg == SumColumn(Int64) && SomeGroupOverflows(keys, vals) then Err(SumOverflow)
    else if SomeNaN(keys) then Err(Crash)
    else
      var ks := FirstOccurrences(keys);
      Ok(seq(|ks|, j requires 0 <= j < |ks| => [ks[j], AggregateCell(fadd, agg, Members(keys, vals, ks[j]))]))
  }

  // ---- Laws of grouping ----

  lemma KeyEqualTransitive(a: Value, b: Value, c: Value)
    requires KeyEqual(a, b) && KeyEqual(b, c)
    ensures KeyEqual(a, c) && KeyEqual(b, a)
  {
  }

  lemma {:induction false} OccurrencesAreKeys(keys: seq<Value>, j: nat)
    requires j < |FirstOccurrences(keys)|
    ensures FirstOccurrences(keys)[j] in keys
  {
    var init := keys[..|keys| - 1];
    hide Seen;
    if j < |FirstOccurrences(init)| {
      OccurrencesAreKeys(init, j);
    }
  }

  lemma {:induction false} OccurrencesDistinct(keys: seq<Value>, a: nat, b: nat)
    requires a < b < |FirstOccurrences(keys)|
    ensures !KeyEqual(FirstOccurrences(keys)[a], FirstOccurrences(keys)[b])
  {
    hide KeyEqual;
    var init, last := keys[..|keys| - 1], keys[|keys| - 1];
    var before, ks := FirstOccurrences(init), FirstOccurrences(keys);
    if b < |before| {
      OccurrencesDistinct(init, a, b);
    } else {
      OccurrencesAreKeys(init, a);
      assert ks == before + [last] && ks[a] == before[a] && ks[b] == last;
      assert forall i :: 0 <= i < |init| ==> !KeyEqual(init[i], last);
    }
  }

  lemma {:induction false} OccurrencesCover(keys: seq<Value>, k: Value)
    requires Seen(keys, k)
    ensures Seen(FirstOccurrences(keys), k)
  {
    hide KeyEqual;
    var init, last := keys[..|keys| - 1], keys[|keys| - 1];
    var before, ks := FirstOccurrences(init), FirstOccurrences(keys);
    SeenStep(keys, k);
    if Seen(init, k) {
      OccurrencesCover(init, k);
      if ks != before { SeenStep(ks, k); assert ks[..|ks| - 1] == before; }
    } else if Seen(init, last) {
      var i :| 0 <= i < |init| && KeyEqual(init[i], last);
      KeyEqualTransitive(init[i], last, k);
      assert false;
    } else {
      assert ks == before + [last];
      SeenStep(ks, k);
    }
  }

  /** The emitted keys are keys of the rows, pairwise different, and cover every key that is
      equal to itself. */
  lemma OccurrencesExact(keys: seq<Value>)
    ensures var ks := FirstOccurrences(keys);
      && (forall a, b :: 0 <= a < b < |ks| ==> !KeyEqual(ks[a], ks[b]))
      && (forall i :: 0 <= i < |keys| && !Unordered(keys[i]) ==> Seen(ks, keys[i]))
      && (forall j :: 0 <= j < |ks| ==> ks[j] in keys)
  {
    var ks := FirstOccurrences(keys);
    forall a, b | 0 <= a < b < |ks| ensures !KeyEqual(ks[a], ks[b]) {
      OccurrencesDistinct(keys, a, b);
    }
    forall i | 0 <= i < |keys| && !Unordered(keys[i]) ensures Seen(ks, keys[i]) {
      KeyEqualIsCanon(keys[i], keys[i]);
      assert Seen(keys, keys[i]);
      OccurrencesCover(keys, keys[i]);
    }
    forall j | 0 <= j < |ks| ensures ks[j] in keys {
      OccurrencesAreKeys(keys, j);
    }
  }

  // A weight a value adds to its group: 1 for COUNT(*), the integer for SUM.

  function Weight(f: Value -> int, vs: seq<Value>): int {
    if vs == [] then 0 else Weight(f, vs[..|vs| - 1]) + f(vs[|vs| - 1])
  }

  function GroupWeights(f: Value -> int, ks: seq<Value>, keys: seq<Value>, vals: seq<Value>): int
    requires |keys| == |vals|
  {
    if ks == [] then 0
    else GroupWeights(f, ks[..|ks| - 1], keys, vals) + Weight(f, Members(keys, vals, ks[|ks| - 1]))
  }

  lemma WeightAppend(f: Value -> int, vs: seq<Value>, v: Value)
    ensures Weight(f, vs + [v]) == Weight(f, vs) + f(v)
  {
  }

  lemma MembersStep(f: Value -> int, keys: seq<Value>, vals: seq<Value>, k: Value)
    requires |keys| == |vals| && keys != []
    ensures var n := |keys| - 1;
      Weight(f, Members(keys, vals, k))
      == Weight(f, Members(keys[..n], vals[..n], k)) + (if KeyEqual(keys[n], k) then f(vals[n]) else 0)
  {
    var n := |keys| - 1;
    if KeyEqual(keys[n], k) {
      WeightAppend(f, Members(keys[..n], vals[..n], k), vals[n]);
    } else {
      ConcatNil(Members(keys[..n], vals[..n], k));
    }
  }

  lemma KeyEqualSymmetric(a: Value, b: Value)
    ensures KeyEqual(a, b) <==> KeyEqual(b, a)
  {
  }

  lemma SeenStep(ks: seq<Value>, k: Value)
    requires ks != []
    ensures Seen(ks, k) <==> Seen(ks[..|ks| - 1], k) || KeyEqual(ks[|ks| - 1], k)
  {
  }

  /** One more row adds its weight to the group with its key, and to no other. */
  lemma {:induction false} RowAddsOnce(f: Value -> int, ks: seq<Value>, keys: seq<Value>, vals: seq<Value>)
    requires |keys| == |vals| && keys != []
    requires forall a, b :: 0 <= a < b < |ks| ==> !KeyEqual(ks[a], ks[b])
    ensures var n := |keys| - 1;
      GroupWeights(f, ks, keys, vals)
      == GroupWeights(f, ks, keys[..n], vals[..n]) + (if Seen(ks, keys[n]) then f(vals[n]) else 0)
  {
    hide KeyEqual, Members, Weight;
    var n := |keys| - 1;
    if ks != [] {
      var init, last := ks[..|ks| - 1], ks[|ks| - 1];
      RowAddsOnce(f, init, keys, vals);
      MembersStep(f, keys, vals, last);
      KeyEqualSymmetric(keys[n], last);
      SeenStep(ks, keys[n]);
      if KeyEqual(last, keys[n]) && Seen(init, keys[n]) {
        var a :| 0 <= a < |init| && KeyEqual(init[a], keys[n]);
        KeyEqualSymmetric(last, keys[n]);
        KeyEqualTransitive(init[a], keys[n], last);
        assert false;
      }
    }
  }

  lemma {:induction false} NewKeyHasNoMembers(keys: seq<Value>, vals: seq<Value>, k: Value)
    requires |keys| == |vals| && !Seen(keys, k)
    ensures Members(keys, vals, k) == []
  {
    if keys != [] {
      var n := |keys| - 1;
      assert !KeyEqual(keys[n], k);
      assert forall i :: 0 <= i < n ==> keys[..n][i] == keys[i];
      NewKeyHasNoMembers(keys[..n], vals[..n], k);
    }
  }

  /** The groups partition the rows: the weights of the groups add up to the weight of all. */
  lemma {:induction false} GroupsAddUp(f: Value -> int, keys: seq<Value>, vals: seq<Value>)
    requires |keys| == |vals| && !SomeNaN(keys)
    ensures GroupWeights(f, FirstOccurrences(keys), keys, vals) == Weight(f, vals)
  {
    hide KeyEqual, Members, Unordered;
    if keys != [] {
      var n := |keys| - 1;
      var init, last := keys[..n], keys[n];
      var before, ks := FirstOccurrences(init), FirstOccurrences(keys);
      assert forall i :: 0 <= i < n ==> init[i] == keys[i];
      assert !Unordered(keys[n]);
      GroupsAddUp(f, init, vals[..n]);
      OccurrencesExact(keys);
      hide SomeNaN;
      RowAddsOnce(f, ks, keys, vals);
      hide Seen;
      if !Seen(init, last) {
        NewKeyHasNoMembers(init, vals[..n], last);
        assert ks[..|ks| - 1] == before;
      }
    }
  }

  function One(v: Value): int { 1 }

  function IntWeight(v: Value): int { IntOf(v) }

  lemma {:induction false} CountIsWeight(vs: seq<Value>)
    ensures Weight(One, vs) == |vs|
  {
    if vs != [] {
      CountIsWeight(vs[..|vs| - 1]);
    }
  }

  lemma {:induction false} SumIsWeight(vs: seq<Value>)
    ensures Weight(IntWeight, vs) == ExactSum(vs)
  {
    if vs != [] {
      SumIsWeight(vs[..|vs| - 1]);
    }
  }

  ghost function TotalCount(ks: seq<Value>, keys: seq<Value>, vals: seq<Value>): int
    requires |keys| == |vals|
  {
    if ks == [] then 0 else TotalCount(ks[..|ks| - 1], keys, vals) + |Members(keys, vals, ks[|ks| - 1])|
  }

  ghost function TotalSum(ks: seq<Value>, keys: seq<Value>, vals: seq<Value>): int
    requires |keys| == |vals|
  {
    if ks == [] then 0 else TotalSum(ks[..|ks| - 1], keys, vals) + ExactSum(Members(keys, vals, ks[|ks| - 1]))
  }

  lemma {:induction false} TotalsAreWeights(ks: seq<Value>, keys: seq<Value>, vals: seq<Value>)
    requires |keys| == |vals|
    ensures GroupWeights(One, ks, keys, vals) == TotalCount(ks, keys, vals)
    ensures GroupWeights(IntWeight, ks, keys, vals) == TotalSum(ks, keys, vals)
  {
    hide Members;
    if ks != [] {
      TotalsAreWeights(ks[..|ks| - 1], keys, vals);
      CountIsWeight(Members(keys, vals, ks[|ks| - 1]));
      SumIsWeight(Members(keys, vals, ks[|ks| - 1]));
    }
  }

  /** The group counts add up to the number of selected rows, and the group sums to their exact
      sum: what COUNT(*) and SUM report without GROUP BY. */
  lemma GroupsPartition(keys: seq<Value>, vals: seq<Value>)
    requires |keys| == |vals| && !SomeNaN(keys)
    ensures TotalCount(FirstOccurrences(keys), keys, vals) == |keys|
    ensures TotalSum(FirstOccurrences(keys), keys, vals) == ExactSum(vals)
  {
    hide SomeNaN, FirstOccurrences;
    TotalsAreWeights(FirstOccurrences(keys), keys, vals);
    GroupsAddUp(One, keys, vals);
    GroupsAddUp(IntWeight, keys, vals);
    CountIsWeight(vals);
    SumIsWeight(vals);
  }
}
