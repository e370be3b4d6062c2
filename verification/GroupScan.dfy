/** The hash grouping loop of execGrouped and its invariant (query/exec.go). */
module GroupScan {
  import opened Wrappers
  import opened Words
  import opened Types
  import opened QueryAst
  import opened Compare
  import opened Aggregate
  import opened Eval

  /** One group's running state; only the field of the active aggregate moves. */
  datatype Accumulator = Accumulator(count: u64, sumI64: int64, sumF64: u64)

  const ZERO_ACCUMULATOR := Accumulator(0, 0, 0)

  /** The accumulator of a group whose values so far are members. */
  ghost predicate Accumulates(fadd: FloatAdd, agg: Aggregation, members: seq<Value>, acc: Accumulator) {
    match agg
    case CountRows => acc.count == |members| % TWO_64
    case SumColumn(t) =>
      if t.Int64? then !Overflows(members) && acc.sumI64 == ExactSum(members)
      else acc.sumF64 == FloatSum(fadd, members)
  }

  /** One row's update of its group: None when the integer sum leaves int64. */
  function Accumulate(fadd: FloatAdd, agg: Aggregation, acc: Accumulator, v: Value): Option<Accumulator> {
    match agg
    case CountRows => Some(acc.(count := (acc.count + 1) % TWO_64))
    case SumColumn(t) =>
      if t.Int64? then
        var (newSum, ok) := AddInt64Checked(acc.sumI64, IntOf(v));
        if ok then Some(acc.(sumI64 := newSum)) else None
      else Some(acc.(sumF64 := fadd(acc.sumF64, BitsOf(v))))
  }

  function CellOf(agg: Aggregation, acc: Accumulator): Value {
    match agg
    case CountRows => Uint(acc.count)
    case SumColumn(t) => if t.Int64? then Int(acc.sumI64) else Float(acc.sumF64)
  }

  lemma AccumulateStep(fadd: FloatAdd, agg: Aggregation, members: seq<Value>, acc: Accumulator, v: Value)
    requires Accumulates(fadd, agg, members, acc)
    ensures match Accumulate(fadd, agg, acc, v)
            case Some(next) => Accumulates(fadd, agg, members + [v], next)
            case None => agg == SumColumn(Int64) && Overflows(members + [v])
  {
    OverflowsAppend(members, v);
    var all := members + [v];
    assert all[..|all| - 1] == members;
  }

  lemma AccumulatorStarts(fadd: FloatAdd, agg: Aggregation)
    ensures Accumulates(fadd, agg, [], ZERO_ACCUMULATOR)
  {
  }

  lemma AccumulatedCell(fadd: FloatAdd, agg: Aggregation, members: seq<Value>, acc: Accumulator)
    requires Accumulates(fadd, agg, members, acc)
    ensures CellOf(agg, acc) == AggregateCell(fadd, agg, members)
  {
  }

  // ---- Members of a class of equal keys ----

  lemma CanonClass(a: Value, k: Value)
    ensures KeyEqual(a, Canon(k)) <==> KeyEqual(a, k)
    ensures Canon(Canon(k)) == Canon(k)
    ensures Unordered(Canon(k)) <==> Unordered(k)
  {
  }

  lemma {:induction false} MembersOfCanon(keys: seq<Value>, vals: seq<Value>, k: Value)
    requires |keys| == |vals|
    ensures Members(keys, vals, Canon(k)) == Members(keys, vals, k)
  {
    if keys != [] {
      var n := |keys| - 1;
      MembersOfCanon(keys[..n], vals[..n], k);
      CanonClass(keys[n], k);
      hide KeyEqual, Canon;
    }
  }

  lemma MembersAppend(keys: seq<Value>, vals: seq<Value>, key: Value, v: Value, k: Value)
    requires |keys| == |vals|
    ensures Members(keys + [key], vals + [v], k)
         == if KeyEqual(key, k) then Members(keys, vals, k) + [v] else Members(keys, vals, k)
  {
  }

  // ---- The loop invariant ----

  /** groups holds one accumulator for each class of keys equal to themselves, under its
      representative; keys lists every key a lookup missed. */
  ghost predicate Scanned(fadd: FloatAdd, agg: Aggregation, ks: seq<Value>, vs: seq<Value>, keys: seq<Value>, groups: map<Value, Accumulator>)
    requires |ks| == |vs|
  {
    && keys == FirstOccurrences(ks)
    && (forall v :: v in groups <==> v == Canon(v) && Seen(ks, v))
    && (forall v :: v in groups ==> Accumulates(fadd, agg, Members(ks, vs, v), groups[v]))
  }

  /** A Go map lookup: no key finds a NaN, and the two zeros find each other. */
  predicate InMap(groups: map<Value, Accumulator>, key: Value) {
    !Unordered(key) && Canon(key) in groups
  }

  lemma LookupIsSeen(fadd: FloatAdd, agg: Aggregation, ks: seq<Value>, vs: seq<Value>, keys: seq<Value>,
      groups: map<Value, Accumulator>, key: Value)
    requires |ks| == |vs| && Scanned(fadd, agg, ks, vs, keys, groups)
    ensures InMap(groups, key) <==> Seen(ks, key)
  {
  }

  lemma OccurrencesAppend(ks: seq<Value>, key: Value)
    ensures FirstOccurrences(ks + [key])
         == if Seen(ks, key) then FirstOccurrences(ks) else FirstOccurrences(ks) + [key]
  {
  }

  lemma SeenAppend(ks: seq<Value>, key: Value, v: Value)
    ensures Seen(ks + [key], v) <==> Seen(ks, v) || KeyEqual(key, v)
  {
    assert (ks + [key])[..|ks|] == ks;
    SeenStep(ks + [key], v);
  }

  /** The value of the accumulator a row starts from. */
  function Current(groups: map<Value, Accumulator>, key: Value): Accumulator {
    if InMap(groups, key) then groups[Canon(key)] else ZERO_ACCUMULATOR
  }

  lemma CurrentAccumulates(fadd: FloatAdd, agg: Aggregation, ks: seq<Value>, vs: seq<Value>, keys: seq<Value>,
      groups: map<Value, Accumulator>, key: Value)
    requires |ks| == |vs| && Scanned(fadd, agg, ks, vs, keys, groups)
    ensures Accumulates(fadd, agg, Members(ks, vs, key), Current(groups, key))
  {
    LookupIsSeen(fadd, agg, ks, vs, keys, groups, key);
    if InMap(groups, key) {
      MembersOfCanon(ks, vs, key);
    } else {
      NewKeyHasNoMembers(ks, vs, key);
      AccumulatorStarts(fadd, agg);
    }
    hide Accumulates, Members;
  }

  /** One row: its group exists afterwards and has taken the row's value; the others are as
      they were. A NaN key leaves nothing a lookup can find. */
  lemma ScanStep(fadd: FloatAdd, agg: Aggregation, ks: seq<Value>, vs: seq<Value>, keys: seq<Value>,
      groups: map<Value, Accumulator>, key: Value, v: Value)
    requires |ks| == |vs| && Scanned(fadd, agg, ks, vs, keys, groups)
    requires Accumulate(fadd, agg, Current(groups, key), v).Some?
    ensures var next := Accumulate(fadd, agg, Current(groups, key), v).value;
      Scanned(fadd, agg, ks + [key], vs + [v],
              if InMap(groups, key) then keys else keys + [key],
              if Unordered(key) then groups else groups[Canon(key) := next])
  {
    hide Accumulates, Accumulate, FirstOccurrences, Members;
    var next := Accumulate(fadd, agg, Current(groups, key), v).value;
    var groups' := if Unordered(key) then groups else groups[Canon(key) := next];
    var ks', vs' := ks + [key], vs + [v];
    LookupIsSeen(fadd, agg, ks, vs, keys, groups, key);
    OccurrencesAppend(ks, key);
    CurrentAccumulates(fadd, agg, ks, vs, keys, groups, key);
    AccumulateStep(fadd, agg, Members(ks, vs, key), Current(groups, key), v);
    CanonClass(key, key);
    KeyEqualIsCanon(key, key);
    hide Seen, InMap, Current;
    forall c ensures c in groups' <==> c == Canon(c) && Seen(ks', c) {
      SeenAppend(ks, key, c);
      KeyEqualIsCanon(key, c);
      CanonClass(c, c);
    }
    forall c | c in groups' ensures Accumulates(fadd, agg, Members(ks', vs', c), groups'[c]) {
      MembersAppend(ks, vs, key, v, c);
      KeyEqualIsCanon(key, c);
      if c == Canon(key) && !Unordered(key) {
        MembersOfCanon(ks, vs, key);
      }
    }
  }

  // ---- Overflow ----

  lemma OverflowPersists(ks: seq<Value>, vs: seq<Value>, key: Value, v: Value)
    requires |ks| == |vs| && SomeGroupOverflows(ks, vs)
    ensures SomeGroupOverflows(ks + [key], vs + [v])
  {
    hide Members, Overflows;
    var i :| 0 <= i < |ks| && Overflows(Members(ks, vs, ks[i]));
    MembersAppend(ks, vs, key, v, ks[i]);
    OverflowsAppend(Members(ks, vs, ks[i]), v);
    assert (ks + [key])[i] == ks[i];
  }

  lemma OverflowArises(fadd: FloatAdd, ks: seq<Value>, vs: seq<Value>, key: Value, v: Value, acc: Accumulator)
    requires |ks| == |vs| && Accumulates(fadd, SumColumn(Int64), Members(ks, vs, key), acc)
    requires Accumulate(fadd, SumColumn(Int64), acc, v) == None
    requires !Unordered(key)
    ensures SomeGroupOverflows(ks + [key], vs + [v])
  {
    hide Members, Overflows;
    AccumulateStep(fadd, SumColumn(Int64), Members(ks, vs, key), acc, v);
    MembersAppend(ks, vs, key, v, key);
    KeyEqualIsCanon(key, key);
    assert (ks + [key])[|ks|] == key;
  }

  lemma NoGroupOverflows(fadd: FloatAdd, ks: seq<Value>, vs: seq<Value>, keys: seq<Value>, groups: map<Value, Accumulator>)
    requires |ks| == |vs| && Scanned(fadd, SumColumn(Int64), ks, vs, keys, groups)
    ensures !SomeGroupOverflows(ks, vs)
  {
    forall i | 0 <= i < |ks| ensures !Overflows(Members(ks, vs, ks[i])) {
      CurrentAccumulates(fadd, SumColumn(Int64), ks, vs, keys, groups, ks[i]);
      hide Scanned, Members, Current;
    }
  }

  /** The first value of a group never overflows, so neither does a NaN row. */
  lemma FirstValueFits(fadd: FloatAdd, agg: Aggregation, v: Value)
    ensures Accumulate(fadd, agg, ZERO_ACCUMULATOR, v).Some?
  {
  }

  lemma {:induction false} PickOverflowPersists(gs: seq<Value>, vs: seq<Value>, sel: Option<seq<bool>>, n: nat, m: nat)
    requires n <= m <= |gs| == |vs| && (sel.Some? ==> m <= |sel.value|)
    requires |Pick(gs, sel, n)| == |Pick(vs, sel, n)| && |Pick(gs, sel, m)| == |Pick(vs, sel, m)|
    requires SomeGroupOverflows(Pick(gs, sel, n), Pick(vs, sel, n))
    ensures SomeGroupOverflows(Pick(gs, sel, m), Pick(vs, sel, m))
    decreases m - n
  {
    hide SomeGroupOverflows;
    if n < m {
      PickLength(gs, sel, n + 1);
      PickLength(vs, sel, n + 1);
      if Keeps(sel, n) {
        OverflowPersists(Pick(gs, sel, n), Pick(vs, sel, n), gs[n], vs[n]);
      } else {
        ConcatNil(Pick(gs, sel, n));
        ConcatNil(Pick(vs, sel, n));
      }
      PickOverflowPersists(gs, vs, sel, n + 1, m);
    }
  }
}
