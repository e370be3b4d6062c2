/** Comparing column values (query/exec.go). Floats are bit patterns compared as section 5.11
    of IEEE 754-2019 orders them; strings are compared bytewise. */
module Compare {
  import opened Wrappers
  import opened Words
  import opened Types
  import opened QueryAst

  // ---- Floats ----

  /** A pattern with all exponent bits set and a non-zero fraction. */
  predicate IsNaN(b: u64) {
    b % TWO_63 > 0x7FF0_0000_0000_0000
  }

  /** The place of a number on the line; both zeros are at 0. */
  function FloatRank(b: u64): int {
    if b < TWO_63 then b else -((b - TWO_63) as int)
  }

  predicate FloatLess(a: u64, b: u64) {
    !IsNaN(a) && !IsNaN(b) && FloatRank(a) < FloatRank(b)
  }

  predicate FloatEqual(a: u64, b: u64) {
    !IsNaN(a) && !IsNaN(b) && FloatRank(a) == FloatRank(b)
  }

  // The numbers the patterns stand for (section 3.4 of IEEE 754-2019), in units of 2^-1074, the
  // smallest positive one. Infinity gets the number its pattern would have if it were finite.

  const TWO_52: nat := 0x10_0000_0000_0000

  function TwoTo(n: nat): (p: nat)
    ensures p >= 1
  {
    if n == 0 then 1 else 2 * TwoTo(n - 1)
  }

  /** All exponent bits set and a fraction that is not zero. */
  predicate NotANumber(b: u64) {
    b % TWO_63 / TWO_52 == 0x7FF && b % TWO_52 != 0
  }

  lemma NaNExactly(b: u64)
    ensures IsNaN(b) <==> NotANumber(b)
  {
    assert TWO_63 == 0x800 * TWO_52;
  }

  /** A subnormal is its fraction; any other number has the hidden bit and an exponent. */
  function Magnitude(b: nat): nat {
    var exponent, fraction := b / TWO_52, b % TWO_52;
    if exponent == 0 then fraction else (TWO_52 + fraction) * TwoTo(exponent - 1)
  }

  function FloatNumber(b: u64): int {
    if b < TWO_63 then Magnitude(b) else -(Magnitude(b - TWO_63) as int)
  }

  lemma MagnitudeStep(b: nat)
    ensures Magnitude(b) < Magnitude(b + 1)
  {
    var e, f := b / TWO_52, b % TWO_52;
    if f + 1 < TWO_52 {
      assert (b + 1) / TWO_52 == e && (b + 1) % TWO_52 == f + 1;
      if e > 0 { ScaledLess(TWO_52 + f, TWO_52 + f + 1, TwoTo(e - 1)); }
    } else {
      assert (b + 1) / TWO_52 == e + 1 && (b + 1) % TWO_52 == 0;
      if e > 0 { ScaledLess(TWO_52 + f, 2 * TWO_52, TwoTo(e - 1)); }
    }
  }

  lemma ScaledLess(x: nat, y: nat, p: nat)
    requires x < y && p >= 1
    ensures x * p < y * p
  {
  }

  lemma {:induction false} MagnitudeMonotone(a: nat, b: nat)
    requires a < b
    ensures Magnitude(a) < Magnitude(b)
    decreases b - a
  {
    MagnitudeStep(b - 1);
    if a < b - 1 {
      MagnitudeMonotone(a, b - 1);
    }
    hide Magnitude;
  }

  lemma MagnitudeOrder(a: nat, b: nat)
    ensures Magnitude(a) < Magnitude(b) <==> a < b
    ensures Magnitude(a) == Magnitude(b) <==> a == b
    ensures Magnitude(a) == 0 <==> a == 0
  {
    assert Magnitude(0) == 0;
    if a > 0 { MagnitudeMonotone(0, a); }
    if a < b { MagnitudeMonotone(a, b); }
    if b < a { MagnitudeMonotone(b, a); }
    hide Magnitude;
  }

  /** Ordering patterns is ordering the numbers they stand for, and a NaN is neither less than,
      equal to nor greater than anything. */
  lemma FloatOrderIsNumeric(a: u64, b: u64)
    ensures FloatLess(a, b) <==> !NotANumber(a) && !NotANumber(b) && FloatNumber(a) < FloatNumber(b)
    ensures FloatEqual(a, b) <==> !NotANumber(a) && !NotANumber(b) && FloatNumber(a) == FloatNumber(b)
  {
    NaNExactly(a);
    NaNExactly(b);
    hide IsNaN, NotANumber;
    var x, y := if a < TWO_63 then a else a - TWO_63, if b < TWO_63 then b else b - TWO_63;
    MagnitudeOrder(x, y);
    MagnitudeOrder(y, x);
    hide Magnitude;
  }

  // ---- Strings ----

  predicate BytesLess(a: Bytes, b: Bytes) {
    b != [] && (a == [] || a[0] < b[0] || (a[0] == b[0] && BytesLess(a[1..], b[1..])))
  }

  // ---- Operators ----

  predicate Decide(op: FilterOp, less: bool, equal: bool, greater: bool) {
    match op
    case OpEq => equal
    case OpNeq => !equal
    case OpLt => less
    case OpGt => greater
    case OpLte => less || equal
    case OpGte => greater || equal
  }

  /** v op w, for two values of one type. */
  predicate Matches(v: Value, op: FilterOp, w: Value) {
    match v
    case Int(x) => w.Int? && Decide(op, x < w.i, x == w.i, w.i < x)
    case Float(x) => w.Float? && Decide(op, FloatLess(x, w.bits), FloatEqual(x, w.bits), FloatLess(w.bits, x))
    case Str(x) => w.Str? && Decide(op, BytesLess(x, w.s), x == w.s, BytesLess(w.s, x))
    case _ => false
  }

  lemma {:induction false} BytesTrichotomy(a: Bytes, b: Bytes)
    ensures a != b ==> (BytesLess(a, b) <==> !BytesLess(b, a))
    ensures a == b ==> !BytesLess(a, b)
  {
    if a != [] && b != [] {
      BytesTrichotomy(a[1..], b[1..]);
      assert a == [a[0]] + a[1..] && b == [b[0]] + b[1..];
    }
  }

  lemma {:induction false} BytesTransitive(a: Bytes, b: Bytes, c: Bytes)
    requires BytesLess(a, b) && BytesLess(b, c)
    ensures BytesLess(a, c)
  {
    if a != [] && a[0] == b[0] == c[0] {
      BytesTransitive(a[1..], b[1..], c[1..]);
    }
  }

  /** a comes first at byte k: it ends there, or has the smaller byte there. */
  ghost predicate ComesFirstAt(a: Bytes, b: Bytes, k: nat) {
    k <= |a| && k < |b| && a[..k] == b[..k] && (k == |a| || a[k] < b[k])
  }

  /** The recursion is the dictionary order. */
  lemma {:induction false} BytesLessExactly(a: Bytes, b: Bytes)
    ensures BytesLess(a, b) <==> exists k: nat :: ComesFirstAt(a, b, k)
  {
    if b != [] && a == [] {
      assert ComesFirstAt(a, b, 0);
    } else if b != [] {
      BytesLessExactly(a[1..], b[1..]);
      if a[0] < b[0] {
        assert ComesFirstAt(a, b, 0);
      }
      if BytesLess(a, b) && a[0] == b[0] {
        var k: nat :| ComesFirstAt(a[1..], b[1..], k);
        assert a[..k + 1] == [a[0]] + a[1..][..k] && b[..k + 1] == [b[0]] + b[1..][..k];
        assert ComesFirstAt(a, b, k + 1);
      }
      forall k: nat | ComesFirstAt(a, b, k) ensures BytesLess(a, b) {
        if k > 0 {
          assert a[0] == a[..k][0] && b[0] == b[..k][0];
          assert a[1..][..k - 1] == a[..k][1..] && b[1..][..k - 1] == b[..k][1..];
          assert ComesFirstAt(a[1..], b[1..], k - 1);
        }
      }
    }
  }

  /** The order of the values themselves: of the integers, of the numbers the float patterns
      stand for, of the dictionary. */
  ghost predicate Below(v: Value, w: Value) {
    match (v, w)
    case (Int(x), Int(y)) => x < y
    case (Float(x), Float(y)) => !NotANumber(x) && !NotANumber(y) && FloatNumber(x) < FloatNumber(y)
    case (Str(x), Str(y)) => exists k: nat :: ComesFirstAt(x, y, k)
    case _ => false
  }

  /** The same integer, the same number, the same bytes. */
  ghost predicate Same(v: Value, w: Value) {
    match (v, w)
    case (Int(x), Int(y)) => x == y
    case (Float(x), Float(y)) => !NotANumber(x) && !NotANumber(y) && FloatNumber(x) == FloatNumber(y)
    case (Str(x), Str(y)) => x == y
    case _ => false
  }

  /** What each operator asks of two values. */
  ghost predicate Compares(v: Value, op: FilterOp, w: Value) {
    match op
    case OpEq => Same(v, w)
    case OpNeq => !Same(v, w)
    case OpLt => Below(v, w)
    case OpGt => Below(w, v)
    case OpLte => Below(v, w) || Same(v, w)
    case OpGte => Below(w, v) || Same(v, w)
  }

  predicate Unordered(v: Value) {
    v.Float? && IsNaN(v.bits)
  }

  /** The six operators compare the values: each holds of two values of a type exactly when the
      order of the integers, of the encoded numbers or of the dictionary says so. */
  lemma MatchesExactly(v: Value, op: FilterOp, w: Value, t: ColumnType)
    requires HasType(v, t) && HasType(w, t)
    ensures Matches(v, op, w) <==> Compares(v, op, w)
  {
    if v.Float? {
      FloatOrderIsNumeric(v.bits, w.bits);
      FloatOrderIsNumeric(w.bits, v.bits);
    }
    hide FloatNumber, NotANumber, FloatLess, FloatEqual, BytesLess;
    if v.Str? {
      BytesLessExactly(v.s, w.s);
      BytesLessExactly(w.s, v.s);
    }
    hide ComesFirstAt;
  }

  /** The order has the laws of one: for two values of a type, neither a NaN, exactly one of =,
      < and > holds and the other three are made of these; with a NaN only != holds. */
  lemma OperatorLaws(v: Value, w: Value, t: ColumnType)
    requires HasType(v, t) && HasType(w, t)
    ensures Matches(v, OpNeq, w) <==> !Matches(v, OpEq, w)
    ensures Matches(v, OpLt, w) <==> Matches(w, OpGt, v)
    ensures (v.Float? ==> !NotANumber(v.bits) && !NotANumber(w.bits)) ==>
      && (Matches(v, OpLte, w) <==> !Matches(v, OpGt, w))
      && (Matches(v, OpGte, w) <==> !Matches(v, OpLt, w))
      && !(Matches(v, OpLt, w) && Matches(v, OpGt, w))
      && (Matches(v, OpEq, w) <==> !Matches(v, OpLt, w) && !Matches(v, OpGt, w))
    ensures v.Float? && (NotANumber(v.bits) || NotANumber(w.bits)) ==>
      forall op :: Matches(v, op, w) <==> op == OpNeq
  {
    if v.Float? {
      NaNExactly(v.bits);
      NaNExactly(w.bits);
    }
    hide IsNaN, NotANumber;
    if v.Str? {
      BytesTrichotomy(v.s, w.s);
      BytesTrichotomy(w.s, v.s);
    }
  }

  lemma MagnitudeParts(exponent: nat, fraction: nat)
    requires exponent > 0 && fraction < TWO_52
    ensures Magnitude(exponent * TWO_52 + fraction) == (TWO_52 + fraction) * TwoTo(exponent - 1)
  {
    hide TwoTo;
  }

  /** Landmarks of the encoding: the zeros, the smallest number, 1.0, 2.0, 3.0 and -3.0. */
  lemma FloatLandmarks()
    ensures FloatNumber(0) == 0 && FloatNumber(0x8000_0000_0000_0000) == 0 && FloatNumber(1) == 1
    ensures var one := FloatNumber(0x3FF0_0000_0000_0000);
      && one > 1
      && FloatNumber(0x4000_0000_0000_0000) == 2 * one
      && FloatNumber(0x4008_0000_0000_0000) == 3 * one
      && FloatNumber(0xC008_0000_0000_0000) == -3 * one
  {
    assert Magnitude(0) == 0 && Magnitude(1) == 1;
    MagnitudeParts(0x3FF, 0);
    MagnitudeParts(0x400, 0);
    MagnitudeParts(0x400, 0x8_0000_0000_0000);
    assert TwoTo(1023) == 2 * TwoTo(1022);
    hide Magnitude, TwoTo;
  }

  /** The NaNs are the patterns beyond the infinities. */
  lemma NaNIsBeyondInfinity(b: u64)
    ensures var infinity := FloatNumber(0x7FF0_0000_0000_0000);
      IsNaN(b) <==> FloatNumber(b) > infinity || FloatNumber(b) < -infinity
  {
    MagnitudeOrder(0x7FF0_0000_0000_0000, b % TWO_63);
    MagnitudeOrder(0, b % TWO_63);
    hide Magnitude;
  }

  // ---- Go's == on map keys ----

  /** The equality a map keyed by `any` uses: bits for integers and strings, IEEE for floats. */
  predicate KeyEqual(a: Value, b: Value) {
    if a.Float? && b.Float? then FloatEqual(a.bits, b.bits) else a == b
  }

  /** One representative for each class of equal keys: the two zeros are one key. */
  function Canon(v: Value): Value {
    if v == Float(TWO_63) then Float(0) else v
  }

  lemma KeyEqualIsCanon(a: Value, b: Value)
    ensures KeyEqual(a, b) <==> !Unordered(a) && !Unordered(b) && Canon(a) == Canon(b)
  {
  }

  /** Two keys of one column are one key iff they are the same value; a NaN is not even the same
      as itself. */
  lemma KeyEqualExactly(a: Value, b: Value, t: ColumnType)
    requires HasType(a, t) && HasType(b, t)
    ensures KeyEqual(a, b) <==> Same(a, b)
  {
    if a.Float? {
      FloatOrderIsNumeric(a.bits, b.bits);
    }
    hide FloatNumber, NotANumber, FloatEqual;
  }
}
