/** The Bloom filter behind write-time deduplication (bloom/bloom.go). The 128-bit FNV-1a sum
    is a parameter: everything here holds for every function from keys to two 64-bit words. */
module Bloom {
  import opened Wrappers
  import opened Words
  import opened Uvarint

  type Hash = Bytes -> (u64, u64)

  const MIN_K: byte := 1
  const MAX_K: byte := 30
  /** The largest m for which (m+7)/8 does not wrap. */
  const MAX_M: u64 := 0xFFFF_FFFF_FFFF_FFF8

  datatype FilterState = FilterState(m: u64, k: byte, bits: Bytes, nAdded: u64)

  predicate ValidFilter(f: FilterState) {
    1 <= f.m <= MAX_M && MIN_K <= f.k <= MAX_K && |f.bits| == (f.m + 7) / 8
  }

  // ---- Bits of a byte ----

  function Pow2(n: nat): nat {
    if n == 0 then 1 else 2 * Pow2(n - 1)
  }

  /** x & (1 << i) != 0 */
  predicate TestBit(x: nat, i: nat) {
    if i == 0 then x % 2 == 1 else TestBit(x / 2, i - 1)
  }

  /** x | (1 << i) */
  function SetBit(x: nat, i: nat): nat {
    if i == 0 then (if x % 2 == 1 then x else x + 1) else x % 2 + 2 * SetBit(x / 2, i - 1)
  }

  lemma {:induction false} SetBitRange(x: nat, i: nat, n: nat)
    requires i < n && x < Pow2(n)
    ensures SetBit(x, i) < Pow2(n)
  {
    var half := Pow2(n - 1);
    assert Pow2(n) == 2 * half && x / 2 < half;
    if i > 0 {
      assert SetBit(x, i) == x % 2 + 2 * SetBit(x / 2, i - 1);
      hide SetBit, Pow2;
      SetBitRange(x / 2, i - 1, n - 1);
    } else {
      assert SetBit(x, i) <= 2 * (x / 2) + 1;
    }
  }

  lemma {:induction false} TestSetBit(x: nat, i: nat, j: nat)
    ensures TestBit(SetBit(x, i), j) <==> i == j || TestBit(x, j)
  {
    var y := SetBit(x, i);
    if i == 0 {
      assert y / 2 == x / 2;
    } else {
      assert y % 2 == x % 2 && y / 2 == SetBit(x / 2, i - 1);
      if j > 0 {
        TestSetBit(x / 2, i - 1, j - 1);
      }
    }
  }

  lemma {:induction false} ZeroHasNoBits(i: nat)
    ensures !TestBit(0, i)
  {
    if i > 0 {
      ZeroHasNoBits(i - 1);
    }
  }

  /** A number below 2^n is its n low bits. */
  lemma {:induction false} NumberIsItsBits(x: nat, y: nat, n: nat)
    requires x < Pow2(n) && y < Pow2(n)
    requires forall j :: 0 <= j < n ==> (TestBit(x, j) <==> TestBit(y, j))
    ensures x == y
  {
    if n > 0 {
      forall j | 0 <= j < n - 1 ensures TestBit(x / 2, j) <==> TestBit(y / 2, j) {
        assert TestBit(x, j + 1) <==> TestBit(y, j + 1);
      }
      NumberIsItsBits(x / 2, y / 2, n - 1);
      assert TestBit(x, 0) <==> TestBit(y, 0);
    }
  }

  lemma ByteBits()
    ensures Pow2(8) == 0x100
  {
  }

  // ---- Bits of the array ----

  lemma SetBitFits(x: byte, i: nat)
    requires i < 8
    ensures SetBit(x, i) < 256
  {
    ByteBits();
    SetBitRange(x, i, 8);
  }

  predicate BitAt(bits: Bytes, j: nat)
    requires j < 8 * |bits|
  {
    TestBit(bits[j / 8], j % 8)
  }

  /** bits[j/8] |= 1 << (j%8) */
  function SetAt(bits: Bytes, j: nat): (r: Bytes)
    requires j < 8 * |bits|
    ensures |r| == |bits|
  {
    ByteBits();
    SetBitRange(bits[j / 8], j % 8, 8);
    bits[j / 8 := SetBit(bits[j / 8], j % 8)]
  }

  lemma BitAfterSet(bits: Bytes, j: nat, l: nat)
    requires j < 8 * |bits| && l < 8 * |bits|
    ensures BitAt(SetAt(bits, j), l) <==> j == l || BitAt(bits, l)
  {
    TestSetBit(bits[j / 8], j % 8, l % 8);
  }

  /** Two bit arrays with the same bits are the same bytes. */
  lemma SameBitsSameBytes(a: Bytes, b: Bytes)
    requires |a| == |b|
    requires forall j :: 0 <= j < 8 * |a| ==> (BitAt(a, j) <==> BitAt(b, j))
    ensures a == b
  {
    forall i | 0 <= i < |a| ensures a[i] == b[i] {
      forall j | 0 <= j < 8 ensures TestBit(a[i], j) <==> TestBit(b[i], j) {
        assert BitAt(a, 8 * i + j) <==> BitAt(b, 8 * i + j);
      }
      ByteBits();
      NumberIsItsBits(a[i], b[i], 8);
    }
  }

  // ---- Hash positions ----

  /** The i-th bit position of a key: double hashing in wrapping 64-bit arithmetic. */
  function Position(h: Hash, m: u64, key: Bytes, i: nat): (p: nat)
    requires m >= 1
    ensures p < m
  {
    var (h1, h2) := h(key);
    (h1 + i * h2 % TWO_64) % TWO_64 % m
  }

  /** The sum of two words as uint64 has it. */
  function Add64(a: u64, b: u64): u64 {
    if a + b < 0x1_0000_0000_0000_0000 then a + b else a + b - 0x1_0000_0000_0000_0000
  }

  /** The walk of a key through the 64-bit words: from its first hash by steps of its second. */
  function Walk(h: Hash, key: Bytes, i: nat): u64 {
    if i == 0 then h(key).0 else Add64(Walk(h, key, i - 1), h(key).1)
  }

  lemma Add64Assoc(a: u64, b: u64, c: u64)
    ensures Add64(Add64(a, b), c) == Add64(a, Add64(b, c))
  {
  }

  lemma ModStep(x: nat, b: u64)
    ensures (x + b) % TWO_64 == Add64(x % TWO_64, b)
  {
    var q, r := x / TWO_64, x % TWO_64;
    assert x + b == q * TWO_64 + (r + b);
    if r + b < TWO_64 {
      assert x + b == q * TWO_64 + Add64(r, b);
    } else {
      assert x + b == (q + 1) * TWO_64 + Add64(r, b);
    }
  }

  lemma TimesStep(i: nat, b: nat)
    requires i > 0
    ensures i * b == (i - 1) * b + b
  {
  }

  lemma {:induction false} WalkClosed(h: Hash, key: Bytes, i: nat)
    ensures Walk(h, key, i) == Add64(h(key).0, i * h(key).1 % TWO_64)
  {
    var (h1, h2) := h(key);
    if i == 0 {
      assert 0 * h2 == 0;
    } else {
      WalkClosed(h, key, i - 1);
      TimesStep(i, h2);
      hide Add64;
      ModStep((i - 1) * h2, h2);
      Add64Assoc(h1, (i - 1) * h2 % TWO_64, h2);
    }
  }

  /** The closed form is the walk, taken modulo m. */
  lemma PositionIsWalk(h: Hash, m: u64, key: Bytes, i: nat)
    requires m >= 1
    ensures Position(h, m, key, i) == Walk(h, key, i) % m
  {
    var (h1, h2) := h(key);
    WalkClosed(h, key, i);
    SumWraps(h1, i * h2 % TWO_64);
    hide Walk, Add64;
  }

  lemma SumWraps(a: u64, b: u64)
    ensures (a + b) % TWO_64 == Add64(a, b)
  {
  }

  /** Some of the first k words of key's walk falls on bit j. */
  ghost predicate Hits(h: Hash, m: u64, k: nat, key: Bytes, j: nat)
    requires m >= 1
  {
    exists i: nat :: i < k && Walk(h, key, i) % m == j
  }

  /** Some key of keys hashes to j. */
  ghost predicate Covered(h: Hash, m: u64, k: nat, keys: seq<Bytes>, j: nat)
    requires m >= 1
  {
    exists x :: x in keys && Hits(h, m, k, x, j)
  }

  /** Some key of keys hashes to the bit that word i of key's walk falls on. */
  ghost predicate WordCovered(h: Hash, m: u64, k: nat, keys: seq<Bytes>, key: Bytes, i: nat)
    requires m >= 1
  {
    Covered(h, m, k, keys, Walk(h, key, i) % m)
  }

  // ---- Add and Contains ----

  function SetPositions(h: Hash, m: u64, key: Bytes, k: nat, bits: Bytes): (r: Bytes)
    requires 1 <= m <= 8 * |bits|
    ensures |r| == |bits|
  {
    if k == 0 then bits else SetAt(SetPositions(h, m, key, k - 1, bits), Position(h, m, key, k - 1))
  }

  function AddKey(h: Hash, f: FilterState, key: Bytes): (r: FilterState)
    requires ValidFilter(f)
    ensures ValidFilter(r) && r.m == f.m && r.k == f.k
  {
    f.(bits := SetPositions(h, f.m, key, f.k, f.bits), nAdded := (f.nAdded + 1) % TWO_64)
  }

  predicate ContainsKey(h: Hash, f: FilterState, key: Bytes)
    requires ValidFilter(f)
  {
    forall i :: 0 <= i < f.k ==> BitAt(f.bits, Position(h, f.m, key, i))
  }

  function AddAll(h: Hash, f: FilterState, keys: seq<Bytes>): (r: FilterState)
    requires ValidFilter(f)
    ensures ValidFilter(r) && r.m == f.m && r.k == f.k
  {
    if keys == [] then f else AddKey(h, AddAll(h, f, keys[..|keys| - 1]), keys[|keys| - 1])
  }

  /** What New makes, whatever size its formulas choose. */
  function Fresh(m: u64, k: byte): (f: FilterState)
    requires 1 <= m <= MAX_M && MIN_K <= k <= MAX_K
    ensures ValidFilter(f)
  {
    FilterState(m, k, seq((m + 7) / 8, _ => 0), 0)
  }

  // ---- Exactness ----

  lemma HitsStep(h: Hash, m: u64, k: nat, key: Bytes, j: nat)
    requires m >= 1
    ensures Hits(h, m, k + 1, key, j) <==> Hits(h, m, k, key, j) || Walk(h, key, k) % m == j
  {
    hide Walk;
  }

  lemma {:induction false} SetPositionsExact(h: Hash, m: u64, key: Bytes, k: nat, bits: Bytes, j: nat)
    requires 1 <= m <= 8 * |bits| && j < 8 * |bits|
    ensures BitAt(SetPositions(h, m, key, k, bits), j) <==> BitAt(bits, j) || Hits(h, m, k, key, j)
  {
    if k > 0 {
      SetPositionsExact(h, m, key, k - 1, bits, j);
      BitAfterSet(SetPositions(h, m, key, k - 1, bits), Position(h, m, key, k - 1), j);
      PositionIsWalk(h, m, key, k - 1);
      hide Position, BitAt, SetAt;
      HitsStep(h, m, k - 1, key, j);
    }
  }

  /** One add on any filter sets the bits the first k words of the walk fall on, and no other. */
  lemma AddExactly(h: Hash, f: FilterState, key: Bytes, j: nat)
    requires ValidFilter(f) && j < 8 * |f.bits|
    ensures BitAt(AddKey(h, f, key).bits, j)
       <==> BitAt(f.bits, j) || Hits(h, f.m, f.k, key, j)
  {
    SetPositionsExact(h, f.m, key, f.k, f.bits, j);
    hide SetPositions, Hits, BitAt;
  }

  /** Word i of the walk falls on a set bit. */
  ghost predicate OnSetBit(h: Hash, f: FilterState, key: Bytes, i: nat)
    requires ValidFilter(f)
  {
    BitAt(f.bits, Walk(h, key, i) % f.m)
  }

  /** A test on any filter finds a key iff the first k words of its walk fall on set bits. */
  lemma TestExactly(h: Hash, f: FilterState, key: Bytes)
    requires ValidFilter(f)
    ensures ContainsKey(h, f, key) <==> forall i: nat :: i < f.k ==> OnSetBit(h, f, key, i)
  {
    hide BitAt, Walk, Position;
    forall i: nat | i < f.k ensures OnSetBit(h, f, key, i) <==> BitAt(f.bits, Position(h, f.m, key, i)) {
      PositionIsWalk(h, f.m, key, i);
    }
    hide OnSetBit;
  }

  /** Bit j is bit j % 8 of byte j / 8, the lowest first. */
  lemma BitIsBit(bits: Bytes, j: nat)
    requires j < 8 * |bits|
    ensures BitAt(bits, j) <==> bits[j / 8] / [1, 2, 4, 8, 16, 32, 64, 128][j % 8] % 2 == 1
  {
    var x := bits[j / 8];
    EighthBits(x, j % 8);
  }

  lemma EighthBits(x: nat, i: nat)
    requires i < 8
    ensures TestBit(x, i) <==> x / [1, 2, 4, 8, 16, 32, 64, 128][i] % 2 == 1
  {
    var a, b, c, d := x / 2, x / 4, x / 8, x / 16;
    assert a / 2 == b && b / 2 == c && c / 2 == d;
    assert d / 2 == x / 32 && x / 32 / 2 == x / 64 && x / 64 / 2 == x / 128;
    assert i >= 1 ==> TestBit(x, i) == TestBit(a, i - 1);
    assert i >= 2 ==> TestBit(a, i - 1) == TestBit(b, i - 2);
    assert i >= 3 ==> TestBit(b, i - 2) == TestBit(c, i - 3);
    assert i >= 4 ==> TestBit(c, i - 3) == TestBit(d, i - 4);
    assert i >= 5 ==> TestBit(d, i - 4) == TestBit(x / 32, i - 5);
    assert i >= 6 ==> TestBit(x / 32, i - 5) == TestBit(x / 64, i - 6);
    assert i >= 7 ==> TestBit(x / 64, i - 6) == TestBit(x / 128, i - 7);
  }

  /** A bit is set after adding keys to a fresh filter iff some key hashes to it. */
  lemma {:induction false} BitsExact(h: Hash, m: u64, k: byte, keys: seq<Bytes>, j: nat)
    requires 1 <= m <= MAX_M && MIN_K <= k <= MAX_K && j < 8 * ((m + 7) / 8)
    ensures BitAt(AddAll(h, Fresh(m, k), keys).bits, j) <==> Covered(h, m, k, keys, j)
  {
    if keys == [] {
      ZeroHasNoBits(j % 8);
    } else {
      var init, last := keys[..|keys| - 1], keys[|keys| - 1];
      BitsExact(h, m, k, init, j);
      SetPositionsExact(h, m, last, k, AddAll(h, Fresh(m, k), init).bits, j);
      assert keys == init + [last];
    }
  }

  /** Membership answers are exactly coverage: every position of the key is a position of some
      added key. In particular an added key is always found. */
  lemma ContainsExact(h: Hash, m: u64, k: byte, keys: seq<Bytes>, key: Bytes)
    requires 1 <= m <= MAX_M && MIN_K <= k <= MAX_K
    ensures ContainsKey(h, AddAll(h, Fresh(m, k), keys), key)
       <==> forall i: nat :: i < k ==> WordCovered(h, m, k, keys, key, i)
    ensures key in keys ==> ContainsKey(h, AddAll(h, Fresh(m, k), keys), key)
  {
    var f := AddAll(h, Fresh(m, k), keys);
    TestExactly(h, f, key);
    hide ContainsKey, Walk, BitAt, Position;
    forall i: nat | i < k
      ensures OnSetBit(h, f, key, i) <==> WordCovered(h, m, k, keys, key, i)
      ensures key in keys ==> OnSetBit(h, f, key, i)
    {
      BitsExact(h, m, k, keys, Walk(h, key, i) % m);
      assert Hits(h, m, k, key, Walk(h, key, i) % m);
    }
    hide OnSetBit, WordCovered;
  }

  /** The bits depend on the set of keys only, not on their order or repetition. */
  lemma OrderIrrelevant(h: Hash, m: u64, k: byte, a: seq<Bytes>, b: seq<Bytes>)
    requires 1 <= m <= MAX_M && MIN_K <= k <= MAX_K
    requires forall x :: x in a <==> x in b
    ensures AddAll(h, Fresh(m, k), a).bits == AddAll(h, Fresh(m, k), b).bits
  {
    var f, g := AddAll(h, Fresh(m, k), a).bits, AddAll(h, Fresh(m, k), b).bits;
    forall j | 0 <= j < 8 * |f| ensures BitAt(f, j) <==> BitAt(g, j) {
      BitsExact(h, m, k, a, j);
      BitsExact(h, m, k, b, j);
    }
    SameBitsSameBytes(f, g);
  }

  /** Every add is counted once, modulo 2^64. */
  lemma {:induction false} CountAdded(h: Hash, f: FilterState, keys: seq<Bytes>)
    requires ValidFilter(f)
    ensures AddAll(h, f, keys).nAdded == (f.nAdded + |keys|) % TWO_64
  {
    hide SetPositions;
    if keys != [] {
      CountAdded(h, f, keys[..|keys| - 1]);
    }
  }

  /** A created filter starts from nothing and counts every add. */
  lemma CountFromFresh(h: Hash, m: u64, k: byte, keys: seq<Bytes>)
    requires 1 <= m <= MAX_M && MIN_K <= k <= MAX_K
    ensures var f := AddAll(h, Fresh(m, k), keys);
      f.m == m && f.k == k && f.nAdded == |keys| % 0x1_0000_0000_0000_0000 && |f.bits| == (m + 7) / 8
  {
    CountAdded(h, Fresh(m, k), keys);
    hide AddAll;
  }

  /** Adding keys never clears a bit, so nothing found is ever lost. */
  lemma AddKeepsFound(h: Hash, f: FilterState, key: Bytes, x: Bytes)
    requires ValidFilter(f)
    ensures ContainsKey(h, f, x) ==> ContainsKey(h, AddKey(h, f, key), x)
    ensures ContainsKey(h, AddKey(h, f, key), key)
  {
    forall i | 0 <= i < f.k
      ensures BitAt(f.bits, Position(h, f.m, x, i)) ==> BitAt(AddKey(h, f, key).bits, Position(h, f.m, x, i))
      ensures BitAt(AddKey(h, f, key).bits, Position(h, f.m, key, i))
    {
      SetPositionsExact(h, f.m, key, f.k, f.bits, Position(h, f.m, x, i));
      SetPositionsExact(h, f.m, key, f.k, f.bits, Position(h, f.m, key, i));
      PositionIsWalk(h, f.m, key, i);
      assert Hits(h, f.m, f.k, key, Walk(h, key, i) % f.m);
    }
  }

  // ---- Saturation: at most k new bits a key ----

  ghost function SetBits(bits: Bytes): set<nat> {
    set j: nat | j < 8 * |bits| && BitAt(bits, j)
  }

  lemma {:induction false} SetPositionsGrowth(h: Hash, m: u64, key: Bytes, k: nat, bits: Bytes)
    requires 1 <= m <= 8 * |bits|
    ensures |SetBits(SetPositions(h, m, key, k, bits))| <= |SetBits(bits)| + k
  {
    hide Position, SetAt, BitAt;
    if k > 0 {
      SetPositionsGrowth(h, m, key, k - 1, bits);
      var before, p := SetPositions(h, m, key, k - 1, bits), Position(h, m, key, k - 1);
      forall j: nat | j < 8 * |bits|
        ensures BitAt(SetAt(before, p), j) <==> p == j || BitAt(before, j)
      {
        BitAfterSet(before, p, j);
      }
      assert SetBits(SetAt(before, p)) == SetBits(before) + {p};
    }
  }

  lemma {:induction false} SubsetOfRange(s: set<nat>, n: nat)
    requires forall j :: j in s ==> j < n
    ensures |s| <= n
  {
    if n == 0 {
      assert s == {};
    } else {
      SubsetOfRange(s - {n - 1}, n - 1);
    }
  }

  lemma FreshHasNoBits(m: u64, k: byte)
    requires 1 <= m <= MAX_M && MIN_K <= k <= MAX_K
    ensures SetBits(Fresh(m, k).bits) == {}
  {
    var bits := Fresh(m, k).bits;
    forall j: nat | j < 8 * |bits| ensures !BitAt(bits, j) { ZeroHasNoBits(j % 8); }
  }

  lemma MulStep(k: nat, n: nat)
    ensures k * (n + 1) == k * n + k
  {
  }

  lemma {:induction false} BitsPerKey(h: Hash, m: u64, k: byte, keys: seq<Bytes>)
    requires 1 <= m <= MAX_M && MIN_K <= k <= MAX_K
    ensures |SetBits(AddAll(h, Fresh(m, k), keys).bits)| <= k * |keys|
  {
    if keys == [] {
      FreshHasNoBits(m, k);
    } else {
      var init, last := keys[..|keys| - 1], keys[|keys| - 1];
      BitsPerKey(h, m, k, init);
      SetPositionsGrowth(h, m, last, k, AddAll(h, Fresh(m, k), init).bits);
      MulStep(k, |init|);
    }
  }

  lemma SaturationBound(h: Hash, m: u64, k: byte, keys: seq<Bytes>)
    requires 1 <= m <= MAX_M && MIN_K <= k <= MAX_K
    ensures var n := |SetBits(AddAll(h, Fresh(m, k), keys).bits)|; n <= k * |keys| && n <= m
  {
    var bits := AddAll(h, Fresh(m, k), keys).bits;
    BitsPerKey(h, m, k, keys);
    forall j | j in SetBits(bits) ensures j < m {
      BitsExact(h, m, k, keys, j);
      assert Covered(h, m, k, keys, j);
    }
    SubsetOfRange(SetBits(bits), m);
  }

  // ---- Serialization ----

  /** [m: 8][k: 1][nAdded: 8][bitsLen: uvarint][bits] */
  function Marshal(f: FilterState): Bytes {
    LE64(f.m) + [f.k] + LE64(f.nAdded) + PutUvarint(|f.bits|) + f.bits
  }

  /** What UnmarshalBinary accepts; (m + 7) wraps as a uint64. */
  function Unmarshal(d: Bytes): Option<FilterState> {
    if |d| < 17 then None
    else
      var m, k, nAdded := FromLE64(d[0..8]), d[8], FromLE64(d[9..17]);
      match GetUvarint(d[17..])
      case None => None
      case Some((bitsLen, n)) =>
        var bits := d[17..][n..];
        if |bits| != bitsLen || m == 0 || bitsLen != (m + 7) % TWO_64 / 8 || k < MIN_K || k > MAX_K then None
        else Some(FilterState(m, k, bits, nAdded))
  }

  /** The fixed-width fields come back from the front of the encoding. */
  lemma MarshalLayout(f: FilterState)
    ensures var d := Marshal(f);
            && |d| >= 17 && d[0..8] == LE64(f.m) && d[8] == f.k && d[9..17] == LE64(f.nAdded)
            && d[17..] == PutUvarint(|f.bits|) + f.bits
  {
  }

  lemma MarshalRoundTrip(f: FilterState)
    requires ValidFilter(f)
    ensures Unmarshal(Marshal(f)) == Some(f)
  {
    hide PutUvarint, GetUvarint, FromLE64, LE64;
    MarshalLayout(f);
    LE64RoundTrip(f.m);
    LE64RoundTrip(f.nAdded);
    UvarintRoundTrip(|f.bits|, f.bits);
    DropPrefix(PutUvarint(|f.bits|), f.bits);
    hide Marshal;
    SizeWraps(f.m);
  }

  /** A loaded filter can be indexed safely iff its m does not make the size check wrap. */
  lemma UnmarshalSafe(d: Bytes)
    requires Unmarshal(d).Some?
    ensures ValidFilter(Unmarshal(d).value) <==> Unmarshal(d).value.m <= MAX_M
    ensures Unmarshal(d).value.m > MAX_M ==> Unmarshal(d).value.bits == []
  {
    hide GetUvarint, FromLE64;
    SizeWraps(Unmarshal(d).value.m);
  }

  /** The family the size check lets through: a filter of 2^64 - 1 bits stored in no bytes. */
  lemma UnmarshalAcceptsWrappedSize()
    ensures Unmarshal(Marshal(FilterState(TWO_64 - 1, 1, [], 0))) == Some(FilterState(TWO_64 - 1, 1, [], 0))
  {
    var f := FilterState(TWO_64 - 1, 1, [], 0);
    MarshalLayout(f);
    LE64RoundTrip(f.m);
    LE64RoundTrip(f.nAdded);
    UvarintRoundTrip(0, []);
    DropPrefix(PutUvarint(0), []);
  }

  /** d is the three fixed fields, one spelling of the number of bytes that follow, and these. */
  ghost predicate SpellsFilter(d: Bytes, f: FilterState, len: Bytes) {
    IsUvarint(len, |f.bits|) && d == LE64(f.m) + [f.k] + LE64(f.nAdded) + len + f.bits
  }

  /** The limits on the fields; above 2^64 - 8 the source's size check wraps to nothing. */
  ghost predicate FieldsInRange(f: FilterState) {
    && f.m > 0 && 1 <= f.k <= 30
    && (f.m <= 0xFFFF_FFFF_FFFF_FFF8 ==> |f.bits| == (f.m + 7) / 8)
    && (f.m > 0xFFFF_FFFF_FFFF_FFF8 ==> f.bits == [])
  }

  /** Exactly what is accepted. */
  lemma UnmarshalExactly(d: Bytes, f: FilterState)
    ensures Unmarshal(d) == Some(f) <==> FieldsInRange(f) && exists len :: SpellsFilter(d, f, len)
  {
    if Unmarshal(d) == Some(f) {
      var len := UnmarshalSpelling(d);
    }
    forall len | SpellsFilter(d, f, len) && FieldsInRange(f) ensures Unmarshal(d) == Some(f) {
      SpellingUnmarshals(d, f, len);
    }
    hide Unmarshal, SpellsFilter, FieldsInRange;
  }

  lemma UnmarshalSpelling(d: Bytes) returns (len: Bytes)
    requires Unmarshal(d).Some?
    ensures SpellsFilter(d, Unmarshal(d).value, len) && FieldsInRange(Unmarshal(d).value)
  {
    var (bitsLen, n) := GetUvarint(d[17..]).value;
    GetUvarintExact(d[17..], bitsLen, n);
    len := d[17..][..n];
    UnmarshalFields(d);
    hide GetUvarint, IsUvarint, FieldsInRange, FromLE64, LE64;
    CutAt17(d, n);
  }

  lemma CutAt17(d: Bytes, n: nat)
    requires |d| >= 17 && n <= |d| - 17
    ensures d == LE64(FromLE64(d[0..8])) + [d[8]] + LE64(FromLE64(d[9..17])) + d[17..][..n] + d[17..][n..]
  {
    FromLERoundTrip(d[0..8]);
    FromLERoundTrip(d[9..17]);
    hide FromLE, LE;
    assert d == d[0..8] + [d[8]] + d[9..17] + d[17..];
    PrefixSplit(d[17..], n, |d| - 17);
  }

  lemma UnmarshalFields(d: Bytes)
    requires Unmarshal(d).Some?
    ensures FieldsInRange(Unmarshal(d).value)
  {
    hide GetUvarint, FromLE64;
    SizeWraps(Unmarshal(d).value.m);
  }

  lemma SizeWraps(m: u64)
    ensures m <= MAX_M ==> (m + 7) % TWO_64 / 8 == (m + 7) / 8
    ensures m > MAX_M ==> (m + 7) % TWO_64 / 8 == 0
  {
  }

  lemma SpellingUnmarshals(d: Bytes, f: FilterState, len: Bytes)
    requires SpellsFilter(d, f, len) && FieldsInRange(f)
    ensures Unmarshal(d) == Some(f)
  {
    var head := LE64(f.m) + [f.k] + LE64(f.nAdded);
    hide LE64, FromLE64, IsUvarint, GetUvarint;
    ConcatAssoc(head, len, f.bits);
    DropPrefix(head, len + f.bits);
    assert d[0..8] == LE64(f.m) && d[8] == f.k && d[9..17] == LE64(f.nAdded);
    DropPrefix(len, f.bits);
    GetUvarintExact(len + f.bits, |f.bits|, |len|);
    LE64RoundTrip(f.m);
    LE64RoundTrip(f.nAdded);
    SizeWraps(f.m);
  }

  /** An accepted body cannot be cut short or extended. */
  lemma UnmarshalLengthIsFixed(d: Bytes, e: Bytes)
    requires Unmarshal(d).Some? && e != []
    ensures Unmarshal(d + e) == None
  {
    assert (d + e)[17..] == d[17..] + e;
    GetUvarintExtends(d[17..], e);
  }

  // ---- The filter object ----

  class Filter {
    const hash: Hash
    var m: u64
    var k: byte
    var bits: array<byte>
    var nAdded: u64

    ghost function State(): FilterState
      reads this, bits
    {
      FilterState(m, k, bits[..], nAdded)
    }

    ghost predicate Valid()
      reads this, bits
    {
      ValidFilter(State())
    }

    /** New, after its formulas have chosen m and k. */
    constructor New(hash: Hash, m: u64, k: byte)
      requires 1 <= m <= TWO_63 && MIN_K <= k <= MAX_K
      ensures Valid() && fresh(bits) && this.hash == hash
      ensures State() == Fresh(m, k)
    {
      this.hash, this.m, this.k, this.nAdded := hash, m, k, 0;
      this.bits := new byte[(m + 7) / 8](_ => 0);
    }

    /** The zero Filter that parseSegment hands to UnmarshalBinary. */
    constructor Zero(hash: Hash)
      ensures fresh(bits) && this.hash == hash
    {
      this.hash, this.m, this.k, this.nAdded := hash, 0, 0, 0;
      this.bits := new byte[0];
    }

    method Add(key: Bytes)
      requires Valid()
      modifies this`nAdded, bits
      ensures Valid() && bits == old(bits)
      ensures State() == AddKey(hash, old(State()), key)
    {
      hide SetBit;
      var (h1, h2) := hash(key);
      for i := 0 to k
        invariant bits[..] == SetPositions(hash, m, key, i, old(bits[..]))
        invariant nAdded == old(nAdded)
      {
        ghost var before := bits[..];
        var idx := (h1 + i * h2 % TWO_64) % TWO_64 % m;
        assert idx == Position(hash, m, key, i);
        SetBitFits(bits[idx / 8], idx % 8);
        bits[idx / 8] := SetBit(bits[idx / 8], idx % 8);
        assert bits[..] == SetAt(before, idx);
      }
      nAdded := (nAdded + 1) % TWO_64;
    }

    method Contains(key: Bytes) returns (found: bool)
      requires Valid()
      ensures found == ContainsKey(hash, State(), key)
    {
      var (h1, h2) := hash(key);
      for i := 0 to k
        invariant forall j :: 0 <= j < i ==> BitAt(bits[..], Position(hash, m, key, j))
      {
        var idx := (h1 + i * h2 % TWO_64) % TWO_64 % m;
        assert idx == Position(hash, m, key, i);
        if !TestBit(bits[idx / 8], idx % 8) {
          assert !BitAt(bits[..], Position(hash, m, key, i));
          return false;
        }
      }
      return true;
    }

    method MarshalBinary() returns (out: Bytes)
      ensures out == Marshal(State())
    {
      out := LE64(m);
      out := out + [k];
      out := out + LE64(nAdded);
      out := out + PutUvarint(bits.Length);
      out := out + bits[..];
    }

    /** The bits are always a new array here. The source overwrites the receiver's own array when
        that has room; it only ever calls this on a zero Filter, which has none. */
    method UnmarshalBinary(data: Bytes) returns (ok: bool)
      modifies this
      ensures ok == Unmarshal(data).Some?
      ensures ok ==> fresh(bits) && State() == Unmarshal(data).value
      ensures !ok ==> bits == old(bits) && State() == old(State())
    {
      if |data| < 17 {
        return false;
      }
      var newM, newK, newAdded := FromLE64(data[0..8]), data[8], FromLE64(data[9..17]);
      var rest := data[17..];
      var read := GetUvarint(rest);
      if read == None {
        return false;
      }
      var (bitsLen, n) := read.value;
      rest := rest[n..];
      if |rest| != bitsLen || newM == 0 {
        return false;
      }
      var expectedBitsLen := (newM + 7) % TWO_64 / 8;
      if bitsLen != expectedBitsLen || newK < MIN_K || newK > MAX_K {
        return false;
      }
      m := newM;
      k := newK;
      nAdded := newAdded;
      bits := new byte[|rest|](i requires 0 <= i < |rest| => rest[i]);
      assert bits[..] == rest;
      return true;
    }
  }
}
