/** Success-or-failure wrappers shared by every module. */
module Wrappers {
  datatype Option<+T> = None | Some(value: T)

  datatype Result<+T, +E> = Ok(value: T) | Err(error: E)
}

/** Bytes, 64-bit words and little-endian fixed-width integers. Go strings and byte slices
    are both `Bytes`: the program never looks at them as anything but bytes. */
module Words {
  type byte = x: int | 0 <= x < 0x100
  type Bytes = seq<byte>
  type u64 = x: int | 0 <= x < 0x1_0000_0000_0000_0000
  type int64 = x: int | -0x8000_0000_0000_0000 <= x < 0x8000_0000_0000_0000

  const TWO_63: nat := 0x8000_0000_0000_0000
  const TWO_64: nat := 0x1_0000_0000_0000_0000

  /** Go's uint64(x) for an int64, and back. */
  function ToU64(i: int64): u64 {
    if i < 0 then i + TWO_64 else i
  }

  function FromU64(u: u64): int64 {
    if u >= TWO_63 then u - TWO_64 else u
  }

  predicate InInt64(x: int) {
    -(TWO_63 as int) <= x < TWO_63
  }

  /** Two's-complement wrap of a mathematical integer into int64. */
  function Wrap64(x: int): int64 {
    FromU64(x % TWO_64)
  }

  function Pow256(n: nat): (p: nat)
    ensures p > 0
  {
    if n == 0 then 1 else 256 * Pow256(n - 1)
  }

  /** The n low-order bytes of x, least significant first. */
  function LE(x: nat, n: nat): (b: Bytes)
    ensures |b| == n
  {
    if n == 0 then [] else [x % 256] + LE(x / 256, n - 1)
  }

  function FromLE(b: Bytes): nat {
    if b == [] then 0 else b[0] + 256 * FromLE(b[1..])
  }

  lemma {:induction false} LERoundTrip(x: nat, n: nat)
    requires x < Pow256(n)
    ensures FromLE(LE(x, n)) == x
  {
    if n > 0 {
      LERoundTrip(x / 256, n - 1);
      assert LE(x, n)[1..] == LE(x / 256, n - 1);
    }
  }

  lemma {:induction false} FromLERoundTrip(b: Bytes)
    ensures FromLE(b) < Pow256(|b|)
    ensures LE(FromLE(b), |b|) == b
  {
    if b != [] {
      FromLERoundTrip(b[1..]);
      var rest := FromLE(b[1..]);
      assert (b[0] + 256 * rest) % 256 == b[0] && (b[0] + 256 * rest) / 256 == rest;
      assert b == [b[0]] + b[1..];
    }
  }

  /** The two conversions are those of two's complement: equal modulo 2^64. */
  lemma TwosComplement(i: int64, u: u64)
    ensures ToU64(i) == i % 0x1_0000_0000_0000_0000
    ensures FromU64(u) == u || FromU64(u) == u - 0x1_0000_0000_0000_0000
    ensures FromU64(ToU64(i)) == i && ToU64(FromU64(u)) == u
  {
  }

  function Weighted(digit: int, weight: int): int {
    digit * weight
  }

  /** Two and eight bytes as numbers, spelled out. */
  lemma WordsSpelledOut(b: Bytes)
    ensures |b| == 2 ==> FromLE(b) == Weighted(b[0], 1) + Weighted(b[1], 0x100)
    ensures |b| == 8 ==>
      FromLE64(b) == Weighted(b[0], 1) + Weighted(b[1], 0x100) + Weighted(b[2], 0x1_0000)
                     + Weighted(b[3], 0x100_0000) + Weighted(b[4], 0x1_0000_0000)
                     + Weighted(b[5], 0x100_0000_0000) + Weighted(b[6], 0x1_0000_0000_0000)
                     + Weighted(b[7], 0x100_0000_0000_0000)
  {
    if |b| == 2 {
      assert FromLE(b[1..]) == b[1] + 256 * FromLE(b[2..]) && b[2..] == [];
    }
    if |b| == 8 {
      FromLEStep(b, 0); FromLEStep(b, 1); FromLEStep(b, 2); FromLEStep(b, 3);
      FromLEStep(b, 4); FromLEStep(b, 5); FromLEStep(b, 6); FromLEStep(b, 7);
      assert b[0..] == b && b[8..] == [];
      hide FromLE;
      assert FromLE64(b) == FromLE(b);
    }
  }

  lemma FromLEStep(b: Bytes, i: nat)
    requires i < |b|
    ensures FromLE(b[i..]) == b[i] + 256 * FromLE(b[i + 1..])
    ensures i + 1 == |b| ==> FromLE(b[i + 1..]) == 0
  {
    assert b[i..][1..] == b[i + 1..];
  }

  /** The bytes of a text written in ASCII. */
  function Ascii(s: string): (b: Bytes)
    requires forall i :: 0 <= i < |s| ==> s[i] < 128 as char
    ensures |b| == |s| && forall i :: 0 <= i < |s| ==> b[i] == s[i] as int
  {
    seq(|s|, i requires 0 <= i < |s| => s[i] as int)
  }

  lemma WordWidths()
    ensures Pow256(2) == 0x1_0000
    ensures Pow256(8) == TWO_64
  {
  }

  /** An eight-byte little-endian word and the unsigned number it stands for. */
  function LE64(x: u64): (b: Bytes)
    ensures |b| == 8
  {
    LE(x, 8)
  }

  function FromLE64(b: Bytes): u64
    requires |b| == 8
  {
    FromLERoundTrip(b);
    WordWidths();
    FromLE(b)
  }

  lemma LE64RoundTrip(x: u64)
    ensures FromLE64(LE64(x)) == x
  {
    WordWidths();
    LERoundTrip(x, 8);
  }

  lemma LE64Injective(x: u64, y: u64)
    requires LE64(x) == LE64(y)
    ensures x == y
  {
    LE64RoundTrip(x);
    LE64RoundTrip(y);
  }

  /** The same value n times. */
  function Repeat<T>(x: T, n: nat): (s: seq<T>)
    ensures |s| == n
    ensures forall i :: 0 <= i < n ==> s[i] == x
  {
    seq(n, _ => x)
  }

  lemma ConcatAssoc<T>(a: seq<T>, b: seq<T>, c: seq<T>)
    ensures a + (b + c) == (a + b) + c
  {
  }

  lemma SliceOfDrop<T>(s: seq<T>, off: nat, a: nat, b: nat)
    requires a <= b && off + b <= |s|
    ensures s[off..][a..b] == s[off + a..off + b]
    ensures s[off..][b..] == s[off + b..]
  {
  }

  lemma SliceOfSlice<T>(s: seq<T>, i: nat, j: nat, a: nat, b: nat)
    requires i <= j <= |s| && a <= b <= j - i
    ensures s[i..j][a..b] == s[i + a..i + b]
  {
    var x, y := s[i..j][a..b], s[i + a..i + b];
    forall k | 0 <= k < b - a ensures x[k] == y[k] {
      assert x[k] == s[i..j][a + k] && y[k] == s[i + a + k];
    }
  }

  lemma PrefixSplit<T>(s: seq<T>, a: nat, b: nat)
    requires a <= b <= |s|
    ensures s[..b] == s[..a] + s[a..b]
    ensures b == a + 1 ==> s[a..b] == [s[a]]
  {
  }

  lemma ConcatNil<T>(a: seq<T>)
    ensures a + [] == a && [] + a == a
  {
  }

  lemma DropPrefix(a: Bytes, b: Bytes)
    ensures (a + b)[|a|..] == b
    ensures (a + b)[..|a|] == a
  {
  }
}
