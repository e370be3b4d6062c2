/** Unsigned LEB128 (DWARF Version 5, section 7.6) as Go's encoding/binary reads and writes
    it: at most ten bytes, at most 64 bits, padded encodings accepted on input. */
module Uvarint {
  import opened Wrappers
  import opened Words

  const MAX_VARINT_LEN: nat := 10

  /** The minimal encoding. Every caller passes a uint64; LEB128 itself has no upper limit. */
  function PutUvarint(x: nat): (b: Bytes)
    ensures |b| >= 1
  {
    if x < 128 then [x] else [128 + x % 128] + PutUvarint(x / 128)
  }

  /** Reads one number from the front of d: its value and the number of bytes used. None
      stands for both of Go's failures, n == 0 (input exhausted) and n < 0 (overflow). */
  function GetUvarint(d: Bytes): (r: Option<(nat, nat)>)
    ensures r.Some? ==> 1 <= r.value.1 <= |d| && r.value.0 < TWO_64
  {
    GetUvarintFrom(d, 0)
  }

  function GetUvarintFrom(d: Bytes, i: nat): (r: Option<(nat, nat)>)
    requires i <= MAX_VARINT_LEN
    ensures r.Some? ==> 1 <= r.value.1 <= |d| && r.value.0 < Room(i)
  {
    if d == [] || i == MAX_VARINT_LEN then None
    else if d[0] < 128 then
      if i == MAX_VARINT_LEN - 1 && d[0] > 1 then None else Some((d[0] as nat, 1 as nat))
    else
      match GetUvarintFrom(d[1..], i + 1)
      case None => None
      case Some((x, n)) => Some((d[0] - 128 + 128 * x, n + 1))
  }

  /** What a 64-bit number may still hold from byte i on: 2^(64 - 7i), nothing after ten. */
  function Room(i: nat): (r: nat)
    requires i <= MAX_VARINT_LEN
    ensures i < 9 ==> r == 128 * Room(i + 1)
    decreases MAX_VARINT_LEN - i
  {
    if i == 0 then TWO_64
    else if i == 1 then 0x200_0000_0000_0000
    else if i == 2 then 0x4_0000_0000_0000
    else if i == 3 then 0x800_0000_0000
    else if i == 4 then 0x10_0000_0000
    else if i == 5 then 0x2000_0000
    else if i == 6 then 0x40_0000
    else if i == 7 then 0x8000
    else if i == 8 then 0x100
    else if i == 9 then 2
    else 0
  }

  // ---- The encoding described without a reader: continuation bits and a base-128 sum ----

  function Base128(b: Bytes): nat {
    if b == [] then 0 else b[0] % 128 + 128 * Base128(b[1..])
  }

  ghost predicate Terminated(b: Bytes) {
    && b != []
    && (forall i :: 0 <= i < |b| - 1 ==> b[i] >= 128)
    && b[|b| - 1] < 128
  }

  /** b is one encoding, minimal or padded, of x. */
  ghost predicate IsUvarint(b: Bytes, x: nat) {
    Terminated(b) && |b| <= 10 && Base128(b) == x && x < 0x1_0000_0000_0000_0000
  }

  /** The reader accepts exactly the encodings: it returns (x, n) iff the first n bytes
      encode x. */
  lemma GetUvarintExact(d: Bytes, x: nat, n: nat)
    ensures GetUvarint(d) == Some((x, n)) <==> n <= |d| && IsUvarint(d[..n], x)
  {
    GetUvarintFromExact(d, 0, x, n);
  }

  lemma {:induction false} GetUvarintFromExact(d: Bytes, i: nat, x: nat, n: nat)
    requires i <= MAX_VARINT_LEN
    ensures GetUvarintFrom(d, i) == Some((x, n))
       <==> n <= |d| && Terminated(d[..n]) && i + n <= MAX_VARINT_LEN && Base128(d[..n]) == x && x < Room(i)
    decreases MAX_VARINT_LEN - i
  {
    if d == [] || i == MAX_VARINT_LEN {
    } else if d[0] < 128 {
      if 0 < n <= |d| {
        assert d[..n][0] == d[0];
        if n == 1 {
          assert d[..n] == [d[0]];
          assert Base128([d[0]]) == d[0];
        }
      }
    } else if n == 0 || n > |d| {
    } else if n == 1 {
      assert !Terminated(d[..1]);
    } else {
      assert d[..n][1..] == d[1..][..n - 1];
      TerminatedTail(d[..n]);
      var x' := Base128(d[..n][1..]);
      GetUvarintFromExact(d[1..], i + 1, x', n - 1);
      assert Base128(d[..n]) == d[0] - 128 + 128 * x';
      if i == MAX_VARINT_LEN - 1 {
      } else {
        assert Base128(d[..n]) < Room(i) <==> x' < Room(i + 1);
      }
      match GetUvarintFrom(d[1..], i + 1)
      case None =>
      case Some((y, k)) => GetUvarintFromExact(d[1..], i + 1, y, k);
        if k + 1 == n {
          assert y == x';
        }
    }
  }

  lemma TerminatedTail(b: Bytes)
    requires |b| >= 2 && b[0] >= 128
    ensures Terminated(b) <==> Terminated(b[1..])
  {
  }

  // ---- The writer ----

  lemma PutUvarintEncodes(x: nat)
    requires x < TWO_64
    ensures IsUvarint(PutUvarint(x), x)
  {
    PutUvarintTerminated(x, 0);
  }

  lemma {:induction false} PutUvarintTerminated(x: nat, i: nat)
    requires i < MAX_VARINT_LEN && x < Room(i)
    ensures Terminated(PutUvarint(x)) && Base128(PutUvarint(x)) == x
    ensures i + |PutUvarint(x)| <= MAX_VARINT_LEN
    decreases x
  {
    var b := PutUvarint(x);
    if x < 128 {
      assert Base128(b) == x;
    } else {
      PutUvarintTerminated(x / 128, i + 1);
      assert b[1..] == PutUvarint(x / 128);
      TerminatedTail(b);
    }
  }

  lemma UvarintRoundTrip(x: nat, rest: Bytes)
    requires x < TWO_64
    ensures GetUvarint(PutUvarint(x) + rest) == Some((x, |PutUvarint(x)|))
  {
    PutUvarintEncodes(x);
    var b := PutUvarint(x);
    DropPrefix(b, rest);
    GetUvarintExact(b + rest, x, |b|);
  }

  /** No encoding of a number is shorter than the writer's. */
  lemma {:induction false} PutUvarintShortest(b: Bytes)
    requires Terminated(b)
    ensures |PutUvarint(Base128(b))| <= |b|
  {
    if |b| > 1 {
      TerminatedTail(b);
      PutUvarintShortest(b[1..]);
      assert Base128(b) / 128 == Base128(b[1..]);
    } else {
      assert Base128(b) == b[0];
    }
  }

  lemma GetUvarintShortest(d: Bytes)
    requires GetUvarint(d).Some?
    ensures |PutUvarint(GetUvarint(d).value.0)| <= GetUvarint(d).value.1
  {
    var Some((x, n)) := GetUvarint(d);
    GetUvarintExact(d, x, n);
    PutUvarintShortest(d[..n]);
  }

  /** A successful read looks at nothing beyond the bytes it uses. */
  lemma GetUvarintExtends(d: Bytes, more: Bytes)
    requires GetUvarint(d).Some?
    ensures GetUvarint(d + more) == GetUvarint(d)
  {
    var Some((x, n)) := GetUvarint(d);
    GetUvarintExact(d, x, n);
    assert (d + more)[..n] == d[..n];
    GetUvarintExact(d + more, x, n);
  }

  // ---- Encoded length ----

  function UvarintLen(x: nat): nat {
    |PutUvarint(x)|
  }

  lemma {:induction false} UvarintLenMonotone(x: nat, y: nat)
    requires x <= y
    ensures UvarintLen(x) <= UvarintLen(y)
  {
    if y >= 128 && x >= 128 {
      UvarintLenMonotone(x / 128, y / 128);
    }
  }

  /** Adding two numbers never needs more bytes than writing both. */
  lemma {:induction false} UvarintLenSubadditive(x: nat, y: nat)
    ensures UvarintLen(x + y) <= UvarintLen(x) + UvarintLen(y)
  {
    if x + y >= 128 {
      var q, r := (x + y) / 128, x / 128 + y / 128;
      assert q <= r + 1;
      if x < 128 || y < 128 {
        var big := if x < 128 then y else x;
        assert x + y <= big + 127;
        UvarintLenGrowth(big);
        UvarintLenMonotone(x + y, big + 127);
      } else {
        UvarintLenSubadditive(x / 128, y / 128);
        UvarintLenGrowth(r);
        UvarintLenMonotone(q, r + 127);
        assert UvarintLen(x + y) == 1 + UvarintLen(q);
      }
    }
  }

  lemma {:induction false} UvarintLenGrowth(x: nat)
    ensures UvarintLen(x + 127) <= UvarintLen(x) + 1
  {
    if x >= 128 {
      UvarintLenGrowth(x / 128);
      UvarintLenMonotone((x + 127) / 128, x / 128 + 127);
    } else {
      assert x + 127 >= 128 ==> PutUvarint((x + 127) / 128) == [(x + 127) / 128];
    }
  }

  lemma {:induction false} UvarintLenSmall(x: nat)
    requires x >= 2
    ensures UvarintLen(x) < x
  {
    if x >= 256 {
      UvarintLenSmall(x / 128);
    }
  }
}
