/** One value on the wire, and the raw column encoding (storage/encoding.go). The source
    repeats each routine for int64, float64 and string; here the column type is a parameter. */
module Encoding {
  import opened Wrappers
  import opened Words
  import opened Uvarint
  import opened Types

  /** Fixed-width values take eight bytes; strings are framed by their length. */
  function EncodeValue(v: Value): Bytes {
    match v
    case Int(i) => LE64(ToU64(i))
    case Float(bits) => LE64(bits)
    case Str(s) => PutUvarint(|s|) + s
    case _ => []
  }

  /** Reads one value of type t from the front of d and tells how many bytes it took. */
  function DecodeValue(t: ColumnType, d: Bytes): (r: Option<(Value, nat)>)
    ensures r.Some? ==> HasType(r.value.0, t) && 1 <= r.value.1 <= |d|
  {
    match t
    case Int64 => if |d| < 8 then None else Some((Int(FromU64(FromLE64(d[..8]))), 8))
    case Float64 => if |d| < 8 then None else Some((Float(FromLE64(d[..8])), 8))
    case String =>
      (match GetUvarint(d)
       case None => None
       case Some((len, n)) =>
         if len > |d| - n then None else Some((Str(d[n..n + len]), n + len)))
    case OtherType(_) => None
  }

  /** The length of a Go string fits in an int. */
  predicate FitsValue(v: Value) {
    v.Str? ==> |v.s| < TWO_63
  }

  predicate Fits(vs: seq<Value>) {
    forall i :: 0 <= i < |vs| ==> FitsValue(vs[i])
  }

  lemma DecodeEncodeValue(v: Value, t: ColumnType, rest: Bytes)
    requires HasType(v, t) && FitsValue(v)
    ensures DecodeValue(t, EncodeValue(v) + rest) == Some((v, |EncodeValue(v)|))
    ensures (EncodeValue(v) + rest)[|EncodeValue(v)|..] == rest
  {
    var d := EncodeValue(v) + rest;
    match v
    case Int(i) =>
      DropPrefix(LE64(ToU64(i)), rest);
      LE64RoundTrip(ToU64(i));
    case Float(bits) =>
      DropPrefix(LE64(bits), rest);
      LE64RoundTrip(bits);
    case Str(s) =>
      assert d == PutUvarint(|s|) + (s + rest);
      UvarintRoundTrip(|s|, s + rest);
      assert d[|PutUvarint(|s|)|..|PutUvarint(|s|)| + |s|] == s;
  }

  /** The encoder never spends more bytes on a value than any input the decoder reads it from. */
  lemma EncodeValueShortest(t: ColumnType, d: Bytes)
    requires DecodeValue(t, d).Some?
    ensures |EncodeValue(DecodeValue(t, d).value.0)| <= DecodeValue(t, d).value.1
  {
    if t.String? {
      GetUvarintShortest(d);
    }
  }

  lemma DecodeValueExtends(t: ColumnType, d: Bytes, more: Bytes)
    requires DecodeValue(t, d).Some?
    ensures DecodeValue(t, d + more) == DecodeValue(t, d)
  {
    match t
    case Int64 => assert (d + more)[..8] == d[..8];
    case Float64 => assert (d + more)[..8] == d[..8];
    case String =>
      GetUvarintExtends(d, more);
      var (len, n) := GetUvarint(d).value;
      assert (d + more)[n..n + len] == d[n..n + len];
  }

  // ---- The raw encoding ----

  function EncodeRaw(vs: seq<Value>): Bytes {
    if vs == [] then [] else EncodeValue(vs[0]) + EncodeRaw(vs[1..])
  }

  /** All the values a payload splits into, if it splits completely. */
  function DecodeRaw(t: ColumnType, d: Bytes): (r: Option<seq<Value>>)
    ensures r.Some? ==> AllOfType(r.value, t)
    decreases |d|
  {
    if d == [] then Some([])
    else
      match DecodeValue(t, d)
      case None => None
      case Some((v, n)) =>
        match DecodeRaw(t, d[n..])
        case None => None
        case Some(vs) => Some([v] + vs)
  }

  /** One unfolding of DecodeRaw. */
  lemma DecodeRawStep(t: ColumnType, d: Bytes)
    requires DecodeValue(t, d).Some?
    ensures DecodeRaw(t, d) == match DecodeRaw(t, d[DecodeValue(t, d).value.1..])
                               case None => None
                               case Some(vs) => Some([DecodeValue(t, d).value.0] + vs)
  {
    hide DecodeValue;
  }

  lemma {:induction false} DecodeEncodeRaw(vs: seq<Value>, t: ColumnType)
    requires AllOfType(vs, t) && Fits(vs)
    ensures DecodeRaw(t, EncodeRaw(vs)) == Some(vs)
  {
    hide EncodeValue, DecodeValue;
    if vs != [] {
      var rest := EncodeRaw(vs[1..]);
      DecodeEncodeRaw(vs[1..], t);
      DecodeEncodeValue(vs[0], t, rest);
      assert vs == [vs[0]] + vs[1..];
      DecodeRawStep(t, EncodeValue(vs[0]) + rest);
      hide DecodeRaw;
    }
  }

  lemma {:induction false} EncodeRawAppend(vs: seq<Value>, v: Value)
    ensures EncodeRaw(vs + [v]) == EncodeRaw(vs) + EncodeValue(v)
  {
    hide EncodeValue;
    if vs == [] {
      ConcatNil([v]);
      ConcatNil(EncodeValue(v));
      assert [v][1..] == [];
    } else {
      EncodeRawAppend(vs[1..], v);
      assert (vs + [v])[1..] == vs[1..] + [v];
      ConcatAssoc(EncodeValue(vs[0]), EncodeRaw(vs[1..]), EncodeValue(v));
    }
  }

  lemma FixedWidth(v: Value, t: ColumnType)
    requires HasType(v, t) && (t.Int64? || t.Float64?)
    ensures |EncodeValue(v)| == 8
  {
  }

  /** Fixed-width raw payloads are eight bytes a value, in either direction. */
  lemma {:induction false} EncodeRawFixedLength(vs: seq<Value>, t: ColumnType)
    requires AllOfType(vs, t) && (t.Int64? || t.Float64?)
    ensures |EncodeRaw(vs)| == 8 * |vs|
  {
    if vs != [] {
      EncodeRawFixedLength(vs[1..], t);
    }
  }

  lemma {:induction false} DecodeRawFixedLength(t: ColumnType, d: Bytes)
    requires t.Int64? || t.Float64?
    ensures DecodeRaw(t, d).Some? <==> |d| % 8 == 0
    ensures DecodeRaw(t, d).Some? ==> |d| == 8 * |DecodeRaw(t, d).value|
    decreases |d|
  {
    if |d| >= 8 {
      DecodeRawFixedLength(t, d[8..]);
    }
  }

  // ---- The routines ----

  /** binary.LittleEndian.PutUint64 on a slice of a larger buffer. */
  method PutWord(buf: array<byte>, at: nat, word: Bytes)
    requires at + |word| <= buf.Length
    modifies buf
    ensures buf[..at] == old(buf[..at]) && buf[at..at + |word|] == word
  {
    for j := 0 to |word|
      invariant buf[..at] == old(buf[..at])
      invariant buf[at..at + j] == word[..j]
    {
      buf[at + j] := word[j];
    }
  }

  /** encodeRawInt64 and encodeRawFloat64: fill a buffer of 8 bytes a value in place. */
  method EncodeRawFixed(values: seq<Value>, t: ColumnType) returns (out: Bytes)
    requires AllOfType(values, t) && (t.Int64? || t.Float64?)
    ensures out == EncodeRaw(values) && |out| == 8 * |values|
  {
    hide EncodeValue;
    EncodeRawFixedLength(values, t);
    var buf := new byte[8 * |values|];
    for i := 0 to |values|
      invariant buf[..8 * i] == EncodeRaw(values[..i])
    {
      var word := EncodeValue(values[i]);
      assert |word| == 8 by { FixedWidth(values[i], t); }
      PutWord(buf, 8 * i, word);
      PrefixSplit(buf[..], 8 * i, 8 * (i + 1));
      EncodeRawAppend(values[..i], values[i]);
      PrefixSplit(values, i, i + 1);
    }
    assert values[..|values|] == values && buf[..8 * |values|] == buf[..];
    return buf[..];
  }

  /** encodeRawString: append the frames. */
  method EncodeRawString(values: seq<Value>) returns (out: Bytes)
    requires AllOfType(values, String)
    ensures out == EncodeRaw(values)
  {
    hide PutUvarint;
    out := [];
    for i := 0 to |values|
      invariant out == EncodeRaw(values[..i])
    {
      ConcatAssoc(out, PutUvarint(|values[i].s|), values[i].s);
      out := out + PutUvarint(|values[i].s|);
      out := out + values[i].s;
      EncodeRawAppend(values[..i], values[i]);
      PrefixSplit(values, i, i + 1);
    }
    assert values[..|values|] == values;
  }

  /** A decoded payload of exactly the advertised number of rows. */
  function Exactly(r: Option<seq<Value>>, rows: nat): Option<seq<Value>> {
    if r.Some? && |r.value| == rows then r else None
  }

  /** One word of a fixed-width payload. */
  lemma DecodeRawWord(t: ColumnType, data: Bytes, at: nat, v: Value)
    requires (t.Int64? || t.Float64?) && at + 8 <= |data| && DecodeRaw(t, data[at..]).Some?
    requires var word := data[at..at + 8];
      v == if t.Int64? then Int(FromU64(FromLE64(word))) else Float(FromLE64(word))
    ensures DecodeRaw(t, data[at + 8..]).Some?
    ensures DecodeRaw(t, data[at..]) == Some([v] + DecodeRaw(t, data[at + 8..]).value)
  {
    var d := data[at..];
    SliceOfDrop(data, at, 0, 8);
    assert d[..8] == data[at..at + 8] && d[8..] == data[at + 8..];
    hide FromLE64, FromU64;
  }

  method DecodeRawFixed(t: ColumnType, data: Bytes, expectedRows: nat) returns (r: Option<seq<Value>>)
    requires t.Int64? || t.Float64?
    ensures r == Exactly(DecodeRaw(t, data), expectedRows)
  {
    DecodeRawFixedLength(t, data);
    if |data| != 8 * expectedRows {
      return None;
    }
    var out: seq<Value> := [];
    ghost var whole := DecodeRaw(t, data).value;
    assert data[8 * 0..] == data;
    ConcatNil(whole);
    assert DecodeRaw(t, data[|data|..]) == Some([]);
    hide DecodeRaw, FromLE64, FromU64;
    for i := 0 to expectedRows
      invariant DecodeRaw(t, data[8 * i..]).Some?
      invariant whole == out + DecodeRaw(t, data[8 * i..]).value
    {
      var word := data[8 * i..8 * i + 8];
      var v := if t.Int64? then Int(FromU64(FromLE64(word))) else Float(FromLE64(word));
      DecodeRawWord(t, data, 8 * i, v);
      assert 8 * i + 8 == 8 * (i + 1);
      ConcatAssoc(out, [v], DecodeRaw(t, data[8 * (i + 1)..]).value);
      out := out + [v];
    }
    ConcatNil(out);
    return Some(out);
  }

  method DecodeRawString(data: Bytes, expectedRows: nat) returns (r: Option<seq<Value>>)
    ensures r == Exactly(DecodeRaw(String, data), expectedRows)
  {
    hide GetUvarint;
    var out: seq<Value> := [];
    var offset := 0;
    ghost var whole := DecodeRaw(String, data);
    assert data[0..] == data;
    assert whole.Some? ==> [] + whole.value == whole.value;
    while offset < |data|
      invariant offset <= |data| && |out| <= expectedRows
      invariant match DecodeRaw(String, data[offset..])
                case None => whole == None
                case Some(vs) => whole == Some(out + vs)
    {
      if |out| >= expectedRows {
        return None;
      }
      ghost var before := offset;
      var len := GetUvarint(data[offset..]);
      if len == None {
        return None;
      }
      offset := offset + len.value.1;
      if len.value.0 > |data| - offset {
        return None;
      }
      var s := data[offset..offset + len.value.0];
      SliceOfDrop(data, before, len.value.1, len.value.1 + len.value.0);
      out := out + [Str(s)];
      offset := offset + len.value.0;
      assert DecodeValue(String, data[before..]) == Some((Str(s), offset - before));
      if DecodeRaw(String, data[offset..]).Some? {
        ConcatAssoc(out[..|out| - 1], [Str(s)], DecodeRaw(String, data[offset..]).value);
      }
    }
    assert data[offset..] == [];
    ConcatNil(out);
    if |out| != expectedRows {
      return None;
    }
    return Some(out);
  }
}
