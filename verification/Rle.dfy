/** Run-length encoding of a column (storage/rle.go). The source repeats the encoder and the
    decoder for int64, float64 and string; here the column type is a parameter. Floats are
    compared as bits, as the source does. */
module Rle {
  import opened Wrappers
  import opened Words
  import opened Uvarint
  import opened Types
  import opened Encoding

  // ---- Encoding ----

  /** The length of the run vs starts with. */
  function RunLength(vs: seq<Value>): (n: nat)
    requires vs != []
    ensures 1 <= n <= |vs|
  {
    if |vs| > 1 && vs[1] == vs[0] then 1 + RunLength(vs[1..]) else 1
  }

  function Encode(vs: seq<Value>): Bytes
    decreases |vs|
  {
    if vs == [] then []
    else
      var n := RunLength(vs);
      PutUvarint(n) + EncodeValue(vs[0]) + Encode(vs[n..])
  }

  /** One unfolding of Encode. */
  lemma EncodeStep(vs: seq<Value>, n: nat)
    requires vs != [] && RunLength(vs) == n
    ensures Encode(vs) == PutUvarint(n) + EncodeValue(vs[0]) + Encode(vs[n..])
  {
  }

  /** A run is maximal: all its values are equal and the next one differs. */
  lemma {:induction false} RunIsMaximal(vs: seq<Value>)
    requires vs != []
    ensures var n := RunLength(vs);
            && vs == Repeat(vs[0], n) + vs[n..]
            && (n < |vs| ==> vs[n] != vs[0])
  {
    if |vs| > 1 && vs[1] == vs[0] {
      RunIsMaximal(vs[1..]);
      var n := RunLength(vs);
      assert vs[1..][n - 1..] == vs[n..];
      assert vs == [vs[0]] + vs[1..];
    }
  }

  lemma {:induction false} RunLengthIs(vs: seq<Value>, n: nat)
    requires 1 <= n <= |vs|
    requires forall k :: 0 <= k < n ==> vs[k] == vs[0]
    requires n < |vs| ==> vs[n] != vs[0]
    ensures RunLength(vs) == n
  {
    if n > 1 {
      RunLengthIs(vs[1..], n - 1);
    }
  }

  // ---- Decoding ----

  datatype Run = Run(count: nat, value: Value)

  /** Reads one run from the front of d and tells how many bytes it took. */
  function ParseRun(t: ColumnType, d: Bytes): (r: Option<(Run, nat)>)
    ensures r.Some? ==> 2 <= r.value.1 <= |d| && HasType(r.value.0.value, t) && r.value.0.count < TWO_64
  {
    match GetUvarint(d)
    case None => None
    case Some((count, n)) =>
      match DecodeValue(t, d[n..])
      case None => None
      case Some((v, k)) => Some((Run(count, v), n + k))
  }

  /** All the values a payload stands for, if it splits completely into runs. */
  function Decode(t: ColumnType, d: Bytes): (r: Option<seq<Value>>)
    ensures r.Some? ==> AllOfType(r.value, t)
    decreases |d|
  {
    if d == [] then Some([])
    else
      match ParseRun(t, d)
      case None => None
      case Some((run, n)) =>
        match Decode(t, d[n..])
        case None => None
        case Some(vs) => Some(Repeat(run.value, run.count) + vs)
  }

  /** One unfolding of Decode. */
  lemma DecodeStep(t: ColumnType, d: Bytes)
    requires ParseRun(t, d).Some?
    ensures var (run, n) := ParseRun(t, d).value;
            Decode(t, d) == match Decode(t, d[n..])
                            case None => None
                            case Some(vs) => Some(Repeat(run.value, run.count) + vs)
  {
  }

  // ---- Round trip and concatenation ----

  lemma ParseRunOfEncoding(count: nat, v: Value, t: ColumnType, rest: Bytes)
    requires count < TWO_64 && HasType(v, t) && FitsValue(v)
    ensures var d := PutUvarint(count) + EncodeValue(v) + rest;
            var n := |PutUvarint(count)| + |EncodeValue(v)|;
            ParseRun(t, d) == Some((Run(count, v), n)) && d[n..] == rest
  {
    hide PutUvarint, GetUvarint, EncodeValue, DecodeValue;
    ConcatAssoc(PutUvarint(count), EncodeValue(v), rest);
    UvarintRoundTrip(count, EncodeValue(v) + rest);
    DropPrefix(PutUvarint(count), EncodeValue(v) + rest);
    DecodeEncodeValue(v, t, rest);
    DropPrefix(PutUvarint(count) + EncodeValue(v), rest);
  }

  lemma {:induction false} RoundTrip(vs: seq<Value>, t: ColumnType)
    requires AllOfType(vs, t) && Fits(vs) && |vs| < TWO_64
    ensures Decode(t, Encode(vs)) == Some(vs)
    decreases |vs|
  {
    if vs != [] {
      var n := RunLength(vs);
      RoundTrip(vs[n..], t);
      RunIsMaximal(vs);
      EncodeStep(vs, n);
      ParseRunOfEncoding(n, vs[0], t, Encode(vs[n..]));
      hide Encode, Repeat, ParseRun, EncodeValue;
      DecodeStep(t, Encode(vs));
    }
  }

  lemma ParseRunExtends(t: ColumnType, d: Bytes, more: Bytes)
    requires ParseRun(t, d).Some?
    ensures ParseRun(t, d + more) == ParseRun(t, d)
  {
    var (count, n) := GetUvarint(d).value;
    GetUvarintExtends(d, more);
    DecodeValueExtends(t, d[n..], more);
    assert (d + more)[n..] == d[n..] + more;
  }

  /** Decoding takes concatenation to concatenation. */
  lemma {:induction false} DecodeConcat(t: ColumnType, a: Bytes, b: Bytes)
    requires Decode(t, a).Some?
    ensures Decode(t, a + b)
         == match Decode(t, b) case None => None case Some(vs) => Some(Decode(t, a).value + vs)
    decreases |a|
  {
    if a == [] {
      assert a + b == b;
      if Decode(t, b).Some? { ConcatNil(Decode(t, b).value); }
    } else {
      var (run, n) := ParseRun(t, a).value;
      ParseRunExtends(t, a, b);
      assert (a + b)[n..] == a[n..] + b;
      DecodeConcat(t, a[n..], b);
      DecodeStep(t, a + b);
      if Decode(t, b).Some? {
        ConcatAssoc(Repeat(run.value, run.count), Decode(t, a[n..]).value, Decode(t, b).value);
      }
    }
  }

  lemma ConcatenatedEncodings(a: seq<Value>, b: seq<Value>, t: ColumnType)
    requires AllOfType(a, t) && AllOfType(b, t) && Fits(a) && Fits(b)
    requires |a| < TWO_64 && |b| < TWO_64
    ensures Decode(t, Encode(a) + Encode(b)) == Some(a + b)
  {
    RoundTrip(a, t);
    RoundTrip(b, t);
    DecodeConcat(t, Encode(a), Encode(b));
  }

  /** Only the right row count decodes an encoded column. */
  lemma RowCountDecides(vs: seq<Value>, t: ColumnType, rows: nat)
    requires AllOfType(vs, t) && Fits(vs) && |vs| < TWO_64
    ensures Exactly(Decode(t, Encode(vs)), rows) == if rows == |vs| then Some(vs) else None
  {
    RoundTrip(vs, t);
  }

  // ---- What the decoder accepts, described without a decoder ----

  /** A run spelled out: any encoding of its count, the framing of a string, the value bytes. */
  datatype WireRun = WireRun(countBytes: Bytes, lenBytes: Bytes, body: Bytes, run: Run)

  ghost predicate IsWireRun(t: ColumnType, w: WireRun) {
    && IsUvarint(w.countBytes, w.run.count)
    && match t
       case Int64 => w.lenBytes == [] && |w.body| == 8 && w.run.value == Int(FromU64(FromLE64(w.body)))
       case Float64 => w.lenBytes == [] && |w.body| == 8 && w.run.value == Float(FromLE64(w.body))
       case String => IsUvarint(w.lenBytes, |w.body|) && w.run.value == Str(w.body)
       case OtherType(_) => false
  }

  ghost predicate AllWireRuns(t: ColumnType, ws: seq<WireRun>) {
    forall i :: 0 <= i < |ws| ==> IsWireRun(t, ws[i])
  }

  ghost function WireBytes(ws: seq<WireRun>): Bytes {
    if ws == [] then [] else ws[0].countBytes + ws[0].lenBytes + ws[0].body + WireBytes(ws[1..])
  }

  ghost function Expand(ws: seq<WireRun>): seq<Value> {
    if ws == [] then [] else Repeat(ws[0].run.value, ws[0].run.count) + Expand(ws[1..])
  }

  ghost function TotalCount(ws: seq<WireRun>): nat {
    if ws == [] then 0 else ws[0].run.count + TotalCount(ws[1..])
  }

  ghost predicate SplitsInto(t: ColumnType, d: Bytes, ws: seq<WireRun>) {
    AllWireRuns(t, ws) && WireBytes(ws) == d
  }

  /** What follows the count of a wire run is read as its value. */
  lemma ParseWireValue(t: ColumnType, w: WireRun, rest: Bytes)
    requires IsWireRun(t, w)
    ensures var e := w.lenBytes + w.body + rest;
      DecodeValue(t, e) == Some((w.run.value, |w.lenBytes| + |w.body|))
  {
    var e := w.lenBytes + w.body + rest;
    var l := |w.lenBytes|;
    assert e[l..l + |w.body|] == w.body;
    if t.String? {
      assert e[..l] == w.lenBytes;
      GetUvarintExact(e, |w.body|, l);
    }
    hide GetUvarint, IsUvarint, FromLE64, FromU64;
  }

  lemma ParseWireRun(t: ColumnType, w: WireRun, rest: Bytes)
    requires IsWireRun(t, w)
    ensures var d := w.countBytes + w.lenBytes + w.body + rest;
            var n := |w.countBytes| + |w.lenBytes| + |w.body|;
            ParseRun(t, d) == Some((w.run, n)) && d[n..] == rest
  {
    var d := w.countBytes + w.lenBytes + w.body + rest;
    var e := w.lenBytes + w.body + rest;
    var c := |w.countBytes|;
    hide DecodeValue, GetUvarint, IsUvarint;
    ParseWireValue(t, w, rest);
    assert IsUvarint(w.countBytes, w.run.count);
    hide IsWireRun;
    ConcatAssoc(w.countBytes, w.lenBytes, w.body);
    ConcatAssoc(w.countBytes, w.lenBytes + w.body, rest);
    DropPrefix(w.countBytes, e);
    DropPrefix(w.countBytes + w.lenBytes + w.body, rest);
    GetUvarintExact(d, w.run.count, c);
  }

  /** The value part of a run, spelled out. */
  lemma SpellValue(t: ColumnType, e: Bytes) returns (lenBytes: Bytes, body: Bytes)
    requires DecodeValue(t, e).Some?
    ensures lenBytes + body == e[..DecodeValue(t, e).value.1]
    ensures forall c, count :: IsUvarint(c, count) ==>
      IsWireRun(t, WireRun(c, lenBytes, body, Run(count, DecodeValue(t, e).value.0)))
  {
    if t.String? {
      var (len, k) := GetUvarint(e).value;
      GetUvarintExact(e, len, k);
      lenBytes, body := e[..k], e[k..k + len];
      PrefixSplit(e, k, k + len);
    } else {
      lenBytes, body := [], e[..8];
    }
    hide GetUvarint, IsUvarint, FromLE64, FromU64;
  }

  /** Every run the decoder reads is a wire run. */
  lemma SpellRun(t: ColumnType, d: Bytes) returns (w: WireRun)
    requires ParseRun(t, d).Some?
    ensures IsWireRun(t, w) && w.run == ParseRun(t, d).value.0
    ensures w.countBytes + w.lenBytes + w.body == d[..ParseRun(t, d).value.1]
  {
    var (run, size) := ParseRun(t, d).value;
    var (count, n) := GetUvarint(d).value;
    GetUvarintExact(d, count, n);
    var lenBytes, body := SpellValue(t, d[n..]);
    w := WireRun(d[..n], lenBytes, body, run);
    hide GetUvarint, DecodeValue, IsUvarint, IsWireRun;
    SliceOfDrop(d, n, 0, size - n);
    assert d[n..][..size - n] == d[n..size];
    PrefixSplit(d, n, size);
    ConcatAssoc(d[..n], lenBytes, body);
  }

  lemma {:induction false} SpellPayload(t: ColumnType, d: Bytes) returns (ws: seq<WireRun>)
    requires Decode(t, d).Some?
    ensures SplitsInto(t, d, ws) && Expand(ws) == Decode(t, d).value
    decreases |d|
  {
    hide ParseRun, IsWireRun, Repeat;
    if d == [] {
      ws := [];
    } else {
      var (run, n) := ParseRun(t, d).value;
      var w := SpellRun(t, d);
      var rest := SpellPayload(t, d[n..]);
      ws := [w] + rest;
      assert ws[1..] == rest;
      assert d == d[..n] + d[n..];
    }
  }

  lemma {:induction false} DecodeWireRuns(t: ColumnType, ws: seq<WireRun>)
    requires AllWireRuns(t, ws)
    ensures Decode(t, WireBytes(ws)) == Some(Expand(ws))
  {
    if ws != [] {
      DecodeWireRuns(t, ws[1..]);
      ParseWireRun(t, ws[0], WireBytes(ws[1..]));
      assert |ws[0].countBytes| > 0;
    }
  }

  lemma {:induction false} ExpandLength(ws: seq<WireRun>)
    ensures |Expand(ws)| == TotalCount(ws)
  {
    if ws != [] {
      ExpandLength(ws[1..]);
    }
  }

  /** A payload is accepted for a row count iff it splits completely into runs whose counts
      add up to it; the values are then the runs spelled out. */
  lemma AcceptedPayloads(t: ColumnType, d: Bytes, rows: nat)
    ensures Exactly(Decode(t, d), rows).Some? <==> exists ws :: SplitsInto(t, d, ws) && TotalCount(ws) == rows
    ensures forall ws :: SplitsInto(t, d, ws) && TotalCount(ws) == rows
              ==> Exactly(Decode(t, d), rows) == Some(Expand(ws))
  {
    if Exactly(Decode(t, d), rows).Some? {
      var ws := SpellPayload(t, d);
      ExpandLength(ws);
    }
    forall ws | SplitsInto(t, d, ws) && TotalCount(ws) == rows
      ensures Exactly(Decode(t, d), rows) == Some(Expand(ws))
    {
      DecodeWireRuns(t, ws);
      ExpandLength(ws);
    }
  }

  // ---- Size ----

  /** The price of putting a run in front of a column already encoded. */
  lemma RunPrice(v: Value, n: nat, vs: seq<Value>)
    ensures |Encode(Repeat(v, n) + vs)| <= UvarintLen(n) + |EncodeValue(v)| + |Encode(vs)|
  {
    hide PutUvarint, EncodeValue, Encode, RunLength;
    var all := Repeat(v, n) + vs;
    if n == 0 {
      assert all == vs;
    } else if vs != [] && vs[0] == v {
      var r := RunLength(vs);
      RunIsMaximal(vs);
      assert forall k :: 0 <= k < n + r ==> all[k] == v;
      RunLengthIs(all, n + r);
      assert all[n + r..] == vs[r..];
      hide Repeat;
      EncodeStep(all, n + r);
      EncodeStep(vs, r);
      UvarintLenSubadditive(n, r);
    } else {
      RunLengthIs(all, n);
      assert all[n..] == vs;
      EncodeStep(all, n);
    }
  }

  /** Optimality: no payload the decoder accepts, however its runs are split, padded or empty,
      is shorter than what the encoder writes for the same values. */
  lemma {:induction false} EncodeIsShortest(t: ColumnType, d: Bytes)
    requires Decode(t, d).Some?
    ensures |Encode(Decode(t, d).value)| <= |d|
    decreases |d|
  {
    if d != [] {
      var (run, n) := ParseRun(t, d).value;
      var (count, k) := GetUvarint(d).value;
      EncodeIsShortest(t, d[n..]);
      GetUvarintShortest(d);
      EncodeValueShortest(t, d[k..]);
      RunPrice(run.value, run.count, Decode(t, d[n..]).value);
    }
  }

  ghost predicate NoAdjacentEqual(vs: seq<Value>) {
    forall i :: 0 < i < |vs| ==> vs[i - 1] != vs[i]
  }

  lemma {:induction false} RawRunLength(v: Value, n: nat, vs: seq<Value>)
    requires n >= 1
    ensures |EncodeRaw(Repeat(v, n) + vs)| >= |EncodeValue(v)| + |EncodeRaw(vs)|
    ensures n == 1 ==> |EncodeRaw(Repeat(v, n) + vs)| == |EncodeValue(v)| + |EncodeRaw(vs)|
  {
    var all, fewer := Repeat(v, n) + vs, Repeat(v, n - 1) + vs;
    assert all[0] == v && all[1..] == fewer;
    assert |EncodeRaw(all)| == |EncodeValue(v)| + |EncodeRaw(fewer)|;
    if n == 1 {
      assert fewer == vs;
    } else {
      RawRunLength(v, n - 1, vs);
    }
  }

  /** The exact cost of run-length encoding: at most one byte a row over the raw encoding, and
      exactly that iff no two neighbours are equal. */
  lemma {:induction false} SizeBound(vs: seq<Value>)
    ensures |Encode(vs)| <= |EncodeRaw(vs)| + |vs|
    ensures |Encode(vs)| == |EncodeRaw(vs)| + |vs| <==> NoAdjacentEqual(vs)
    decreases |vs|
  {
    if vs != [] {
      var n := RunLength(vs);
      var rest, e := vs[n..], |EncodeValue(vs[0])|;
      SizeBound(rest);
      RunIsMaximal(vs);
      RawRunLength(vs[0], n, rest);
      assert |Encode(vs)| == UvarintLen(n) + e + |Encode(rest)|;
      if n > 1 {
        UvarintLenSmall(n);
        assert vs[0] == vs[1];
      } else {
        NoAdjacentEqualTail(vs);
      }
    }
  }

  lemma NoAdjacentEqualTail(vs: seq<Value>)
    requires vs != [] && RunLength(vs) == 1
    ensures NoAdjacentEqual(vs) <==> NoAdjacentEqual(vs[1..])
  {
  }

  // ---- The routines ----

  method EncodeRLE(values: seq<Value>) returns (out: Bytes)
    ensures out == Encode(values)
  {
    hide PutUvarint, EncodeValue;
    out := [];
    if |values| == 0 {
      return;
    }
    var i := 0;
    assert values[0..] == values;
    while i < |values|
      invariant i <= |values|
      invariant out + Encode(values[i..]) == Encode(values)
    {
      var j := i + 1;
      while j < |values| && values[j] == values[i]
        invariant i < j <= |values|
        invariant forall k :: i <= k < j ==> values[k] == values[i]
      {
        j := j + 1;
      }
      RunLengthIs(values[i..], j - i);
      assert values[i..][j - i..] == values[j..];
      ghost var count, value, rest := PutUvarint(j - i), EncodeValue(values[i]), Encode(values[j..]);
      ConcatAssoc(out, count + value, rest);
      ConcatAssoc(out, count, value);
      EncodeStep(values[i..], j - i);
      out := out + PutUvarint(j - i);
      out := out + EncodeValue(values[i]);
      i := j;
    }
    assert values[i..] == [];
    ConcatNil(out);
  }

  method AppendCopies(out: seq<Value>, v: Value, count: nat) returns (r: seq<Value>)
    ensures r == out + Repeat(v, count)
  {
    r := out;
    for n := 0 to count
      invariant r == out + Repeat(v, n)
    {
      r := r + [v];
    }
  }

  method DecodeRLE(t: ColumnType, data: Bytes, expectedRows: nat) returns (r: Option<seq<Value>>)
    ensures r == Exactly(Decode(t, data), expectedRows)
  {
    hide GetUvarint, DecodeValue, Repeat;
    var out: seq<Value> := [];
    var offset := 0;
    ghost var whole := Decode(t, data);
    assert data[0..] == data;
    assert whole.Some? ==> [] + whole.value == whole.value;
    while offset < |data|
      invariant offset <= |data| && |out| <= expectedRows
      invariant match Decode(t, data[offset..])
                case None => whole == None
                case Some(vs) => whole == Some(out + vs)
    {
      ghost var rest, soFar := data[offset..], out;
      ghost var parsed := ParseRun(t, rest);
      var count := GetUvarint(data[offset..]);
      if count == None {
        return None;
      }
      offset := offset + count.value.1;
      assert rest[count.value.1..] == data[offset..];
      var v := DecodeValue(t, data[offset..]);
      if v == None {
        return None;
      }
      offset := offset + v.value.1;
      assert parsed.Some? && parsed.value.0 == Run(count.value.0, v.value.0);
      assert rest[parsed.value.1..] == data[offset..];
      DecodeStep(t, rest);
      var remaining := expectedRows - |out|;
      if count.value.0 > remaining {
        return None;
      }
      out := AppendCopies(out, v.value.0, count.value.0);
      if Decode(t, data[offset..]).Some? {
        ConcatAssoc(soFar, Repeat(v.value.0, count.value.0), Decode(t, data[offset..]).value);
      }
    }
    assert data[offset..] == [];
    ConcatNil(out);
    if |out| != expectedRows {
      return None;
    }
    return Some(out);
  }
}
