/** The segment file format as a value-level codec (storage/segment.go): what a segment says,
    the bytes the writer gives it, and what the parser makes of any bytes. */
module SegmentFormat {
  import opened Wrappers
  import opened Words
  import opened Uvarint
  import opened Types
  import opened Encoding
  import Rle
  import opened Bloom

  datatype SegmentError =
    | TooManyColumns | UnknownColumnType
    | Truncated | BadMagic | UnsupportedVersion | BadFlagsLen | UnknownWireType | UnknownEncoding
    | BadBloomMagic | UnsupportedBloomVersion | CorruptFilter
    | NoSuchColumn | DecodeFailed

  const MAGIC: Bytes := [0x55, 0x43, 0x4F, 0x4C]        // "UCOL"
  const BLOOM_MAGIC: Bytes := [0x55, 0x42, 0x4C, 0x4D]  // "UBLM"
  const HEADER_LEN: nat := 16
  const RAW: byte := 0
  const RLE: byte := 1
  const MAX_COLUMNS: nat := 0xFFFF

  /** One column block: its name, type and encoding tags, and the undecoded payload. */
  datatype Entry = Entry(name: Bytes, ty: ColumnType, encoding: byte, payload: Bytes)

  /** Everything before the Bloom trailer. */
  datatype Body = Body(version: nat, rowCount: u64, flags: byte, pkName: Bytes, entries: seq<Entry>)

  datatype Image = Image(body: Body, bloom: Option<FilterState>)

  function HasPKFlag(flags: byte): bool { flags % 2 == 1 }

  function HasBloomFlag(flags: byte): bool { flags / 2 % 2 == 1 }

  function WireTag(t: ColumnType): (w: byte)
    requires KnownType(t)
  {
    match t
    case Int64 => 0
    case Float64 => 1
    case String => 2
  }

  function FromWireTag(w: byte): Option<ColumnType> {
    if w == 0 then Some(Int64) else if w == 1 then Some(Float64) else if w == 2 then Some(String) else None
  }

  // ---- Writing ----

  /** A byte string framed by its length: names, flags and payloads. */
  function Blob(b: Bytes): Bytes {
    PutUvarint(|b|) + b
  }

  function HeaderBytes(version: nat, columnCount: nat, rowCount: nat): (b: Bytes)
    ensures |b| == HEADER_LEN
  {
    MAGIC + LE(version, 2) + LE(columnCount, 2) + LE(rowCount, 8)
  }

  function FlagsBytes(flags: byte, pkName: Bytes): Bytes {
    Blob([flags]) + if HasPKFlag(flags) then Blob(pkName) else []
  }

  function EntryBytes(e: Entry): Bytes
    requires KnownType(e.ty)
  {
    Blob(e.name) + [WireTag(e.ty), e.encoding] + Blob(e.payload)
  }

  predicate Encodable(es: seq<Entry>) {
    forall i :: 0 <= i < |es| ==> KnownType(es[i].ty) && (es[i].encoding == RAW || es[i].encoding == RLE)
  }

  function EntriesBytes(es: seq<Entry>): Bytes
    requires Encodable(es)
  {
    if es == [] then [] else EntryBytes(es[0]) + EntriesBytes(es[1..])
  }

  function TrailerBytes(bloom: Option<FilterState>): Bytes {
    match bloom
    case None => []
    case Some(f) => BLOOM_MAGIC + LE(1, 2) + Marshal(f)
  }

  function BodyBytes(b: Body): Bytes
    requires Encodable(b.entries)
  {
    HeaderBytes(b.version, |b.entries|, b.rowCount) + FlagsBytes(b.flags, b.pkName) + EntriesBytes(b.entries)
  }

  function Serialize(img: Image): Bytes
    requires Encodable(img.body.entries)
  {
    BodyBytes(img.body) + TrailerBytes(img.bloom)
  }

  /** An image the writer can produce: version 2, flags that tell the truth, a usable filter. */
  predicate Wellformed(img: Image) {
    && img.body.version == 2
    && img.body.flags == (if img.body.pkName != [] then 1 else 0) + (if img.bloom.Some? then 2 else 0)
    && |img.body.entries| <= MAX_COLUMNS
    && Encodable(img.body.entries)
    && (img.bloom.Some? ==> ValidFilter(img.bloom.value))
  }

  // ---- Parsing: each reader returns what it read and the bytes left over ----

  datatype Read<+T> = Read(value: T, rest: Bytes)

  type Parsed<+T> = Result<Read<T>, SegmentError>

  function ReadBlob(d: Bytes): Parsed<Bytes> {
    match GetUvarint(d)
    case None => Err(Truncated)
    case Some((len, n)) =>
      if len > |d| - n then Err(Truncated) else Ok(Read(d[n..][..len], d[n..][len..]))
  }

  /** The fixed header: version, column count and row count. */
  function ReadHeader(d: Bytes): Parsed<(nat, nat, u64)> {
    if |d| < HEADER_LEN then Err(Truncated)
    else if d[0..4] != MAGIC then Err(BadMagic)
    else
      var version := FromLE(d[4..6]);
      if version != 1 && version != 2 then Err(UnsupportedVersion)
      else Ok(Read((version, FromLE(d[6..8]), FromLE64(d[8..16])), d[HEADER_LEN..]))
  }

  /** The flags block of a version 2 file: the flags byte and the PK name, if there is one. */
  function ReadFlags(d: Bytes): Parsed<(byte, Bytes)> {
    match ReadBlob(d)
    case Err(e) => Err(e)
    case Ok(Read(payload, rest)) =>
      if payload == [] then Err(BadFlagsLen)
      else if !HasPKFlag(payload[0]) then Ok(Read((payload[0], []), rest))
      else
        match ReadBlob(rest)
        case Err(e) => Err(e)
        case Ok(Read(name, rest')) => Ok(Read((payload[0], name), rest'))
  }

  function ReadEntry(d: Bytes): Parsed<Entry> {
    match ReadBlob(d)
    case Err(e) => Err(e)
    case Ok(Read(name, rest)) =>
      if |rest| < 2 then Err(Truncated)
      else
        match FromWireTag(rest[0])
        case None => Err(UnknownWireType)
        case Some(ty) =>
          if rest[1] != RAW && rest[1] != RLE then Err(UnknownEncoding)
          else
            match ReadBlob(rest[2..])
            case Err(e) => Err(e)
            case Ok(Read(payload, rest')) => Ok(Read(Entry(name, ty, rest[1], payload), rest'))
  }

  function ReadEntries(n: nat, d: Bytes): (r: Parsed<seq<Entry>>)
    ensures r.Ok? ==> |r.value.value| == n
  {
    if n == 0 then Ok(Read([], d))
    else
      match ReadEntry(d)
      case Err(e) => Err(e)
      case Ok(Read(entry, rest)) =>
        match ReadEntries(n - 1, rest)
        case Err(e) => Err(e)
        case Ok(Read(es, rest')) => Ok(Read([entry] + es, rest'))
  }

  /** The flags block, which a version 1 file does not have. */
  function ReadVersionFlags(version: nat, d: Bytes): Parsed<(byte, Bytes)> {
    if version == 2 then ReadFlags(d) else Ok(Read((0, []), d))
  }

  function ReadBody(d: Bytes): Parsed<Body> {
    match ReadHeader(d)
    case Err(e) => Err(e)
    case Ok(Read((version, n, rowCount), rest)) =>
      match ReadVersionFlags(version, rest)
      case Err(e) => Err(e)
      case Ok(Read((flags, pk), rest')) =>
        match ReadEntries(n, rest')
        case Err(e) => Err(e)
        case Ok(Read(es, rest'')) => Ok(Read(Body(version, rowCount, flags, pk, es), rest''))
  }

  function ParseTrailer(d: Bytes): Result<FilterState, SegmentError> {
    if |d| < 6 then Err(Truncated)
    else if d[0..4] != BLOOM_MAGIC then Err(BadBloomMagic)
    else if FromLE(d[4..6]) != 1 then Err(UnsupportedBloomVersion)
    else
      match Unmarshal(d[6..])
      case None => Err(CorruptFilter)
      case Some(f) => Ok(f)
  }

  /** Bytes after the last block are the trailer if the flags announce one, and ignored
      otherwise. */
  function ParseImage(d: Bytes): Result<Image, SegmentError> {
    match ReadBody(d)
    case Err(e) => Err(e)
    case Ok(Read(body, rest)) =>
      if body.version == 2 && HasBloomFlag(body.flags) then
        match ParseTrailer(rest)
        case Err(e) => Err(e)
        case Ok(f) => Ok(Image(body, Some(f)))
      else Ok(Image(body, None))
  }

  // ---- Round trip ----

  lemma ReadOfBlob(b: Bytes, rest: Bytes)
    requires |b| < TWO_64
    ensures ReadBlob(Blob(b) + rest) == Ok(Read(b, rest))
  {
    ConcatAssoc(PutUvarint(|b|), b, rest);
    UvarintRoundTrip(|b|, b + rest);
    DropPrefix(PutUvarint(|b|), b + rest);
    DropPrefix(b, rest);
  }

  lemma ReadOfHeader(version: nat, n: nat, rowCount: u64, rest: Bytes)
    requires (version == 1 || version == 2) && n <= MAX_COLUMNS
    ensures ReadHeader(HeaderBytes(version, n, rowCount) + rest) == Ok(Read((version, n, rowCount), rest))
  {
    var h := HeaderBytes(version, n, rowCount);
    DropPrefix(h, rest);
    WordWidths();
    LERoundTrip(version, 2);
    LERoundTrip(n, 2);
    LE64RoundTrip(rowCount);
    var d := h + rest;
    assert d[0..4] == MAGIC && d[4..6] == LE(version, 2) && d[6..8] == LE(n, 2) && d[8..16] == LE64(rowCount);
  }

  lemma ReadOfFlags(flags: byte, pkName: Bytes, rest: Bytes)
    requires |pkName| < TWO_64 && (!HasPKFlag(flags) ==> pkName == [])
    ensures ReadFlags(FlagsBytes(flags, pkName) + rest) == Ok(Read((flags, pkName), rest))
  {
    var tail := if HasPKFlag(flags) then Blob(pkName) else [];
    ConcatAssoc(Blob([flags]), tail, rest);
    ReadOfBlob([flags], tail + rest);
    if HasPKFlag(flags) {
      ReadOfBlob(pkName, rest);
    } else {
      ConcatNil(rest);
    }
  }

  predicate SmallEntry(e: Entry) {
    |e.name| < TWO_63 && |e.payload| < TWO_63
  }

  predicate Small(es: seq<Entry>) {
    forall i :: 0 <= i < |es| ==> SmallEntry(es[i])
  }

  lemma ReadOfEntry(e: Entry, rest: Bytes)
    requires KnownType(e.ty) && (e.encoding == RAW || e.encoding == RLE) && SmallEntry(e)
    ensures ReadEntry(EntryBytes(e) + rest) == Ok(Read(e, rest))
  {
    hide Blob, ReadBlob;
    var tags := [WireTag(e.ty), e.encoding];
    var tail := Blob(e.payload) + rest;
    ConcatAssoc(Blob(e.name) + tags, Blob(e.payload), rest);
    ConcatAssoc(Blob(e.name), tags, tail);
    ReadOfBlob(e.name, tags + tail);
    DropPrefix(tags, tail);
    ReadOfBlob(e.payload, rest);
  }

  lemma {:induction false} ReadOfEntries(es: seq<Entry>, rest: Bytes)
    requires Encodable(es) && Small(es)
    ensures ReadEntries(|es|, EntriesBytes(es) + rest) == Ok(Read(es, rest))
  {
    hide ReadEntry, EntryBytes, SmallEntry;
    if es == [] {
      ConcatNil(rest);
    } else {
      ConcatAssoc(EntryBytes(es[0]), EntriesBytes(es[1..]), rest);
      ReadOfEntry(es[0], EntriesBytes(es[1..]) + rest);
      ReadOfEntries(es[1..], rest);
      assert es == [es[0]] + es[1..];
    }
  }

  lemma ReadOfBody(b: Body, rest: Bytes)
    requires b.version == 2 && |b.entries| <= MAX_COLUMNS && Encodable(b.entries) && Small(b.entries)
    requires |b.pkName| < TWO_64 && (!HasPKFlag(b.flags) ==> b.pkName == [])
    ensures ReadBody(BodyBytes(b) + rest) == Ok(Read(b, rest))
  {
    var h, f, e := HeaderBytes(2, |b.entries|, b.rowCount), FlagsBytes(b.flags, b.pkName), EntriesBytes(b.entries);
    ConcatAssoc(h + f, e, rest);
    ConcatAssoc(h, f, e + rest);
    ReadOfHeader(2, |b.entries|, b.rowCount, f + (e + rest));
    ReadOfFlags(b.flags, b.pkName, e + rest);
    ReadOfEntries(b.entries, rest);
  }

  lemma ParseOfTrailer(f: FilterState)
    requires ValidFilter(f)
    ensures ParseTrailer(TrailerBytes(Some(f))) == Ok(f)
  {
    var d := TrailerBytes(Some(f));
    LERoundTrip(1, 2);
    assert d[0..4] == BLOOM_MAGIC && d[4..6] == LE(1, 2) && d[6..] == Marshal(f);
    MarshalRoundTrip(f);
  }

  /** How the parser continues once the body is read. */
  lemma ParseAfterBody(d: Bytes, body: Body, rest: Bytes)
    requires ReadBody(d) == Ok(Read(body, rest))
    ensures ParseImage(d)
         == if body.version == 2 && HasBloomFlag(body.flags) then
              (match ParseTrailer(rest) case Err(e) => Err(e) case Ok(f) => Ok(Image(body, Some(f))))
            else Ok(Image(body, None))
  {
  }

  /** A file that fits in a byte slice holds only parts that do. */
  lemma {:induction false} EntriesAreSmall(es: seq<Entry>)
    requires Encodable(es) && |EntriesBytes(es)| < TWO_63
    ensures Small(es)
  {
    if es != [] {
      EntriesAreSmall(es[1..]);
      assert forall i :: 0 < i < |es| ==> es[i] == es[1..][i - 1];
    }
  }

  lemma PartsAreSmall(img: Image)
    requires Wellformed(img) && |Serialize(img)| < TWO_63
    ensures Small(img.body.entries) && |img.body.pkName| < TWO_63
  {
    EntriesAreSmall(img.body.entries);
  }

  /** The size of a file with one column and short names, payload and filter. */
  lemma OneColumnSize(img: Image)
    requires Encodable(img.body.entries) && |img.body.entries| == 1
    requires |img.body.entries[0].name| < 100 && |img.body.entries[0].payload| < 100 && |img.body.pkName| < 100
    requires img.bloom.Some? ==> |img.bloom.value.bits| < 100
    ensures |Serialize(img)| < 1000
  {
    var e := img.body.entries[0];
    assert EntriesBytes(img.body.entries) == EntryBytes(e) + [];
    assert |Blob(e.name)| == 1 + |e.name| && |Blob(e.payload)| == 1 + |e.payload|;
    assert |FlagsBytes(img.body.flags, img.body.pkName)| <= 200;
    hide PutUvarint;
  }

  /** The parser inverts the writer on every image: columns, counts, PK name, flags, payloads
      and the filter bit for bit. */
  lemma SegmentRoundTrip(img: Image)
    requires Wellformed(img) && |Serialize(img)| < TWO_63
    ensures ParseImage(Serialize(img)) == Ok(img)
  {
    hide ReadBody, ParseTrailer, BodyBytes, TrailerBytes, ParseImage, ValidFilter;
    PartsAreSmall(img);
    ReadOfBody(img.body, TrailerBytes(img.bloom));
    ParseAfterBody(Serialize(img), img.body, TrailerBytes(img.bloom));
    if img.bloom.Some? {
      ParseOfTrailer(img.bloom.value);
    }
  }

  // ---- Truncation ----

  lemma ReadBlobExtends(d: Bytes, e: Bytes)
    requires ReadBlob(d).Ok?
    ensures ReadBlob(d + e) == Ok(Read(ReadBlob(d).value.value, ReadBlob(d).value.rest + e))
  {
    GetUvarintExtends(d, e);
    var (len, n) := GetUvarint(d).value;
    assert (d + e)[n..] == d[n..] + e;
    assert (d[n..] + e)[..len] == d[n..][..len];
    assert (d[n..] + e)[len..] == d[n..][len..] + e;
  }

  lemma ReadHeaderExtends(d: Bytes, e: Bytes)
    requires ReadHeader(d).Ok?
    ensures ReadHeader(d + e) == Ok(Read(ReadHeader(d).value.value, ReadHeader(d).value.rest + e))
  {
    var x := d + e;
    assert x[0..4] == d[0..4] && x[4..6] == d[4..6] && x[6..8] == d[6..8] && x[8..16] == d[8..16];
    assert x[HEADER_LEN..] == d[HEADER_LEN..] + e;
  }

  lemma ReadVersionFlagsExtends(version: nat, d: Bytes, e: Bytes)
    requires ReadVersionFlags(version, d).Ok?
    ensures ReadVersionFlags(version, d + e)
         == Ok(Read(ReadVersionFlags(version, d).value.value, ReadVersionFlags(version, d).value.rest + e))
  {
    if version == 2 {
      ReadBlobExtends(d, e);
      var Read(payload, rest) := ReadBlob(d).value;
      if HasPKFlag(payload[0]) {
        ReadBlobExtends(rest, e);
      }
    }
  }

  lemma ReadEntryExtends(d: Bytes, e: Bytes)
    requires ReadEntry(d).Ok?
    ensures ReadEntry(d + e) == Ok(Read(ReadEntry(d).value.value, ReadEntry(d).value.rest + e))
  {
    hide ReadBlob, FromWireTag;
    ReadBlobExtends(d, e);
    var rest := ReadBlob(d).value.rest;
    assert (rest + e)[2..] == rest[2..] + e;
    ReadBlobExtends(rest[2..], e);
  }

  lemma {:induction false} ReadEntriesExtends(n: nat, d: Bytes, e: Bytes)
    requires ReadEntries(n, d).Ok?
    ensures ReadEntries(n, d + e) == Ok(Read(ReadEntries(n, d).value.value, ReadEntries(n, d).value.rest + e))
  {
    hide ReadEntry;
    if n > 0 {
      ReadEntryExtends(d, e);
      ReadEntriesExtends(n - 1, ReadEntry(d).value.rest, e);
    }
  }

  /** Whatever the body reader accepts it accepts, with the same meaning, in any longer file. */
  lemma ReadBodyExtends(d: Bytes, e: Bytes)
    requires ReadBody(d).Ok?
    ensures ReadBody(d + e) == Ok(Read(ReadBody(d).value.value, ReadBody(d).value.rest + e))
  {
    ReadHeaderExtends(d, e);
    var Read((version, n, rowCount), rest) := ReadHeader(d).value;
    ReadVersionFlagsExtends(version, rest, e);
    ReadEntriesExtends(n, ReadVersionFlags(version, rest).value.rest, e);
  }

  /** Every strict prefix of a written segment is rejected, whichever optional parts it has. */
  lemma TruncationDetected(img: Image, p: Bytes, e: Bytes)
    requires Wellformed(img) && |Serialize(img)| < TWO_63
    requires Serialize(img) == p + e && e != []
    ensures ParseImage(p).Err?
  {
    hide ReadBody, ParseTrailer, BodyBytes, TrailerBytes, ParseImage, ValidFilter;
    PartsAreSmall(img);
    ReadOfBody(img.body, TrailerBytes(img.bloom));
    if ReadBody(p).Ok? {
      ReadBodyExtends(p, e);
      var r := ReadBody(p).value.rest;
      assert TrailerBytes(img.bloom) == r + e;
      ParseAfterBody(p, img.body, r);
      TrailerCut(img.bloom, r, e);
    } else {
      BodyErrorIsFinal(p);
    }
  }

  lemma BodyErrorIsFinal(d: Bytes)
    requires ReadBody(d).Err?
    ensures ParseImage(d).Err?
  {
  }

  lemma TrailerCut(bloom: Option<FilterState>, r: Bytes, e: Bytes)
    requires bloom.Some? ==> ValidFilter(bloom.value)
    requires TrailerBytes(bloom) == r + e && e != []
    ensures bloom.Some? && ParseTrailer(r).Err?
  {
    hide Unmarshal, Marshal;
    if bloom.Some? {
      ParseOfTrailer(bloom.value);
      if |r| >= 6 && Unmarshal(r[6..]).Some? {
        assert (r + e)[6..] == r[6..] + e;
        UnmarshalLengthIsFixed(r[6..], e);
      }
    }
  }

  /** The written segments form a prefix-free code. */
  lemma PrefixFree(a: Image, b: Image)
    requires Wellformed(a) && Wellformed(b) && |Serialize(a)| < TWO_63 && |Serialize(b)| < TWO_63
    requires Serialize(a) <= Serialize(b)
    ensures a == b
  {
    hide Serialize, ParseImage;
    var e := Serialize(b)[|Serialize(a)|..];
    assert Serialize(b) == Serialize(a) + e;
    SegmentRoundTrip(a);
    if e != [] {
      TruncationDetected(b, Serialize(a), e);
    } else {
      ConcatNil(Serialize(a));
      SegmentRoundTrip(b);
    }
  }

  // ---- Columns ----

  function Columns(es: seq<Entry>): (cs: seq<Column>)
    ensures |cs| == |es|
    ensures forall i :: 0 <= i < |es| ==> cs[i] == Column(es[i].name, es[i].ty)
  {
    seq(|es|, i requires 0 <= i < |es| => Column(es[i].name, es[i].ty))
  }

  function SchemaOf(b: Body): Schema {
    Schema(b.pkName, Columns(b.entries))
  }

  /** The block a name stands for: blocks is a map, so the last of several wins. */
  function LastEntry(es: seq<Entry>, name: Bytes): (r: Option<Entry>)
    ensures r.Some? <==> Names(Columns(es), name)
    ensures r.Some? ==> r.value.name == name
  {
    if es == [] then None
    else
      var last := es[|es| - 1];
      if last.name == name then
        assert Columns(es)[|es| - 1].name == name;
        Some(last)
      else
        assert Columns(es) == Columns(es[..|es| - 1]) + [Column(last.name, last.ty)];
        LastEntry(es[..|es| - 1], name)
  }

  function DecodePayload(ty: ColumnType, encoding: byte, payload: Bytes, rows: nat): (r: Option<seq<Value>>)
    ensures r.Some? ==> |r.value| == rows
  {
    Exactly(if encoding == RLE then Rle.Decode(ty, payload) else DecodeRaw(ty, payload), rows)
  }

  /** A fresh decode of a column: the type of the first column of that name, the payload of
      the last block of that name. */
  function DecodeColumn(b: Body, name: Bytes): (r: Result<seq<Value>, SegmentError>)
    ensures r.Ok? ==> |r.value| == b.rowCount
  {
    match LastEntry(b.entries, name)
    case None => Err(NoSuchColumn)
    case Some(entry) =>
      var ty := Columns(b.entries)[ColumnIndex(Columns(b.entries), name).value].ty;
      if ty.OtherType? then Err(UnknownColumnType)
      else
        match DecodePayload(ty, entry.encoding, entry.payload, b.rowCount)
        case None => Err(DecodeFailed)
        case Some(vs) => Ok(vs)
  }

  lemma {:induction false} LastEntryUnique(es: seq<Entry>, i: nat)
    requires i < |es| && !HasDuplicate(Columns(es))
    ensures LastEntry(es, es[i].name) == Some(es[i])
  {
    var n := |es| - 1;
    if i < n {
      assert Columns(es)[i].name != Columns(es)[n].name;
      assert forall j :: 0 <= j < n ==> Columns(es[..n])[j] == Columns(es)[j];
      LastEntryUnique(es[..n], i);
    }
  }

  /** Entry j is the last of its name. */
  ghost predicate LastNamed(es: seq<Entry>, name: Bytes, j: nat) {
    j < |es| && es[j].name == name && forall k :: j < k < |es| ==> es[k].name != name
  }

  lemma {:induction false} LastEntryExactly(es: seq<Entry>, name: Bytes, j: nat)
    requires LastNamed(es, name, j)
    ensures LastEntry(es, name) == Some(es[j])
  {
    var n := |es| - 1;
    if j < n {
      assert es[..n][j] == es[j];
      LastEntryExactly(es[..n], name, j);
    }
  }

  /** What a column reads as, names repeated or not: the payload of the last block of the name,
      in the encoding its tag says, as the type of the first; and only with the right number of
      values. */
  lemma ColumnDecodesExactly(b: Body, i: nat, j: nat)
    requires i < |b.entries| && LastNamed(b.entries, b.entries[i].name, j)
    requires FirstNamed(Columns(b.entries), b.entries[i].name, i) && KnownType(b.entries[i].ty)
    ensures var e := b.entries[j];
      var vs := if e.encoding == 1 then Rle.Decode(b.entries[i].ty, e.payload) else DecodeRaw(b.entries[i].ty, e.payload);
      DecodeColumn(b, b.entries[i].name)
      == if vs.Some? && |vs.value| == b.rowCount then Ok(vs.value) else Err(DecodeFailed)
  {
    LastEntryExactly(b.entries, b.entries[i].name, j);
    ColumnIndexExactly(Columns(b.entries), b.entries[i].name, i);
    hide LastEntry, ColumnIndex, Rle.Decode, DecodeRaw;
  }

  /** A raw block of a column reads back too. */
  lemma RawColumnReadsBack(b: Body, i: nat, vs: seq<Value>)
    requires i < |b.entries| && !HasDuplicate(Columns(b.entries))
    requires AllOfType(vs, b.entries[i].ty) && KnownType(b.entries[i].ty) && Fits(vs) && |vs| == b.rowCount
    requires b.entries[i].encoding == RAW && b.entries[i].payload == EncodeRaw(vs)
    ensures DecodeColumn(b, b.entries[i].name) == Ok(vs)
  {
    LastEntryUnique(b.entries, i);
    ColumnIndexUnique(Columns(b.entries), i);
    DecodeEncodeRaw(vs, b.entries[i].ty);
    hide LastEntry, ColumnIndex, DecodeRaw, EncodeRaw, HasDuplicate;
  }

  // ---- What WriteSegment writes for a buffer of rows ----

  function EntriesOf(columns: seq<Column>, rows: seq<Row>): (es: seq<Entry>)
    requires forall r :: 0 <= r < |rows| ==> |rows[r]| == |columns|
    ensures |es| == |columns|
    ensures forall i :: 0 <= i < |columns| ==>
      es[i] == Entry(columns[i].name, columns[i].ty, RLE, Rle.Encode(ColumnOf(rows, i)))
  {
    seq(|columns|, i requires 0 <= i < |columns| =>
      Entry(columns[i].name, columns[i].ty, RLE, Rle.Encode(ColumnOf(rows, i))))
  }

  function FlagsFor(pkName: Bytes, bloom: Option<FilterState>): byte {
    (if pkName != [] then 1 else 0) + (if bloom.Some? then 2 else 0)
  }

  function ImageOf(columns: seq<Column>, rows: seq<Row>, pkName: Bytes, bloom: Option<FilterState>): (img: Image)
    requires forall r :: 0 <= r < |rows| ==> |rows[r]| == |columns|
    ensures AllKnown(columns) ==> Encodable(img.body.entries)
    ensures Columns(img.body.entries) == columns
  {
    Image(Body(2, |rows| % TWO_64, FlagsFor(pkName, bloom), pkName, EntriesOf(columns, rows)), bloom)
  }

  /** WriteSegment fails on more than 65535 columns or on a column of no supported type, and
      otherwise writes the image of the buffered rows. */
  function SegmentBytes(columns: seq<Column>, rows: seq<Row>, pkName: Bytes, bloom: Option<FilterState>)
    : Result<Bytes, SegmentError>
    requires forall r :: 0 <= r < |rows| ==> |rows[r]| == |columns|
  {
    if |columns| > MAX_COLUMNS then Err(TooManyColumns)
    else if !AllKnown(columns) then Err(UnknownColumnType)
    else Ok(Serialize(ImageOf(columns, rows, pkName, bloom)))
  }

  /** Every value of a column is spelled out in its payload. */
  lemma {:induction false} ValueInPayload(vs: seq<Value>, i: nat)
    requires i < |vs|
    ensures |EncodeValue(vs[i])| <= |Rle.Encode(vs)|
    decreases |vs|
  {
    var n := Rle.RunLength(vs);
    Rle.RunIsMaximal(vs);
    if i >= n {
      ValueInPayload(vs[n..], i - n);
    }
  }

  /** Each column of a written segment reads back as the buffered values, bit for bit. */
  lemma WrittenColumnReadsBack(columns: seq<Column>, rows: seq<Row>, pkName: Bytes, bloom: Option<FilterState>, i: nat)
    requires AllRowsFit(columns, rows) && AllKnown(columns) && !HasDuplicate(columns)
    requires |rows| < TWO_63 && i < |columns|
    requires Small(EntriesOf(columns, rows))
    ensures DecodeColumn(ImageOf(columns, rows, pkName, bloom).body, columns[i].name) == Ok(ColumnOf(rows, i))
  {
    hide Rle.Encode, Rle.Decode, DecodeRaw, DecodeColumn, HasDuplicate;
    ColumnIsTyped(columns, rows, i);
    var vs := ColumnOf(rows, i);
    var body := ImageOf(columns, rows, pkName, bloom).body;
    assert SmallEntry(body.entries[i]);
    hide RowFits, AllOfType, ColumnOf, Columns, SmallEntry;
    PayloadReadsBack(columns[i].ty, vs);
    ReadColumnAt(body, i, vs);
  }

  lemma ColumnIsTyped(columns: seq<Column>, rows: seq<Row>, i: nat)
    requires AllRowsFit(columns, rows) && i < |columns|
    ensures AllOfType(ColumnOf(rows, i), columns[i].ty)
  {
  }

  /** Without duplicate names a column's block and type are its own entry's. */
  lemma ReadColumnAt(b: Body, i: nat, vs: seq<Value>)
    requires i < |b.entries| && !HasDuplicate(Columns(b.entries)) && KnownType(b.entries[i].ty)
    requires b.entries[i].encoding == RLE && Rle.Decode(b.entries[i].ty, b.entries[i].payload) == Some(vs)
    requires |vs| == b.rowCount
    ensures DecodeColumn(b, b.entries[i].name) == Ok(vs)
  {
    LastEntryUnique(b.entries, i);
    ColumnIndexUnique(Columns(b.entries), i);
    hide LastEntry, ColumnIndex, Names, Rle.Decode, DecodeRaw;
  }

  lemma PayloadReadsBack(t: ColumnType, vs: seq<Value>)
    requires AllOfType(vs, t) && |Rle.Encode(vs)| < TWO_63 && |vs| < TWO_63
    ensures Rle.Decode(t, Rle.Encode(vs)) == Some(vs)
  {
    forall j | 0 <= j < |vs| ensures FitsValue(vs[j]) {
      ValueInPayload(vs, j);
    }
    Rle.RoundTrip(vs, t);
  }
}
