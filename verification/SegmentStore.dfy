/** Writing a segment piece by piece, parsing it back with a moving offset, and reading its
    columns lazily through a cache (storage/segment.go). */
module SegmentStore {
  import opened Wrappers
  import opened Words
  import opened Uvarint
  import opened Types
  import opened Encoding
  import Rle
  import opened Bloom
  import opened Buffer
  import opened SegmentFormat

  /** An io.Writer that never fails: the bytes written so far. */
  class Writer {
    var data: Bytes

    constructor ()
      ensures data == []
    {
      data := [];
    }

    method Write(b: Bytes)
      modifies this
      ensures data == old(data) + b
    {
      data := data + b;
    }
  }

  /** The encoding picked for a column slice. */
  function ChooseEncoding(values: seq<Value>): byte {
    RLE
  }

  lemma {:induction false} EntriesBytesAppend(es: seq<Entry>, e: Entry)
    requires Encodable(es) && KnownType(e.ty) && Encodable(es + [e])
    ensures EntriesBytes(es + [e]) == EntriesBytes(es) + EntryBytes(e)
  {
    hide EntryBytes;
    if es == [] {
      ConcatNil(EntryBytes(e));
      ConcatNil([e]);
      assert [e][1..] == [];
    } else {
      assert (es + [e])[1..] == es[1..] + [e];
      assert (es[1..] + [e])[|es| - 1] == e;
      EntriesBytesAppend(es[1..], e);
      ConcatAssoc(EntryBytes(es[0]), EntriesBytes(es[1..]), EntryBytes(e));
    }
  }

  lemma EntriesBytesNext(before: Bytes, es: seq<Entry>, i: nat)
    requires i < |es| && Encodable(es[..i + 1])
    ensures before + EntriesBytes(es[..i]) + EntryBytes(es[i]) == before + EntriesBytes(es[..i + 1])
  {
    PrefixSplit(es, i, i + 1);
    hide EntryBytes, EntriesBytes;
    EntriesBytesAppend(es[..i], es[i]);
    ConcatAssoc(before, EntriesBytes(es[..i]), EntryBytes(es[i]));
  }

  /** One column block, in the five writes of the source. */
  method WriteEntry(w: Writer, e: Entry)
    requires KnownType(e.ty)
    modifies w
    ensures w.data == old(w.data) + EntryBytes(e)
  {
    hide PutUvarint;
    w.Write(PutUvarint(|e.name|));
    w.Write(e.name);
    w.Write([WireTag(e.ty), e.encoding]);
    w.Write(PutUvarint(|e.payload|));
    w.Write(e.payload);
  }

  method WritePreamble(w: Writer, columnCount: nat, rows: nat, pkName: Bytes, flags: byte)
    requires HasPKFlag(flags) <==> pkName != []
    modifies w
    ensures w.data == old(w.data) + (HeaderBytes(2, columnCount, rows % TWO_64) + FlagsBytes(flags, pkName))
  {
    hide PutUvarint, HeaderBytes;
    w.Write(HeaderBytes(2, columnCount, rows % TWO_64));
    w.Write(PutUvarint(1));
    w.Write([flags]);
    if HasPKFlag(flags) {
      w.Write(PutUvarint(|pkName|));
      w.Write(pkName);
    }
  }

  method WriteTrailer(w: Writer, bloom: Filter)
    modifies w
    ensures w.data == old(w.data) + TrailerBytes(Some(bloom.State()))
  {
    hide Marshal;
    w.Write(BLOOM_MAGIC);
    w.Write(LE(1, 2));
    var body := bloom.MarshalBinary();
    w.Write(body);
  }

  ghost function FilterOf(f: Filter?): Option<FilterState>
    reads f, if f == null then {} else {f.bits}
  {
    if f == null then None else Some(f.State())
  }

  /** One round of the column loop. The branch for the raw encoding is left out:
      chooseEncoding never picks it. */
  method WriteColumn(w: Writer, buf: WriteBuffer, i: nat)
    requires buf.Valid() && i < |buf.schema.columns| && KnownType(buf.schema.columns[i].ty)
    modifies w
    ensures w.data == old(w.data) + EntryBytes(EntriesOf(buf.schema.columns, buf.contents)[i])
  {
    hide EntryBytes, Rle.Encode;
    var c := buf.schema.columns[i];
    var vals := buf.cols[i];
    var encoding := ChooseEncoding(vals);
    var payload := Rle.EncodeRLE(vals);
    WriteEntry(w, Entry(c.name, c.ty, encoding, payload));
  }

  lemma KnownPrefix(columns: seq<Column>, rows: seq<Row>, i: nat)
    requires AllRowsFit(columns, rows) && i < |columns| && AllKnown(columns[..i])
    ensures KnownType(columns[i].ty) <==> AllKnown(columns[..i + 1])
    ensures KnownType(columns[i].ty) ==> Encodable(EntriesOf(columns, rows)[..i + 1])
    ensures AllKnown(columns) ==> KnownType(columns[i].ty)
  {
  }

  /** The column loop of WriteSegment; it stops at the first column of no supported type. */
  method WriteColumns(w: Writer, buf: WriteBuffer) returns (ok: bool)
    requires buf.Valid()
    modifies w
    ensures ok == AllKnown(buf.schema.columns)
    ensures ok ==> w.data == old(w.data) + EntriesBytes(EntriesOf(buf.schema.columns, buf.contents))
    ensures old(w.data) <= w.data
  {
    var columns := buf.schema.columns;
    ghost var es := EntriesOf(columns, buf.contents);
    ghost var before := w.data;
    ConcatNil(before);
    assert es[..0] == [] && EntriesBytes([]) == [];
    hide EntryBytes, EntriesOf, EntriesBytes, Columnar, KnownType, AllKnown, Encodable;
    for i := 0 to |columns|
      invariant AllKnown(columns[..i]) && Encodable(es[..i])
      invariant w.data == before + EntriesBytes(es[..i])
    {
      KnownPrefix(columns, buf.contents, i);
      if !KnownType(columns[i].ty) {
        return false;
      }
      WriteColumn(w, buf, i);
      EntriesBytesNext(before, es, i);
    }
    assert es[..|columns|] == es && columns[..|columns|] == columns;
    return true;
  }

  /** WriteSegment: on success the whole image is appended to the writer; on failure whatever
      had been written stays. The schema is the buffer's own, as in the only call. */
  method WriteSegment(w: Writer, buf: WriteBuffer, pkName: Bytes, bloom: Filter?) returns (err: Option<SegmentError>)
    requires buf.Valid()
    modifies w
    ensures err == None ==>
      && SegmentBytes(buf.schema.columns, buf.contents, pkName, FilterOf(bloom)).Ok?
      && w.data == old(w.data) + SegmentBytes(buf.schema.columns, buf.contents, pkName, FilterOf(bloom)).value
    ensures err.Some? ==>
      && SegmentBytes(buf.schema.columns, buf.contents, pkName, FilterOf(bloom)) == Err(err.value)
      && old(w.data) <= w.data
  {
    hide EntriesBytes, Rle.Encode, ColumnOf;
    if |buf.schema.columns| > MAX_COLUMNS {
      return Some(TooManyColumns);
    }
    var flags := (if pkName != [] then 1 else 0) + (if bloom != null then 2 else 0);
    WritePreamble(w, |buf.schema.columns|, buf.rows, pkName, flags);
    hide HeaderBytes, FlagsBytes, TrailerBytes;
    ghost var preamble := HeaderBytes(2, |buf.schema.columns|, buf.rows % TWO_64) + FlagsBytes(flags, pkName);
    var ok := WriteColumns(w, buf);
    if !ok {
      return Some(UnknownColumnType);
    }
    ghost var entries := EntriesBytes(EntriesOf(buf.schema.columns, buf.contents));
    ConcatAssoc(old(w.data), preamble, entries);
    ConcatAssoc(old(w.data), preamble + entries, TrailerBytes(FilterOf(bloom)));
    if bloom != null {
      WriteTrailer(w, bloom);
    } else {
      NoTrailer();
      ConcatNil(preamble + entries);
    }
    return None;
  }

  lemma NoTrailer()
    ensures TrailerBytes(None) == []
  {
  }

  // ---- Parsing ----

  datatype ColumnBlock = ColumnBlock(encoding: byte, payloadOff: nat, payloadLen: nat)

  /** blocks locates, for each column name, the payload of the last block of that name. */
  ghost predicate BlocksMatch(blocks: map<Bytes, ColumnBlock>, raw: Bytes, es: seq<Entry>) {
    && (forall name :: name in blocks <==> LastEntry(es, name).Some?)
    && (forall name :: name in blocks ==>
          && blocks[name].payloadOff + blocks[name].payloadLen <= |raw|
          && var e := LastEntry(es, name).value;
             && blocks[name].encoding == e.encoding
             && raw[blocks[name].payloadOff..][..blocks[name].payloadLen] == e.payload)
  }

  lemma BlocksMatchAppend(blocks: map<Bytes, ColumnBlock>, raw: Bytes, es: seq<Entry>, e: Entry, b: ColumnBlock)
    requires BlocksMatch(blocks, raw, es)
    requires b.encoding == e.encoding && b.payloadOff + b.payloadLen <= |raw|
    requires raw[b.payloadOff..][..b.payloadLen] == e.payload
    ensures BlocksMatch(blocks[e.name := b], raw, es + [e])
  {
  }

  lemma ColumnsAppend(es: seq<Entry>, e: Entry)
    ensures Columns(es + [e]) == Columns(es) + [Column(e.name, e.ty)]
  {
  }

  /** The length-prefixed reads of parseSegment: where the bytes start and how many there are. */
  method ReadFrame(data: Bytes, offset: nat) returns (r: Option<(nat, nat)>)
    requires offset <= |data|
    ensures r == None ==> ReadBlob(data[offset..]) == Err(Truncated)
    ensures r.Some? ==> var (start, len) := r.value;
      start + len <= |data| && ReadBlob(data[offset..]) == Ok(Read(data[start..][..len], data[start + len..]))
  {
    hide GetUvarint;
    var read := GetUvarint(data[offset..]);
    if read == None {
      return None;
    }
    var (len, n) := read.value;
    if len > |data| - offset - n {
      return None;
    }
    assert data[offset..][n..] == data[offset + n..];
    assert data[offset + n..][len..] == data[offset + n + len..];
    return Some((offset + n, len));
  }

  /** The switch over type and encoding in ReadColumn. */
  method DecodeBlock(ty: ColumnType, encoding: byte, payload: Bytes, rows: nat) returns (r: Option<seq<Value>>)
    requires KnownType(ty)
    ensures r == DecodePayload(ty, encoding, payload, rows)
  {
    if encoding == RLE {
      r := Rle.DecodeRLE(ty, payload, rows);
    } else if ty.String? {
      r := DecodeRawString(payload, rows);
    } else {
      r := DecodeRawFixed(ty, payload, rows);
    }
  }

  /** A memory-resident segment. Columns are decoded on first use and cached. */
  class Segment {
    var version: nat
    var schema: Schema
    var rowCount: u64
    var raw: Bytes
    var blocks: map<Bytes, ColumnBlock>
    var decoded: map<Bytes, seq<Value>>
    var flags: byte
    var pkName: Bytes
    var bloomFilter: Filter?
    /** The column blocks in file order. */
    ghost var entries: seq<Entry>

    /** What the file said, without its filter. */
    ghost function Contents(): Body
      reads this
    {
      Body(version, rowCount, flags, pkName, entries)
    }

    ghost predicate Indexed()
      reads this
    {
      && schema == SchemaOf(Contents())
      && BlocksMatch(blocks, raw, entries)
    }

    /** Every cached column is what decoding its block again would give. */
    ghost predicate Valid()
      reads this
    {
      && Indexed()
      && forall name :: name in decoded ==> DecodeColumn(Contents(), name) == Ok(decoded[name])
    }

    constructor (version: nat, rowCount: u64, raw: Bytes)
      ensures this.version == version && this.rowCount == rowCount && this.raw == raw
      ensures flags == 0 && pkName == [] && bloomFilter == null && entries == [] && decoded == map[]
      ensures Indexed()
    {
      this.version, this.rowCount, this.raw := version, rowCount, raw;
      this.schema := Schema([], []);
      this.blocks, this.decoded := map[], map[];
      this.flags, this.pkName, this.bloomFilter := 0, [], null;
      this.entries := [];
    }

    /** The flags block of a version 2 file. */
    method ParseFlags(offset: nat) returns (r: Result<nat, SegmentError>)
      requires Indexed() && entries == [] && offset <= |raw|
      modifies this`flags, this`pkName, this`schema
      ensures r.Err? ==> ReadFlags(raw[offset..]) == Err(r.error)
      ensures r.Ok? ==> r.value <= |raw| && ReadFlags(raw[offset..]) == Ok(Read((flags, pkName), raw[r.value..]))
      ensures r.Ok? ==> Indexed()
    {
      hide ReadBlob, BlocksMatch;
      var payload := ReadFrame(raw, offset);
      if payload == None {
        return Err(Truncated);
      }
      var (start, len) := payload.value;
      if len == 0 {
        assert raw[start..][..0] == [];
        return Err(BadFlagsLen);
      }
      flags := raw[start];
      pkName := [];
      var at := start + len;
      if HasPKFlag(flags) {
        var name := ReadFrame(raw, at);
        if name == None {
          return Err(Truncated);
        }
        var (nameStart, nameLen) := name.value;
        pkName := raw[nameStart..][..nameLen];
        at := nameStart + nameLen;
      }
      schema := schema.(pk := pkName);
      return Ok(at);
    }

    /** One round of the column loop: the new offset, after the block is recorded. */
    method ParseColumn(offset: nat) returns (r: Result<nat, SegmentError>)
      requires Indexed() && offset <= |raw|
      modifies this`schema, this`blocks, this`entries
      ensures r.Err? ==> ReadEntry(raw[offset..]) == Err(r.error)
      ensures r.Ok? ==>
        && r.value <= |raw| && |entries| == |old(entries)| + 1 && entries[..|old(entries)|] == old(entries)
        && ReadEntry(raw[offset..]) == Ok(Read(entries[|old(entries)|], raw[r.value..]))
        && Indexed()
    {
      hide ReadBlob, BlocksMatch;
      var frame := ReadFrame(raw, offset);
      if frame == None {
        return Err(Truncated);
      }
      var (nameStart, nameLen) := frame.value;
      var name := raw[nameStart..][..nameLen];
      var at := nameStart + nameLen;
      if at + 2 > |raw| {
        return Err(Truncated);
      }
      var wireType, encoding := raw[at], raw[at + 1];
      at := at + 2;
      var colType := FromWireTag(wireType);
      if colType == None {
        return Err(UnknownWireType);
      }
      if encoding != RAW && encoding != RLE {
        return Err(UnknownEncoding);
      }
      assert raw[at - 2..][2..] == raw[at..];
      frame := ReadFrame(raw, at);
      if frame == None {
        return Err(Truncated);
      }
      var (payloadOff, payloadLen) := frame.value;
      ghost var e := Entry(name, colType.value, encoding, raw[payloadOff..][..payloadLen]);
      ColumnsAppend(entries, e);
      BlocksMatchAppend(blocks, raw, entries, e, ColumnBlock(encoding, payloadOff, payloadLen));
      schema := schema.(columns := schema.columns + [Column(name, colType.value)]);
      blocks := blocks[name := ColumnBlock(encoding, payloadOff, payloadLen)];
      entries := entries + [e];
      return Ok(payloadOff + payloadLen);
    }

    /** ReadColumn: from the cache, or decoded now and cached. */
    method ReadColumn(name: Bytes) returns (r: Result<seq<Value>, SegmentError>)
      requires Valid()
      modifies this`decoded
      ensures Valid()
      ensures r == DecodeColumn(Contents(), name)
      ensures forall n :: n in old(decoded) ==> n in decoded && decoded[n] == old(decoded)[n]
    {
      if name in decoded {
        return Ok(decoded[name]);
      }
      if name !in blocks {
        return Err(NoSuchColumn);
      }
      var block := blocks[name];
      var colType := schema.columns[ColumnIndex(schema.columns, name).value].ty;
      var payload := raw[block.payloadOff..][..block.payloadLen];
      assert LastEntry(entries, name).value.payload == payload;
      hide DecodePayload, LastEntry, ColumnIndex, Names;
      if colType.OtherType? {
        return Err(UnknownColumnType);
      }
      var v := DecodeBlock(colType, block.encoding, payload, rowCount);
      if v == None {
        return Err(DecodeFailed);
      }
      decoded := decoded[name := v.value];
      return Ok(v.value);
    }
  }

  lemma ReadEntriesStep(n: nat, d: Bytes)
    requires n > 0
    ensures ReadEntries(n, d)
         == match ReadEntry(d)
            case Err(e) => Err(e)
            case Ok(Read(entry, rest)) =>
              match ReadEntries(n - 1, rest)
              case Err(e) => Err(e)
              case Ok(Read(es, rest')) => Ok(Read([entry] + es, rest'))
  {
  }

  /** The column loop: n blocks from offset on, appended to what s already holds. */
  method ParseColumns(s: Segment, n: nat, offset: nat) returns (r: Result<nat, SegmentError>)
    requires s.Indexed() && s.entries == [] && offset <= |s.raw|
    modifies s`schema, s`blocks, s`entries
    ensures r.Err? ==> ReadEntries(n, s.raw[offset..]) == Err(r.error)
    ensures r.Ok? ==>
      && r.value <= |s.raw| && ReadEntries(n, s.raw[offset..]) == Ok(Read(s.entries, s.raw[r.value..]))
      && s.Indexed()
  {
    hide ReadEntry, BlocksMatch;
    var at: nat := offset;
    ghost var whole := ReadEntries(n, s.raw[offset..]);
    if whole.Ok? { ConcatNil(whole.value.value); }
    for i := 0 to n
      invariant at <= |s.raw| && s.Indexed()
      invariant match ReadEntries(n - i, s.raw[at..])
                case Err(e) => whole == Err(e)
                case Ok(Read(es, rest)) => whole == Ok(Read(s.entries + es, rest))
    {
      ghost var before, d := s.entries, s.raw[at..];
      ReadEntriesStep(n - i, d);
      var step := s.ParseColumn(at);
      if step.Err? {
        return Err(step.error);
      }
      at := step.value;
      assert s.entries == before + [s.entries[|before|]];
      if ReadEntries(n - i - 1, s.raw[at..]).Ok? {
        ConcatAssoc(before, [s.entries[|before|]], ReadEntries(n - i - 1, s.raw[at..]).value.value);
      }
    }
    ConcatNil(s.entries);
    return Ok(at);
  }

  /** The Bloom trailer at offset, into a new filter. */
  method ParseBloom(hash: Hash, data: Bytes, offset: nat) returns (r: Result<Filter, SegmentError>)
    requires offset <= |data|
    ensures r.Err? ==> ParseTrailer(data[offset..]) == Err(r.error)
    ensures r.Ok? ==>
      fresh(r.value) && fresh(r.value.bits) && r.value.hash == hash
      && ParseTrailer(data[offset..]) == Ok(r.value.State())
  {
    hide Unmarshal;
    var rest := data[offset..];
    if |rest| < 6 {
      return Err(Truncated);
    }
    if rest[0..4] != BLOOM_MAGIC {
      return Err(BadBloomMagic);
    }
    if FromLE(rest[4..6]) != 1 {
      return Err(UnsupportedBloomVersion);
    }
    var bf := new Filter.Zero(hash);
    var ok := bf.UnmarshalBinary(rest[6..]);
    if !ok {
      return Err(CorruptFilter);
    }
    return Ok(bf);
  }

  /** parseSegment: the parser of the format, into a fresh segment with an empty cache. */
  method ParseSegment(hash: Hash, data: Bytes) returns (r: Result<Segment, SegmentError>)
    ensures r.Err? ==> ParseImage(data) == Err(r.error)
    ensures r.Ok? ==>
      && fresh(r.value) && r.value.Valid() && r.value.decoded == map[]
      && ParseImage(data) == Ok(Image(r.value.Contents(), FilterOf(r.value.bloomFilter)))
    ensures r.Ok? && r.value.bloomFilter != null ==>
      fresh(r.value.bloomFilter) && fresh(r.value.bloomFilter.bits) && r.value.bloomFilter.hash == hash
  {
    hide BlocksMatch, ReadFlags, ReadEntries, ParseTrailer;
    if |data| < HEADER_LEN {
      return Err(Truncated);
    }
    if data[0..4] != MAGIC {
      return Err(BadMagic);
    }
    var version := FromLE(data[4..6]);
    if version != 1 && version != 2 {
      return Err(UnsupportedVersion);
    }
    var columnCount, rowCount := FromLE(data[6..8]), FromLE64(data[8..16]);
    var s := new Segment(version, rowCount, data);
    var offset := HEADER_LEN;
    if version == 2 {
      var afterFlags := s.ParseFlags(offset);
      if afterFlags.Err? {
        return Err(afterFlags.error);
      }
      offset := afterFlags.value;
    }
    var afterColumns := ParseColumns(s, columnCount, offset);
    if afterColumns.Err? {
      return Err(afterColumns.error);
    }
    offset := afterColumns.value;
    if version == 2 && HasBloomFlag(s.flags) {
      var bf := ParseBloom(hash, data, offset);
      if bf.Err? {
        return Err(bf.error);
      }
      s.bloomFilter := bf.value;
    }
    return Ok(s);
  }
}
