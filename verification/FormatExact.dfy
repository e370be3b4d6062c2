/** Exactly which bytes are a segment, and what they say: the format written out field by field,
    with every length in any spelling, for both versions and both readers (storage/segment.go). */
module FormatExact {
  import opened Wrappers
  import opened Words
  import opened Uvarint
  import opened Types
  import opened Bloom
  import opened SegmentFormat
  import opened HeaderReader

  // ---- The parts of a file as they are spelled ----

  /** A length, in any spelling, and as many bytes. */
  datatype WireBlob = WireBlob(len: Bytes, body: Bytes)

  ghost predicate IsBlob(w: WireBlob) {
    IsUvarint(w.len, |w.body|)
  }

  function BlobBytes(w: WireBlob): Bytes {
    w.len + w.body
  }

  /** "UCOL", version, column count and row count, the numbers with the lowest byte first. */
  ghost predicate IsHeader(h: Bytes, version: nat, columns: nat, rows: nat) {
    && |h| == 16 && h[..4] == Ascii("UCOL")
    && version == Weighted(h[4], 1) + Weighted(h[5], 0x100)
    && columns == Weighted(h[6], 1) + Weighted(h[7], 0x100)
    && rows == Weighted(h[8], 1) + Weighted(h[9], 0x100) + Weighted(h[10], 0x1_0000) + Weighted(h[11], 0x100_0000)
             + Weighted(h[12], 0x1_0000_0000) + Weighted(h[13], 0x100_0000_0000)
             + Weighted(h[14], 0x1_0000_0000_0000) + Weighted(h[15], 0x100_0000_0000_0000)
  }

  /** Version 2 has a flags block of at least one byte; if the lowest bit of that is set the PK
      name follows. Version 1 has neither. */
  datatype WireFlags = NoFlags | Flags(block: WireBlob) | FlagsAndName(block: WireBlob, name: WireBlob)

  function FlagBytes(w: WireFlags): Bytes {
    match w
    case NoFlags => []
    case Flags(block) => BlobBytes(block)
    case FlagsAndName(block, name) => BlobBytes(block) + BlobBytes(name)
  }

  ghost predicate AreFlags(w: WireFlags, version: nat, flags: nat, pk: Bytes) {
    match w
    case NoFlags => version == 1 && flags == 0 && pk == []
    case Flags(block) =>
      version == 2 && IsBlob(block) && block.body != [] && block.body[0] == flags && flags % 2 == 0 && pk == []
    case FlagsAndName(block, name) =>
      && version == 2 && IsBlob(block) && block.body != [] && block.body[0] == flags && flags % 2 == 1
      && IsBlob(name) && name.body == pk
  }

  /** Name, type tag, encoding tag, payload. */
  datatype WireEntry = WireEntry(name: WireBlob, tag: byte, encoding: byte, payload: WireBlob)

  function WireEntryBytes(w: WireEntry): Bytes {
    BlobBytes(w.name) + [w.tag, w.encoding] + BlobBytes(w.payload)
  }

  predicate TagOf(tag: byte, t: ColumnType) {
    (tag == 0 && t == Int64) || (tag == 1 && t == Float64) || (tag == 2 && t == String)
  }

  ghost predicate IsEntry(w: WireEntry, e: Entry) {
    && IsBlob(w.name) && w.name.body == e.name && TagOf(w.tag, e.ty)
    && w.encoding == e.encoding && (e.encoding == 0 || e.encoding == 1)
    && IsBlob(w.payload) && w.payload.body == e.payload
  }

  function WireEntriesBytes(ws: seq<WireEntry>): Bytes {
    if ws == [] then [] else WireEntryBytes(ws[0]) + WireEntriesBytes(ws[1..])
  }

  ghost predicate AreEntries(ws: seq<WireEntry>, es: seq<Entry>) {
    |ws| == |es| && forall i :: 0 <= i < |ws| ==> IsEntry(ws[i], es[i])
  }

  // ---- The readers accept exactly the spellings ----

  lemma BlobAccepted(w: WireBlob, rest: Bytes)
    requires IsBlob(w)
    ensures ReadBlob(BlobBytes(w) + rest) == Ok(Read(w.body, rest))
  {
    var d := w.len + w.body + rest;
    ConcatAssoc(w.len, w.body, rest);
    DropPrefix(w.len, w.body + rest);
    DropPrefix(w.body, rest);
    GetUvarintExact(d, |w.body|, |w.len|);
    hide GetUvarint, IsUvarint;
  }

  lemma SpellBlob(d: Bytes) returns (w: WireBlob)
    requires ReadBlob(d).Ok?
    ensures IsBlob(w) && w.body == ReadBlob(d).value.value && d == BlobBytes(w) + ReadBlob(d).value.rest
  {
    var (len, n) := GetUvarint(d).value;
    GetUvarintExact(d, len, n);
    hide GetUvarint, IsUvarint;
    w := WireBlob(d[..n], d[n..][..len]);
    PrefixSplit(d[n..], len, |d| - n);
    assert d == d[..n] + d[n..] && d[n..] == d[n..][..len] + d[n..][len..];
    ConcatAssoc(d[..n], d[n..][..len], d[n..][len..]);
  }

  lemma HeaderAccepted(h: Bytes, version: nat, columns: nat, rows: nat, rest: Bytes)
    requires IsHeader(h, version, columns, rows) && (version == 1 || version == 2)
    ensures rows < TWO_64 && ReadHeader(h + rest) == Ok(Read((version, columns, rows), rest))
  {
    var d := h + rest;
    DropPrefix(h, rest);
    HeaderFields(h, rest);
    MagicIsUCOL();
    hide Ascii, FromLE64, FromLE;
    WordsSpelledOut(h[4..6]);
    WordsSpelledOut(h[6..8]);
    WordsSpelledOut(h[8..16]);
    hide Weighted;
  }

  lemma HeaderFields(h: Bytes, rest: Bytes)
    requires |h| == 16
    ensures (h + rest)[0..4] == h[..4] && (h + rest)[4..6] == h[4..6] && (h + rest)[6..8] == h[6..8]
    ensures (h + rest)[8..16] == h[8..16]
    ensures h[4..6] == [h[4], h[5]] && h[6..8] == [h[6], h[7]]
    ensures h[8..16] == [h[8], h[9], h[10], h[11], h[12], h[13], h[14], h[15]]
  {
  }

  lemma MagicIsUCOL()
    ensures MAGIC == Ascii("UCOL") && BLOOM_MAGIC == Ascii("UBLM")
  {
  }

  lemma SpellHeader(d: Bytes)
    requires ReadHeader(d).Ok?
    ensures var (version, columns, rows) := ReadHeader(d).value.value;
      && |d| >= 16 && IsHeader(d[..16], version, columns, rows) && (version == 1 || version == 2)
      && d == d[..16] + ReadHeader(d).value.rest
  {
    var h := d[..16];
    assert d == h + d[16..];
    HeaderFields(h, d[16..]);
    MagicIsUCOL();
    hide Ascii, FromLE64, FromLE;
    WordsSpelledOut(h[4..6]);
    WordsSpelledOut(h[6..8]);
    WordsSpelledOut(h[8..16]);
    hide Weighted;
  }

  lemma FlagsAccepted(w: WireFlags, version: nat, flags: nat, pk: Bytes, rest: Bytes)
    requires AreFlags(w, version, flags, pk)
    ensures flags < 256 && ReadVersionFlags(version, FlagBytes(w) + rest) == Ok(Read((flags, pk), rest))
  {
    hide ReadBlob, BlobBytes, IsBlob;
    match w
    case NoFlags => ConcatNil(rest);
    case Flags(block) => BlobAccepted(block, rest);
    case FlagsAndName(block, name) =>
      ConcatAssoc(BlobBytes(block), BlobBytes(name), rest);
      BlobAccepted(block, BlobBytes(name) + rest);
      BlobAccepted(name, rest);
  }

  lemma SpellFlags(version: nat, d: Bytes) returns (w: WireFlags)
    requires (version == 1 || version == 2) && ReadVersionFlags(version, d).Ok?
    ensures var Read((flags, pk), rest) := ReadVersionFlags(version, d).value;
      AreFlags(w, version, flags, pk) && d == FlagBytes(w) + rest
  {
    hide ReadBlob, BlobBytes, IsBlob;
    if version == 1 {
      w := NoFlags;
      ConcatNil(d);
    } else {
      var block := SpellBlob(d);
      if block.body[0] % 2 == 1 {
        var rest := ReadBlob(d).value.rest;
        var name := SpellBlob(rest);
        w := FlagsAndName(block, name);
        ConcatAssoc(BlobBytes(block), BlobBytes(name), ReadBlob(rest).value.rest);
      } else {
        w := Flags(block);
      }
    }
  }

  lemma EntryAccepted(w: WireEntry, e: Entry, rest: Bytes)
    requires IsEntry(w, e)
    ensures ReadEntry(WireEntryBytes(w) + rest) == Ok(Read(e, rest))
  {
    hide ReadBlob, BlobBytes, IsBlob;
    var tags, tail := [w.tag, w.encoding], BlobBytes(w.payload) + rest;
    ConcatAssoc(BlobBytes(w.name) + tags, BlobBytes(w.payload), rest);
    ConcatAssoc(BlobBytes(w.name), tags, tail);
    BlobAccepted(w.name, tags + tail);
    DropPrefix(tags, tail);
    BlobAccepted(w.payload, rest);
  }

  lemma SpellEntry(d: Bytes) returns (w: WireEntry)
    requires ReadEntry(d).Ok?
    ensures IsEntry(w, ReadEntry(d).value.value) && d == WireEntryBytes(w) + ReadEntry(d).value.rest
  {
    hide ReadBlob, BlobBytes, IsBlob;
    var name := SpellBlob(d);
    var rest := ReadBlob(d).value.rest;
    var payload := SpellBlob(rest[2..]);
    w := WireEntry(name, rest[0], rest[1], payload);
    var after := ReadBlob(rest[2..]).value.rest;
    assert rest == [rest[0], rest[1]] + rest[2..];
    ConcatAssoc(BlobBytes(name) + [rest[0], rest[1]], BlobBytes(payload), after);
    ConcatAssoc(BlobBytes(name), [rest[0], rest[1]], BlobBytes(payload) + after);
  }

  lemma {:induction false} EntriesAccepted(ws: seq<WireEntry>, es: seq<Entry>, rest: Bytes)
    requires AreEntries(ws, es)
    ensures ReadEntries(|es|, WireEntriesBytes(ws) + rest) == Ok(Read(es, rest))
  {
    hide ReadEntry, WireEntryBytes, IsEntry;
    if ws == [] {
      ConcatNil(rest);
    } else {
      ConcatAssoc(WireEntryBytes(ws[0]), WireEntriesBytes(ws[1..]), rest);
      EntryAccepted(ws[0], es[0], WireEntriesBytes(ws[1..]) + rest);
      EntriesAccepted(ws[1..], es[1..], rest);
      assert es == [es[0]] + es[1..];
    }
  }

  lemma {:induction false} SpellEntries(n: nat, d: Bytes) returns (ws: seq<WireEntry>)
    requires ReadEntries(n, d).Ok?
    ensures AreEntries(ws, ReadEntries(n, d).value.value) && d == WireEntriesBytes(ws) + ReadEntries(n, d).value.rest
  {
    hide ReadEntry, WireEntryBytes, IsEntry;
    if n == 0 {
      ws := [];
      ConcatNil(d);
    } else {
      var Read(_, rest) := ReadEntry(d).value;
      var w := SpellEntry(d);
      var more := SpellEntries(n - 1, rest);
      ws := [w] + more;
      assert ws[1..] == more;
      ConcatAssoc(WireEntryBytes(w), WireEntriesBytes(more), ReadEntries(n - 1, rest).value.rest);
    }
  }

  // ---- The trailer and the whole ----

  /** "UBLM", version 1, and a filter body that is nothing more. */
  ghost predicate IsTrailer(t: Bytes, f: FilterState) {
    |t| >= 6 && t[..4] == Ascii("UBLM") && t[4] == 1 && t[5] == 0
    && FieldsInRange(f) && exists len :: SpellsFilter(t[6..], f, len)
  }

  lemma TrailerExactly(t: Bytes, f: FilterState)
    ensures ParseTrailer(t) == Ok(f) <==> IsTrailer(t, f)
  {
    MagicIsUCOL();
    if |t| >= 6 {
      assert t[0..4] == t[..4] && t[4..6] == [t[4], t[5]];
      WordsSpelledOut(t[4..6]);
      UnmarshalExactly(t[6..], f);
    }
    hide Ascii, FromLE, Unmarshal, SpellsFilter, FieldsInRange;
  }

  datatype WireSegment = WireSegment(header: Bytes, flags: WireFlags, entries: seq<WireEntry>, rest: Bytes)

  function WireBytes(w: WireSegment): Bytes {
    w.header + (FlagBytes(w.flags) + (WireEntriesBytes(w.entries) + w.rest))
  }

  ghost predicate IsBody(w: WireSegment, b: Body) {
    && (b.version == 1 || b.version == 2)
    && IsHeader(w.header, b.version, |b.entries|, b.rowCount)
    && AreFlags(w.flags, b.version, b.flags, b.pkName) && AreEntries(w.entries, b.entries)
  }

  /** The trailer is there iff the second flag bit of a version 2 file says so; without it
      anything may follow. */
  ghost predicate IsSegment(w: WireSegment, img: Image) {
    && IsBody(w, img.body)
    && (if img.body.version == 2 && img.body.flags / 2 % 2 == 1 then
          img.bloom.Some? && IsTrailer(w.rest, img.bloom.value)
        else img.bloom == None)
  }

  lemma BodyAccepted(w: WireSegment, b: Body)
    requires IsBody(w, b)
    ensures ReadBody(WireBytes(w)) == Ok(Read(b, w.rest))
  {
    hide ReadHeader, ReadVersionFlags, ReadEntries, IsHeader, AreFlags, AreEntries, WireEntriesBytes, FlagBytes;
    HeaderAccepted(w.header, b.version, |b.entries|, b.rowCount, FlagBytes(w.flags) + (WireEntriesBytes(w.entries) + w.rest));
    FlagsAccepted(w.flags, b.version, b.flags, b.pkName, WireEntriesBytes(w.entries) + w.rest);
    EntriesAccepted(w.entries, b.entries, w.rest);
  }

  lemma SpellBody(d: Bytes) returns (w: WireSegment)
    requires ReadBody(d).Ok?
    ensures IsBody(w, ReadBody(d).value.value) && d == WireBytes(w) && w.rest == ReadBody(d).value.rest
  {
    hide ReadHeader, ReadVersionFlags, ReadEntries, IsHeader, AreFlags, AreEntries, WireEntriesBytes, FlagBytes;
    var Read((version, n, _), rest) := ReadHeader(d).value;
    SpellHeader(d);
    var flags := SpellFlags(version, rest);
    var Read(_, rest') := ReadVersionFlags(version, rest).value;
    var entries := SpellEntries(n, rest');
    w := WireSegment(d[..16], flags, entries, ReadEntries(n, rest').value.rest);
    EntriesCount(n, rest');
  }

  lemma EntriesCount(n: nat, d: Bytes)
    requires ReadEntries(n, d).Ok?
    ensures |ReadEntries(n, d).value.value| == n
  {
  }

  /** parseSegment accepts exactly the segments, and reads off what they say. */
  lemma ParseExactly(d: Bytes, img: Image)
    ensures ParseImage(d) == Ok(img) <==> exists w :: IsSegment(w, img) && d == WireBytes(w)
  {
    hide ReadBody, ParseTrailer, IsBody, WireBytes, IsTrailer;
    if ParseImage(d) == Ok(img) {
      var w := SpellBody(d);
      if img.bloom.Some? { TrailerExactly(w.rest, img.bloom.value); }
      assert IsSegment(w, img);
    }
    forall w | IsSegment(w, img) && d == WireBytes(w) ensures ParseImage(d) == Ok(img) {
      BodyAccepted(w, img.body);
      if img.bloom.Some? { TrailerExactly(w.rest, img.bloom.value); }
    }
  }

  /** What is wrong with a header is told in this order. */
  lemma HeaderErrors(d: Bytes)
    ensures |d| < 16 ==> ParseImage(d) == Err(Truncated) && SkimSegment(d) == Err(Truncated)
    ensures |d| >= 16 && d[..4] != Ascii("UCOL") ==> ParseImage(d) == Err(BadMagic) && SkimSegment(d) == Err(BadMagic)
    ensures |d| >= 16 && d[..4] == Ascii("UCOL") && !(d[4] in {1, 2} && d[5] == 0) ==>
      ParseImage(d) == Err(UnsupportedVersion) && SkimSegment(d) == Err(UnsupportedVersion)
  {
    MagicIsUCOL();
    if |d| >= 16 {
      assert d[0..4] == d[..4] && d[4..6] == [d[4], d[5]];
      WordsSpelledOut(d[4..6]);
    }
    hide Ascii, FromLE, FromLE64;
  }

  // ---- Version 1 ----

  /** A version 1 file has its columns right behind the header and nothing else that matters:
      both readers take it so, whatever follows. */
  lemma Version1RoundTrip(es: seq<Entry>, rows: u64, rest: Bytes)
    requires Encodable(es) && Small(es) && |es| <= MAX_COLUMNS
    ensures var d := HeaderBytes(1, |es|, rows) + (EntriesBytes(es) + rest);
      && ParseImage(d) == Ok(Image(Body(1, rows, 0, [], es), None))
      && SkimSegment(d) == Ok((Schema([], Columns(es)), rows))
  {
    hide ReadHeader, ReadEntries, SkimEntries, HeaderBytes, EntriesBytes, Encodable, Small;
    ReadOfHeader(1, |es|, rows, EntriesBytes(es) + rest);
    ReadOfEntries(es, rest);
    SkimOfEntries(es, rest);
  }

  lemma {:induction false} SkimOfEntries(es: seq<Entry>, rest: Bytes)
    requires Encodable(es) && Small(es)
    ensures SkimEntries(|es|, EntriesBytes(es) + rest) == Ok(Read(Columns(es), rest))
  {
    hide SkimEntry, EntryBytes, SmallEntry;
    if es == [] {
      ConcatNil(rest);
    } else {
      ConcatAssoc(EntryBytes(es[0]), EntriesBytes(es[1..]), rest);
      SkimOfEntry(es[0], EntriesBytes(es[1..]) + rest);
      SkimOfEntries(es[1..], rest);
      assert Columns(es) == [Column(es[0].name, es[0].ty)] + Columns(es[1..]);
    }
  }

  lemma SkimOfEntry(e: Entry, rest: Bytes)
    requires KnownType(e.ty) && SmallEntry(e)
    ensures SkimEntry(EntryBytes(e) + rest) == Ok(Read(Column(e.name, e.ty), rest))
  {
    hide ReadBlob, GetUvarint;
    var tags := [WireTag(e.ty), e.encoding];
    var tail := Blob(e.payload) + rest;
    ConcatAssoc(Blob(e.name) + tags, Blob(e.payload), rest);
    ConcatAssoc(Blob(e.name), tags, tail);
    ReadOfBlob(e.name, tags + tail);
    DropPrefix(tags, tail);
    ConcatAssoc(PutUvarint(|e.payload|), e.payload, rest);
    UvarintRoundTrip(|e.payload|, e.payload + rest);
    DropPrefix(PutUvarint(|e.payload|), e.payload + rest);
    DropPrefix(e.payload, rest);
    hide PutUvarint;
  }

  // ---- The header reader ----

  /** SkimSegment with the bytes it leaves unread. */
  function Skim(d: Bytes): Parsed<(Schema, u64)> {
    match ReadHeader(d)
    case Err(e) => Err(e)
    case Ok(Read((version, n, rowCount), rest)) =>
      match ReadVersionFlags(version, rest)
      case Err(e) => Err(e)
      case Ok(Read((_, pk), rest')) =>
        match SkimEntries(n, rest')
        case Err(e) => Err(e)
        case Ok(Read(cs, rest'')) => Ok(Read((Schema(pk, cs), rowCount), rest''))
  }

  lemma SkimIsSkim(d: Bytes)
    ensures SkimSegment(d) == match Skim(d) case Err(e) => Err(e) case Ok(Read(x, _)) => Ok(x)
  {
    hide ReadHeader, ReadVersionFlags, SkimEntries;
  }

  lemma SkimEntryExtends(d: Bytes, e: Bytes)
    requires SkimEntry(d).Ok?
    ensures SkimEntry(d + e) == Ok(Read(SkimEntry(d).value.value, SkimEntry(d).value.rest + e))
  {
    hide ReadBlob, GetUvarint;
    ReadBlobExtends(d, e);
    var rest := ReadBlob(d).value.rest;
    var tail := rest[2..];
    assert (rest + e)[2..] == tail + e;
    GetUvarintExtends(tail, e);
    var (len, n) := GetUvarint(tail).value;
    assert (tail + e)[n..] == tail[n..] + e;
    if len < TWO_63 {
      assert (tail[n..] + e)[len..] == tail[n..][len..] + e;
    }
  }

  lemma {:induction false} SkimEntriesExtends(n: nat, d: Bytes, e: Bytes)
    requires SkimEntries(n, d).Ok?
    ensures SkimEntries(n, d + e) == Ok(Read(SkimEntries(n, d).value.value, SkimEntries(n, d).value.rest + e))
  {
    hide SkimEntry;
    if n > 0 {
      SkimEntryExtends(d, e);
      SkimEntriesExtends(n - 1, SkimEntry(d).value.rest, e);
    }
  }

  lemma SkimExtends(d: Bytes, e: Bytes)
    requires Skim(d).Ok?
    ensures Skim(d + e) == Ok(Read(Skim(d).value.value, Skim(d).value.rest + e))
  {
    var Read((version, n, _), rest) := ReadHeader(d).value;
    ReadHeaderExtends(d, e);
    var Read(_, rest') := ReadVersionFlags(version, rest).value;
    ReadVersionFlagsExtends(version, rest, e);
    SkimEntriesExtends(n, rest', e);
    hide ReadHeader, ReadVersionFlags, SkimEntries;
  }

  lemma SkimOfBody(b: Body)
    requires b.version == 2 && |b.entries| <= MAX_COLUMNS && Encodable(b.entries) && Small(b.entries)
    requires |b.pkName| < TWO_64 && (!HasPKFlag(b.flags) ==> b.pkName == [])
    ensures Skim(BodyBytes(b)) == Ok(Read((SchemaOf(b), b.rowCount), []))
  {
    var h, f, e := HeaderBytes(2, |b.entries|, b.rowCount), FlagsBytes(b.flags, b.pkName), EntriesBytes(b.entries);
    hide ReadHeader, ReadFlags, SkimEntries, HeaderBytes, FlagsBytes, EntriesBytes, Encodable, Small;
    ConcatAssoc(h, f, e);
    ConcatNil(e);
    ReadOfHeader(2, |b.entries|, b.rowCount, f + e);
    ReadOfFlags(b.flags, b.pkName, e);
    SkimOfEntries(b.entries, []);
  }

  lemma TailRemains(rest: Bytes, e: Bytes)
    requires e != []
    ensures rest + e != []
  {
  }

  lemma SkimCut(d: Bytes, p: Bytes, e: Bytes)
    requires Skim(d).Ok? && Skim(d).value.rest == [] && d == p + e && e != []
    ensures SkimSegment(p).Err?
  {
    if Skim(p).Ok? {
      TailRemains(Skim(p).value.rest, e);
      SkimExtends(p, e);
    }
    SkimIsSkim(p);
  }

  /** The header reader refuses every version 2 file the writer can produce that is cut short
      before the end of its last payload. */
  lemma HeaderTruncationDetected(img: Image, p: Bytes, e: Bytes)
    requires Wellformed(img) && |Serialize(img)| < TWO_63 && BodyBytes(img.body) == p + e && e != []
    ensures SkimSegment(p).Err?
  {
    PartsAreSmall(img);
    hide BodyBytes, Serialize, Skim;
    SkimOfBody(img.body);
    SkimCut(BodyBytes(img.body), p, e);
  }

  /** And every version 1 file. */
  lemma Version1TruncationDetected(es: seq<Entry>, rows: u64, p: Bytes, e: Bytes)
    requires Encodable(es) && Small(es) && |es| <= MAX_COLUMNS
    requires HeaderBytes(1, |es|, rows) + EntriesBytes(es) == p + e && e != []
    ensures SkimSegment(p).Err? && ParseImage(p).Err?
  {
    ConcatNil(EntriesBytes(es));
    Version1Skim(es, rows);
    Version1Read(es, rows);
    SkimCut(HeaderBytes(1, |es|, rows) + EntriesBytes(es), p, e);
    hide HeaderBytes, EntriesBytes;
    if ReadBody(p).Ok? {
      TailRemains(ReadBody(p).value.rest, e);
      ReadBodyExtends(p, e);
    }
    hide ReadBody;
  }

  lemma Version1Skim(es: seq<Entry>, rows: u64)
    requires Encodable(es) && Small(es) && |es| <= MAX_COLUMNS
    ensures Skim(HeaderBytes(1, |es|, rows) + EntriesBytes(es)) == Ok(Read((Schema([], Columns(es)), rows), []))
  {
    hide ReadHeader, SkimEntries, HeaderBytes, EntriesBytes, Encodable, Small;
    ConcatNil(EntriesBytes(es));
    ReadOfHeader(1, |es|, rows, EntriesBytes(es));
    SkimOfEntries(es, []);
  }

  lemma Version1Read(es: seq<Entry>, rows: u64)
    requires Encodable(es) && Small(es) && |es| <= MAX_COLUMNS
    ensures ReadBody(HeaderBytes(1, |es|, rows) + EntriesBytes(es)) == Ok(Read(Body(1, rows, 0, [], es), []))
  {
    hide ReadHeader, ReadEntries, HeaderBytes, EntriesBytes, Encodable, Small;
    ConcatNil(EntriesBytes(es));
    ReadOfHeader(1, |es|, rows, EntriesBytes(es));
    ReadOfEntries(es, []);
  }

  // What the header reader accepts beyond that: any encoding tag, and a payload of 2^63 bytes or
  // more, which it takes for one of none.

  datatype SkimmedEntry = SkimmedEntry(name: WireBlob, tag: byte, encoding: byte, len: Bytes, payload: Bytes)

  function SkimmedBytes(w: SkimmedEntry): Bytes {
    BlobBytes(w.name) + [w.tag, w.encoding] + (w.len + w.payload)
  }

  ghost predicate IsSkimmed(w: SkimmedEntry, c: Column) {
    && IsBlob(w.name) && w.name.body == c.name && TagOf(w.tag, c.ty)
    && exists size: nat :: IsUvarint(w.len, size) && |w.payload| == if size < 0x8000_0000_0000_0000 then size else 0
  }

  function SkimmedAll(ws: seq<SkimmedEntry>): Bytes {
    if ws == [] then [] else SkimmedBytes(ws[0]) + SkimmedAll(ws[1..])
  }

  ghost predicate AreSkimmed(ws: seq<SkimmedEntry>, cs: seq<Column>) {
    |ws| == |cs| && forall i :: 0 <= i < |ws| ==> IsSkimmed(ws[i], cs[i])
  }

  lemma SkimmedAccepted(w: SkimmedEntry, c: Column, rest: Bytes)
    requires IsSkimmed(w, c)
    ensures SkimEntry(SkimmedBytes(w) + rest) == Ok(Read(c, rest))
  {
    var size: nat :| IsUvarint(w.len, size) && |w.payload| == if size < 0x8000_0000_0000_0000 then size else 0;
    hide ReadBlob, BlobBytes, IsBlob, GetUvarint, IsUvarint;
    var tags, tail := [w.tag, w.encoding], w.len + w.payload + rest;
    ConcatAssoc(BlobBytes(w.name) + tags, w.len + w.payload, rest);
    ConcatAssoc(BlobBytes(w.name), tags, tail);
    BlobAccepted(w.name, tags + tail);
    DropPrefix(tags, tail);
    ConcatAssoc(w.len, w.payload, rest);
    DropPrefix(w.len, w.payload + rest);
    GetUvarintExact(tail, size, |w.len|);
    DropPrefix(w.payload, rest);
    ConcatNil(rest);
  }

  lemma SpellSkimmed(d: Bytes) returns (w: SkimmedEntry)
    requires SkimEntry(d).Ok?
    ensures IsSkimmed(w, SkimEntry(d).value.value) && d == SkimmedBytes(w) + SkimEntry(d).value.rest
  {
    hide ReadBlob, BlobBytes, IsBlob, GetUvarint, IsUvarint;
    var name := SpellBlob(d);
    var rest := ReadBlob(d).value.rest;
    var tail := rest[2..];
    var (size, n) := GetUvarint(tail).value;
    GetUvarintExact(tail, size, n);
    var kept := if size < TWO_63 then size else 0;
    w := SkimmedEntry(name, rest[0], rest[1], tail[..n], tail[n..][..kept]);
    var after := tail[n..][kept..];
    assert rest == [rest[0], rest[1]] + tail;
    assert tail == tail[..n] + tail[n..] && tail[n..] == tail[n..][..kept] + after;
    ConcatAssoc(tail[..n], tail[n..][..kept], after);
    ConcatAssoc(BlobBytes(name) + [rest[0], rest[1]], w.len + w.payload, after);
    ConcatAssoc(BlobBytes(name), [rest[0], rest[1]], w.len + w.payload + after);
  }

  lemma {:induction false} SkimmedAllAccepted(ws: seq<SkimmedEntry>, cs: seq<Column>, rest: Bytes)
    requires AreSkimmed(ws, cs)
    ensures SkimEntries(|cs|, SkimmedAll(ws) + rest) == Ok(Read(cs, rest))
  {
    hide SkimEntry, SkimmedBytes, IsSkimmed;
    if ws == [] {
      ConcatNil(rest);
    } else {
      ConcatAssoc(SkimmedBytes(ws[0]), SkimmedAll(ws[1..]), rest);
      SkimmedAccepted(ws[0], cs[0], SkimmedAll(ws[1..]) + rest);
      SkimmedAllAccepted(ws[1..], cs[1..], rest);
      assert cs == [cs[0]] + cs[1..];
    }
  }

  lemma {:induction false} SpellSkimmedAll(n: nat, d: Bytes) returns (ws: seq<SkimmedEntry>)
    requires SkimEntries(n, d).Ok?
    ensures AreSkimmed(ws, SkimEntries(n, d).value.value) && |ws| == n
    ensures d == SkimmedAll(ws) + SkimEntries(n, d).value.rest
  {
    hide SkimEntry, SkimmedBytes, IsSkimmed;
    if n == 0 {
      ws := [];
      ConcatNil(d);
    } else {
      var Read(_, rest) := SkimEntry(d).value;
      var w := SpellSkimmed(d);
      var more := SpellSkimmedAll(n - 1, rest);
      ws := [w] + more;
      assert ws[1..] == more;
      ConcatAssoc(SkimmedBytes(w), SkimmedAll(more), SkimEntries(n - 1, rest).value.rest);
    }
  }

  lemma SkimmedCount(ws: seq<SkimmedEntry>, cs: seq<Column>)
    requires AreSkimmed(ws, cs)
    ensures |ws| == |cs|
  {
    hide IsSkimmed;
  }

  datatype WireHeader = WireHeader(header: Bytes, flags: WireFlags, entries: seq<SkimmedEntry>, rest: Bytes)

  function WireHeaderBytes(w: WireHeader): Bytes {
    w.header + (FlagBytes(w.flags) + (SkimmedAll(w.entries) + w.rest))
  }

  ghost predicate IsWireHeader(w: WireHeader, version: nat, flags: nat, s: Schema, rows: nat) {
    && (version == 1 || version == 2) && IsHeader(w.header, version, |s.columns|, rows)
    && AreFlags(w.flags, version, flags, s.pk) && AreSkimmed(w.entries, s.columns)
  }

  /** ReadSegmentHeader accepts exactly these, and reads off the schema and the row count. */
  lemma SkimExactly(d: Bytes, s: Schema, rows: u64)
    ensures SkimSegment(d) == Ok((s, rows))
       <==> exists w, version: nat, flags: nat :: IsWireHeader(w, version, flags, s, rows) && d == WireHeaderBytes(w)
  {
    hide SkimSegment, IsWireHeader, WireHeaderBytes;
    if SkimSegment(d) == Ok((s, rows)) {
      var w, version, flags := SpellWireHeader(d);
    }
    forall w, version: nat, flags: nat | IsWireHeader(w, version, flags, s, rows) && d == WireHeaderBytes(w)
      ensures SkimSegment(d) == Ok((s, rows))
    {
      WireHeaderAccepted(w, version, flags, s, rows);
    }
  }

  lemma WireHeaderAccepted(w: WireHeader, version: nat, flags: nat, s: Schema, rows: nat)
    requires IsWireHeader(w, version, flags, s, rows)
    ensures rows < TWO_64 && SkimSegment(WireHeaderBytes(w)) == Ok((s, rows))
  {
    hide ReadHeader, ReadVersionFlags, SkimEntries, IsHeader, AreFlags, AreSkimmed, SkimmedAll, FlagBytes;
    HeaderAccepted(w.header, version, |s.columns|, rows, FlagBytes(w.flags) + (SkimmedAll(w.entries) + w.rest));
    FlagsAccepted(w.flags, version, flags, s.pk, SkimmedAll(w.entries) + w.rest);
    SkimmedAllAccepted(w.entries, s.columns, w.rest);
  }

  lemma SpellWireHeader(d: Bytes) returns (w: WireHeader, version: nat, flags: nat)
    requires SkimSegment(d).Ok?
    ensures IsWireHeader(w, version, flags, SkimSegment(d).value.0, SkimSegment(d).value.1) && d == WireHeaderBytes(w)
  {
    hide ReadHeader, ReadVersionFlags, SkimEntries, IsHeader, AreFlags, AreSkimmed, SkimmedAll, FlagBytes;
    var Read((v, n, _), rest) := ReadHeader(d).value;
    SpellHeader(d);
    var fs := SpellFlags(v, rest);
    var Read((f, _), rest') := ReadVersionFlags(v, rest).value;
    var entries := SpellSkimmedAll(n, rest');
    SkimmedCount(entries, SkimEntries(n, rest').value.value);
    w, version, flags := WireHeader(d[..16], fs, entries, SkimEntries(n, rest').value.rest), v, f;
  }
}
