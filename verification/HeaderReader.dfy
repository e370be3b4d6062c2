/** The second reader of the format: ReadSegmentHeader takes the schema and the row count from
    a stream and skips the payloads (storage/segment.go). */
module HeaderReader {
  import opened Wrappers
  import opened Words
  import opened Uvarint
  import opened Types
  import opened SegmentFormat

  /** io.CopyN(io.Discard, r, int64(n)): a count that is negative as an int64 skips nothing. */
  function Skip(n: nat, d: Bytes): Parsed<()> {
    if n >= TWO_63 then Ok(Read((), d)) else if n > |d| then Err(Truncated) else Ok(Read((), d[n..]))
  }

  /** A column block without its payload; the encoding tag is not looked at. */
  function SkimEntry(d: Bytes): Parsed<Column> {
    match ReadBlob(d)
    case Err(e) => Err(e)
    case Ok(Read(name, rest)) =>
      if |rest| < 2 then Err(Truncated)
      else
        match FromWireTag(rest[0])
        case None => Err(UnknownWireType)
        case Some(ty) =>
          match GetUvarint(rest[2..])
          case None => Err(Truncated)
          case Some((len, n)) =>
            match Skip(len, rest[2..][n..])
            case Err(e) => Err(e)
            case Ok(Read(_, rest')) => Ok(Read(Column(name, ty), rest'))
  }

  function SkimEntries(n: nat, d: Bytes): Parsed<seq<Column>> {
    if n == 0 then Ok(Read([], d))
    else
      match SkimEntry(d)
      case Err(e) => Err(e)
      case Ok(Read(c, rest)) =>
        match SkimEntries(n - 1, rest)
        case Err(e) => Err(e)
        case Ok(Read(cs, rest')) => Ok(Read([c] + cs, rest'))
  }

  function SkimSegment(d: Bytes): Result<(Schema, u64), SegmentError> {
    match ReadHeader(d)
    case Err(e) => Err(e)
    case Ok(Read((version, n, rowCount), rest)) =>
      match ReadVersionFlags(version, rest)
      case Err(e) => Err(e)
      case Ok(Read((_, pk), rest')) =>
        match SkimEntries(n, rest')
        case Err(e) => Err(e)
        case Ok(Read(cs, _)) => Ok((Schema(pk, cs), rowCount))
  }

  // ---- The two readers agree ----

  lemma SkimsWhatItReads(d: Bytes)
    requires ReadEntry(d).Ok? && |d| < TWO_63
    ensures var Read(e, rest) := ReadEntry(d).value; SkimEntry(d) == Ok(Read(Column(e.name, e.ty), rest))
    ensures |ReadEntry(d).value.rest| < TWO_63
  {
  }

  lemma {:induction false} SkimsAllItReads(n: nat, d: Bytes)
    requires ReadEntries(n, d).Ok? && |d| < TWO_63
    ensures var Read(es, rest) := ReadEntries(n, d).value; SkimEntries(n, d) == Ok(Read(Columns(es), rest))
  {
    hide ReadEntry, SkimEntry;
    if n > 0 {
      var Read(e, rest) := ReadEntry(d).value;
      SkimsWhatItReads(d);
      SkimsAllItReads(n - 1, rest);
      var es := ReadEntries(n - 1, rest).value.value;
      assert Columns([e] + es) == [Column(e.name, e.ty)] + Columns(es);
    }
  }

  /** Whatever parseSegment accepts, the header reader accepts with the same schema and row
      count. */
  lemma ReadersAgree(d: Bytes)
    requires ParseImage(d).Ok? && |d| < TWO_63
    ensures SkimSegment(d) == Ok((SchemaOf(ParseImage(d).value.body), ParseImage(d).value.body.rowCount))
  {
    hide ReadEntries, SkimEntries, ParseTrailer;
    var Read((version, n, rowCount), rest) := ReadHeader(d).value;
    var Read(_, rest') := ReadVersionFlags(version, rest).value;
    SkimsAllItReads(n, rest');
  }

  // ---- The stream ----

  /** The bytes still to come. */
  class Stream {
    var rest: Bytes

    constructor (data: Bytes)
      ensures rest == data
    {
      rest := data;
    }

    /** io.ReadFull into a buffer of n bytes. */
    method ReadFull(n: nat) returns (r: Option<Bytes>)
      modifies this
      ensures r.Some? <==> n <= |old(rest)|
      ensures r.Some? ==> r.value == old(rest)[..n] && rest == old(rest)[n..]
    {
      if n > |rest| {
        rest := [];
        return None;
      }
      r := Some(rest[..n]);
      rest := rest[n..];
    }

    /** binary.ReadUvarint. */
    method ReadUvarint() returns (r: Option<nat>)
      modifies this
      ensures r.Some? <==> GetUvarint(old(rest)).Some?
      ensures r.Some? ==> var (x, n) := GetUvarint(old(rest)).value; r.value == x && rest == old(rest)[n..]
    {
      hide GetUvarint;
      var read := GetUvarint(rest);
      if read == None {
        return None;
      }
      rest := rest[read.value.1..];
      return Some(read.value.0);
    }

    method ReadName() returns (r: Option<Bytes>)
      modifies this
      ensures match ReadBlob(old(rest))
              case Err(e) => r == None && e == Truncated
              case Ok(Read(b, after)) => r == Some(b) && rest == after
    {
      hide GetUvarint;
      var len := ReadUvarint();
      if len == None {
        return None;
      }
      r := ReadFull(len.value);
    }

    method Discard(n: nat) returns (ok: bool)
      modifies this
      ensures match Skip(n, old(rest))
              case Err(_) => !ok
              case Ok(Read(_, after)) => ok && rest == after
    {
      if n >= TWO_63 {
        return true;
      }
      if n > |rest| {
        rest := [];
        return false;
      }
      rest := rest[n..];
      return true;
    }

    method ReadColumnMeta() returns (r: Result<Column, SegmentError>)
      modifies this
      ensures match SkimEntry(old(rest))
              case Err(e) => r == Err(e)
              case Ok(Read(c, after)) => r == Ok(c) && rest == after
    {
      hide ReadBlob, GetUvarint;
      var name := ReadName();
      if name == None {
        return Err(Truncated);
      }
      var tags := ReadFull(2);
      if tags == None {
        return Err(Truncated);
      }
      var ty := FromWireTag(tags.value[0]);
      if ty == None {
        return Err(UnknownWireType);
      }
      var len := ReadUvarint();
      if len == None {
        return Err(Truncated);
      }
      var ok := Discard(len.value);
      if !ok {
        return Err(Truncated);
      }
      return Ok(Column(name.value, ty.value));
    }

    method ReadFlagsBlock() returns (r: Result<Bytes, SegmentError>)
      modifies this
      ensures match ReadFlags(old(rest))
              case Err(e) => r == Err(e)
              case Ok(Read((_, pk), after)) => r == Ok(pk) && rest == after
    {
      hide ReadBlob;
      var flagsBuf := ReadName();
      if flagsBuf == None {
        return Err(Truncated);
      }
      if flagsBuf.value == [] {
        return Err(BadFlagsLen);
      }
      if !HasPKFlag(flagsBuf.value[0]) {
        return Ok([]);
      }
      var name := ReadName();
      if name == None {
        return Err(Truncated);
      }
      return Ok(name.value);
    }
  }

  method ReadSegmentHeader(br: Stream) returns (r: Result<(Schema, u64), SegmentError>)
    modifies br
    ensures r == SkimSegment(old(br.rest))
  {
    hide SkimEntry, ReadFlags;
    ghost var d := br.rest;
    var read := br.ReadFull(HEADER_LEN);
    if read == None {
      return Err(Truncated);
    }
    var hdr := read.value;
    assert hdr[0..4] == d[0..4] && hdr[4..6] == d[4..6] && hdr[6..8] == d[6..8] && hdr[8..16] == d[8..16];
    if hdr[0..4] != MAGIC {
      return Err(BadMagic);
    }
    var version := FromLE(hdr[4..6]);
    if version != 1 && version != 2 {
      return Err(UnsupportedVersion);
    }
    var columnCount, rowCount := FromLE(hdr[6..8]), FromLE64(hdr[8..16]);
    var schema := Schema([], []);
    if version == 2 {
      var pk := br.ReadFlagsBlock();
      if pk.Err? {
        return Err(pk.error);
      }
      schema := schema.(pk := pk.value);
    }
    ghost var whole := SkimEntries(columnCount, br.rest);
    if whole.Ok? { ConcatNil(whole.value.value); }
    for i := 0 to columnCount
      invariant schema.pk == ReadVersionFlags(version, d[HEADER_LEN..]).value.value.1
      invariant match SkimEntries(columnCount - i, br.rest)
                case Err(e) => whole == Err(e)
                case Ok(Read(cs, after)) => whole == Ok(Read(schema.columns + cs, after))
    {
      ghost var before := schema.columns;
      var c := br.ReadColumnMeta();
      if c.Err? {
        return Err(c.error);
      }
      schema := schema.(columns := schema.columns + [c.value]);
      if SkimEntries(columnCount - i - 1, br.rest).Ok? {
        ConcatAssoc(before, [c.value], SkimEntries(columnCount - i - 1, br.rest).value.value);
      }
    }
    ConcatNil(schema.columns);
    return Ok((schema, rowCount));
  }
}
