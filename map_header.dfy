/**
 * The header of the older MessagePack collection API (`CollectionSerializer`
 * and `CollectionDeserializer`): before each body the writer puts a
 * two-entry MessagePack map header whose first key is the one-character
 * string "l" and whose value is the body length as an int32, followed by
 * the second key "t"; the body that follows is the map's second value.
 *
 *   0x82 (fixmap, 2 entries)  0xa1 'l'  0xd2 b0 b1 b2 b3  0xa1 't'
 *
 * The writer reverses the bytes of the length on a little-endian machine
 * before encoding it, so b0..b3 are the length most significant first.
 */
module MapHeader {
  import opened Wrappers
  import opened Bytes
  import opened Streams

  const TagFixMap2: byte := 0x82
  const TagFixStr1: byte := 0xa1
  /** 'l', the first letter of the wrapper's length field. */
  const Field1Name: byte := 0x6c
  /** 't', the first letter of the wrapper's item field. */
  const Field2Name: byte := 0x74
  const TagInt32: byte := 0xd2

  /** The MessagePack codes `ReadInt32Async` tells apart. */
  const UInt16Code: byte := 0xcd
  const UInt32Code: byte := 0xce
  const UInt64Code: byte := 0xcf
  const Int16Code: byte := 0xd1
  const Int32Code: byte := 0xd2
  const Int64Code: byte := 0xd3
  /** The largest positive fixint. */
  const MaxFixInt: int := 127

  /** Fixmap tag, fixstr tag, one character. */
  const Header1Length: nat := 3
  /** Fixstr tag, one character. */
  const Header2Length: nat := 2
  const MaxHeaderLength: nat := Header1Length + 1 + 4 + Header2Length

  datatype HeaderError =
    | InvalidTotalBytes(written: nat)
    | InvalidByte(found: byte, expected: byte)
    | Int64NotSupported
    | Int16NotSupported
    | UnknownPackingCode(code: byte)

  // ---------------------------------------------------------------------
  // Writing (CollectionSerializer)
  // ---------------------------------------------------------------------

  /** The `int` that `WriteHeaderAsync` encodes: the length, byte-reversed on a little-endian machine. */
  function WrittenValue(i: int32, isLittleEndian: bool): int32 {
    if isLittleEndian then ReverseEndianness(i) else i
  }

  /**
   * What `WriteInt32` emits: a value up to `MaxFixInt` as one byte (its low
   * eight bits, so a negative value too), anything larger as `0xd2` and its
   * four bytes least significant first.
   */
  function Int32Encoding(v: int32): (e: seq<byte>)
    ensures |e| == 1 || |e| == 5
  {
    if v <= MaxFixInt then [v % 0x100] else [TagInt32] + Int32Bytes(v)
  }

  /** The two keys of the map around an encoded value. */
  function MapFields(value: seq<byte>): (h: seq<byte>)
    ensures |h| == Header1Length + |value| + Header2Length
  {
    [TagFixMap2, TagFixStr1, Field1Name] + value + [TagFixStr1, Field2Name]
  }

  /**
   * `WriteHeaderAsync` as written: the bytes are assembled first, and
   * anything but `MaxHeaderLength` of them is an error.
   */
  function HeaderAsWritten(i: int32, isLittleEndian: bool): (r: Result<seq<byte>, HeaderError>)
  {
    var h := MapFields(Int32Encoding(WrittenValue(i, isLittleEndian)));
    if |h| != MaxHeaderLength then Err(InvalidTotalBytes(|h|)) else Ok(h)
  }

  /** The header the writer is evidently meant to produce: the int32 form for every length. */
  function HeaderFixed(i: int32, isLittleEndian: bool): (h: seq<byte>)
    ensures |h| == MaxHeaderLength
  {
    MapFields([TagInt32] + Int32Bytes(WrittenValue(i, isLittleEndian)))
  }

  /**
   * `WriteInt32(buf, ref f, i)`: writes the encoding of `i` at `f` and
   * returns the advanced cursor; the rest of `buf` is untouched. The four
   * bytes are `(byte)(i >> 8 * k)`; for a positive `int` the arithmetic
   * shift is a floor division.
   */
  method WriteInt32(buf: array<byte>, f: nat, i: int32) returns (f2: nat)
    requires f + 5 <= buf.Length
    modifies buf
    ensures f2 == f + |Int32Encoding(i)|
    ensures buf[..f] == old(buf[..f]) && buf[f..f2] == Int32Encoding(i) && buf[f2..] == old(buf[f2..])
  {
    if i <= MaxFixInt {
      buf[f] := i % 0x100;
      f2 := f + 1;
      assert buf[f..f2] == [i % 0x100];
    } else {
      buf[f] := TagInt32;
      buf[f + 1] := i % 0x100;
      buf[f + 2] := i / 0x100 % 0x100;
      buf[f + 3] := i / 0x1_0000 % 0x100;
      buf[f + 4] := i / 0x100_0000 % 0x100;
      f2 := f + 5;
      assert buf[f..f2] == [TagInt32, i % 0x100, i / 0x100 % 0x100, i / 0x1_0000 % 0x100, i / 0x100_0000 % 0x100];
      PositiveInt32Bytes(i);
    }
  }

  /** For a non-negative `int`, the byte shifts are floor divisions of the value itself. */
  lemma PositiveInt32Bytes(i: int32)
    requires i >= 0
    ensures Int32Bytes(i) == [i % 0x100, i / 0x100 % 0x100, i / 0x1_0000 % 0x100, i / 0x100_0000 % 0x100]
  {
  }

  /**
   * `WriteHeaderAsync(stream, i)`: fills the rented buffer `buf` through a
   * cursor, checks the cursor against `MaxHeaderLength` and only then sends
   * the header to the stream in one write.
   */
  method WriteHeaderAsync(stream: OutputStream, buf: array<byte>, i: int32, isLittleEndian: bool)
    returns (r: Result<(), HeaderError>)
    requires buf.Length >= MaxHeaderLength
    modifies stream, buf
    ensures r.Ok? <==> HeaderAsWritten(i, isLittleEndian).Ok?
    ensures r.Ok? ==> stream.contents == old(stream.contents) + HeaderAsWritten(i, isLittleEndian).value
                        && stream.writeSizes == old(stream.writeSizes) + [MaxHeaderLength]
    ensures r.Err? ==> r.error == HeaderAsWritten(i, isLittleEndian).error
                         && stream.contents == old(stream.contents) && stream.writeSizes == old(stream.writeSizes)
    ensures stream.flushCount == old(stream.flushCount)
  {
    var v := i;
    if isLittleEndian {
      v := ReverseEndianness(v);
    }
    var f := 0;
    buf[f] := TagFixMap2;
    f := f + 1;
    buf[f] := TagFixStr1;
    f := f + 1;
    buf[f] := Field1Name;
    f := f + 1;
    f := WriteInt32(buf, f, v);
    buf[f] := TagFixStr1;
    f := f + 1;
    buf[f] := Field2Name;
    f := f + 1;
    assert buf[..f] == MapFields(Int32Encoding(v));
    if f != MaxHeaderLength {
      return Err(InvalidTotalBytes(f));
    }
    stream.Write(buf, 0, MaxHeaderLength);
    r := Ok(());
  }

  /** The header is written exactly when the value handed to `WriteInt32` is above `MaxFixInt`, and then it is the int32 form. */
  lemma HeaderAsWrittenSucceeds(i: int32, isLittleEndian: bool)
    ensures HeaderAsWritten(i, isLittleEndian).Ok? <==> WrittenValue(i, isLittleEndian) > MaxFixInt
    ensures HeaderAsWritten(i, isLittleEndian).Ok? ==> HeaderAsWritten(i, isLittleEndian).value == HeaderFixed(i, isLittleEndian)
    ensures HeaderAsWritten(i, isLittleEndian).Err? ==> HeaderAsWritten(i, isLittleEndian).error == InvalidTotalBytes(6)
  {
  }

  /**
   * The layout of the header: the two keys around `0xd2` and the length,
   * most significant byte first on a little-endian machine.
   */
  lemma HeaderFixedLayout(i: int32, isLittleEndian: bool)
    ensures var h := HeaderFixed(i, isLittleEndian);
            && h[..Header1Length] == [TagFixMap2, TagFixStr1, Field1Name]
            && h[Header1Length] == TagInt32
            && h[MaxHeaderLength - Header2Length..] == [TagFixStr1, Field2Name]
            && (isLittleEndian ==> h[4..8] == UInt32BigEndian(ToUInt32(i)))
            && (!isLittleEndian ==> h[4..8] == Int32Bytes(i))
  {
    ReversedBytesAreBigEndian(i);
    var h := HeaderFixed(i, isLittleEndian);
    assert h[4..8] == Int32Bytes(WrittenValue(i, isLittleEndian));
  }

  /**
   * As written, on a little-endian machine every length whose low byte has
   * its top bit set fails: the reversed value is negative, takes the
   * one-byte branch, and the six-byte header is refused. 128 is one.
   */
  lemma LittleEndianLengthRefused(i: int32)
    requires i % 0x100 >= 0x80
    ensures HeaderAsWritten(i, true) == Err(InvalidTotalBytes(6))
  {
    var b := Int32Bytes(i);
    assert b[0] == i % 0x100;
    assert Int32Bytes(ReverseEndianness(i))[3] == b[0];
    assert ReverseEndianness(i) < 0;
  }

  lemma LengthOneHundredTwentyEightRefused()
    ensures HeaderAsWritten(128, true) == Err(InvalidTotalBytes(6))
    ensures HeaderAsWritten(0, true) == Err(InvalidTotalBytes(6))
    ensures HeaderAsWritten(100, false) == Err(InvalidTotalBytes(6))
  {
    LittleEndianLengthRefused(128);
    assert Int32Bytes(0) == [0, 0, 0, 0];
    Int32OfBytesOfInt32Bytes(0);
  }

  // ---------------------------------------------------------------------
  // Reading (CollectionDeserializer)
  // ---------------------------------------------------------------------

  /**
   * `ReadInt32Async` on the bytes left in the stream: the outcome and the
   * number of bytes it takes, or `None` when the stream ends inside the
   * value (the outcome then depends on what the rented buffer held).
   */
  function ParseInt32(rem: seq<byte>, isLittleEndian: bool): (r: Option<(Result<int32, HeaderError>, nat)>)
    ensures r.Some? ==> 1 <= r.value.1 <= |rem|
  {
    if |rem| < 1 then None
    else
      var b := rem[0];
      if b == Int64Code || b == UInt64Code then Some((Err(Int64NotSupported), 1))
      else if b == Int32Code || b == UInt32Code then
        if |rem| < 5 then None
        else
          var x := Int32OfBytes(rem[1..5]);
          Some((Ok(if isLittleEndian then ReverseEndianness(x) else x), 5))
      else if b == Int16Code || b == UInt16Code then Some((Err(Int16NotSupported), 1))
      else if b < 0x80 then Some((Ok(b), 1))
      else Some((Err(UnknownPackingCode(b)), 1))
  }

  /**
   * `ReadHeaderAsync` on a stream that is not at its end: the first key,
   * the value, the second key. A mismatched byte is an error once the three
   * (or two) bytes that hold it are read.
   */
  function ParseMapHeader(rem: seq<byte>, isLittleEndian: bool): (r: Option<(Result<int32, HeaderError>, nat)>)
    ensures r.Some? ==> Header1Length <= r.value.1 <= |rem|
  {
    if |rem| < Header1Length then None
    else if rem[0] != TagFixMap2 then Some((Err(InvalidByte(rem[0], TagFixMap2)), Header1Length))
    else if rem[1] != TagFixStr1 then Some((Err(InvalidByte(rem[1], TagFixStr1)), Header1Length))
    else if rem[2] != Field1Name then Some((Err(InvalidByte(rem[2], Field1Name)), Header1Length))
    else
      match ParseHeaderTail(rem[Header1Length..], isLittleEndian)
      case None => None
      case Some((res, n)) => Some((res, Header1Length + n))
  }

  /** What follows the first key: the value, then the second key. */
  function ParseHeaderTail(rest: seq<byte>, isLittleEndian: bool): (r: Option<(Result<int32, HeaderError>, nat)>)
    ensures r.Some? ==> 1 <= r.value.1 <= |rest|
  {
    match ParseInt32(rest, isLittleEndian)
    case None => None
    case Some((Err(e), n)) => Some((Err(e), n))
    case Some((Ok(len), n)) =>
      if |rest| < n + Header2Length then None
      else if rest[n] != TagFixStr1 then Some((Err(InvalidByte(rest[n], TagFixStr1)), n + Header2Length))
      else if rest[n + 1] != Field2Name then Some((Err(InvalidByte(rest[n + 1], Field2Name)), n + Header2Length))
      else Some((Ok(len), n + Header2Length))
  }

  /** `CheckByte`. */
  function CheckByte(b: byte, expected: byte): (r: Result<(), HeaderError>)
    ensures r.Ok? <==> b == expected
  {
    if b != expected then Err(InvalidByte(b, expected)) else Ok(())
  }

  /**
   * `ReadInt32Async(s, buf)`: reads the code, then for an int32 or uint32
   * code the four bytes, assembled least significant first and reversed on
   * a little-endian machine. The return values of the reads are not
   * checked.
   */
  method ReadInt32Async(s: InputStream, buf: array<byte>, isLittleEndian: bool) returns (r: Result<int32, HeaderError>)
    requires s.Valid() && buf.Length >= 4
    modifies s, buf
    ensures s.Valid() && s.position >= old(s.position)
    ensures var p := ParseInt32(s.data[old(s.position)..], isLittleEndian);
            s.maxChunk >= 4 && p.Some? ==> r == p.value.0 && s.position == old(s.position) + p.value.1
  {
    ghost var rem := s.data[s.position..];
    var _ := s.Read(buf, 0, 1);
    var b := buf[0];
    if b == Int64Code || b == UInt64Code {
      return Err(Int64NotSupported);
    } else if b == Int32Code || b == UInt32Code {
      var _ := s.Read(buf, 0, 4);
      assert s.maxChunk >= 4 && |rem| >= 5 ==> buf[..4] == rem[1..5];
      var i := Int32OfBytes(buf[..4]);
      if isLittleEndian {
        i := ReverseEndianness(i);
      }
      r := Ok(i);
    } else if b == Int16Code || b == UInt16Code {
      return Err(Int16NotSupported);
    } else if b < 0x80 {
      r := Ok(b);
    } else {
      return Err(UnknownPackingCode(b));
    }
  }

  /**
   * `ReadHeaderAsync(s)`: `(false, default)` when the first read returns no
   * byte, otherwise the checked header and the length it holds.
   */
  method ReadHeaderAsync(s: InputStream, buf: array<byte>, isLittleEndian: bool)
    returns (r: Result<(bool, int32), HeaderError>)
    requires s.Valid() && buf.Length >= MaxHeaderLength
    modifies s, buf
    ensures s.Valid()
    ensures old(s.position) == |s.data| ==> r == Ok((false, 0)) && s.position == old(s.position)
    ensures var p := ParseMapHeader(s.data[old(s.position)..], isLittleEndian);
            old(s.position) < |s.data| && s.maxChunk >= 4 && p.Some? ==>
              && s.position == old(s.position) + p.value.1
              && r == (if p.value.0.Ok? then Ok((true, p.value.0.value)) else Err(p.value.0.error))
  {
    ghost var rem := s.data[s.position..];
    var outLen := s.Read(buf, 0, Header1Length);
    if outLen == 0 {
      return Ok((false, 0));
    }
    assert s.maxChunk >= 4 && |rem| >= Header1Length ==> buf[..3] == rem[..3] && s.data[s.position..] == rem[3..];
    var c := CheckByte(buf[0], TagFixMap2);
    if c.Err? { return Err(c.error); }
    c := CheckByte(buf[1], TagFixStr1);
    if c.Err? { return Err(c.error); }
    c := CheckByte(buf[2], Field1Name);
    if c.Err? { return Err(c.error); }
    var len := ReadHeaderTail(s, buf, isLittleEndian);
    if len.Err? { return Err(len.error); }
    r := Ok((true, len.value));
  }

  /** The value and the second key, read after the first key. */
  method ReadHeaderTail(s: InputStream, buf: array<byte>, isLittleEndian: bool) returns (r: Result<int32, HeaderError>)
    requires s.Valid() && buf.Length >= MaxHeaderLength
    modifies s, buf
    ensures s.Valid() && s.position >= old(s.position)
    ensures var p := ParseHeaderTail(s.data[old(s.position)..], isLittleEndian);
            s.maxChunk >= 4 && p.Some? ==> r == p.value.0 && s.position == old(s.position) + p.value.1
  {
    ghost var rem := s.data[s.position..];
    var len := ReadInt32Async(s, buf, isLittleEndian);
    if len.Err? { return Err(len.error); }
    ghost var k := s.position - old(s.position);
    var _ := s.Read(buf, 0, Header2Length);
    if s.maxChunk >= 4 && |rem| >= k + Header2Length {
      assert buf[..2] == rem[k..k + 2];
    }
    var c := CheckByte(buf[0], TagFixStr1);
    if c.Err? { return Err(c.error); }
    c := CheckByte(buf[1], Field2Name);
    if c.Err? { return Err(c.error); }
    r := Ok(len.value);
  }

  /** The codes the reader accepts: a top-bit-clear byte stands for itself, an int32 or uint32 code for the next four bytes. */
  lemma ParseInt32Accepts(rem: seq<byte>, isLittleEndian: bool)
    requires |rem| >= 1 && ParseInt32(rem, isLittleEndian).Some?
    ensures var r := ParseInt32(rem, isLittleEndian).value;
            r.0.Ok? <==> rem[0] < 0x80 || rem[0] == Int32Code || rem[0] == UInt32Code
    ensures rem[0] < 0x80 ==> ParseInt32(rem, isLittleEndian).value == (Ok(rem[0] as int32), 1)
    ensures rem[0] in {Int64Code, UInt64Code} ==> ParseInt32(rem, isLittleEndian).value.0 == Err(Int64NotSupported)
    ensures rem[0] in {Int16Code, UInt16Code} ==> ParseInt32(rem, isLittleEndian).value.0 == Err(Int16NotSupported)
  {
  }

  /** A header that does not start with the first key is refused after its first three bytes. */
  lemma ParseMapHeaderRejectsFirstKey(rem: seq<byte>, isLittleEndian: bool)
    requires |rem| >= Header1Length && rem[..Header1Length] != [TagFixMap2, TagFixStr1, Field1Name]
    ensures ParseMapHeader(rem, isLittleEndian).Some?
    ensures ParseMapHeader(rem, isLittleEndian).value.0.Err?
    ensures ParseMapHeader(rem, isLittleEndian).value.1 == Header1Length
  {
  }

  /** A header whose value is not followed by the second key is refused. */
  lemma ParseMapHeaderRejectsSecondKey(value: seq<byte>, key: seq<byte>, rest: seq<byte>, isLittleEndian: bool)
    requires ParseInt32(value, isLittleEndian).Some? && ParseInt32(value, isLittleEndian).value == (ParseInt32(value, isLittleEndian).value.0, |value|)
    requires ParseInt32(value, isLittleEndian).value.0.Ok?
    requires |key| == Header2Length && key != [TagFixStr1, Field2Name]
    ensures ParseMapHeader([TagFixMap2, TagFixStr1, Field1Name] + value + key + rest, isLittleEndian)
              == Some((Err(if key[0] != TagFixStr1 then InvalidByte(key[0], TagFixStr1) else InvalidByte(key[1], Field2Name)),
                       Header1Length + |value| + Header2Length))
  {
    var rem := [TagFixMap2, TagFixStr1, Field1Name] + value + key + rest;
    assert rem[Header1Length..] == value + (key + rest);
    ParseInt32Prefix(value, key + rest, isLittleEndian);
    assert rem[Header1Length + |value|..Header1Length + |value| + 2] == key;
  }

  /** `ParseInt32` reads no further than the value it finds. */
  lemma ParseInt32Prefix(value: seq<byte>, rest: seq<byte>, isLittleEndian: bool)
    requires ParseInt32(value, isLittleEndian).Some?
    ensures ParseInt32(value + rest, isLittleEndian) == ParseInt32(value, isLittleEndian)
  {
    if |value| >= 5 {
      assert (value + rest)[1..5] == value[1..5];
    }
  }

  /** The reader gives back the length the corrected writer puts in the header, and takes all ten bytes. */
  lemma ParseMapHeaderOfHeaderFixed(i: int32, isLittleEndian: bool, rest: seq<byte>)
    ensures ParseMapHeader(HeaderFixed(i, isLittleEndian) + rest, isLittleEndian) == Some((Ok(i), MaxHeaderLength))
  {
    var v := WrittenValue(i, isLittleEndian);
    var rem := HeaderFixed(i, isLittleEndian) + rest;
    assert HeaderFixed(i, isLittleEndian)[4..8] == Int32Bytes(v);
    assert rem[Header1Length..][1..5] == rem[4..8] == Int32Bytes(v);
    Int32OfBytesOfInt32Bytes(v);
    if isLittleEndian {
      ReverseEndiannessTwice(i);
    }
    assert ParseInt32(rem[Header1Length..], isLittleEndian) == Some((Ok(i), 5));
    assert rem[8..10] == [TagFixStr1, Field2Name];
  }

  /** Whenever the writer as written does emit a header, the reader gives the length back. */
  lemma ParseMapHeaderOfHeaderAsWritten(i: int32, isLittleEndian: bool, rest: seq<byte>)
    requires HeaderAsWritten(i, isLittleEndian).Ok?
    ensures ParseMapHeader(HeaderAsWritten(i, isLittleEndian).value + rest, isLittleEndian) == Some((Ok(i), MaxHeaderLength))
  {
    HeaderAsWrittenSucceeds(i, isLittleEndian);
    ParseMapHeaderOfHeaderFixed(i, isLittleEndian, rest);
  }
}
