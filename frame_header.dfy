/**
 * The frame header of the parallel MessagePack collection format. Every item
 * in a stream is a two-element array: the byte length of its body as an
 * unsigned int, then the body itself. `CollectionSerializerAsync` writes the
 * header by hand, `CollectionDeserializerAsync` reads it by hand from a
 * stream, and `FrameItemFormatter` reads and writes it through the
 * MessagePack library's reader and writer.
 *
 * A stream is modelled as the bytes it holds and a read position; a read that
 * succeeds gives back the new position.
 */
module FrameHeader {
  import opened Bytes
  import opened Wrappers
  import opened MessagePack
  import UIntWriter
  import Frames

  /** The array header of a frame: a fixarray of two elements. */
  const FixArraySize2: byte := MinFixArray + 2
  /** The array header, the uint 32 code and its four payload bytes. */
  const HeaderMaxLength: nat := 1 + 1 + 4
  /** A frame is an array of this many elements: length, then body. */
  const ParallelItemTotElems: nat := 2

  /** The exceptions the framing code throws, one per message. */
  datatype Error =
    | UnexpectedEndOfStream
    | UnexpectedMsgPackCode(code: byte)
    | FrameLengthTooLarge(length: uint32)
    | UnexpectedBodyLength(read: nat, expected: nat)
    | InvalidArrayHeader(count: nat)
    | InvalidBodyLength(length: uint32)
    | UnassignedFrame
    | Reader(cause: ReadError)

  // ---------------------------------------------------------------------
  // Writing (CollectionSerializerAsync)
  // ---------------------------------------------------------------------

  /**
   * `WriteHeader(Stream, uint)`: the array header, then the length in the
   * shortest unsigned form.
   */
  function HeaderBytes(value: uint32): (h: seq<byte>)
    ensures 2 <= |h| <= HeaderMaxLength && h[0] == FixArraySize2
  {
    [FixArraySize2] + UIntWriter.Encode(value)
  }

  /**
   * `WriteHeader(Span<byte>, uint)`: writes the array header and the length
   * into the front of the span and returns the count, one more than
   * `WriteUInt` returns. The stream overload sends the first `count` bytes of
   * a `HeaderMaxLength` byte span: `HeaderBytes`.
   */
  function WriteHeaderToSpan(buffer: seq<byte>, value: uint32): (w: UIntWriter.Written)
    requires |buffer| >= 1 + UIntWriter.SpaceNeeded(value)
    ensures |w.span| == |buffer| && w.count <= |buffer|
    ensures w.span[..w.count] == HeaderBytes(value)
    ensures w.span[w.count..] == buffer[w.count..]
  {
    var inner := UIntWriter.WriteUInt(buffer[1..], value);
    UIntWriter.EncodeIsWrittenPrefix(buffer[1..], value);
    UIntWriter.Written([FixArraySize2] + inner.span, inner.count + 1)
  }

  /**
   * What `FrameItemFormatter.Serialize` writes for a body: the array header
   * for two elements, the body length as the library writes a `uint`, then
   * the body.
   */
  function FrameBytes(body: seq<byte>): (r: seq<byte>)
    requires |body| <= Int32Max
  {
    FixArrayHeader(ParallelItemTotElems) + UIntWriter.Encode(|body|) + body
  }

  /** The formatter's frame is the async serializer's header followed by the body. */
  lemma FrameBytesIsHeaderAndBody(body: seq<byte>)
    requires |body| <= Int32Max
    ensures FrameBytes(body) == HeaderBytes(|body|) + body
  {
  }

  // ---------------------------------------------------------------------
  // Reading by hand (CollectionDeserializerAsync)
  // ---------------------------------------------------------------------

  /** `UnpackUInt8`: one byte; the end of the stream is an error. */
  function UnpackUInt8(s: seq<byte>, pos: nat): (r: Result<(uint32, nat), Error>)
    ensures r.Ok? <==> pos < |s|
    ensures r.Ok? ==> r.value == (FromBigEndian(s[pos..pos + 1]), pos + 1)
  {
    if pos < |s| then
      assert FromBigEndian(s[pos..pos + 1]) == s[pos] by {
        assert s[pos..pos + 1][..0] == [];
      }
      Ok((s[pos] as uint32, pos + 1))
    else Err(UnexpectedEndOfStream)
  }

  /** `UnpackUInt16`: a read of two bytes must return both; big endian. */
  function UnpackUInt16(s: seq<byte>, pos: nat): (r: Result<(uint32, nat), Error>)
    ensures r.Ok? <==> pos + 2 <= |s|
    ensures r.Ok? ==> r.value == (FromBigEndian(s[pos..pos + 2]), pos + 2)
  {
    if pos + 2 <= |s| then Ok((FromBigEndian(s[pos..pos + 2]), pos + 2))
    else Err(UnexpectedEndOfStream)
  }

  /** `UnpackUInt32`: a read of four bytes must return all four; big endian. */
  function UnpackUInt32(s: seq<byte>, pos: nat): (r: Result<(uint32, nat), Error>)
    ensures r.Ok? <==> pos + 4 <= |s|
    ensures r.Ok? ==> r.value == (FromBigEndian(s[pos..pos + 4]), pos + 4)
  {
    if pos + 4 <= |s| then
      assert Pow256(4) == UInt32Max + 1;
      Ok((FromBigEndian(s[pos..pos + 4]), pos + 4))
    else Err(UnexpectedEndOfStream)
  }

  /** `UnpackFixedUInt`: a positive fixint with its (clear) top bit masked off. */
  function UnpackFixedUInt(b: byte): (v: uint32)
    requires b < 0x80
    ensures v == b
  {
    b % 0x80
  }

  /** The number of payload bytes after the unsigned codes `UnpackUIntX` accepts. */
  function PayloadWidth(code: byte): nat {
    if code == UInt32 then 4 else if code == UInt16 then 2 else if code == UInt8 then 1 else 0
  }

  /**
   * `UnpackUIntX`: positive fixint, uint 8, uint 16 or uint 32. Any other code
   * (uint 64 and the signed forms included) and a truncated payload throw.
   */
  function UnpackUIntX(s: seq<byte>, pos: nat): (r: Result<(uint32, nat), Error>)
    ensures r.Ok? ==> pos < r.value.1 <= |s|
  {
    if pos >= |s| then Err(UnexpectedEndOfStream)
    else
      var b := s[pos];
      if b == UInt32 then
        UnpackUInt32(s, pos + 1)
      else if b == UInt16 then
        UnpackUInt16(s, pos + 1)
      else if b == UInt8 then
        UnpackUInt8(s, pos + 1)
      else if b < 0x80 then
        Ok((UnpackFixedUInt(b), pos + 1))
      else
        Err(UnexpectedMsgPackCode(b))
  }

  /** The exceptions `UnpackUIntX` raises: end of stream, an unexpected code, a truncated payload. */
  lemma UnpackUIntXRejects(s: seq<byte>, pos: nat)
    ensures pos >= |s| ==> UnpackUIntX(s, pos) == Err(UnexpectedEndOfStream)
    ensures pos < |s| && s[pos] >= 0x80 && PayloadWidth(s[pos]) == 0 ==>
              UnpackUIntX(s, pos) == Err(UnexpectedMsgPackCode(s[pos]))
    ensures pos < |s| && PayloadWidth(s[pos]) > 0 && pos + 1 + PayloadWidth(s[pos]) > |s| ==>
              UnpackUIntX(s, pos) == Err(UnexpectedEndOfStream)
  {
  }

  /** What `UnpackUIntX` accepts is an unsigned encoding other than uint 64 of the value it returns. */
  lemma UnpackUIntXAcceptsEncoding(s: seq<byte>, pos: nat)
    requires UnpackUIntX(s, pos).Ok?
    ensures s[pos] != UInt64
    ensures IsUIntEncoding(s[pos..UnpackUIntX(s, pos).value.1], UnpackUIntX(s, pos).value.0)
  {
    var b := s[pos];
    if b == UInt32 {
      assert s[pos..pos + 5][1..] == s[pos + 1..pos + 5];
    } else if b == UInt16 {
      assert s[pos..pos + 3][1..] == s[pos + 1..pos + 3];
    }
  }

  /** `UnpackUIntX` reads back every encoding it accepts, wherever it sits in the stream. */
  lemma UnpackUIntXReadsEncoding(s: seq<byte>, pos: nat, e: seq<byte>, v: uint32)
    requires IsUIntEncoding(e, v) && e[0] != UInt64
    requires pos + |e| <= |s| && s[pos..pos + |e|] == e
    ensures UnpackUIntX(s, pos) == Ok((v, pos + |e|))
  {
    assert s[pos] == e[0];
    assert s[pos + 1..pos + |e|] == e[1..];
    if |e| == 2 {
      assert e[1..] == [e[1]];
    }
  }

  /**
   * `ReadHeader`: false (`None`) exactly at the end of the stream; otherwise
   * the array header must be fixarray(2) and the length must fit an `int`.
   */
  function ReadHeader(s: seq<byte>, pos: nat): (r: Result<Option<(nat, nat)>, Error>)
    ensures r == Ok(None) <==> pos >= |s|
    ensures r.Ok? && r.value.Some? ==>
              && s[pos] == FixArraySize2
              && pos + 1 < r.value.value.1 <= |s|
              && r.value.value.0 <= Int32Max
  {
    if pos >= |s| then Ok(None)
    else if s[pos] != FixArraySize2 then Err(UnexpectedMsgPackCode(s[pos]))
    else
      var (ulength, next) :- UnpackUIntX(s, pos + 1);
      if ulength > Int32Max then Err(FrameLengthTooLarge(ulength))
      else Ok(Some((ulength, next)))
  }

  /**
   * The exceptions `ReadHeader` raises: a first byte other than fixarray(2),
   * a length that `UnpackUIntX` cannot read, and a length above `int.MaxValue`.
   */
  lemma ReadHeaderRejects(s: seq<byte>, pos: nat)
    ensures pos < |s| && s[pos] != FixArraySize2 ==> ReadHeader(s, pos) == Err(UnexpectedMsgPackCode(s[pos]))
    ensures pos < |s| && s[pos] == FixArraySize2 && UnpackUIntX(s, pos + 1).Err? ==>
              ReadHeader(s, pos) == Err(UnpackUIntX(s, pos + 1).error)
    ensures pos < |s| && s[pos] == FixArraySize2 && UnpackUIntX(s, pos + 1).Ok? &&
            UnpackUIntX(s, pos + 1).value.0 > Int32Max ==>
              ReadHeader(s, pos) == Err(FrameLengthTooLarge(UnpackUIntX(s, pos + 1).value.0))
  {
  }

  /** A header `ReadHeader` accepts is fixarray(2) and an unsigned encoding of the length. */
  lemma ReadHeaderReadsEncoding(s: seq<byte>, pos: nat)
    requires ReadHeader(s, pos).Ok? && ReadHeader(s, pos).value.Some?
    ensures IsUIntEncoding(s[pos + 1..ReadHeader(s, pos).value.value.1], ReadHeader(s, pos).value.value.0)
  {
    UnpackUIntXAcceptsEncoding(s, pos + 1);
  }

  /** A header the serializer wrote is read back by the deserializer, or rejected as too large. */
  lemma ReadHeaderOfHeaderBytes(s: seq<byte>, pos: nat, value: uint32)
    requires pos + |HeaderBytes(value)| <= |s|
    requires s[pos..pos + |HeaderBytes(value)|] == HeaderBytes(value)
    ensures ReadHeader(s, pos) ==
              if value <= Int32Max then Ok(Some((value, pos + |HeaderBytes(value)|)))
              else Err(FrameLengthTooLarge(value))
  {
    var h := HeaderBytes(value);
    var e := UIntWriter.Encode(value);
    UIntWriter.EncodeIsUIntEncoding(value);
    assert s[pos] == h[0] == FixArraySize2;
    assert s[pos + 1..pos + |h|] == h[1..] == e;
    UnpackUIntXReadsEncoding(s, pos + 1, e, value);
  }

  // ---------------------------------------------------------------------
  // FrameItemFormatter
  // ---------------------------------------------------------------------

  /**
   * `FrameItemFormatter.ReadElementHeader`: the library's array header must
   * count two elements, and the library's `uint` must fit an `int`.
   */
  function ReadElementHeader(s: seq<byte>, pos: nat): (r: Result<(nat, nat), Error>)
    ensures ReadArrayHeader(s, pos).Err? ==> r == Err(Reader(ReadArrayHeader(s, pos).error))
    ensures ReadArrayHeader(s, pos).Ok? && ReadArrayHeader(s, pos).value.0 != ParallelItemTotElems ==>
              r == Err(InvalidArrayHeader(ReadArrayHeader(s, pos).value.0))
    ensures r.Ok? ==> ReadArrayHeader(s, pos).Ok? && ReadArrayHeader(s, pos).value.0 == ParallelItemTotElems
    ensures r.Ok? ==> r.value.0 <= Int32Max && pos < r.value.1 <= |s|
  {
    match ReadArrayHeader(s, pos)
    case Err(e) => Err(Reader(e))
    case Ok((count, afterArray)) =>
      if count != ParallelItemTotElems then Err(InvalidArrayHeader(count))
      else
        match ReadUInt32(s, afterArray)
        case Err(e) => Err(Reader(e))
        case Ok((length, next)) =>
          if length > Int32Max then Err(InvalidBodyLength(length)) else Ok((length, next))
  }

  /** Every header `ReadHeader` accepts, `ReadElementHeader` accepts with the same length and end. */
  lemma ReadElementHeaderAcceptsReadHeader(s: seq<byte>, pos: nat)
    requires ReadHeader(s, pos).Ok? && ReadHeader(s, pos).value.Some?
    ensures ReadElementHeader(s, pos) == Ok(ReadHeader(s, pos).value.value)
  {
    var (len, next) := ReadHeader(s, pos).value.value;
    ReadHeaderReadsEncoding(s, pos);
    assert ReadArrayHeader(s, pos) == Ok((2, pos + 1));
    ReadUInt32OfUIntEncoding(s, pos + 1, s[pos + 1..next], len);
  }

  /** The formatter reads back the length of every frame it writes. */
  lemma ReadElementHeaderOfFrameBytes(body: seq<byte>, rest: seq<byte>)
    requires |body| <= Int32Max
    ensures ReadElementHeader(FrameBytes(body) + rest, 0) == Ok((|body|, |HeaderBytes(|body|)|))
  {
    var s := FrameBytes(body) + rest;
    var h := HeaderBytes(|body|);
    FrameBytesIsHeaderAndBody(body);
    assert s[0..|h|] == h;
    ReadHeaderOfHeaderBytes(s, 0, |body|);
    ReadElementHeaderAcceptsReadHeader(s, 0);
  }

  /**
   * `FrameItemFormatter.Deserialize`: the header, then the item through the
   * item formatter (`deserializeItem`, which reads from a position). An
   * unassigned length is an error when `throwOnUnassigned` is set.
   */
  function Deserialize<T>(s: seq<byte>, pos: nat, throwOnUnassigned: bool,
                          deserializeItem: (seq<byte>, nat) -> Result<(Option<T>, nat), Error>)
    : (r: Result<(Frames.Frame<T>, nat), Error>)
    ensures ReadElementHeader(s, pos).Err? ==> r == Err(ReadElementHeader(s, pos).error)
    ensures (ReadElementHeader(s, pos).Ok? && ReadElementHeader(s, pos).value.0 == Frames.Unassigned &&
             throwOnUnassigned) ==> r == Err(UnassignedFrame)
    ensures r.Ok? ==>
              && ReadElementHeader(s, pos).Ok?
              && r.value.0.bufferLength == ReadElementHeader(s, pos).value.0
              && (r.value.0.bufferLength == Frames.Unassigned ==> !throwOnUnassigned)
    ensures r.Ok? ==>
              && deserializeItem(s, ReadElementHeader(s, pos).value.1).Ok?
              && r.value.0.item == deserializeItem(s, ReadElementHeader(s, pos).value.1).value.0
              && r.value.1 == deserializeItem(s, ReadElementHeader(s, pos).value.1).value.1
  {
    var (frameLength, afterHeader) :- ReadElementHeader(s, pos);
    if frameLength == Frames.Unassigned && throwOnUnassigned then Err(UnassignedFrame)
    else
      var (item, next) :- deserializeItem(s, afterHeader);
      Ok((Frames.Frame(frameLength, item), next))
  }

  /**
   * A frame the formatter wrote is read back with its body length, provided
   * the item formatter reads the body back.
   */
  lemma DeserializeOfFrameBytes<T>(body: seq<byte>, rest: seq<byte>, throwOnUnassigned: bool,
                                   deserializeItem: (seq<byte>, nat) -> Result<(Option<T>, nat), Error>,
                                   item: Option<T>)
    requires 0 < |body| <= Int32Max
    requires deserializeItem(FrameBytes(body) + rest, |HeaderBytes(|body|)|) ==
             Ok((item, |FrameBytes(body)|))
    ensures Deserialize(FrameBytes(body) + rest, 0, throwOnUnassigned, deserializeItem) ==
            Ok((Frames.Frame(|body|, item), |FrameBytes(body)|))
  {
    ReadElementHeaderOfFrameBytes(body, rest);
  }

  /** `ArrayPoolBufferWriter<byte>` behind a `MessagePackWriter`: the bytes written so far. */
  class ByteBufferWriter {
    var written: seq<byte>

    constructor ()
      ensures written == []
    {
      written := [];
    }

    method WriteRaw(bytes: seq<byte>)
      modifies this
      ensures written == old(written) + bytes
    {
      written := written + bytes;
    }

    method Clear()
      modifies this
      ensures written == []
    {
      written := [];
    }
  }

  /**
   * `FrameItemFormatter.Serialize`: the item formatter writes the body into
   * `bodyWriter`; then the array header, the body length and the body go to
   * `writer`, and `bodyWriter` is cleared. The length is the body writer's
   * whole written count, an `int`.
   */
  method Serialize<T>(writer: ByteBufferWriter, value: T, bodyWriter: ByteBufferWriter,
                      serializeItem: T -> seq<byte>)
    requires writer != bodyWriter
    requires |bodyWriter.written| + |serializeItem(value)| <= Int32Max
    modifies writer, bodyWriter
    ensures writer.written == old(writer.written) + FrameBytes(old(bodyWriter.written) + serializeItem(value))
    ensures bodyWriter.written == []
  {
    bodyWriter.WriteRaw(serializeItem(value));
    writer.WriteRaw(FixArrayHeader(ParallelItemTotElems));
    writer.WriteRaw(UIntWriter.Encode(|bodyWriter.written|));
    writer.WriteRaw(bodyWriter.written);
    bodyWriter.Clear();
  }
}
