/**
 * `UIntWriter.WriteUInt`: writes a `uint` into the front of a span in the
 * shortest unsigned MessagePack form and returns how many bytes it wrote.
 * A span is a byte sequence; a write gives back the whole span afterwards.
 */
module UIntWriter {
  import opened Bytes
  import opened MessagePack

  /** The span after a write, and the number of bytes the write returned. */
  datatype Written = Written(span: seq<byte>, count: nat)

  /** `w` holds `value`'s encoding in its first `count` bytes and `span` is untouched after them. */
  ghost predicate WritesEncodingOf(span: seq<byte>, value: nat, w: Written) {
    && w.count <= |span|
    && |w.span| == |span|
    && IsUIntEncoding(w.span[..w.count], value)
    && w.span[w.count..] == span[w.count..]
  }

  /** Positive fixint: the byte is the value. */
  function WriteUint8Small(span: seq<byte>, value: uint32): (w: Written)
    requires |span| >= 1 && value <= MaxFixPositiveInt
    ensures w.count == 1 && WritesEncodingOf(span, value, w)
  {
    Written([value % 0x100] + span[1..], 1)
  }

  /** uint 8: the code, then the value's single byte. */
  function WriteUint8Large(span: seq<byte>, value: uint32): (w: Written)
    requires |span| >= 2 && value <= ByteMax
    ensures w.count == 2 && WritesEncodingOf(span, value, w)
  {
    Written([UInt8, value % 0x100] + span[2..], 2)
  }

  /** uint 16: the code, then two bytes big endian. */
  function WriteUInt16(span: seq<byte>, value: uint16): (w: Written)
    requires |span| >= 3
    ensures w.count == 3 && WritesEncodingOf(span, value, w)
  {
    var payload := UInt16BigEndian(value);
    var w := Written([UInt16] + payload + span[3..], 3);
    assert w.span[..3] == [UInt16] + payload;
    UInt16BigEndianIsBigEndian(value);
    FromBigEndianOfBigEndian(value, 2);
    PayloadEncoding(UInt16, payload, value);
    w
  }

  /** uint 32: the code, then four bytes big endian. */
  function WriteUInt32(span: seq<byte>, value: uint32): (w: Written)
    requires |span| >= 5
    ensures w.count == 5 && WritesEncodingOf(span, value, w)
  {
    var payload := UInt32BigEndian(value);
    var w := Written([UInt32] + payload + span[5..], 5);
    assert w.span[..5] == [UInt32] + payload;
    UInt32BigEndianIsBigEndian(value);
    FromBigEndianOfBigEndian(value, 4);
    PayloadEncoding(UInt32, payload, value);
    w
  }

  /** The number of bytes `WriteUInt` needs for `value`; the span must hold that many. */
  function SpaceNeeded(value: uint32): nat {
    if value <= MaxFixPositiveInt then 1
    else if value <= ByteMax then 2
    else if value <= UInt16Max then 3
    else 5
  }

  /** The shortest unsigned encoding of `value`, chosen by its range. */
  function WriteUInt(span: seq<byte>, value: uint32): (w: Written)
    requires |span| >= SpaceNeeded(value)
    ensures WritesEncodingOf(span, value, w)
    ensures value <= MaxFixPositiveInt ==> w.count == 1 && w.span[0] == value
    ensures MaxFixPositiveInt < value <= ByteMax ==> w.count == 2 && w.span[..2] == [UInt8, value]
    ensures ByteMax < value <= UInt16Max ==>
              w.count == 3 && w.span[0] == UInt16 && w.span[1..3] == UInt16BigEndian(value)
    ensures UInt16Max < value ==> w.count == 5 && w.span[0] == UInt32 && w.span[1..5] == UInt32BigEndian(value)
  {
    if value <= MaxFixPositiveInt then WriteUint8Small(span, value)
    else if value <= ByteMax then WriteUint8Large(span, value)
    else if value <= UInt16Max then WriteUInt16(span, value)
    else WriteUInt32(span, value)
  }

  /**
   * The shortest unsigned encoding of `value`, by range: the bytes
   * `WriteUInt` puts in front of the span, and the bytes the MessagePack
   * library's `MessagePackWriter.Write(uint)` produces.
   */
  function Encode(value: uint32): (e: seq<byte>)
    ensures 1 <= |e| <= 5
  {
    if value <= MaxFixPositiveInt then [value]
    else if value <= ByteMax then [UInt8, value]
    else if value <= UInt16Max then [UInt16] + UInt16BigEndian(value)
    else [UInt32] + UInt32BigEndian(value)
  }

  /** `Encode` is an unsigned MessagePack encoding of the value. */
  lemma EncodeIsUIntEncoding(value: uint32)
    ensures IsUIntEncoding(Encode(value), value)
  {
    if value > UInt16Max {
      UInt32BigEndianIsBigEndian(value);
      FromBigEndianOfBigEndian(value, 4);
      PayloadEncoding(UInt32, UInt32BigEndian(value), value);
    } else if value > ByteMax {
      UInt16BigEndianIsBigEndian(value);
      FromBigEndianOfBigEndian(value, 2);
      PayloadEncoding(UInt16, UInt16BigEndian(value), value);
    }
  }

  /** No unsigned MessagePack encoding of `value` is shorter than the one `WriteUInt` chooses. */
  lemma {:induction false} WriteUIntIsShortest(span: seq<byte>, value: uint32, e: seq<byte>)
    requires |span| >= SpaceNeeded(value)
    requires IsUIntEncoding(e, value)
    ensures WriteUInt(span, value).count <= |e|
  {
    if |e| == 3 {
      assert FromBigEndian(e[1..]) < Pow256(2);
    }
  }

  /** `WriteUInt` writes `Encode(value)` and returns its length, whatever span it is given. */
  lemma EncodeIsWrittenPrefix(span: seq<byte>, value: uint32)
    requires |span| >= SpaceNeeded(value)
    ensures WriteUInt(span, value).count == |Encode(value)|
    ensures WriteUInt(span, value).span == Encode(value) + span[|Encode(value)|..]
  {
    var w := WriteUInt(span, value);
    assert w.span == w.span[..w.count] + w.span[w.count..];
  }
}
