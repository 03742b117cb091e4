/**
 * The parts of the MessagePack format that the framing code writes and reads:
 * the format codes, the int format family for unsigned values, and the
 * library reader's `ReadArrayHeader` and `ReadUInt32`, following the
 * "int format family" and "array format family" sections of the
 * MessagePack specification.
 */
module MessagePack {
  import opened Bytes
  import opened Wrappers

  const MaxFixPositiveInt: byte := 0x7f
  const MinFixMap: byte := 0x80
  const MinFixArray: byte := 0x90
  const MaxFixArray: byte := 0x9f
  const MinFixStr: byte := 0xa0
  const UInt8: byte := 0xcc
  const UInt16: byte := 0xcd
  const UInt32: byte := 0xce
  const UInt64: byte := 0xcf
  const Int8: byte := 0xd0
  const Int16: byte := 0xd1
  const Int32: byte := 0xd2
  const Int64: byte := 0xd3
  const Array16: byte := 0xdc
  const Array32: byte := 0xdd
  const MinNegativeFixInt: byte := 0xe0

  /**
   * The unsigned encodings MessagePack allows for `v`: positive fixint,
   * uint 8, uint 16, uint 32 and uint 64, payloads big endian.
   */
  ghost predicate IsUIntEncoding(e: seq<byte>, v: nat) {
    || (|e| == 1 && e[0] <= MaxFixPositiveInt && e[0] == v)
    || (|e| == 2 && e[0] == UInt8 && e[1] == v)
    || (|e| == 3 && e[0] == UInt16 && FromBigEndian(e[1..]) == v)
    || (|e| == 5 && e[0] == UInt32 && FromBigEndian(e[1..]) == v)
    || (|e| == 9 && e[0] == UInt64 && FromBigEndian(e[1..]) == v)
  }

  /** A code byte followed by a big-endian payload of 2 or 4 bytes is a uint 16 or uint 32 encoding. */
  lemma PayloadEncoding(code: byte, payload: seq<byte>, v: nat)
    requires (code == UInt16 && |payload| == 2) || (code == UInt32 && |payload| == 4)
    requires FromBigEndian(payload) == v
    ensures IsUIntEncoding([code] + payload, v)
  {
    assert ([code] + payload)[1..] == payload;
  }

  /** Errors the library reader raises. */
  datatype ReadError = EndOfData | UnexpectedCode(code: byte) | Overflow

  /** `width` bytes at `pos`, read big endian; the new position follows them. */
  function ReadBigEndian(s: seq<byte>, pos: nat, width: nat): (r: Result<(nat, nat), ReadError>)
    ensures r.Ok? <==> pos + width <= |s|
    ensures r.Ok? ==> r.value == (FromBigEndian(s[pos..pos + width]), pos + width)
  {
    if pos + width <= |s| then Ok((FromBigEndian(s[pos..pos + width]), pos + width))
    else Err(EndOfData)
  }

  /** The two's complement value of a big-endian byte string. */
  function SignedFromBigEndian(s: seq<byte>): (v: int)
    requires |s| > 0
    ensures -((Pow256(|s|) / 2) as int) <= v < Pow256(|s|) / 2
  {
    var u := FromBigEndian(s);
    BigEndianTopBit(s);
    HalfPow256(|s|);
    if s[0] >= 0x80 then u - Pow256(|s|) else u
  }

  lemma {:induction false} BigEndianTopBit(s: seq<byte>)
    requires |s| > 0
    ensures s[0] >= 0x80 <==> FromBigEndian(s) >= Pow256(|s|) / 2
  {
    HalfPow256(|s|);
    var init := s[..|s| - 1];
    if |s| > 1 {
      BigEndianTopBit(init);
      HalfPow256(|s| - 1);
      assert init[0] == s[0];
    } else {
      assert init == [];
    }
  }

  /** An unsigned payload of `width` bytes, range checked to a `uint`. */
  function ReadUnsigned(s: seq<byte>, pos: nat, width: nat): (r: Result<(uint32, nat), ReadError>)
  {
    var (v, next) :- ReadBigEndian(s, pos, width);
    if v <= UInt32Max then Ok((v, next)) else Err(Overflow)
  }

  /** A signed payload of `width` bytes, range checked to a `uint`. */
  function ReadSigned(s: seq<byte>, pos: nat, width: nat): (r: Result<(uint32, nat), ReadError>)
    requires width > 0
  {
    if pos + width <= |s| then
      var v := SignedFromBigEndian(s[pos..pos + width]);
      if 0 <= v <= UInt32Max then Ok((v, pos + width)) else Err(Overflow)
    else Err(EndOfData)
  }

  /**
   * `MessagePackReader.ReadUInt32`: any member of the int format family whose
   * value fits a `uint`; a value outside that range is an overflow.
   */
  function ReadUInt32(s: seq<byte>, pos: nat): (r: Result<(uint32, nat), ReadError>)
    ensures r.Ok? ==> pos < r.value.1 <= |s|
  {
    if pos >= |s| then Err(EndOfData)
    else
      var c := s[pos];
      if c <= MaxFixPositiveInt then Ok((c, pos + 1))
      else if c >= MinNegativeFixInt then Err(Overflow)
      else if c == UInt8 then ReadUnsigned(s, pos + 1, 1)
      else if c == UInt16 then ReadUnsigned(s, pos + 1, 2)
      else if c == UInt32 then ReadUnsigned(s, pos + 1, 4)
      else if c == UInt64 then ReadUnsigned(s, pos + 1, 8)
      else if c == Int8 then ReadSigned(s, pos + 1, 1)
      else if c == Int16 then ReadSigned(s, pos + 1, 2)
      else if c == Int32 then ReadSigned(s, pos + 1, 4)
      else if c == Int64 then ReadSigned(s, pos + 1, 8)
      else Err(UnexpectedCode(c))
  }

  /** `MessagePackReader.ReadArrayHeader`: fixarray, array 16 or array 32. */
  function ReadArrayHeader(s: seq<byte>, pos: nat): (r: Result<(nat, nat), ReadError>)
    ensures r.Ok? ==> pos < r.value.1 <= |s|
  {
    if pos >= |s| then Err(EndOfData)
    else
      var c := s[pos];
      if MinFixArray <= c <= MaxFixArray then Ok((c - MinFixArray, pos + 1))
      else if c == Array16 then ReadBigEndian(s, pos + 1, 2)
      else if c == Array32 then ReadBigEndian(s, pos + 1, 4)
      else Err(UnexpectedCode(c))
  }

  /** `MessagePackWriter.WriteArrayHeader` for the counts a fixarray holds. */
  function FixArrayHeader(count: nat): (r: seq<byte>)
    requires count < 16
    ensures |r| == 1
  {
    [MinFixArray + count]
  }

  /** Every unsigned encoding of a `uint` value is read back by `ReadUInt32`, wherever it sits. */
  lemma ReadUInt32OfUIntEncoding(s: seq<byte>, pos: nat, e: seq<byte>, v: uint32)
    requires IsUIntEncoding(e, v)
    requires pos + |e| <= |s| && s[pos..pos + |e|] == e
    ensures ReadUInt32(s, pos) == Ok((v, pos + |e|))
  {
    assert s[pos + 1..pos + |e|] == e[1..];
  }
}
