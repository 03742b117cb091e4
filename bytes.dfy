/**
 * Fixed-width integers and byte orders, as .NET's `byte`, `ushort`, `uint`
 * and `int` and `System.Buffers.Binary.BinaryPrimitives` use them.
 */
module Bytes {

  type byte = x: int | 0 <= x < 0x100
  type uint16 = x: int | 0 <= x < 0x1_0000
  type uint32 = x: int | 0 <= x < 0x1_0000_0000
  type int32 = x: int | -0x8000_0000 <= x < 0x8000_0000

  const ByteMax: byte := 0xff
  const UInt16Max: uint16 := 0xffff
  const UInt32Max: uint32 := 0xffff_ffff
  const Int32Max: int32 := 0x7fff_ffff

  /** 256 to the power n: the number of values n bytes can hold. */
  function Pow256(n: nat): (r: nat)
    ensures r >= 1
  {
    if n == 0 then 1 else 256 * Pow256(n - 1)
  }

  /** The `width` bytes of `v`, most significant first. */
  function BigEndian(v: nat, width: nat): (r: seq<byte>)
    requires v < Pow256(width)
    ensures |r| == width
  {
    if width == 0 then [] else BigEndian(v / 256, width - 1) + [v % 256]
  }

  /** `BinaryPrimitives.WriteUInt16BigEndian`: the two bytes of a `ushort`, high byte first. */
  function UInt16BigEndian(v: uint16): (r: seq<byte>)
    ensures |r| == 2
  {
    [v / 0x100, v % 0x100]
  }

  /** `BinaryPrimitives.WriteUInt32BigEndian`: the four bytes of a `uint`, high byte first. */
  function UInt32BigEndian(v: uint32): (r: seq<byte>)
    ensures |r| == 4
  {
    [v / 0x100_0000, v / 0x1_0000 % 0x100, v / 0x100 % 0x100, v % 0x100]
  }

  lemma UInt16BigEndianIsBigEndian(v: uint16)
    ensures UInt16BigEndian(v) == BigEndian(v, 2)
  {
    assert BigEndian(v, 2) == BigEndian(v / 256 / 256, 0) + [v / 256 % 256] + [v % 256];
  }

  lemma UInt32BigEndianIsBigEndian(v: uint32)
    ensures UInt32BigEndian(v) == BigEndian(v, 4)
  {
    var hi := v / 0x1_0000;
    assert v / 256 / 256 == hi;
    UInt16BigEndianIsBigEndian(hi);
    assert hi / 0x100 == v / 0x100_0000 && hi % 0x100 == v / 0x1_0000 % 0x100;
    assert BigEndian(v / 256, 3) == BigEndian(hi, 2) + [v / 256 % 256];
    assert BigEndian(v, 4) == BigEndian(v / 256, 3) + [v % 256];
  }

  /** The value of a byte string read most significant byte first. */
  function FromBigEndian(s: seq<byte>): (v: nat)
    ensures v < Pow256(|s|)
  {
    if s == [] then 0 else FromBigEndian(s[..|s| - 1]) * 256 + s[|s| - 1]
  }

  /** Two's complement bits of an `int`, as an `unchecked((uint)i)` cast gives them. */
  function ToUInt32(i: int32): (u: uint32)
    ensures i >= 0 ==> u == i
    ensures i < 0 ==> u == i + 0x1_0000_0000
  {
    if i < 0 then i + 0x1_0000_0000 else i
  }

  /** The `int` whose two's complement bits are `u`, as `unchecked((int)u)` gives it. */
  function ToInt32(u: uint32): (i: int32)
    ensures ToUInt32(i) == u
  {
    if u < 0x8000_0000 then u else u - 0x1_0000_0000
  }

  /**
   * The four bytes of an `int`'s two's complement bits, least significant
   * first: `(byte)(i >> 8 * k)` for k = 0, 1, 2, 3.
   */
  function Int32Bytes(i: int32): (b: seq<byte>)
    ensures |b| == 4
  {
    var u := ToUInt32(i);
    [u % 0x100, u / 0x100 % 0x100, u / 0x1_0000 % 0x100, u / 0x100_0000]
  }

  /** `b[0] | b[1] << 8 | b[2] << 16 | b[3] << 24`, computed in `int`. */
  function Int32OfBytes(b: seq<byte>): (i: int32)
    requires |b| == 4
  {
    ToInt32(b[0] as int + b[1] as int * 0x100 + b[2] as int * 0x1_0000 + b[3] as int * 0x100_0000)
  }

  /** `BinaryPrimitives.ReverseEndianness(int)`: the four bytes of `i` in the opposite order. */
  function ReverseEndianness(i: int32): (r: int32)
    ensures Int32Bytes(r) == [Int32Bytes(i)[3], Int32Bytes(i)[2], Int32Bytes(i)[1], Int32Bytes(i)[0]]
  {
    var b := Int32Bytes(i);
    Int32BytesOfInt32OfBytes([b[3], b[2], b[1], b[0]]);
    Int32OfBytes([b[3], b[2], b[1], b[0]])
  }

  /** Assembling the bytes of `i` gives `i` back. */
  lemma Int32OfBytesOfInt32Bytes(i: int32)
    ensures Int32OfBytes(Int32Bytes(i)) == i
  {
    var u := ToUInt32(i);
    var q1, q2 := u / 0x100, u / 0x1_0000;
    assert u == q1 * 0x100 + u % 0x100;
    assert q2 == q1 / 0x100 && q1 == q2 * 0x100 + q1 % 0x100;
    assert u / 0x100_0000 == q2 / 0x100 && q2 == u / 0x100_0000 * 0x100 + q2 % 0x100;
  }

  /**
   * The quotient and remainder of a division by 2 or by a power of 256 are
   * the only ones in range.
   */
  lemma DivModUnique(x: int, d: int, q: int, r: int)
    requires d == 2 || d == 0x100 || d == 0x1_0000 || d == 0x100_0000
    requires 0 <= r < d && x == q * d + r
    ensures x / d == q && x % d == r
  {
    if d == 2 {
      assert x == q * 2 + r;
    } else if d == 0x100 {
      assert x == q * 0x100 + r;
    } else if d == 0x1_0000 {
      assert x == q * 0x1_0000 + r;
    } else {
      assert x == q * 0x100_0000 + r;
    }
  }

  /** From one byte on, half the values of a width have the top bit set. */
  lemma HalfPow256(n: nat)
    requires n > 0
    ensures Pow256(n) / 2 == 128 * Pow256(n - 1)
    ensures Pow256(n) == 2 * (Pow256(n) / 2)
  {
    DivModUnique(Pow256(n), 2, 128 * Pow256(n - 1), 0);
  }

  /** The bytes of an assembled `int` are the bytes it was assembled from. */
  lemma Int32BytesOfInt32OfBytes(b: seq<byte>)
    requires |b| == 4
    ensures Int32Bytes(Int32OfBytes(b)) == b
  {
    var u := b[0] as int + b[1] as int * 0x100 + b[2] as int * 0x1_0000 + b[3] as int * 0x100_0000;
    assert ToUInt32(Int32OfBytes(b)) == u;
    var b0, b1, b2, b3 := b[0] as int, b[1] as int, b[2] as int, b[3] as int;
    DivModUnique(u, 0x100, b1 + b2 * 0x100 + b3 * 0x1_0000, b0);
    DivModUnique(u, 0x1_0000, b2 + b3 * 0x100, b0 + b1 * 0x100);
    DivModUnique(u, 0x100_0000, b3, b0 + b1 * 0x100 + b2 * 0x1_0000);
    DivModUnique(u / 0x100, 0x100, b2 + b3 * 0x100, b1);
    DivModUnique(u / 0x1_0000, 0x100, b3, b2);
  }

  /** Reversing the byte order twice gives the original `int`. */
  lemma ReverseEndiannessTwice(i: int32)
    ensures ReverseEndianness(ReverseEndianness(i)) == i
  {
    var r := ReverseEndianness(ReverseEndianness(i));
    assert Int32Bytes(r) == Int32Bytes(i);
    Int32OfBytesOfInt32Bytes(r);
    Int32OfBytesOfInt32Bytes(i);
  }

  /**
   * The bytes of the reversed `int`, least significant first, are the bytes
   * of the original most significant first.
   */
  lemma ReversedBytesAreBigEndian(i: int32)
    ensures Int32Bytes(ReverseEndianness(i)) == UInt32BigEndian(ToUInt32(i))
  {
  }

  lemma {:induction false} BigEndianSnoc(s: seq<byte>, b: byte)
    ensures FromBigEndian(s + [b]) == FromBigEndian(s) * 256 + b
  {
    assert (s + [b])[..|s|] == s;
  }

  /** Reading back what `BigEndian` wrote gives the value. */
  lemma {:induction false} FromBigEndianOfBigEndian(v: nat, width: nat)
    requires v < Pow256(width)
    ensures FromBigEndian(BigEndian(v, width)) == v
  {
    if width > 0 {
      FromBigEndianOfBigEndian(v / 256, width - 1);
      BigEndianSnoc(BigEndian(v / 256, width - 1), v % 256);
    }
  }

  /** Writing back what `FromBigEndian` read gives the bytes. */
  lemma {:induction false} BigEndianOfFromBigEndian(s: seq<byte>)
    ensures BigEndian(FromBigEndian(s), |s|) == s
  {
    if s != [] {
      var init := s[..|s| - 1];
      BigEndianOfFromBigEndian(init);
      var v := FromBigEndian(s);
      assert v / 256 == FromBigEndian(init) && v % 256 == s[|s| - 1];
      assert s == init + [s[|s| - 1]];
    }
  }
}
