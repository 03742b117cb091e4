/**
 * The .NET pieces the stream adapters and the map-header codec are given:
 * a readable stream over fixed contents, a writable stream that records what
 * it is sent, and `ShadowBufferData`, the pinned byte array with a count
 * that the adapters pass to and from their readers and writers.
 */
module Streams {
  import opened Bytes

  /** `NotSupportedException`, thrown by the members a one-way stream does not implement. */
  datatype StreamError = NotSupported

  /** `SeekOrigin`. */
  datatype SeekOrigin = Begin | Current | End

  /** The most bytes one read of a stream hands out: a read of a non-empty request returns at least one byte until the end. */
  type ChunkSize = n: nat | n >= 1 witness 1

  function Min(a: int, b: int): (m: int)
    ensures m <= a && m <= b && (m == a || m == b)
  {
    if a <= b then a else b
  }

  /**
   * A readable stream over `data`. `Read` copies the next bytes into the
   * caller's array; it returns fewer than asked only at the end of the data
   * or when the request is larger than `maxChunk`, the most this stream hands
   * out per call (a file gives all it has, a socket what has arrived).
   */
  class InputStream {
    const data: seq<byte>
    const maxChunk: nat
    const canSeek: bool
    var position: nat

    ghost predicate Valid()
      reads this
    {
      position <= |data| && maxChunk >= 1
    }

    constructor (data: seq<byte>, maxChunk: nat, canSeek: bool)
      requires maxChunk >= 1
      ensures Valid()
      ensures this.data == data && this.maxChunk == maxChunk && this.canSeek == canSeek
      ensures position == 0
    {
      this.data := data;
      this.maxChunk := maxChunk;
      this.canSeek := canSeek;
      position := 0;
    }

    /** `Stream.Read(buffer, offset, count)`. */
    method Read(buffer: array<byte>, offset: nat, count: nat) returns (n: nat)
      requires Valid() && offset + count <= buffer.Length
      modifies this, buffer
      ensures Valid()
      ensures n == Min(Min(count, |data| - old(position)), maxChunk)
      ensures n == 0 <==> count == 0 || old(position) == |data|
      ensures position == old(position) + n
      ensures buffer[..] == old(buffer[..offset]) + data[old(position)..position] + old(buffer[offset + n..])
    {
      n := Min(Min(count, |data| - position), maxChunk);
      forall k | 0 <= k < n {
        buffer[offset + k] := data[position + k];
      }
      assert buffer[..] == old(buffer[..offset]) + data[position..position + n] + old(buffer[offset + n..]);
      position := position + n;
    }

    /** The `Position` setter of a seekable stream. */
    method SetPosition(p: nat)
      requires Valid() && canSeek && p <= |data|
      modifies this
      ensures Valid() && position == p
    {
      position := p;
    }
  }

  /**
   * A writable stream: `contents` is every byte it was sent, `writeSizes`
   * the count of each `Write` call, and `flushCount` how often it was
   * flushed.
   */
  class OutputStream {
    var contents: seq<byte>
    var writeSizes: seq<nat>
    var flushCount: nat

    constructor ()
      ensures contents == [] && writeSizes == [] && flushCount == 0
    {
      contents := [];
      writeSizes := [];
      flushCount := 0;
    }

    /** `Stream.Write(buffer, offset, count)`. */
    method Write(buffer: array<byte>, offset: nat, count: nat)
      requires offset + count <= buffer.Length
      modifies this
      ensures contents == old(contents) + buffer[offset..offset + count]
      ensures writeSizes == old(writeSizes) + [count]
      ensures flushCount == old(flushCount)
    {
      contents := contents + buffer[offset..offset + count];
      writeSizes := writeSizes + [count];
    }

    /** `Stream.Flush()`. */
    method Flush()
      modifies this
      ensures contents == old(contents) && writeSizes == old(writeSizes)
      ensures flushCount == old(flushCount) + 1
    {
      flushCount := flushCount + 1;
    }
  }

  /**
   * `ShadowBufferData`: a byte array allocated once, and the count of the
   * bytes in it that are in use.
   */
  class ShadowBufferData {
    const buffer: array<byte>
    var byteCount: int
    var disposed: bool

    constructor (shadowBufferSize: nat, count: int)
      ensures buffer.Length == shadowBufferSize && fresh(buffer)
      ensures byteCount == count && !disposed
    {
      buffer := new byte[shadowBufferSize](_ => 0);
      byteCount := count;
      disposed := false;
    }

    /** Releases the pin on the array. */
    method Dispose()
      modifies this
      ensures disposed && byteCount == old(byteCount)
    {
      disposed := true;
    }
  }
}
