/**
 * `BufferedStreamReader`: a read-only stream that serves the caller from a
 * shadow buffer and refills it from its `IReader`. The reader modelled is
 * `SynchronousReader`, which reads the inner stream into one buffer of
 * `shadowBufferSize` bytes and stops once `stopPrefetchAfterXBytes` bytes
 * have been read.
 */
module BufferedReader {
  import opened Wrappers
  import opened Bytes
  import opened Streams

  /** `BufferedStreamReaderConfig.recomendedShadowBufferSize`, the default buffer size. */
  const RecommendedShadowBufferSize: nat := 81920

  class SynchronousReader {
    const stream: InputStream
    const stopPrefetchAfterXBytes: nat
    const shadowBufferSize: nat
    var totalBytesProcessed: nat
    var shadowBuffer: ShadowBufferData?
    /** The one buffer this reader allocates; `shadowBuffer` is it until `Abort`. */
    ghost const ownBuffer: ShadowBufferData

    ghost predicate Valid()
      reads this, stream, ownBuffer
    {
      && stream.Valid()
      && ownBuffer.buffer.Length == shadowBufferSize
      && (shadowBuffer == null || shadowBuffer == ownBuffer)
      && totalBytesProcessed <= stopPrefetchAfterXBytes
    }

    constructor (stream: InputStream, shadowBufferSize: nat, stopPrefetchAfterXBytes: nat)
      requires stream.Valid()
      ensures Valid()
      ensures this.stream == stream && this.shadowBufferSize == shadowBufferSize
      ensures this.stopPrefetchAfterXBytes == stopPrefetchAfterXBytes
      ensures totalBytesProcessed == 0 && shadowBuffer == ownBuffer
      ensures fresh(ownBuffer) && fresh(ownBuffer.buffer) && ownBuffer.byteCount == 0
    {
      this.stream := stream;
      this.stopPrefetchAfterXBytes := stopPrefetchAfterXBytes;
      this.shadowBufferSize := shadowBufferSize;
      totalBytesProcessed := 0;
      var b := new ShadowBufferData(shadowBufferSize, 0);
      shadowBuffer := b;
      ownBuffer := b;
    }

    /** `ReturnBuffer`: nothing to do, the buffer is reused. */
    method ReturnBuffer(newBuffer: ShadowBufferData)
    {
    }

    /**
     * `RequestNewBuffer`: asks the stream for at most the smaller of the
     * buffer size and the bytes left before the prefetch limit. With nothing
     * left to ask for it returns null without reading; otherwise the buffer
     * with `byteCount` set to what the read gave, added to the running total.
     */
    method RequestNewBuffer() returns (r: ShadowBufferData?)
      requires Valid() && shadowBuffer != null
      modifies this, stream, ownBuffer, ownBuffer.buffer
      ensures Valid() && shadowBuffer == old(shadowBuffer)
      ensures var cap := Min(shadowBufferSize, stopPrefetchAfterXBytes - old(totalBytesProcessed));
              && (cap == 0 ==> && r == null && ownBuffer.byteCount == 0
                               && totalBytesProcessed == old(totalBytesProcessed) && stream.position == old(stream.position))
              && (cap > 0 ==> && r == ownBuffer
                              && ownBuffer.byteCount == Min(Min(cap, |stream.data| - old(stream.position)), stream.maxChunk)
                              && (ownBuffer.byteCount == 0 <==> old(stream.position) == |stream.data|))
    ensures 0 <= ownBuffer.byteCount <= shadowBufferSize
    ensures stream.position == old(stream.position) + ownBuffer.byteCount
    ensures totalBytesProcessed == old(totalBytesProcessed) + ownBuffer.byteCount
    ensures ownBuffer.buffer[..ownBuffer.byteCount] == stream.data[old(stream.position)..stream.position]
    {
      var maxBytesRemaining := stopPrefetchAfterXBytes - totalBytesProcessed;
      shadowBuffer.byteCount := shadowBufferSize;
      if maxBytesRemaining < shadowBuffer.byteCount {
        shadowBuffer.byteCount := maxBytesRemaining;
      }
      if shadowBuffer.byteCount == 0 {
        return null;
      }
      var n := stream.Read(shadowBuffer.buffer, 0, shadowBuffer.byteCount);
      shadowBuffer.byteCount := n;
      totalBytesProcessed := totalBytesProcessed + n;
      return shadowBuffer;
    }

    /** `Abort`: disposes the buffer and drops it. */
    method Abort()
      requires Valid()
      modifies this, ownBuffer
      ensures Valid() && shadowBuffer == null
      ensures totalBytesProcessed == old(totalBytesProcessed)
      ensures old(shadowBuffer) != null ==> ownBuffer.disposed
    {
      if shadowBuffer != null {
        shadowBuffer.Dispose();
      }
      shadowBuffer := null;
    }
  }

  /** `buffer[from..to]` holds the bytes of `data` from `pos` on. */
  ghost predicate Holds(buffer: array<byte>, from: nat, to: nat, data: seq<byte>, pos: nat)
    reads buffer
  {
    && from <= to <= buffer.Length && pos + (to - from) <= |data|
    && forall j :: from <= j < to ==> buffer[j] == data[pos + (j - from)]
  }

  /** Outside `from..to`, `buffer` still holds `before`. */
  ghost predicate SameOutside(buffer: array<byte>, from: nat, to: nat, before: seq<byte>)
    reads buffer
  {
    && |before| == buffer.Length
    && forall k :: 0 <= k < buffer.Length && !(from <= k < to) ==> buffer[k] == before[k]
  }

  class BufferedStreamReader {
    const stream: InputStream
    const reader: SynchronousReader
    /** `stream.Position` at construction when the stream can seek, otherwise 0. */
    const innerStreamStartPos: nat
    /** Where the stream stood at construction. */
    ghost const startPos: nat
    var shadowBuffer: ShadowBufferData?
    var currentShadowBufferSize: nat
    var currShadowBufferIx: nat
    var totBytesRead: nat
    var disposed: bool

    /** `CanRead`, `CanWrite`, `CanSeek`. */
    const CanRead: bool := true
    const CanWrite: bool := false
    const CanSeek: bool := false

    /** The number of bytes handed to the caller: those of earlier buffers and the index in this one. */
    function Consumed(): nat
      reads this
    {
      totBytesRead + currShadowBufferIx
    }

    /**
     * What holds at every point before `Dispose`: the reader reads this
     * stream, the stream stands `reader.totalBytesProcessed` bytes past where
     * it started, and no more bytes were handed out than were read.
     */
    ghost predicate Common()
      reads this, reader, stream, reader.ownBuffer
    {
      && reader.stream == stream && reader.Valid()
      && stream.position == startPos + reader.totalBytesProcessed
      && innerStreamStartPos == (if stream.canSeek then startPos else 0)
      && Consumed() <= reader.totalBytesProcessed
      && !disposed && reader.shadowBuffer == reader.ownBuffer
    }

    /** The buffer is used up: every byte read from the stream was handed out. */
    ghost predicate Drained()
      reads this, reader, stream, reader.ownBuffer
    {
      && Common()
      && Consumed() == reader.totalBytesProcessed
      && (shadowBuffer == null || shadowBuffer == reader.ownBuffer)
    }

    /**
     * The shadow buffer holds the `currentShadowBufferSize` bytes of the
     * stream after those of earlier buffers, and the index is inside it.
     */
    ghost predicate Stocked()
      reads this, reader, stream, reader.ownBuffer, reader.ownBuffer.buffer
    {
      && Common()
      && totBytesRead + currentShadowBufferSize == reader.totalBytesProcessed
      && (shadowBuffer == null ==> currentShadowBufferSize == 0)
      && (shadowBuffer != null ==> shadowBuffer == reader.ownBuffer && currentShadowBufferSize == shadowBuffer.byteCount)
      && currentShadowBufferSize <= reader.ownBuffer.buffer.Length
      && reader.ownBuffer.buffer[..currentShadowBufferSize]
           == stream.data[startPos + totBytesRead..startPos + reader.totalBytesProcessed]
      && currShadowBufferIx <= currentShadowBufferSize
    }

    /**
     * Between calls: the index is before the end of a non-empty buffer, or
     * both are 0 at the end of the stream; the end comes from the inner
     * stream running out, the prefetch limit, or a zero-byte buffer. After
     * `Dispose` only the count of bytes handed out is kept.
     */
    ghost predicate Valid()
      reads this, reader, stream, reader.ownBuffer, reader.ownBuffer.buffer
    {
      if disposed then
        && reader.stream == stream && reader.Valid()
        && innerStreamStartPos == (if stream.canSeek then startPos else 0)
        && startPos + Consumed() <= |stream.data|
      else
        && Stocked()
        && (currShadowBufferIx < currentShadowBufferSize || currShadowBufferIx == currentShadowBufferSize == 0)
        && (currentShadowBufferSize == 0 ==>
              || stream.position == |stream.data|
              || reader.totalBytesProcessed == reader.stopPrefetchAfterXBytes
              || reader.shadowBufferSize == 0)
    }

    /** `IsEOF`. */
    function IsEOF(): (eof: bool)
      reads this
    {
      currentShadowBufferSize == 0
    }

    /** The constructor fills the shadow buffer straight away. */
    constructor (reader: SynchronousReader)
      requires reader.Valid() && reader.totalBytesProcessed == 0 && reader.shadowBuffer == reader.ownBuffer
      modifies reader, reader.stream, reader.ownBuffer, reader.ownBuffer.buffer
      ensures Valid() && !disposed && Consumed() == 0
      ensures this.reader == reader && stream == reader.stream && startPos == old(reader.stream.position)
      ensures currentShadowBufferSize == reader.totalBytesProcessed
    {
      stream := reader.stream;
      this.reader := reader;
      startPos := reader.stream.position;
      innerStreamStartPos := if reader.stream.canSeek then reader.stream.position else 0;
      currentShadowBufferSize := reader.shadowBufferSize;
      totBytesRead := 0;
      currShadowBufferIx := 0;
      shadowBuffer := null;
      disposed := false;
      new;
      FillShadowBuffer();
    }

    /**
     * `FillShadowBuffer`: retires the bytes of the used-up buffer, hands it
     * back and asks for the next one; a null buffer counts as zero bytes.
     */
    method FillShadowBuffer()
      requires Drained()
      modifies this, reader, stream, reader.ownBuffer, reader.ownBuffer.buffer
      ensures Valid() && !disposed
      ensures Consumed() == old(Consumed()) && currShadowBufferIx == 0
      ensures currentShadowBufferSize == reader.totalBytesProcessed - old(reader.totalBytesProcessed)
    {
      totBytesRead := totBytesRead + currShadowBufferIx;
      currShadowBufferIx := 0;
      if shadowBuffer != null {
        reader.ReturnBuffer(shadowBuffer);
      }
      shadowBuffer := reader.RequestNewBuffer();
      currentShadowBufferSize := if shadowBuffer == null then 0 else shadowBuffer.byteCount;
    }

    /** The bytes of the shadow buffer from the index on are the stream's next bytes. */
    lemma BufferHolds(k: nat)
      requires Stocked() && currShadowBufferIx + k < currentShadowBufferSize
      ensures reader.ownBuffer.buffer[currShadowBufferIx + k] == stream.data[startPos + Consumed() + k]
    {
      assert reader.ownBuffer.buffer[currShadowBufferIx + k] == reader.ownBuffer.buffer[..currentShadowBufferSize][currShadowBufferIx + k];
    }

    /**
     * `CopyFromShadow` and `CopyFromShadowBulk`: `count` bytes from the index
     * into `buffer` at `offset`. The bytes a `Read` call already put in
     * `buffer[start..offset]`, the stream's bytes from `base` on, are kept and
     * extended, and nothing outside the run changes from `before`.
     */
    method CopyFromShadow(buffer: array<byte>, offset: nat, count: nat,
                          ghost start: nat, ghost base: nat, ghost before: seq<byte>)
      requires Stocked() && currentShadowBufferSize > 0
      requires offset + count <= buffer.Length && currShadowBufferIx + count <= currentShadowBufferSize
      requires buffer != reader.ownBuffer.buffer
      requires start <= offset && base + (offset - start) == startPos + Consumed()
      requires Holds(buffer, start, offset, stream.data, base) && SameOutside(buffer, start, offset, before)
      modifies buffer
      ensures Holds(buffer, start, offset + count, stream.data, base)
      ensures SameOutside(buffer, start, offset + count, before)
    {
      var sb := shadowBuffer.buffer;
      forall k | 0 <= k < count {
        buffer[offset + k] := sb[currShadowBufferIx + k];
      }
      forall j | offset <= j < offset + count ensures buffer[j] == stream.data[base + (j - start)] {
        BufferHolds(j - offset);
      }
    }

    /**
     * `ReadByte`: -1 at the end of the stream, otherwise the next byte; the
     * buffer is refilled once it is used up.
     */
    method ReadByte() returns (r: int)
      requires Valid() && !disposed
      modifies this, reader, stream, reader.ownBuffer, reader.ownBuffer.buffer
      ensures Valid() && !disposed
      ensures r == -1 <==> old(currentShadowBufferSize) == 0
      ensures r == -1 ==> Consumed() == old(Consumed()) && stream.position == old(stream.position)
      ensures r != -1 ==> Consumed() == old(Consumed()) + 1 && r == stream.data[startPos + old(Consumed())]
    {
      if IsEOF() {
        return -1;
      }
      r := shadowBuffer.buffer[currShadowBufferIx];
      BufferHolds(0);
      currShadowBufferIx := currShadowBufferIx + 1;
      if currShadowBufferIx == currentShadowBufferSize {
        FillShadowBuffer();
      }
    }

    /**
     * `Read(buffer, offset, count)`: the hot path while the bytes are in the
     * buffer; otherwise copy what is left, refill, and go on for as long as
     * the request reaches past the buffer, stopping early at the end of the
     * stream. It returns `count` unless the stream ended first, and the bytes
     * are the stream's next `n`.
     */
    method Read(buffer: array<byte>, offset: nat, count: nat) returns (n: nat)
      requires Valid() && !disposed
      requires offset + count <= buffer.Length
      requires buffer != reader.ownBuffer.buffer
      modifies this, reader, stream, reader.ownBuffer, reader.ownBuffer.buffer, buffer
      ensures Valid() && !disposed
      ensures n <= count && (n < count ==> currentShadowBufferSize == 0)
      ensures old(currentShadowBufferSize) == 0 ==> n == 0
      ensures count < old(currentShadowBufferSize) - old(currShadowBufferIx) ==> n == count && stream.position == old(stream.position)
      ensures Consumed() == old(Consumed()) + n
      ensures Holds(buffer, offset, offset + n, stream.data, startPos + old(Consumed()))
      ensures SameOutside(buffer, offset, offset + n, old(buffer[..]))
    {
      ghost var base, before := startPos + Consumed(), buffer[..];
      var done, bytesRead := ReadPartialBufferHotPath(buffer, offset, count);
      if done {
        return bytesRead;
      }
      n := ReadRefilling(buffer, offset, count, base, before);
    }

    /**
     * The rest of `Read` once the hot path did not apply: the refill loop,
     * then the partial copy from the last buffer.
     */
    method ReadRefilling(buffer: array<byte>, offset: nat, count: nat, ghost base: nat, ghost before: seq<byte>)
      returns (n: nat)
      requires Valid() && !disposed && currentShadowBufferSize > 0
      requires currentShadowBufferSize - currShadowBufferIx <= count && offset + count <= buffer.Length
      requires buffer != reader.ownBuffer.buffer
      requires base == startPos + Consumed() && SameOutside(buffer, offset, offset, before)
      modifies this, reader, stream, reader.ownBuffer, reader.ownBuffer.buffer, buffer
      ensures Valid() && !disposed
      ensures n <= count && (n < count ==> currentShadowBufferSize == 0)
      ensures Consumed() == old(Consumed()) + n
      ensures Holds(buffer, offset, offset + n, stream.data, base)
      ensures SameOutside(buffer, offset, offset + n, before)
    {
      var totBytesCopied: nat := 0;
      var off: nat := offset;
      var newIx: nat := currShadowBufferIx + count;
      while newIx >= currentShadowBufferSize
        invariant Valid() && !disposed && currentShadowBufferSize > 0
        invariant off == offset + totBytesCopied && totBytesCopied <= count
        invariant newIx == currShadowBufferIx + (count - totBytesCopied)
        invariant Consumed() == old(Consumed()) + totBytesCopied
        invariant Holds(buffer, offset, off, stream.data, base) && SameOutside(buffer, offset, off, before)
        decreases newIx
      {
        off, totBytesCopied, newIx := ReadWithBufferRefill(buffer, off, totBytesCopied, newIx, offset, base, before);
        FillShadowBuffer();
        if IsEOF() {
          return totBytesCopied;
        }
      }
      n := ReadPartialBuffer(buffer, off, totBytesCopied, newIx, offset, base, before);
    }

    /**
     * `ReadPartialBufferHotPath`: when `count` is less than what is left in
     * the buffer, copy it and report it read; otherwise report whether the
     * stream is at its end.
     */
    method ReadPartialBufferHotPath(buffer: array<byte>, offset: nat, count: nat) returns (done: bool, bytesRead: nat)
      requires Valid() && !disposed
      requires offset + count <= buffer.Length
      requires buffer != reader.ownBuffer.buffer
      modifies this, buffer
      ensures Valid() && !disposed
      ensures var hot := count < old(currentShadowBufferSize) - old(currShadowBufferIx);
              && (done <==> hot || old(currentShadowBufferSize) == 0)
              && (hot ==> bytesRead == count)
              && (!hot ==> bytesRead == 0)
      ensures Consumed() == old(Consumed()) + bytesRead
      ensures Holds(buffer, offset, offset + bytesRead, stream.data, startPos + old(Consumed()))
      ensures SameOutside(buffer, offset, offset + bytesRead, old(buffer[..]))
      ensures currentShadowBufferSize == old(currentShadowBufferSize) && totBytesRead == old(totBytesRead)
    {
      if count < currentShadowBufferSize - currShadowBufferIx {
        CopyFromShadow(buffer, offset, count, offset, startPos + Consumed(), buffer[..]);
        currShadowBufferIx := currShadowBufferIx + count;
        return true, count;
      }
      return IsEOF(), 0;
    }

    /**
     * `ReadWithBufferRefill`: copies the rest of the buffer and moves the
     * cursors past it, extending the run `buffer[start..offset]`.
     */
    method ReadWithBufferRefill(buffer: array<byte>, offset: nat, totBytesCopied: nat, newIx: nat,
                                ghost start: nat, ghost base: nat, ghost before: seq<byte>)
      returns (offset2: nat, totBytesCopied2: nat, newIx2: nat)
      requires Valid() && !disposed && currentShadowBufferSize > 0
      requires newIx >= currentShadowBufferSize
      requires offset + (newIx - currShadowBufferIx) <= buffer.Length
      requires buffer != reader.ownBuffer.buffer
      requires start <= offset && base + (offset - start) == startPos + Consumed()
      requires Holds(buffer, start, offset, stream.data, base) && SameOutside(buffer, start, offset, before)
      modifies this, buffer
      ensures Drained() && currShadowBufferIx == currentShadowBufferSize
      ensures currentShadowBufferSize == old(currentShadowBufferSize) && totBytesRead == old(totBytesRead)
      ensures var availableLength := old(currentShadowBufferSize) - old(currShadowBufferIx);
              && offset2 == offset + availableLength
              && totBytesCopied2 == totBytesCopied + availableLength
              && newIx2 == newIx - currentShadowBufferSize
              && Consumed() == old(Consumed()) + availableLength
      ensures Holds(buffer, start, offset2, stream.data, base) && SameOutside(buffer, start, offset2, before)
    {
      var availableLength := currentShadowBufferSize - currShadowBufferIx;
      CopyFromShadow(buffer, offset, availableLength, start, base, before);
      totBytesCopied2 := totBytesCopied + availableLength;
      newIx2 := newIx - currentShadowBufferSize;
      offset2 := offset + availableLength;
      currShadowBufferIx := currentShadowBufferSize;
    }

    /**
     * `ReadPartialBuffer`: copies up to `newIx` when there is anything to
     * copy, extending the run `buffer[start..offset]`, and returns the
     * running total.
     */
    method ReadPartialBuffer(buffer: array<byte>, offset: nat, totBytesCopied: nat, newIx: nat,
                             ghost start: nat, ghost base: nat, ghost before: seq<byte>) returns (n: nat)
      requires Valid() && !disposed
      requires currShadowBufferIx <= newIx < currentShadowBufferSize
      requires offset + (newIx - currShadowBufferIx) <= buffer.Length
      requires buffer != reader.ownBuffer.buffer
      requires offset == start + totBytesCopied && base + totBytesCopied == startPos + Consumed()
      requires Holds(buffer, start, offset, stream.data, base) && SameOutside(buffer, start, offset, before)
      modifies this, buffer
      ensures Valid() && !disposed
      ensures currShadowBufferIx == newIx && stream.position == old(stream.position)
      ensures n == totBytesCopied + (newIx - old(currShadowBufferIx))
      ensures Consumed() == old(Consumed()) + (n - totBytesCopied)
      ensures Holds(buffer, start, start + n, stream.data, base)
      ensures SameOutside(buffer, start, start + n, before)
    {
      n := totBytesCopied;
      var partialBlockLength := newIx - currShadowBufferIx;
      if partialBlockLength > 0 {
        CopyFromShadow(buffer, offset, partialBlockLength, start, base, before);
        n := n + partialBlockLength;
        currShadowBufferIx := newIx;
      }
    }

    /**
     * `Dispose`: on the first call, abort the reader and, when the inner
     * stream can seek, put it back just after the bytes the caller was given.
     */
    method Dispose()
      requires Valid()
      modifies this, reader, reader.ownBuffer, stream
      ensures Valid() && disposed && shadowBuffer == null && Consumed() == old(Consumed())
      ensures !old(disposed) && stream.canSeek ==> stream.position == startPos + Consumed()
      ensures old(disposed) || !stream.canSeek ==> stream.position == old(stream.position)
    {
      if !disposed {
        var repositionStream := stream.canSeek;
        reader.Abort();
        if repositionStream {
          stream.SetPosition(innerStreamStartPos + totBytesRead + currShadowBufferIx);
        }
        disposed := true;
      }
      shadowBuffer := null;
    }

    /** `Flush` does nothing on a read-only stream. */
    method Flush()
    {
    }

    /** `WriteByte`, `Write`, `SetLength`, `Length`, `Seek` and `Position` are not supported by a read-only stream. */
    function WriteByte(value: byte): (r: Result<(), StreamError>)
      ensures r.Err? && r.error == NotSupported
    {
      Err(NotSupported)
    }

    function Write(buffer: array<byte>, offset: int, count: int): (r: Result<(), StreamError>)
      ensures r.Err? && r.error == NotSupported
    {
      Err(NotSupported)
    }

    function SetLength(value: int): (r: Result<(), StreamError>)
      ensures r.Err? && r.error == NotSupported
    {
      Err(NotSupported)
    }

    function Length(): (r: Result<int, StreamError>)
      ensures r.Err? && r.error == NotSupported
    {
      Err(NotSupported)
    }

    function Seek(offset: int, origin: SeekOrigin): (r: Result<int, StreamError>)
      ensures r.Err? && r.error == NotSupported
    {
      Err(NotSupported)
    }

    function Position(): (r: Result<int, StreamError>)
      ensures r.Err? && r.error == NotSupported
    {
      Err(NotSupported)
    }

    function SetPosition(value: int): (r: Result<(), StreamError>)
      ensures r.Err? && r.error == NotSupported
    {
      Err(NotSupported)
    }
  }
}
