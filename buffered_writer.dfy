/**
 * `BufferedStreamWriter`: a write-only stream that collects the caller's
 * bytes in a shadow buffer of `shadowBufferSize` bytes and hands each full
 * buffer (and, on flush, the partly filled one) to its `IWriter`. The
 * writer modelled is `SynchronousWriter`, which writes the buffer straight
 * to the inner stream and hands the same buffer back.
 */
module BufferedWriter {
  import opened Wrappers
  import opened Bytes
  import opened Streams

  /** `BufferedStreamWriterConfig.recomendedShadowBufferSize`, the default buffer size. */
  const RecommendedShadowBufferSize: nat := 1024 * 64

  /** `SynchronousWriter`: one shadow buffer, and writes forwarded to the stream. */
  class SynchronousWriter {
    const stream: OutputStream
    const shadowBuffer: ShadowBufferData
    /** How often `Abort` was called; `Abort` itself does nothing. */
    ghost var aborts: nat

    constructor (stream: OutputStream, shadowBufferSize: nat)
      ensures this.stream == stream && aborts == 0
      ensures fresh(shadowBuffer) && fresh(shadowBuffer.buffer)
      ensures shadowBuffer.buffer.Length == shadowBufferSize && shadowBuffer.byteCount == 0
    {
      this.stream := stream;
      shadowBuffer := new ShadowBufferData(shadowBufferSize, 0);
      aborts := 0;
    }

    /** `ReturnBufferAndWrite`: writes the first `byteCount` bytes of the buffer to the stream. */
    method ReturnBufferAndWrite(sourceBuffer: ShadowBufferData)
      requires 0 <= sourceBuffer.byteCount <= sourceBuffer.buffer.Length
      modifies stream
      ensures stream.contents == old(stream.contents) + sourceBuffer.buffer[..sourceBuffer.byteCount]
      ensures stream.writeSizes == old(stream.writeSizes) + [sourceBuffer.byteCount]
      ensures stream.flushCount == old(stream.flushCount)
    {
      stream.Write(sourceBuffer.buffer, 0, sourceBuffer.byteCount);
    }

    /** `Flush`: flushes the stream once. */
    method Flush()
      modifies stream
      ensures stream.contents == old(stream.contents) && stream.writeSizes == old(stream.writeSizes)
      ensures stream.flushCount == old(stream.flushCount) + 1
    {
      stream.Flush();
    }

    /** `Abort`: nothing to release. */
    method Abort()
      modifies this
      ensures aborts == old(aborts) + 1
    {
      aborts := aborts + 1;
    }

    /** `RequestBuffer`: always the same buffer. */
    method RequestBuffer() returns (b: ShadowBufferData)
      ensures b == shadowBuffer
    {
      b := shadowBuffer;
    }
  }

  class BufferedStreamWriter {
    const shadowBufferSize: nat
    const writer: SynchronousWriter
    var shadowBuffer: ShadowBufferData?
    var currShadowBufferIx: nat
    var disposedValue: bool
    /** What the stream held before, then every byte the caller wrote, in order. */
    ghost var accepted: seq<byte>
    /** The number of writes the stream had seen when this writer was made. */
    ghost const firstWrite: nat

    /** `CanRead`, `CanWrite`, `CanSeek`. */
    const CanRead: bool := false
    const CanWrite: bool := true
    const CanSeek: bool := false

    /**
     * The bytes sent to the stream and then the pending bytes of the shadow
     * buffer are the bytes accepted; every block sent since construction
     * holds between 1 and `shadowBufferSize` bytes. The index may sit at
     * `shadowBufferSize` only inside `Write`, just before the buffer is sent.
     */
    ghost predicate Buffered()
      reads this, writer, writer.stream, writer.shadowBuffer, writer.shadowBuffer.buffer
    {
      && shadowBufferSize >= 1
      && writer.shadowBuffer.buffer.Length == shadowBufferSize
      && (disposedValue <==> shadowBuffer == null)
      && (!disposedValue ==> shadowBuffer == writer.shadowBuffer)
      && (disposedValue ==> currShadowBufferIx == 0)
      && currShadowBufferIx <= shadowBufferSize
      && firstWrite <= |writer.stream.writeSizes|
      && (forall k :: firstWrite <= k < |writer.stream.writeSizes| ==> 1 <= writer.stream.writeSizes[k] <= shadowBufferSize)
      && writer.stream.contents + writer.shadowBuffer.buffer[..currShadowBufferIx] == accepted
    }

    /** Between calls the shadow buffer is never full. */
    ghost predicate Valid()
      reads this, writer, writer.stream, writer.shadowBuffer, writer.shadowBuffer.buffer
    {
      Buffered() && currShadowBufferIx < shadowBufferSize
    }

    /**
     * The constructor with an explicit writer: index 0 and the writer's
     * buffer. `Write` loops without end on a zero-byte buffer, so the size
     * is at least one.
     */
    constructor (writer: SynchronousWriter, shadowBufferSize: nat)
      requires shadowBufferSize >= 1 && writer.shadowBuffer.buffer.Length == shadowBufferSize
      ensures Valid() && !disposedValue
      ensures this.writer == writer && this.shadowBufferSize == shadowBufferSize
      ensures currShadowBufferIx == 0 && accepted == writer.stream.contents
    {
      this.writer := writer;
      this.shadowBufferSize := shadowBufferSize;
      currShadowBufferIx := 0;
      var b := writer.RequestBuffer();
      shadowBuffer := b;
      disposedValue := false;
      accepted := writer.stream.contents;
      firstWrite := |writer.stream.writeSizes|;
      new;
      assert writer.shadowBuffer.buffer[..0] == [];
    }

    /** `ShadowCopy`: copies `count` bytes of `buffer` into the shadow buffer at the index. */
    method ShadowCopy(buffer: array<byte>, offset: nat, count: nat)
      requires Buffered() && !disposedValue
      requires offset + count <= buffer.Length && currShadowBufferIx + count <= shadowBufferSize
      requires buffer != writer.shadowBuffer.buffer
      modifies writer.shadowBuffer.buffer
      ensures writer.shadowBuffer.buffer[..currShadowBufferIx + count]
                == old(writer.shadowBuffer.buffer[..currShadowBufferIx]) + buffer[offset..offset + count]
    {
      var sb := shadowBuffer.buffer;
      forall k | 0 <= k < count {
        sb[currShadowBufferIx + k] := buffer[offset + k];
      }
      assert sb[..currShadowBufferIx + count] == old(sb[..currShadowBufferIx]) + buffer[offset..offset + count];
    }

    /** `WriteByte`: one byte into the shadow buffer, sent on once the buffer is full. */
    method WriteByte(value: byte)
      requires Valid() && !disposedValue
      modifies this, writer.stream, writer.shadowBuffer, writer.shadowBuffer.buffer
      ensures Valid() && !disposedValue
      ensures accepted == old(accepted) + [value]
      ensures old(currShadowBufferIx) + 1 == shadowBufferSize ==>
                && currShadowBufferIx == 0
                && writer.stream.contents == old(writer.stream.contents) + old(writer.shadowBuffer.buffer[..currShadowBufferIx]) + [value]
                && writer.stream.writeSizes == old(writer.stream.writeSizes) + [shadowBufferSize]
      ensures old(currShadowBufferIx) + 1 < shadowBufferSize ==>
                && currShadowBufferIx == old(currShadowBufferIx) + 1
                && writer.stream.contents == old(writer.stream.contents)
                && writer.stream.writeSizes == old(writer.stream.writeSizes)
      ensures writer.stream.flushCount == old(writer.stream.flushCount)
    {
      shadowBuffer.buffer[currShadowBufferIx] := value;
      assert writer.shadowBuffer.buffer[..currShadowBufferIx + 1] == old(writer.shadowBuffer.buffer[..currShadowBufferIx]) + [value];
      currShadowBufferIx := currShadowBufferIx + 1;
      accepted := accepted + [value];
      if currShadowBufferIx == shadowBufferSize {
        FlushShadowBuffer();
      }
    }

    /**
     * `Write(buffer, offset, count)`: the hot path when the bytes fit in the
     * room left; otherwise fill and send the buffer for as long as the new
     * index reaches the buffer size, and keep what remains.
     */
    method Write(buffer: array<byte>, offset: nat, count: nat)
      requires Valid() && !disposedValue
      requires offset + count <= buffer.Length
      requires buffer != writer.shadowBuffer.buffer
      modifies this, writer.stream, writer.shadowBuffer, writer.shadowBuffer.buffer
      ensures Valid() && !disposedValue
      ensures accepted == old(accepted) + buffer[offset..offset + count]
      ensures count < shadowBufferSize - old(currShadowBufferIx) ==>
                && currShadowBufferIx == old(currShadowBufferIx) + count
                && writer.stream.contents == old(writer.stream.contents)
      ensures writer.stream.flushCount == old(writer.stream.flushCount)
    {
      var hot := WritePartialBufferHotPath(buffer, offset, count);
      if hot {
        return;
      }
      var off := offset;
      var newIx := currShadowBufferIx + count;
      while newIx >= shadowBufferSize
        invariant Valid() && !disposedValue
        invariant offset <= off <= offset + count
        invariant newIx == currShadowBufferIx + (offset + count - off)
        invariant accepted == old(accepted) + buffer[offset..off]
        invariant writer.stream.flushCount == old(writer.stream.flushCount)
        decreases newIx
      {
        off, newIx := WriteFullBuffer(buffer, off, newIx);
        FlushShadowBuffer();
      }
      WritePartialBuffer(buffer, off, newIx);
      assert buffer[offset..offset + count] == buffer[offset..off] + buffer[off..offset + count];
    }

    /** `WritePartialBufferHotPath`: taken exactly when `count` is less than the room left. */
    method WritePartialBufferHotPath(buffer: array<byte>, offset: nat, count: nat) returns (taken: bool)
      requires Valid() && !disposedValue
      requires offset + count <= buffer.Length
      requires buffer != writer.shadowBuffer.buffer
      modifies this, writer.shadowBuffer.buffer
      ensures Valid() && !disposedValue
      ensures taken <==> count < shadowBufferSize - old(currShadowBufferIx)
      ensures taken ==> currShadowBufferIx == old(currShadowBufferIx) + count
                        && accepted == old(accepted) + buffer[offset..offset + count]
      ensures !taken ==> currShadowBufferIx == old(currShadowBufferIx) && accepted == old(accepted)
                         && writer.shadowBuffer.buffer[..] == old(writer.shadowBuffer.buffer[..])
    {
      if count < shadowBufferSize - currShadowBufferIx {
        ShadowCopy(buffer, offset, count);
        currShadowBufferIx := currShadowBufferIx + count;
        accepted := accepted + buffer[offset..offset + count];
        return true;
      }
      return false;
    }

    /** `WritePartialBuffer`: keeps the bytes up to `newIx` when there are any. */
    method WritePartialBuffer(buffer: array<byte>, offset: nat, newIx: nat)
      requires Valid() && !disposedValue
      requires currShadowBufferIx <= newIx < shadowBufferSize
      requires offset + (newIx - currShadowBufferIx) <= buffer.Length
      requires buffer != writer.shadowBuffer.buffer
      modifies this, writer.shadowBuffer.buffer
      ensures Valid() && !disposedValue
      ensures currShadowBufferIx == newIx
      ensures accepted == old(accepted) + buffer[offset..offset + (newIx - old(currShadowBufferIx))]
    {
      var partialBlockLength := newIx - currShadowBufferIx;
      if partialBlockLength > 0 {
        ShadowCopy(buffer, offset, partialBlockLength);
        currShadowBufferIx := newIx;
        accepted := accepted + buffer[offset..offset + partialBlockLength];
      }
    }

    /** `WriteFullBuffer`: fills the rest of the shadow buffer and moves both cursors on. */
    method WriteFullBuffer(buffer: array<byte>, offset: nat, newIx: nat) returns (offset2: nat, newIx2: nat)
      requires Valid() && !disposedValue
      requires newIx >= shadowBufferSize
      requires offset + (newIx - currShadowBufferIx) <= buffer.Length
      requires buffer != writer.shadowBuffer.buffer
      modifies this, writer.shadowBuffer.buffer
      ensures Buffered() && !disposedValue
      ensures currShadowBufferIx == shadowBufferSize
      ensures offset2 == offset + (shadowBufferSize - old(currShadowBufferIx))
      ensures newIx2 == newIx - shadowBufferSize
      ensures accepted == old(accepted) + buffer[offset..offset2]
    {
      var availableLength := shadowBufferSize - currShadowBufferIx;
      ShadowCopy(buffer, offset, availableLength);
      currShadowBufferIx := currShadowBufferIx + availableLength;
      accepted := accepted + buffer[offset..offset + availableLength];
      offset2 := offset + availableLength;
      newIx2 := newIx - shadowBufferSize;
    }

    /**
     * `FlushShadowBuffer`: nothing when the index is 0; otherwise the
     * pending bytes go to the writer as one block and the index restarts.
     */
    method FlushShadowBuffer()
      requires Buffered()
      modifies this, writer.stream, writer.shadowBuffer
      ensures Valid() && disposedValue == old(disposedValue)
      ensures currShadowBufferIx == 0 && accepted == old(accepted)
      ensures writer.stream.contents == old(writer.stream.contents) + old(writer.shadowBuffer.buffer[..currShadowBufferIx])
      ensures writer.stream.writeSizes
                == old(writer.stream.writeSizes) + (if old(currShadowBufferIx) > 0 then [old(currShadowBufferIx)] else [])
      ensures writer.stream.flushCount == old(writer.stream.flushCount)
    {
      if currShadowBufferIx > 0 {
        shadowBuffer.byteCount := currShadowBufferIx;
        writer.ReturnBufferAndWrite(shadowBuffer);
        shadowBuffer := writer.RequestBuffer();
        currShadowBufferIx := 0;
      }
    }

    /** `Flush`: sends the pending bytes, then flushes the writer; the stream then holds every accepted byte. */
    method Flush()
      requires Valid()
      modifies this, writer.stream, writer.shadowBuffer
      ensures Valid() && disposedValue == old(disposedValue)
      ensures accepted == old(accepted) && writer.stream.contents == accepted
      ensures writer.stream.flushCount == old(writer.stream.flushCount) + 1
    {
      FlushShadowBuffer();
      writer.Flush();
    }

    /**
     * `Dispose`: on the first call, flush, abort the writer and drop the
     * buffer; later calls do nothing.
     */
    method Dispose()
      requires Valid()
      modifies this, writer, writer.stream, writer.shadowBuffer
      ensures Valid() && disposedValue
      ensures accepted == old(accepted) && writer.stream.contents == accepted
      ensures old(disposedValue) ==> writer.stream.flushCount == old(writer.stream.flushCount) && writer.aborts == old(writer.aborts)
                                     && writer.stream.writeSizes == old(writer.stream.writeSizes)
      ensures !old(disposedValue) ==> writer.stream.flushCount == old(writer.stream.flushCount) + 1 && writer.aborts == old(writer.aborts) + 1
    {
      if disposedValue {
        return;
      }
      Flush();
      writer.Abort();
      shadowBuffer := null;
      disposedValue := true;
    }

    /**
     * `DisposeAsync`: flush and abort, then mark the stream disposed. Unlike
     * `Dispose` it flushes and aborts on every call.
     */
    method DisposeAsync()
      requires Valid()
      modifies this, writer, writer.stream, writer.shadowBuffer
      ensures Valid() && disposedValue
      ensures accepted == old(accepted) && writer.stream.contents == accepted
      ensures writer.stream.flushCount == old(writer.stream.flushCount) + 1 && writer.aborts == old(writer.aborts) + 1
    {
      Flush();
      writer.Abort();
      shadowBuffer := null;
      disposedValue := true;
    }

    /** `ReadByte`, `Read`, `SetLength`, `Length`, `Position` and `Seek` are not supported by a write-only stream. */
    function ReadByte(): (r: Result<int, StreamError>)
      ensures r.Err? && r.error == NotSupported
    {
      Err(NotSupported)
    }

    function Read(buffer: array<byte>, offset: int, count: int): (r: Result<int, StreamError>)
      ensures r.Err? && r.error == NotSupported
    {
      Err(NotSupported)
    }

    function SetLength(value: int): (r: Result<(), StreamError>)
      ensures r.Err? && r.error == NotSupported
    {
      Err(NotSupported)
    }

    function Length(): (r: Result<int, StreamError>)
      ensures r.Err? && r.error == NotSupported
    {
      Err(NotSupported)
    }

    function Position(): (r: Result<int, StreamError>)
      ensures r.Err? && r.error == NotSupported
    {
      Err(NotSupported)
    }

    function SetPosition(value: int): (r: Result<(), StreamError>)
      ensures r.Err? && r.error == NotSupported
    {
      Err(NotSupported)
    }

    function Seek(offset: int, origin: SeekOrigin): (r: Result<int, StreamError>)
      ensures r.Err? && r.error == NotSupported
    {
      Err(NotSupported)
    }
  }
}
