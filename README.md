# slStreamUtils, modelled in Dafny

slStreamUtils is a C# library of stream utilities. Four parts of it are
modelled here.

- **MessagePack framing of collections.**
  - `CollectionSerializerAsync` groups items into batches. A worker queue
    serializes every item of a batch into one contiguous buffer and records
    each item's length. Each item then goes to the stream as a frame: the
    header `0x92` (a MessagePack fixarray of two), the body length as the
    shortest MessagePack unsigned integer, then the body bytes.
  - `CollectionDeserializerAsync` reads the headers back. It groups the
    bodies into batches bounded by a byte budget and hands each batch to a
    worker that slices it into `Frame`s.
  - `FrameItemFormatter` reads and writes one frame.
  - The older API (`CollectionSerializer` and `CollectionDeserializer` in
    `slStreamUtilsMessagePack`) writes a 10-byte map header
    `{"l": int32, "t": …}` in front of each item and parses it back.
- **Shadow-buffer streams.**
  - `BufferedStreamWriter` collects the caller's bytes in a fixed-size
    shadow buffer and hands each full buffer to a `SynchronousWriter`.
  - `BufferedStreamReader` serves the caller's reads from a shadow buffer
    that a `SynchronousReader` refills, optionally stopping after a byte
    cap.
- **`FIFOWorker`.** It numbers the work items it is given. Their results
  can finish in any order, and it emits them in the order of the numbers,
  holding back the ones that finish early. `FIFOWorkerConfig` validates and
  defaults its queue sizes.
- **`Frame<T>`** (protobuf flavour). An item carries an optional buffer
  length. Equality and hashing look only at the item.

The modules follow the source:

| module | file |
|---|---|
| `Bytes`, `Seqs`, `Wrappers` | shared helpers: bytes, 32-bit integers, big-endian values, sequence lemmas, Option/Result |
| `MessagePack` | the reader calls the formatter makes into the MessagePack library, and the unsigned-integer encodings it accepts |
| `UIntWriter` | `UIntWriter.cs` |
| `FrameHeader` | the frame header of `CollectionSerializerAsync.cs` and `CollectionDeserializerAsync.cs`, and `FrameItemFormatter.cs` |
| `Frames` | `Frame.cs` |
| `Batches` | the worker halves (`HandleWorkerOutput`) and `BatchToStreamAsync` |
| `DeserializerAsync` | the batch-splitting loop of `DeserializeAsync` |
| `SerializerAsync` | the `CollectionSerializerAsync` class: `SerializeAsync`, `CompleteBatch`, `FlushAsync` |
| `RoundTrip` | serializing and then deserializing a collection |
| `MapHeader` | the 10-byte map header of the older API |
| `Streams` | a stand-in for the .NET `Stream`: an input stream with an arbitrary chunk size and an output stream that logs writes and flushes, plus `ShadowBufferData` |
| `BufferedWriter` | `BufferedStreamWriter.cs`, `SynchronousWriter.cs` |
| `BufferedReader` | `BufferedStreamReader.cs`, `SynchronousReader.cs` |
| `WorkerConfig` | `FIFOWorkerConfig.cs` |
| `WorkerQueue` | `FIFOWorker.cs` |

Several things come in from outside and are parameters of the model:

- The item formatter is a function `T -> seq<byte>`. Body deserialization
  is a function `seq<byte> -> T`.
- The batch size recommended by the estimator is an `int`.
- How many finished batches the worker queue yields on each hand-off is a
  natural number.
- The order in which the `FIFOWorker`'s tasks complete is a sequence of
  indices.
- How many bytes each read of the inner stream returns is the stream's
  chunk size.

C# `int` arithmetic that can wrap is written out: `ReverseEndianness`, the
`(byte)` casts, `2 * maxConcurrentTasks` and the sum of the three queue
sizes. Four `int` sums are unbounded in the model instead, and "## Left
out" says why for each:
- the deserializer's `currentBatchTotalSize`;
- the `FIFOWorker`'s `nextWorkIx`;
- `currShadowBufferIx + count` in `BufferedStreamWriter.Write`;
- `currShadowBufferIx + count` in `BufferedStreamReader.Read`.

The `FIFOWorker` code reads `config.TotThreads`, but `FIFOWorkerConfig`
has only `MaxConcurrentTasks`. The model takes the two to be the same
field.

## Model

| member | source | states |
|---|---|---|
| Bytes.UInt16BigEndianIsBigEndian | slStreamUtilsMessagePack/CollectionSerialization/UIntWriter.cs:55-60 | the two bytes `WriteUInt16BigEndian` produces are the value's two-byte big-endian form |
| Bytes.UInt32BigEndianIsBigEndian | slStreamUtilsMessagePack/CollectionSerialization/UIntWriter.cs:48-53 | the four bytes `WriteUInt32BigEndian` produces are the value's four-byte big-endian form |
| Bytes.FromBigEndianOfBigEndian | slStreamUtilsMessagePack/CollectionSerialization/CollectionDeserializerAsync.cs:200-213 | reading back the big-endian bytes of a value that fits gives the value |
| Bytes.BigEndianOfFromBigEndian | slStreamUtilsMessagePack/CollectionSerialization/CollectionDeserializerAsync.cs:200-213 | the big-endian form of the value read from some bytes is those bytes |
| Bytes.ReverseEndianness | slStreamUtilsMessagePack/CollectionSerializer.cs:34-35 | the four bytes of the result, low first, are those of the input in reverse order |
| Bytes.ReverseEndiannessTwice | slStreamUtilsMessagePack/CollectionDeserializer.cs:79-80 | reversing twice gives back the original `int` |
| Bytes.Int32OfBytesOfInt32Bytes | slStreamUtilsMessagePack/CollectionDeserializer.cs:78 | putting the `(byte)(i >> 8k)` bytes back together low byte first gives `i` |
| Bytes.Int32BytesOfInt32OfBytes | slStreamUtilsMessagePack/CollectionDeserializer.cs:78 | splitting the assembled `int` gives back the four bytes read |
| Bytes.ReversedBytesAreBigEndian | slStreamUtilsMessagePack/CollectionSerializer.cs:62-66 | the bytes `(byte)(r >> 8k)` of the reversed value are the original value big-endian |
| MessagePack.ReadBigEndian | slStreamUtilsMessagePack/Formatters/FrameItemFormatter.cs:49 | succeeds exactly when enough bytes remain, with their big-endian value and the position after them |
| MessagePack.SignedFromBigEndian | slStreamUtilsMessagePack/Formatters/FrameItemFormatter.cs:49 | a two's-complement reading stays in the signed range of its width |
| MessagePack.BigEndianTopBit | slStreamUtilsMessagePack/Formatters/FrameItemFormatter.cs:49 | the big-endian value is at least half the range exactly when the first byte's top bit is set |
| MessagePack.ReadUInt32 | slStreamUtilsMessagePack/Formatters/FrameItemFormatter.cs:49 | a successful read consumes at least one byte and stays inside the input |
| MessagePack.ReadArrayHeader | slStreamUtilsMessagePack/Formatters/FrameItemFormatter.cs:46 | a successful read consumes at least one byte and stays inside the input |
| MessagePack.FixArrayHeader | slStreamUtilsMessagePack/Formatters/FrameItemFormatter.cs:75 | an array header with fewer than 16 elements is one byte |
| MessagePack.PayloadEncoding | slStreamUtilsMessagePack/Formatters/FrameItemFormatter.cs:76 | a `0xcd` code with two bytes, or a `0xce` code with four, is an unsigned encoding of their big-endian value |
| MessagePack.ReadUInt32OfUIntEncoding | slStreamUtilsMessagePack/Formatters/FrameItemFormatter.cs:49 | the library reader returns the value and the position after every unsigned encoding of a `uint`, whatever follows |
| UIntWriter.WriteUint8Small | slStreamUtilsMessagePack/CollectionSerialization/UIntWriter.cs:42-46 | writes one byte equal to the value and returns 1; the rest of the span is unchanged |
| UIntWriter.WriteUint8Large | slStreamUtilsMessagePack/CollectionSerialization/UIntWriter.cs:35-40 | writes `0xcc` then the value's byte and returns 2; the rest is unchanged |
| UIntWriter.WriteUInt16 | slStreamUtilsMessagePack/CollectionSerialization/UIntWriter.cs:55-60 | writes `0xcd` then two big-endian bytes and returns 3; the rest is unchanged |
| UIntWriter.WriteUInt32 | slStreamUtilsMessagePack/CollectionSerialization/UIntWriter.cs:48-53 | writes `0xce` then four big-endian bytes and returns 5; the rest is unchanged |
| UIntWriter.WriteUInt | slStreamUtilsMessagePack/CollectionSerialization/UIntWriter.cs:15-33 | the value range picks the form (≤127, ≤255, ≤65535, above); the count is the bytes written and the rest of the span is unchanged |
| UIntWriter.Encode | slStreamUtilsMessagePack/CollectionSerialization/UIntWriter.cs:15-33 | the encoding is one to five bytes long |
| UIntWriter.EncodeIsUIntEncoding | slStreamUtilsMessagePack/CollectionSerialization/UIntWriter.cs:15-33 | what `WriteUInt` writes is a valid MessagePack unsigned encoding of the value |
| UIntWriter.WriteUIntIsShortest | slStreamUtilsMessagePack/CollectionSerialization/UIntWriter.cs:15-33 | no unsigned MessagePack encoding of the value is shorter |
| UIntWriter.EncodeIsWrittenPrefix | slStreamUtilsMessagePack/CollectionSerialization/UIntWriter.cs:15-33 | the span after `WriteUInt` is the encoding followed by the untouched rest |
| FrameHeader.HeaderBytes | slStreamUtilsMessagePack/CollectionSerialization/CollectionSerializerAsync.cs:32-36 | the header begins with `0x92` and is 2 to `headerMaxLength` = 6 bytes long |
| FrameHeader.WriteHeaderToSpan | slStreamUtilsMessagePack/CollectionSerialization/CollectionSerializerAsync.cs:163-167 | the span starts with `0x92` and the `WriteUInt` encoding; the count is 1 plus its length; the rest is unchanged |
| FrameHeader.FrameBytesIsHeaderAndBody | slStreamUtilsMessagePack/Formatters/FrameItemFormatter.cs:70-79 | a frame is `0x92`, the body length in the shortest unsigned form, then the body |
| FrameHeader.UnpackUInt8 | slStreamUtilsMessagePack/CollectionSerialization/CollectionDeserializerAsync.cs:214-220 | succeeds exactly when a byte remains, with that byte; otherwise the stream is too short |
| FrameHeader.UnpackUInt16 | slStreamUtilsMessagePack/CollectionSerialization/CollectionDeserializerAsync.cs:207-213 | succeeds exactly when two bytes remain, with their big-endian value |
| FrameHeader.UnpackUInt32 | slStreamUtilsMessagePack/CollectionSerialization/CollectionDeserializerAsync.cs:200-206 | succeeds exactly when four bytes remain, with their big-endian value |
| FrameHeader.UnpackFixedUInt | slStreamUtilsMessagePack/CollectionSerialization/CollectionDeserializerAsync.cs:221-224 | a positive fixint is its own value |
| FrameHeader.UnpackUIntX | slStreamUtilsMessagePack/CollectionSerialization/CollectionDeserializerAsync.cs:179-199 | a success consumes the code and its payload and stays inside the stream |
| FrameHeader.UnpackUIntXRejects | slStreamUtilsMessagePack/CollectionSerialization/CollectionDeserializerAsync.cs:182-198 | an empty stream, a code other than `0xcc`/`0xcd`/`0xce` with the top bit set, or a truncated payload is an error |
| FrameHeader.UnpackUIntXAcceptsEncoding | slStreamUtilsMessagePack/CollectionSerialization/CollectionDeserializerAsync.cs:185-198 | whatever is accepted is a valid unsigned encoding (never `0xcf`) of the value returned |
| FrameHeader.UnpackUIntXReadsEncoding | slStreamUtilsMessagePack/CollectionSerialization/CollectionDeserializerAsync.cs:179-224 | every unsigned encoding other than the 64-bit one, `WriteUInt`'s among them, is read back as its value with the position after it, whatever follows |
| FrameHeader.ReadHeader | slStreamUtilsMessagePack/CollectionSerialization/CollectionDeserializerAsync.cs:133-149 | "no header" exactly at the end of the stream; a header read began with `0x92` and its length is at most `int.MaxValue` |
| FrameHeader.ReadHeaderRejects | slStreamUtilsMessagePack/CollectionSerialization/CollectionDeserializerAsync.cs:142-146 | a first byte other than `0x92` is an error, and so is a length above `int.MaxValue` |
| FrameHeader.ReadHeaderReadsEncoding | slStreamUtilsMessagePack/CollectionSerialization/CollectionDeserializerAsync.cs:133-149 | a header read is `0x92` followed by an unsigned encoding of the length returned |
| FrameHeader.ReadHeaderOfHeaderBytes | slStreamUtilsMessagePack/CollectionSerialization/CollectionDeserializerAsync.cs:133-149 | the header written for a length is read back as that length, or refused when it exceeds `int.MaxValue` |
| FrameHeader.ReadElementHeader | slStreamUtilsMessagePack/Formatters/FrameItemFormatter.cs:44-53 | a count other than 2 and a length above `int.MaxValue` are errors; a success has count 2 |
| FrameHeader.ReadElementHeaderAcceptsReadHeader | slStreamUtilsMessagePack/Formatters/FrameItemFormatter.cs:44-53 | every header the async deserializer accepts, the formatter accepts with the same length |
| FrameHeader.ReadElementHeaderOfFrameBytes | slStreamUtilsMessagePack/Formatters/FrameItemFormatter.cs:44-53 | the header of a frame the formatter wrote is read as the body's length |
| FrameHeader.Deserialize | slStreamUtilsMessagePack/Formatters/FrameItemFormatter.cs:35-41 | header errors propagate; length 0 is an error only when `ThrowOnUnnasignedFrameDeserialization` is set; the frame's length is the header's |
| FrameHeader.DeserializeOfFrameBytes | slStreamUtilsMessagePack/Formatters/FrameItemFormatter.cs:35-41 | a serialized frame is read back with the body's length and item |
| FrameHeader.Serialize | slStreamUtilsMessagePack/Formatters/FrameItemFormatter.cs:70-79 | the writer gains the array(2) header, the body length and the body; the body buffer is cleared |
| Frames.FromItem | slStreamUtilsProtobuf/Frame.cs:20-24 | the item is kept and the length is `unassigned` (0) |
| Frames.AssignedIffPositiveLength | slStreamUtilsProtobuf/Frame.cs:32-33 | `BufferLengthIsAssigned` holds exactly when the length is positive, so never for `Frame(item)` |
| Frames.EqualsIgnoresLength | slStreamUtilsProtobuf/Frame.cs:54-66 | equality depends only on the items |
| Frames.NullEquality | slStreamUtilsProtobuf/Frame.cs:57-65 | two null items are equal; a null item and a non-null one are not |
| Frames.EqualsIsEquivalence | slStreamUtilsProtobuf/Frame.cs:54-66 | `Equals` is reflexive, symmetric and transitive |
| Frames.OperatorsAgreeWithEquals | slStreamUtilsProtobuf/Frame.cs:44-52 | `==` is `Equals`, and `!=` is its negation |
| Frames.HashAgreesWithEquals | slStreamUtilsProtobuf/Frame.cs:75-80 | equal frames have equal hashes; a null item hashes to -1, otherwise to the item's hash |
| Frames.ConversionsRoundTrip | slStreamUtilsProtobuf/Frame.cs:35-43 | converting an item to a frame and back gives the item, and a frame converted to its item and back equals it; `ToString` (lines 82-85) is "null" for a null item, else the item's string |
| Batches.SumOfValidLengths | slStreamUtilsMessagePack/CollectionSerialization/CollectionSerializerAsync.cs:137-146 | the recorded lengths never sum to a negative number |
| Batches.Slices | slStreamUtilsMessagePack/CollectionSerialization/CollectionSerializerAsync.cs:225-234 | there is one slice per recorded length |
| Batches.SlicesLengths | slStreamUtilsMessagePack/CollectionSerialization/CollectionSerializerAsync.cs:225-234 | slice i is `lengths[i]` bytes long |
| Batches.SlicesSnoc | slStreamUtilsMessagePack/CollectionSerialization/CollectionSerializerAsync.cs:137-146 | appending a body and recording its length adds that body as the last item |
| Batches.Items | slStreamUtilsMessagePack/CollectionSerialization/CollectionSerializerAsync.cs:225-234 | a batch has as many items as recorded lengths |
| Batches.SlicesUnfold | slStreamUtilsMessagePack/CollectionSerialization/CollectionSerializerAsync.cs:227-233 | item i starts at the prefix sum of the earlier lengths |
| Batches.WalkStep | slStreamUtilsMessagePack/CollectionSerialization/CollectionSerializerAsync.cs:227-233 | the slice at the running start is item i, and the start moves past it |
| Batches.SerializeBatch | slStreamUtilsMessagePack/CollectionSerialization/CollectionSerializerAsync.cs:124-153 | the lengths match the bodies, and item i of the batch is the serialization of input i |
| Batches.DeserializeBatch | slStreamUtilsMessagePack/CollectionSerialization/CollectionDeserializerAsync.cs:151-177 | frame i is the unassigned frame of body i deserialized, and there is one per length |
| Batches.FramedItemsAppend | slStreamUtilsMessagePack/CollectionSerialization/CollectionSerializerAsync.cs:216-241 | framing two lists of bodies one after the other frames their concatenation |
| Batches.FramedItemsSnoc | slStreamUtilsMessagePack/CollectionSerialization/CollectionSerializerAsync.cs:227-233 | one more body adds its header and the body |
| Batches.BatchToStream | slStreamUtilsMessagePack/CollectionSerialization/CollectionSerializerAsync.cs:216-241 | the bytes written are header(len_i) and the body slice for every item of the batch, in order |
| Batches.AllItemsSnoc | slStreamUtilsMessagePack/CollectionSerialization/CollectionDeserializerAsync.cs:77-100 | the items of the batches sent grow by the items of each new batch |
| DeserializerAsync.Admit | slStreamUtilsMessagePack/CollectionSerialization/CollectionDeserializerAsync.cs:77-88 | a non-empty batch that the next item would push past the budget is sent first, and a new batch is started when the total is 0 |
| DeserializerAsync.BodyBytesRead | slStreamUtilsMessagePack/CollectionSerialization/CollectionDeserializerAsync.cs:92-94 | the one `ReadAsync` of a body returns the whole body exactly when the body is on the stream and no longer than one read hands out; otherwise fewer bytes |
| DeserializerAsync.SplitStreamStep | slStreamUtilsMessagePack/CollectionSerialization/CollectionDeserializerAsync.cs:73-97 | one turn of the loop: read a header, admit the item, read its body whole in one call, append it, go on with the rest |
| DeserializerAsync.DeserializeAsync | slStreamUtilsMessagePack/CollectionSerialization/CollectionDeserializerAsync.cs:66-108 | the batches sent and the error raised are those of `SplitStream` on the stream, with a body read that comes back short raising `UnexpectedBodyLength(totRead, itemLength)` |
| DeserializerAsync.AdmitAppendKeepsInvariant | slStreamUtilsMessagePack/CollectionSerialization/CollectionDeserializerAsync.cs:77-96 | each step keeps every batch sent within budget or a single frame |
| DeserializerAsync.SplitStreamKeepsInvariant | slStreamUtilsMessagePack/CollectionSerialization/CollectionDeserializerAsync.cs:73-100 | every batch sent from a valid state is within budget or a single frame |
| DeserializerAsync.SentBatchesAreBounded | slStreamUtilsMessagePack/CollectionSerialization/CollectionDeserializerAsync.cs:77-83 | every batch sent, the last one too, is non-empty and within budget, or holds a single frame |
| DeserializerAsync.SumOfPositiveLengths | slStreamUtilsMessagePack/CollectionSerialization/CollectionDeserializerAsync.cs:96 | positive lengths sum to a positive total as soon as there is one |
| DeserializerAsync.AdmitAppendTakes | slStreamUtilsMessagePack/CollectionSerialization/CollectionDeserializerAsync.cs:77-96 | a non-empty body goes to the end of the items taken so far |
| DeserializerAsync.FinishSendsTaken | slStreamUtilsMessagePack/CollectionSerialization/CollectionDeserializerAsync.cs:98-100 | sending the unfinished batch leaves every item taken in the batches sent |
| DeserializerAsync.SplitStreamOnFrame | slStreamUtilsMessagePack/CollectionSerialization/CollectionDeserializerAsync.cs:73-97 | a whole frame at the front whose body one read returns is admitted and the loop goes on after it |
| DeserializerAsync.SplitStreamOfFramedItems | slStreamUtilsMessagePack/CollectionSerialization/CollectionDeserializerAsync.cs:66-108 | a stream of whole frames, each body no longer than one read, is split with no error, as grouping their bodies one by one |
| DeserializerAsync.ShortBodyReadThrows | slStreamUtilsMessagePack/CollectionSerialization/CollectionDeserializerAsync.cs:92-94 | a body longer than one read hands out raises "unexpected number of bytes read" with the count that read returned, although the whole body is on the stream; the batches sent before it stay sent |
| DeserializerAsync.GroupAllTakes | slStreamUtilsMessagePack/CollectionSerialization/CollectionDeserializerAsync.cs:77-96 | grouping non-empty bodies takes every one of them, in order |
| DeserializerAsync.DeserializeAsyncOfFramedItems | slStreamUtilsMessagePack/CollectionSerialization/CollectionDeserializerAsync.cs:66-108 | for frames of non-empty bodies that one read each returns whole, the batches sent hold exactly those bodies, in order, with no error |
| DeserializerAsync.ZeroLengthFrameOpeningABatchIsDropped | slStreamUtilsMessagePack/CollectionSerialization/CollectionDeserializerAsync.cs:84-88 | an empty frame at the start of a batch disappears when the next frame opens the batch again |
| SerializerAsync.FramedAppend | slStreamUtilsMessagePack/CollectionSerialization/CollectionSerializerAsync.cs:216-241 | the frames of two item lists written one after the other are the frames of their concatenation |
| SerializerAsync.CollectionSerializerAsync.WriteYielded | slStreamUtilsMessagePack/CollectionSerialization/CollectionSerializerAsync.cs:118-119 | the oldest `count` batches leave the queue, their items join those written, and exactly their frames, in order, are appended to the stream |
| SerializerAsync.CollectionSerializerAsync.CompleteBatch | slStreamUtilsMessagePack/CollectionSerialization/CollectionSerializerAsync.cs:113-122 | when flushing or once the batch holds the recommended size, the batch joins the queue, the oldest `min(completed, queued)` batches are written, the queue keeps the rest, and the stream grows by exactly their frames; otherwise nothing changes |
| SerializerAsync.CollectionSerializerAsync.SerializeAsync | slStreamUtilsMessagePack/CollectionSerialization/CollectionSerializerAsync.cs:83-96 | the item joins the batch; when that fills the batch, the hand-off of `CompleteBatch`, stated in terms of the state before the call; otherwise the queue, the items written and the stream are unchanged |
| SerializerAsync.CollectionSerializerAsync.FlushAsync | slStreamUtilsMessagePack/CollectionSerialization/CollectionSerializerAsync.cs:98-111 | afterwards the stream is exactly the frames of every item given, in order, and nothing is pending |
| RoundTrip.SerializeThenDeserialize | UnitTests/slStreamUtilsMessagePackTest/CollectionSerializationTest.cs:230-247 | deserializing what the serializer wrote gives the same items in the same order, with no error (for non-empty bodies that one read of the stream returns whole) |
| MapHeader.Int32Encoding | slStreamUtilsMessagePack/CollectionSerializer.cs:56-68 | the encoding of an `int` is one byte (fixint) or five (`0xd2` and four bytes) |
| MapHeader.MapFields | slStreamUtilsMessagePack/CollectionSerializer.cs:40-46 | the header is 3 + the int's encoding + 2 bytes long |
| MapHeader.HeaderFixed | slStreamUtilsMessagePack/CollectionSerializer.cs:40-46 | the header that always takes the int32 form is `maxHeaderLength` = 10 bytes |
| MapHeader.WriteInt32 | slStreamUtilsMessagePack/CollectionSerializer.cs:56-68 | writes the int's encoding at the cursor, advances the cursor by its length, and changes nothing else |
| MapHeader.PositiveInt32Bytes | slStreamUtilsMessagePack/CollectionSerializer.cs:62-66 | the four bytes of a non-negative `int` decode to it, with a clear top bit |
| MapHeader.WriteHeaderAsync | slStreamUtilsMessagePack/CollectionSerializer.cs:32-55 | throws `InvalidTotalBytes` unless 10 bytes were filled; on success one 10-byte write of the header; nothing is written when it throws |
| MapHeader.HeaderAsWrittenSucceeds | slStreamUtilsMessagePack/CollectionSerializer.cs:34-48 | succeeds exactly when the value after the byte swap exceeds 127, then writes the int32-form header; otherwise throws with 6 bytes filled |
| MapHeader.HeaderFixedLayout | slStreamUtilsMessagePack/CollectionSerializer.cs:40-46 | bytes are `0x82 0xa1 'l' 0xd2`, four big-endian length bytes, then `0xa1 't'` |
| MapHeader.LittleEndianLengthRefused | slStreamUtilsMessagePack/CollectionSerializer.cs:34-35 | on a little-endian machine, a length whose low byte is at least `0x80` is refused |
| MapHeader.LengthOneHundredTwentyEightRefused | slStreamUtilsMessagePack/CollectionSerializer.cs:58-59 | length 128 and length 0 on little-endian and 100 on big-endian are refused |
| MapHeader.ParseInt32 | slStreamUtilsMessagePack/CollectionDeserializer.cs:65-93 | a parse that completes consumes at least the code byte and stays inside the input |
| MapHeader.ParseMapHeader | slStreamUtilsMessagePack/CollectionDeserializer.cs:36-63 | a parse that completes consumes at least the three bytes of the first key and stays inside the input |
| MapHeader.ParseHeaderTail | slStreamUtilsMessagePack/CollectionDeserializer.cs:52-56 | a parse of the value and second key that completes stays inside the input |
| MapHeader.CheckByte | slStreamUtilsMessagePack/CollectionDeserializer.cs:44-47 | passes exactly when the byte is the one expected |
| MapHeader.ReadInt32Async | slStreamUtilsMessagePack/CollectionDeserializer.cs:65-93 | what the reads from the stream give is `ParseInt32` of the stream's bytes: a fixint, an `Int32`/`UInt32` big-endian, `NotSupported` for the 16- and 64-bit codes, and an error for any other code |
| MapHeader.ReadHeaderAsync | slStreamUtilsMessagePack/CollectionDeserializer.cs:36-63 | returns "no header" when the first read is empty, otherwise `ParseMapHeader` of the stream's bytes |
| MapHeader.ReadHeaderTail | slStreamUtilsMessagePack/CollectionDeserializer.cs:52-56 | the length read, then the `0xa1 't'` check, agree with `ParseHeaderTail` |
| MapHeader.ParseInt32Accepts | slStreamUtilsMessagePack/CollectionDeserializer.cs:75-89 | a value is read exactly for a top-bit-clear byte (its own value) or an `Int32`/`UInt32` code; the 64- and 16-bit codes are `NotSupported` |
| MapHeader.ParseMapHeaderRejectsFirstKey | slStreamUtilsMessagePack/CollectionDeserializer.cs:49-51 | a wrong `0x82`, `0xa1` or `'l'` byte is an error after the first three bytes |
| MapHeader.ParseMapHeaderRejectsSecondKey | slStreamUtilsMessagePack/CollectionDeserializer.cs:55-56 | a wrong `0xa1` or `'t'` after the int is an error naming the first wrong byte |
| MapHeader.ParseInt32Prefix | slStreamUtilsMessagePack/CollectionDeserializer.cs:65-93 | the parse depends only on the bytes it consumes |
| MapHeader.ParseMapHeaderOfHeaderFixed | UnitTests/slStreamUtilsTest/MessagePackTest.cs:106-132 | the int32-form header of any length is parsed back as that length, consuming 10 bytes, whatever follows |
| MapHeader.ParseMapHeaderOfHeaderAsWritten | UnitTests/slStreamUtilsTest/MessagePackTest.cs:106-132 | every header `WriteHeaderAsync` does write is parsed back as the length given |
| BufferedWriter.SynchronousWriter.constructor | slStreamUtils/Streams/Writer/SynchronousWriter.cs:16-20 | the buffer's capacity is the configured shadow-buffer size |
| BufferedWriter.SynchronousWriter.ReturnBufferAndWrite | slStreamUtils/Streams/Writer/SynchronousWriter.cs:22-25 | the stream gains exactly `buffer[0, byteCount)`, in one write |
| BufferedWriter.SynchronousWriter.Flush | slStreamUtils/Streams/Writer/SynchronousWriter.cs:38-41 | the stream is flushed exactly once and its contents are unchanged |
| BufferedWriter.SynchronousWriter.Abort | slStreamUtils/Streams/Writer/SynchronousWriter.cs:32-36 | nothing changes apart from the count of aborts |
| BufferedWriter.SynchronousWriter.RequestBuffer | slStreamUtils/Streams/Writer/SynchronousWriter.cs:47-50 | always the same buffer object |
| BufferedWriter.BufferedStreamWriter.constructor | slStreamUtils/Streams/Writer/BufferedStreamWriter.cs:32-39 | index 0, the writer's buffer, and nothing accepted beyond the stream's contents |
| BufferedWriter.BufferedStreamWriter.ShadowCopy | slStreamUtils/Streams/Writer/BufferedStreamWriter.cs:128-138 | the shadow buffer gains the caller's bytes at the index; the rest of it is unchanged |
| BufferedWriter.BufferedStreamWriter.WriteByte | slStreamUtils/Streams/Writer/BufferedStreamWriter.cs:59-66 | the byte is accepted; when it fills the buffer, exactly the full buffer, ending with the byte, is handed to the writer as one block of `shadowBufferSize` bytes and the index returns to 0; otherwise the byte only moves the index on and the stream is untouched |
| BufferedWriter.BufferedStreamWriter.Write | slStreamUtils/Streams/Writer/BufferedStreamWriter.cs:68-79 | stream contents followed by the pending shadow bytes are every byte written, in order; the hot path only moves the index |
| BufferedWriter.BufferedStreamWriter.WritePartialBufferHotPath | slStreamUtils/Streams/Writer/BufferedStreamWriter.cs:95-104 | taken exactly when count < the space left; then the index advances by count |
| BufferedWriter.BufferedStreamWriter.WritePartialBuffer | slStreamUtils/Streams/Writer/BufferedStreamWriter.cs:107-115 | copies up to the new index and sets it |
| BufferedWriter.BufferedStreamWriter.WriteFullBuffer | slStreamUtils/Streams/Writer/BufferedStreamWriter.cs:118-125 | fills the buffer, and advances offset and the remaining index by the space that was left |
| BufferedWriter.BufferedStreamWriter.FlushShadowBuffer | slStreamUtils/Streams/Writer/BufferedStreamWriter.cs:187-196 | nothing at index 0; otherwise one block of `index` bytes is written and the index resets |
| BufferedWriter.BufferedStreamWriter.Flush | slStreamUtils/Streams/Writer/BufferedStreamWriter.cs:146-150 | the stream then holds every byte accepted, and is flushed once |
| BufferedWriter.BufferedStreamWriter.Dispose | slStreamUtils/Streams/Writer/BufferedStreamWriter.cs:209-233 | the stream holds every byte accepted; flush and abort happen once, only on the first call |
| BufferedWriter.BufferedStreamWriter.DisposeAsync | slStreamUtils/Streams/Writer/BufferedStreamWriter.cs:235-246 | flushes and aborts, then marks the writer disposed |
| BufferedWriter.BufferedStreamWriter.ReadByte | slStreamUtils/Streams/Writer/BufferedStreamWriter.cs:50-53 | throws `NotSupportedException` |
| BufferedWriter.BufferedStreamWriter.Read | slStreamUtils/Streams/Writer/BufferedStreamWriter.cs:54-57 | throws `NotSupportedException` |
| BufferedWriter.BufferedStreamWriter.SetLength | slStreamUtils/Streams/Writer/BufferedStreamWriter.cs:157-160 | throws `NotSupportedException` |
| BufferedWriter.BufferedStreamWriter.Length | slStreamUtils/Streams/Writer/BufferedStreamWriter.cs:162-168 | throws `NotSupportedException` |
| BufferedWriter.BufferedStreamWriter.Position | slStreamUtils/Streams/Writer/BufferedStreamWriter.cs:170-175 | throws `NotSupportedException` |
| BufferedWriter.BufferedStreamWriter.SetPosition | slStreamUtils/Streams/Writer/BufferedStreamWriter.cs:176-179 | throws `NotSupportedException` |
| BufferedWriter.BufferedStreamWriter.Seek | slStreamUtils/Streams/Writer/BufferedStreamWriter.cs:182-185 | throws `NotSupportedException` |
| BufferedReader.SynchronousReader.constructor | slStreamUtils/Streams/Reader/SynchronousReader.cs:19-26 | nothing processed yet, one buffer of the configured size |
| BufferedReader.SynchronousReader.RequestNewBuffer | slStreamUtils/Streams/Reader/SynchronousReader.cs:37-48 | reads at most min(buffer size, cap − processed); null without reading when that is 0; `byteCount` and the total grow by the bytes read, which are the stream's next bytes |
| BufferedReader.SynchronousReader.Abort | slStreamUtils/Streams/Reader/SynchronousReader.cs:69-73 | disposes the buffer and sets it to null |
| BufferedReader.BufferedStreamReader.constructor | slStreamUtils/Streams/Reader/BufferedStreamReader.cs:30-47 | fills the shadow buffer at once; nothing consumed |
| BufferedReader.BufferedStreamReader.FillShadowBuffer | slStreamUtils/Streams/Reader/BufferedStreamReader.cs:224-232 | the index moves into the total read; the new size is the reader's `byteCount`, or 0 for null |
| BufferedReader.BufferedStreamReader.BufferHolds | slStreamUtils/Streams/Reader/BufferedStreamReader.cs:134-155 | the buffer at the index holds the stream's next bytes |
| BufferedReader.BufferedStreamReader.CopyFromShadow | slStreamUtils/Streams/Reader/BufferedStreamReader.cs:134-155 | the caller's buffer gains the stream's next `count` bytes; the rest of it is unchanged |
| BufferedReader.BufferedStreamReader.ReadByte | slStreamUtils/Streams/Reader/BufferedStreamReader.cs:49-59 | -1 exactly at end of stream; otherwise the next byte of the stream, refilling when the buffer is drained |
| BufferedReader.BufferedStreamReader.Read | slStreamUtils/Streams/Reader/BufferedStreamReader.cs:76-90 | returns count unless the end of stream is reached (0 at the end); the bytes are the stream's next ones, and the bytes consumed grow by the result |
| BufferedReader.BufferedStreamReader.ReadRefilling | slStreamUtils/Streams/Reader/BufferedStreamReader.cs:80-89 | refills until count bytes are copied or the stream ends, copying the stream's bytes in order |
| BufferedReader.BufferedStreamReader.ReadPartialBufferHotPath | slStreamUtils/Streams/Reader/BufferedStreamReader.cs:93-105 | taken exactly when count < the bytes left in the buffer; then copies count bytes |
| BufferedReader.BufferedStreamReader.ReadWithBufferRefill | slStreamUtils/Streams/Reader/BufferedStreamReader.cs:108-116 | copies the rest of the buffer and advances offset and counters by it |
| BufferedReader.BufferedStreamReader.ReadPartialBuffer | slStreamUtils/Streams/Reader/BufferedStreamReader.cs:120-131 | copies up to the new index and returns the total copied |
| BufferedReader.BufferedStreamReader.Dispose | slStreamUtils/Streams/Reader/BufferedStreamReader.cs:234-258 | a seekable inner stream is put at its start position plus the bytes consumed, on the first call only |
| BufferedReader.BufferedStreamReader.WriteByte | slStreamUtils/Streams/Reader/BufferedStreamReader.cs:157-160 | throws `NotSupportedException` |
| BufferedReader.BufferedStreamReader.Write | slStreamUtils/Streams/Reader/BufferedStreamReader.cs:162-165 | throws `NotSupportedException` |
| BufferedReader.BufferedStreamReader.SetLength | slStreamUtils/Streams/Reader/BufferedStreamReader.cs:177-180 | throws `NotSupportedException` |
| BufferedReader.BufferedStreamReader.Length | slStreamUtils/Streams/Reader/BufferedStreamReader.cs:182-188 | throws `NotSupportedException` |
| BufferedReader.BufferedStreamReader.Seek | slStreamUtils/Streams/Reader/BufferedStreamReader.cs:189-192 | throws `NotSupportedException` |
| BufferedReader.BufferedStreamReader.Position | slStreamUtils/Streams/Reader/BufferedStreamReader.cs:194-199 | throws `NotSupportedException` |
| BufferedReader.BufferedStreamReader.SetPosition | slStreamUtils/Streams/Reader/BufferedStreamReader.cs:200-203 | throws `NotSupportedException` |
| WorkerConfig.FIFOWorkerConfig.MaxQueuedItems | slStreamUtils/FIFOWorker/FIFOWorkerConfig.cs:15 | the sum of the three queue sizes, wrapped to an `int` |
| WorkerConfig.DefaultQueueSize | slStreamUtils/FIFOWorker/FIFOWorkerConfig.cs:20-21 | at least 1, and `max(1, 2·maxConcurrentTasks)` when that does not overflow |
| WorkerConfig.NewConfigSucceeds | slStreamUtils/FIFOWorker/FIFOWorkerConfig.cs:17-38 | succeeds exactly when 1 ≤ tasks ≤ every queue size; the fields are the sizes given or their defaults, unsorted defaulting to sorted output |
| WorkerConfig.NewConfigErrors | slStreamUtils/FIFOWorker/FIFOWorkerConfig.cs:24-37 | a size that is not positive is reported first, then tasks < 1, then tasks above the input, sorted-output and unsorted sizes in that order |
| WorkerConfig.DefaultConfig | slStreamUtils/FIFOWorker/FIFOWorkerConfig.cs:20-22 | with only the task count given, every queue is twice it, and `MaxQueuedItems` six times it |
| WorkerConfig.HugeConcurrencyRefused | slStreamUtils/FIFOWorker/FIFOWorkerConfig.cs:20-33 | from 2^30 tasks on the doubled size wraps, the default falls to 1 and the constructor throws |
| WorkerQueue.CheckConfig | slStreamUtils/FIFOWorker/FIFOWorker.cs:29-34 | passes exactly when 0 < `MaxQueuedItems` and 0 ≤ tasks ≤ `MaxQueuedItems`; each failure has its exception |
| WorkerQueue.Run | slStreamUtils/FIFOWorker/FIFOWorker.cs:121-127 | the parked results at consecutive indices from `next`, stopping at the first gap |
| WorkerQueue.RunUnique | slStreamUtils/FIFOWorker/FIFOWorker.cs:121-127 | any sequence with that property is that run |
| WorkerQueue.Unpark | slStreamUtils/FIFOWorker/FIFOWorker.cs:121-127 | the parked results with the emitted indices removed and the others unchanged |
| WorkerQueue.ResultsOfIsMapSeq | UnitTests/slStreamUtilsTest/FIFOWorkerEnumTest.cs:309-327 | results of all inputs from 0, in order, are the inputs mapped |
| WorkerQueue.AddKeepsReordering | slStreamUtils/FIFOWorker/FIFOWorker.cs:47-59 | a new item gets the next index, which is neither pending nor parked |
| WorkerQueue.CompleteKeepsReordering | slStreamUtils/FIFOWorker/FIFOWorker.cs:109-128 | one completion emits something exactly when it is the expected index; the output is the results of the next indices; nothing below the expected index is parked |
| WorkerQueue.Completed | slStreamUtils/FIFOWorker/FIFOWorker.cs:68-84 | after a completion the emitted results are still those of inputs 0, 1, 2, … in order |
| WorkerQueue.FlushedAll | UnitTests/slStreamUtilsTest/FIFOWorkerEnumTest.cs:309-327 | with nothing pending, every input's result has been emitted, in input order |
| WorkerQueue.FIFOWorker.constructor | slStreamUtils/FIFOWorker/FIFOWorker.cs:27-45 | both counters 0, no pending task and nothing parked |
| WorkerQueue.FIFOWorker.Create | slStreamUtils/FIFOWorker/FIFOWorker.cs:27-45 | throws exactly when the config checks fail, with their exception; otherwise a fresh empty worker |
| WorkerQueue.FIFOWorker.AppendOutputSorted | slStreamUtils/FIFOWorker/FIFOWorker.cs:109-128 | emits the item and the parked results following it exactly when its index is the expected one, otherwise parks it |
| WorkerQueue.FIFOWorker.ProcessOnePendingItem | slStreamUtils/FIFOWorker/FIFOWorker.cs:68-84 | one pending task completes; what is emitted is the results of the next expected indices, in order |
| WorkerQueue.FIFOWorker.AddWorkItem | slStreamUtils/FIFOWorker/FIFOWorker.cs:47-59 | the item takes the next index; with no threads its result is yielded at once; at the bound one task completes first; pending never exceeds the bound |
| WorkerQueue.FIFOWorker.FlushAsync | slStreamUtils/FIFOWorker/FIFOWorker.cs:61-66 | whatever the completion order, the emitted results are those of every input, in input order, each once |

## Left out

- Asynchrony, tasks, semaphores, `WhenAny`, cancellation tokens and the
  `Interlocked` depth counter are left out. Each async method is modelled by
  the synchronous steps it awaits in order. `WriteAsync`, `ReadAsync`,
  `FlushAsync`, `FlushShadowBufferAsync`, `FillShadowBufferAsync` and
  `ReturnBufferAndWriteAsync` mirror their synchronous versions line for
  line.
- `DelayedWriter`, `PreFetchReader`, `MultiThreadedWorker`, the parallel
  formatter paths and the generic `slStreamUtils` collection serializer are
  left out. Background threads are their point.
- `BufferedStreamWriter.MakeWriter` and the reader's choice of reader are
  left out. The model uses the synchronous writer and reader only.
- The reader's abort timeout (`AbortAsync().Wait(ReaderAbortTimeoutMs)`) is
  left out. `SynchronousReader` completes at once, so the timeout never
  stops the repositioning.
- The `BatchSizeEstimator` is left out (floating-point averages). The
  recommended batch size is a parameter.
- Body serialization by MessagePack-CSharp and protobuf-net is left out
  (foreign libraries). It is a pair of function parameters, and the round
  trip assumes they are inverse.
- Object pools, `ArrayPool` rentals and the return of buffers to them are
  left out. Nothing observable depends on buffer reuse except the
  zero-length-frame behaviour below.
- `CollectionSerializerAsync.Dispose` and `DisposeAsync` are left out. Both
  flush (modelled by `FlushAsync`) and then return pooled buffers.
- `FIFOWorker.Dispose` and its exception aggregation are left out, as
  concurrency.
- `ShadowBufferData`'s pinned memory and the unsafe copies of `Memory.cs`
  are left out. They are plain slice copies over `array<byte>`.
- Using a stream after `Dispose` is left out. Methods require `!disposed`.
- The `Equals(object)` overload of `Frame<T>` and its cast are left out. The
  model is typed.
- `Frames.EqualsIsEquivalence`: holds because the item's `Equals` is taken
  to be value equality on `T`. That is what the .NET contract for `Equals`
  and `GetHashCode` demands, but a user type that breaks that contract
  breaks this property, and `Frames.HashAgreesWithEquals`, with it.
- `Frames.HashAgreesWithEquals`: assumes an item hash that agrees with the
  item's `Equals`, as above.
- The `SerializeAsync(Frame<T>)` overload of `CollectionSerializerAsync`
  (`CollectionSerializerAsync.cs:78-81`) is left out. It passes
  `obj.Item` to `SerializeAsync(T)`, which is modelled, and the
  MessagePack `Frame<T>` type is not part of this model.
- `BufferedWriter.BufferedStreamWriter.Write`: `newIx` is the unbounded
  sum `currShadowBufferIx + count`. The source computes it as an unchecked
  `int` (`BufferedStreamWriter.cs:72`, and `:85` in `WriteAsync`). For a
  `count` above 2^31 − 1 − `currShadowBufferIx` the sum wraps negative.
  The loop is then skipped, `WritePartialBuffer` recomputes the full
  `count` as `partialBlockLength`, and the unsafe copy runs past the shadow
  buffer. The model has no such overrun: it writes every byte correctly.
  The method also requires `offset + count <= buffer.Length`, which the
  source never checks. That is the obligation .NET's `Stream.Write` puts on
  its caller.
- `BufferedReader.BufferedStreamReader.Read`: `newIx` is the unbounded sum
  `currShadowBufferIx + count`. The source computes it as an unchecked
  `int` (`BufferedStreamReader.cs:81`, and `:66` in `ReadAsync`). When it
  wraps, `ReadPartialBuffer` copies `count` bytes out of the shadow buffer
  and past its end, and the model has no such out-of-bounds read. The
  method also requires `offset + count <= buffer.Length`, which the source
  never checks. That is the obligation .NET's `Stream.Read` puts on its
  caller.
- `BufferedReader.BufferedStreamReader.ReadRefilling`: its `newIx` is a
  `nat`, so the wrap of `BufferedStreamReader.cs:81` described for `Read`
  is not modelled. It has the same unchecked `offset`/`count` obligation.
- `BufferedWriter.BufferedStreamWriter.constructor`: requires a shadow
  buffer size of at least 1. With size 0 the source's `Write` loop never
  ends.
- `WorkerQueue.FIFOWorker.AddWorkItem`: `nextWorkIx` is an unbounded
  integer. It does not wrap after 2^31 items.
- `MapHeader.ReadHeaderAsync`: the ensures assumes that every read of the
  inner stream returns at least the 4 bytes it asks for (`maxChunk >= 4`).
  A shorter read leaves stale buffer bytes that the source then parses.
- `MapHeader.ReadHeaderTail`: assumes `maxChunk >= 4`, as above.
- `MapHeader.ReadInt32Async`: assumes `maxChunk >= 4`, as above.
- `MapHeader.ParseMapHeader`: a stream that ends inside a header has no
  outcome in the model (`None`). The source goes on with whatever the
  rented buffer held from before.
- `FrameHeader.UnpackUInt16`: works on the stream's bytes as a whole. A
  short `Stream.Read` that returns fewer bytes than are available is not
  modelled.
- `FrameHeader.UnpackUInt32`: works on the stream's bytes as a whole, as
  above.
- `DeserializerAsync.DeserializeAsync`: `currentBatchTotalSize` is an
  unbounded integer, where the source's `int` sums at lines 77 and 96 of
  `CollectionDeserializerAsync.cs` could wrap. They wrap only once the
  batch's bodies pass 2^31 − 1 bytes. All of those bodies sit in one
  `ArrayPoolBufferWriter<byte>`, and no .NET array is that long, so that
  writer's `GetMemory` would throw first. The buffer writer is not part of
  this model, and neither is that exception.
- `RoundTrip.SerializeThenDeserialize`: requires every serialized body to
  be no longer than one read of the stream hands out, because the source
  reads each body with a single `ReadAsync` and throws on a partial read
  (`DeserializerAsync.ShortBodyReadThrows`). It also requires every
  serialized body to be non-empty. A zero-length body that opens a batch is lost, as
  `DeserializerAsync.ZeroLengthFrameOpeningABatchIsDropped` shows. Fresh
  buffers are fetched when the running total is 0, and that drops the
  empty body's entry from the lengths
  (`CollectionDeserializerAsync.cs:84-88`). MessagePack never produces an
  empty body, so this is a behaviour of the code and not a finding.
- `BufferedReader.SynchronousReader.ReturnBuffer` and
  `BufferedReader.BufferedStreamReader.Flush` do nothing in the source and
  have no contract to state.

## Findings

| source | as written | input that shows it | evidently intended | confidence | as-written member | corrected member |
|---|---|---|---|---|---|---|
| slStreamUtilsMessagePack/CollectionSerializer.cs:34-35 | `WriteHeaderAsync` swaps the length's bytes before `WriteInt32` tests `i <= MaxFixInt` (lines 58-59). The swapped value can be ≤ 127, or negative. Then the one-byte branch is taken, only 6 bytes are filled, and the check at lines 47-48 throws "invalid total bytes written (6)". | length 128 on a little-endian machine (swapped `0x80000000` is negative); also length 0, any length whose low byte is at least `0x80`, and on big-endian any length up to 127 | every length is written in the 5-byte int32 form, so the header is always 10 bytes, and the reader parses it back | not executed | MapHeader.LittleEndianLengthRefused, MapHeader.LengthOneHundredTwentyEightRefused | MapHeader.HeaderFixed, MapHeader.ParseMapHeaderOfHeaderFixed |
