/**
 * `CollectionDeserializerAsync.DeserializeAsync`: reads frames off a stream
 * and groups their bodies into batches of about `desiredBatchSize_bytes`,
 * which it hands to the worker queue. The worker turns each batch into
 * frames (`Batches.DeserializeBatch`) and the queue yields the batches in
 * the order they were added, so the items come out in stream order.
 */
module DeserializerAsync {
  import opened Bytes
  import opened Seqs
  import opened Wrappers
  import opened FrameHeader
  import opened Batches
  import Streams

  /** The default of `desiredBatchSize_bytes`. */
  const DefaultDesiredBatchSizeBytes: int := 1024 * 64

  /** The batches sent so far, the batch being filled and `currentBatchTotalSize`. */
  datatype Grouping = Grouping(sent: seq<Batch>, current: Batch, total: int)

  /** The state before the first header: nothing sent, no buffers. */
  const Start: Grouping := Grouping([], Batch([], []), 0)

  /**
   * What happens once the next frame's length is known: the current batch is
   * sent first if the frame would take it past the budget and it is not
   * empty; when the total is zero the batch restarts with fresh buffers.
   */
  function Admit(g: Grouping, itemLength: int, budget: int): (r: Grouping)
    ensures g.total + itemLength > budget && g.total > 0 ==>
              r == Grouping(g.sent + [g.current], Batch([], []), 0)
    ensures !(g.total + itemLength > budget && g.total > 0) ==>
              r.sent == g.sent && r.total == g.total && (g.total != 0 ==> r.current == g.current)
    ensures r.total == 0 ==> r.current == Batch([], [])
  {
    var closes := g.total + itemLength > budget && g.total > 0;
    var sent := if closes then g.sent + [g.current] else g.sent;
    var total := if closes then 0 else g.total;
    var current := if total == 0 then Batch([], []) else g.current;
    Grouping(sent, current, total)
  }

  /** The body read into the current batch. */
  function Append(g: Grouping, body: seq<byte>): Grouping {
    Grouping(g.sent, Batch(g.current.lengths + [|body|], g.current.bodies + body), g.total + |body|)
  }

  /** At the end of the stream the unfinished batch is sent if its total is positive. */
  function Finish(g: Grouping): seq<Batch> {
    if g.total > 0 then g.sent + [g.current] else g.sent
  }

  /**
   * The count returned by the single `stream.ReadAsync` for a body of
   * `itemLength` bytes when `left` bytes remain and one read of the stream
   * hands out at most `maxChunk` bytes (`Streams.InputStream.Read`).
   */
  function BodyBytesRead(left: nat, itemLength: nat, maxChunk: Streams.ChunkSize): (n: nat)
    ensures n <= itemLength
    ensures n == itemLength <==> itemLength <= left && itemLength <= maxChunk
  {
    Streams.Min(Streams.Min(itemLength, left), maxChunk)
  }

  /**
   * The batches handed to the worker queue while the loop reads what is left
   * of the stream, `rest`, and the exception that ends the loop, if any. The
   * body is read with one call; a call that returns fewer bytes than the
   * header announced, at the end of the stream or because the stream hands
   * out at most `maxChunk` bytes at a time, is an exception.
   */
  function SplitStream(rest: seq<byte>, budget: int, maxChunk: Streams.ChunkSize, g: Grouping): (r: (seq<Batch>, Option<Error>))
    decreases |rest|
  {
    match ReadHeader(rest, 0)
    case Err(e) => (g.sent, Some(e))
    case Ok(None) => (Finish(g), None)
    case Ok(Some((itemLength, next))) =>
      var g1 := Admit(g, itemLength, budget);
      var totRead := BodyBytesRead(|rest| - next, itemLength, maxChunk);
      if totRead != itemLength then (g1.sent, Some(UnexpectedBodyLength(totRead, itemLength)))
      else SplitStream(rest[next + itemLength..], budget, maxChunk, Append(g1, rest[next..next + itemLength]))
  }

  /** One frame read off the stream: the loop goes on with the rest of it. */
  lemma SplitStreamStep(rest: seq<byte>, budget: int, maxChunk: Streams.ChunkSize, g: Grouping, itemLength: nat, next: nat)
    requires ReadHeader(rest, 0) == Ok(Some((itemLength, next)))
    requires next + itemLength <= |rest| && itemLength <= maxChunk
    ensures SplitStream(rest, budget, maxChunk, g) ==
            SplitStream(rest[next + itemLength..], budget, maxChunk,
                        Append(Admit(g, itemLength, budget), rest[next..next + itemLength]))
  {
  }

  /**
   * The loop of `DeserializeAsync` over a stream holding `s` that hands out
   * at most `maxChunk` bytes per read: the batches it adds to the worker
   * queue, in order, and the exception it stops with.
   */
  method DeserializeAsync(s: seq<byte>, maxChunk: Streams.ChunkSize, desiredBatchSizeBytes: int) returns (sent: seq<Batch>, err: Option<Error>)
    ensures (sent, err) == SplitStream(s, desiredBatchSizeBytes, maxChunk, Start)
  {
    var rest := s;
    sent := [];
    var currentBatch := Batch([], []);
    var currentBatchTotalSize := 0;
    while true
      invariant SplitStream(rest, desiredBatchSizeBytes, maxChunk, Grouping(sent, currentBatch, currentBatchTotalSize)) ==
                SplitStream(s, desiredBatchSizeBytes, maxChunk, Start)
      decreases |rest|
    {
      ghost var g := Grouping(sent, currentBatch, currentBatchTotalSize);
      var header := ReadHeader(rest, 0);
      if header.Err? {
        return sent, Some(header.error);
      }
      if header.value.None? {
        break;
      }
      var (itemLength, next) := header.value.value;
      if currentBatchTotalSize + itemLength > desiredBatchSizeBytes && currentBatchTotalSize > 0 {
        sent := sent + [currentBatch];
        currentBatchTotalSize := 0;
      }
      if currentBatchTotalSize == 0 {
        currentBatch := Batch([], []);
      }
      var totRead := Streams.Min(Streams.Min(itemLength, |rest| - next), maxChunk);
      if totRead != itemLength {
        return sent, Some(UnexpectedBodyLength(totRead, itemLength));
      }
      assert Grouping(sent, currentBatch, currentBatchTotalSize) == Admit(g, itemLength, desiredBatchSizeBytes);
      SplitStreamStep(rest, desiredBatchSizeBytes, maxChunk, g, itemLength, next);
      var body := rest[next..next + itemLength];
      currentBatch := Batch(currentBatch.lengths + [itemLength], currentBatch.bodies + body);
      currentBatchTotalSize := currentBatchTotalSize + itemLength;
      assert Grouping(sent, currentBatch, currentBatchTotalSize) ==
             Append(Admit(g, itemLength, desiredBatchSizeBytes), body);
      rest := rest[next + itemLength..];
    }
    if currentBatchTotalSize > 0 {
      sent := sent + [currentBatch];
    }
    err := None;
  }

  // ---------------------------------------------------------------------
  // Every batch sent is within the budget or holds a single frame
  // ---------------------------------------------------------------------

  /** A batch as it leaves the loop: well formed, with a positive total, within budget or alone. */
  ghost predicate Bounded(b: Batch, budget: int) {
    && WellFormed(b)
    && |b.lengths| >= 1
    && Sum(b.lengths) > 0
    && (Sum(b.lengths) <= budget || |b.lengths| == 1)
  }

  /** The loop's state keeps every sent batch bounded and the current one ready to be. */
  ghost predicate GroupingInvariant(g: Grouping, budget: int) {
    && (forall k :: 0 <= k < |g.sent| ==> Bounded(g.sent[k], budget))
    && WellFormed(g.current)
    && g.total == Sum(g.current.lengths)
    && (g.total > 0 ==> |g.current.lengths| >= 1 && (g.total <= budget || |g.current.lengths| == 1))
  }

  lemma AdmitAppendKeepsInvariant(g: Grouping, budget: int, body: seq<byte>)
    requires GroupingInvariant(g, budget) && |body| <= Int32Max
    ensures GroupingInvariant(Admit(g, |body|, budget), budget)
    ensures GroupingInvariant(Append(Admit(g, |body|, budget), body), budget)
  {
    var g1 := Admit(g, |body|, budget);
    assert GroupingInvariant(g1, budget) by {
      if g.total + |body| > budget && g.total > 0 {
        assert Bounded(g.current, budget);
      }
    }
    var c := g1.current;
    SumSnoc(c.lengths, |body|);
    SumOfValidLengths(c.lengths);
    assert ValidLengths(c.lengths + [|body|]);
  }

  lemma {:induction false} SplitStreamKeepsInvariant(rest: seq<byte>, budget: int, maxChunk: Streams.ChunkSize, g: Grouping)
    requires GroupingInvariant(g, budget)
    ensures forall k :: 0 <= k < |SplitStream(rest, budget, maxChunk, g).0| ==>
              Bounded(SplitStream(rest, budget, maxChunk, g).0[k], budget)
    decreases |rest|
  {
    match ReadHeader(rest, 0)
    case Err(e) =>
    case Ok(None) =>
    case Ok(Some((itemLength, next))) =>
      var g1 := Admit(g, itemLength, budget);
      if BodyBytesRead(|rest| - next, itemLength, maxChunk) == itemLength {
        var body := rest[next..next + itemLength];
        AdmitAppendKeepsInvariant(g, budget, body);
        SplitStreamKeepsInvariant(rest[next + itemLength..], budget, maxChunk, Append(g1, body));
      } else {
        AdmitAppendKeepsInvariant(g, budget, seq(itemLength, _ => 0));
      }
  }

  /**
   * Whatever the stream holds, every batch handed to the worker is non-empty
   * and within `desiredBatchSize_bytes`, or is a single frame larger than it.
   */
  lemma SentBatchesAreBounded(s: seq<byte>, budget: int, maxChunk: Streams.ChunkSize)
    ensures forall k :: 0 <= k < |SplitStream(s, budget, maxChunk, Start).0| ==>
              Bounded(SplitStream(s, budget, maxChunk, Start).0[k], budget)
  {
    SplitStreamKeepsInvariant(s, budget, maxChunk, Start);
  }

  // ---------------------------------------------------------------------
  // A stream of frames splits back into its bodies
  // ---------------------------------------------------------------------

  /** No body is empty. */
  ghost predicate NonEmpty(bodies: seq<seq<byte>>) {
    forall i :: 0 <= i < |bodies| ==> |bodies[i]| > 0
  }

  ghost predicate PositiveLengths(lengths: seq<int>) {
    forall i :: 0 <= i < |lengths| ==> lengths[i] > 0
  }

  lemma {:induction false} SumOfPositiveLengths(lengths: seq<int>)
    requires PositiveLengths(lengths)
    ensures Sum(lengths) >= 0
    ensures lengths != [] ==> Sum(lengths) > 0
  {
    if lengths != [] {
      SumOfPositiveLengths(lengths[1..]);
    }
  }

  /** The state of the loop while it reads only non-empty bodies. */
  ghost predicate Collecting(g: Grouping) {
    && AllWellFormed(g.sent)
    && WellFormed(g.current)
    && PositiveLengths(g.current.lengths)
    && g.total == Sum(g.current.lengths)
  }

  /** The bodies the loop has taken in so far, sent or pending. */
  ghost function Taken(g: Grouping): seq<seq<byte>>
    requires Collecting(g)
  {
    AllItems(g.sent) + Items(g.current)
  }

  lemma EmptyBatchItems()
    ensures WellFormed(Batch([], [])) && Items(Batch([], [])) == []
  {
  }

  /** Admitting a non-empty body and reading it in takes it after what was taken. */
  lemma AdmitAppendTakes(g: Grouping, budget: int, body: seq<byte>)
    requires Collecting(g) && 0 < |body| <= Int32Max
    ensures Collecting(Append(Admit(g, |body|, budget), body))
    ensures Taken(Append(Admit(g, |body|, budget), body)) == Taken(g) + [body]
  {
    var g1 := Admit(g, |body|, budget);
    SumOfPositiveLengths(g.current.lengths);
    EmptyBatchItems();
    if g.total + |body| > budget && g.total > 0 {
      AllItemsSnoc(g.sent, g.current);
    } else if g.total == 0 {
      assert g.current.lengths == [];
    }
    assert Collecting(g1) && Taken(g1) == Taken(g);
    var c := g1.current;
    SlicesSnoc(c.lengths, c.bodies, body);
    assert PositiveLengths(c.lengths + [|body|]);
    var g2 := Append(g1, body);
    assert Items(g2.current) == Items(c) + [body];
  }

  /** At the end of the stream everything taken has been sent. */
  lemma FinishSendsTaken(g: Grouping)
    requires Collecting(g)
    ensures AllWellFormed(Finish(g)) && AllItems(Finish(g)) == Taken(g)
  {
    SumOfPositiveLengths(g.current.lengths);
    if g.total > 0 {
      AllItemsSnoc(g.sent, g.current);
    } else {
      assert g.current.lengths == [] && Items(g.current) == [];
    }
  }

  /** A frame in front of the rest of the stream whose body one read returns is read as one frame. */
  lemma SplitStreamOnFrame(body: seq<byte>, rest: seq<byte>, budget: int, maxChunk: Streams.ChunkSize, g: Grouping)
    requires |body| <= Int32Max && |body| <= maxChunk
    ensures SplitStream(FrameBytes(body) + rest, budget, maxChunk, g) ==
            SplitStream(rest, budget, maxChunk, Append(Admit(g, |body|, budget), body))
  {
    var h := HeaderBytes(|body|);
    var s := FrameBytes(body) + rest;
    FrameBytesIsHeaderAndBody(body);
    assert s[0..] == h + body + rest;
    ThreeParts(s, 0, h, body, rest);
    ReadHeaderOfHeaderBytes(s, 0, |body|);
  }

  /** The loop's state after it has read `bodies` in turn. */
  function GroupAll(bodies: seq<seq<byte>>, budget: int, g: Grouping): Grouping
    decreases |bodies|
  {
    if bodies == [] then g else GroupAll(bodies[1..], budget, Append(Admit(g, |bodies[0]|, budget), bodies[0]))
  }

  /** Every body fits in one read of a stream that hands out at most `maxChunk` bytes per call. */
  ghost predicate WithinChunk(bodies: seq<seq<byte>>, maxChunk: Streams.ChunkSize) {
    forall i :: 0 <= i < |bodies| ==> |bodies[i]| <= maxChunk
  }

  /**
   * On a stream of frames whose bodies each come back from one read, the
   * loop reads every frame, stops without an exception and flushes.
   */
  lemma {:induction false} SplitStreamOfFramedItems(bodies: seq<seq<byte>>, budget: int, maxChunk: Streams.ChunkSize, g: Grouping)
    requires Framable(bodies) && WithinChunk(bodies, maxChunk)
    ensures SplitStream(FramedItems(bodies), budget, maxChunk, g) == (Finish(GroupAll(bodies, budget, g)), None)
    decreases bodies
  {
    if bodies != [] {
      SplitStreamOnFrame(bodies[0], FramedItems(bodies[1..]), budget, maxChunk, g);
      assert Framable(bodies[1..]) && WithinChunk(bodies[1..], maxChunk);
      SplitStreamOfFramedItems(bodies[1..], budget, maxChunk, Append(Admit(g, |bodies[0]|, budget), bodies[0]));
    }
  }

  /**
   * A body longer than one read hands out is the source's exception, with
   * the count that read returned, even though the whole body is on the
   * stream; the batches sent before it are kept.
   */
  lemma ShortBodyReadThrows(body: seq<byte>, rest: seq<byte>, budget: int, maxChunk: Streams.ChunkSize, g: Grouping)
    requires maxChunk < |body| <= Int32Max
    ensures SplitStream(FrameBytes(body) + rest, budget, maxChunk, g) ==
            (Admit(g, |body|, budget).sent, Some(UnexpectedBodyLength(maxChunk, |body|)))
  {
    var h := HeaderBytes(|body|);
    var s := FrameBytes(body) + rest;
    FrameBytesIsHeaderAndBody(body);
    assert s[0..] == h + body + rest;
    ThreeParts(s, 0, h, body, rest);
    ReadHeaderOfHeaderBytes(s, 0, |body|);
  }

  /** Reading non-empty bodies takes them, in order, after what was taken before. */
  lemma {:induction false} GroupAllTakes(bodies: seq<seq<byte>>, budget: int, g: Grouping)
    requires Collecting(g) && Framable(bodies) && NonEmpty(bodies)
    ensures Collecting(GroupAll(bodies, budget, g))
    ensures Taken(GroupAll(bodies, budget, g)) == Taken(g) + bodies
    decreases |bodies|
  {
    if bodies == [] {
      assert Taken(g) + bodies == Taken(g);
    } else {
      var g2 := Append(Admit(g, |bodies[0]|, budget), bodies[0]);
      AdmitAppendTakes(g, budget, bodies[0]);
      assert Framable(bodies[1..]) && NonEmpty(bodies[1..]);
      GroupAllTakes(bodies[1..], budget, g2);
      assert Taken(g) + [bodies[0]] + bodies[1..] == Taken(g) + bodies;
    }
  }

  /**
   * Deserializing what the serializer wrote for non-empty bodies, each of
   * which one read returns whole, stops without an exception, and the
   * batches sent hold the bodies in order.
   */
  lemma DeserializeAsyncOfFramedItems(bodies: seq<seq<byte>>, budget: int, maxChunk: Streams.ChunkSize)
    requires Framable(bodies) && NonEmpty(bodies) && WithinChunk(bodies, maxChunk)
    ensures SplitStream(FramedItems(bodies), budget, maxChunk, Start).1 == None
    ensures AllWellFormed(SplitStream(FramedItems(bodies), budget, maxChunk, Start).0)
    ensures AllItems(SplitStream(FramedItems(bodies), budget, maxChunk, Start).0) == bodies
  {
    SplitStreamOfFramedItems(bodies, budget, maxChunk, Start);
    EmptyBatchItems();
    assert Collecting(Start) && Taken(Start) == [];
    GroupAllTakes(bodies, budget, Start);
    FinishSendsTaken(GroupAll(bodies, budget, Start));
  }

  /**
   * A zero-length frame that opens a batch is dropped: the next frame finds
   * the total still zero and fetches fresh buffers over it.
   */
  lemma ZeroLengthFrameOpeningABatchIsDropped(budget: int, maxChunk: Streams.ChunkSize)
    requires budget >= 1
    ensures SplitStream(FramedItems([[], [1]]), budget, maxChunk, Start) == ([Batch([1], [1])], None)
  {
    var bodies: seq<seq<byte>> := [[], [1]];
    assert |bodies[0]| == 0 && |bodies[1]| == 1;
    assert WithinChunk(bodies, maxChunk);
    SplitStreamOfFramedItems(bodies, budget, maxChunk, Start);
    assert Admit(Start, 0, budget) == Start;
    var afterEmpty := Grouping([], Batch([0], []), 0);
    assert Append(Start, bodies[0]) == afterEmpty;
    assert Admit(afterEmpty, 1, budget) == Start;
    var afterOne := Grouping([], Batch([1], [1]), 1);
    assert Append(Start, bodies[1]) == afterOne;
    assert GroupAll(bodies[1..], budget, afterEmpty) == GroupAll([], budget, afterOne);
    assert GroupAll(bodies, budget, Start) == afterOne;
    assert Finish(afterOne) == [Batch([1], [1])];
  }
}
