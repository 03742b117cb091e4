/**
 * A batch as the parallel collection serializers hand it between the reading
 * or writing thread and the workers: the byte length of each item body and
 * all bodies concatenated, with the loops that fill it, split it and write
 * it out as frames.
 */
module Batches {
  import opened Bytes
  import opened Seqs
  import opened FrameHeader
  import Frames
  import opened Wrappers

  /** `BatchWithBufferWriters`: the written part of the `lengths` and `concatenatedBodies` writers. */
  datatype Batch = Batch(lengths: seq<int>, bodies: seq<byte>)

  /** Every length is one an `int` frame header can carry. */
  ghost predicate ValidLengths(lengths: seq<int>) {
    forall i :: 0 <= i < |lengths| ==> 0 <= lengths[i] <= Int32Max
  }

  /** The lengths account for the bodies exactly. */
  ghost predicate WellFormed(b: Batch) {
    ValidLengths(b.lengths) && Sum(b.lengths) == |b.bodies|
  }

  lemma {:induction false} SumOfValidLengths(lengths: seq<int>)
    requires ValidLengths(lengths)
    ensures Sum(lengths) >= 0
  {
    if lengths != [] {
      SumOfValidLengths(lengths[1..]);
    }
  }

  /** The item bodies: consecutive slices of `bodies`, of the given lengths. */
  function Slices(lengths: seq<int>, bodies: seq<byte>): (r: seq<seq<byte>>)
    requires ValidLengths(lengths) && Sum(lengths) == |bodies|
    ensures |r| == |lengths|
    decreases |lengths|
  {
    if lengths == [] then []
    else
      SumOfValidLengths(lengths[1..]);
      var r := [bodies[..lengths[0]]] + Slices(lengths[1..], bodies[lengths[0]..]);
      assert r[1..] == Slices(lengths[1..], bodies[lengths[0]..]);
      r
  }

  /** Each slice has its length. */
  lemma {:induction false} SlicesLengths(lengths: seq<int>, bodies: seq<byte>)
    requires ValidLengths(lengths) && Sum(lengths) == |bodies|
    ensures forall i :: 0 <= i < |lengths| ==> |Slices(lengths, bodies)[i]| == lengths[i]
    decreases |lengths|
  {
    if lengths != [] {
      SumOfValidLengths(lengths[1..]);
      SlicesLengths(lengths[1..], bodies[lengths[0]..]);
    }
  }

  /** The bodies of a well-formed batch. */
  function Items(b: Batch): (r: seq<seq<byte>>)
    requires WellFormed(b)
    ensures |r| == |b.lengths|
  {
    Slices(b.lengths, b.bodies)
  }

  /** Appending one body and its length to a batch appends it to the slices. */
  lemma {:induction false} SlicesSnoc(lengths: seq<int>, bodies: seq<byte>, body: seq<byte>)
    requires ValidLengths(lengths) && Sum(lengths) == |bodies| && |body| <= Int32Max
    ensures ValidLengths(lengths + [|body|]) && Sum(lengths + [|body|]) == |bodies + body|
    ensures Slices(lengths + [|body|], bodies + body) == Slices(lengths, bodies) + [body]
    decreases |lengths|
  {
    SumSnoc(lengths, |body|);
    if lengths == [] {
      assert bodies == [];
      assert (bodies + body)[..|body|] == body;
    } else {
      SumOfValidLengths(lengths[1..]);
      var l := lengths[0];
      assert (lengths + [|body|])[1..] == lengths[1..] + [|body|];
      assert (bodies + body)[..l] == bodies[..l];
      assert (bodies + body)[l..] == bodies[l..] + body;
      SlicesSnoc(lengths[1..], bodies[l..], body);
    }
  }

  /** Slicing the first body off the remaining part of a batch. */
  lemma SlicesUnfold(lengths: seq<int>, bodies: seq<byte>, ix: nat, start: nat)
    requires ix < |lengths| && start <= |bodies|
    requires ValidLengths(lengths[ix..]) && Sum(lengths[ix..]) == |bodies| - start
    ensures start + lengths[ix] <= |bodies|
    ensures ValidLengths(lengths[ix + 1..]) && Sum(lengths[ix + 1..]) == |bodies| - (start + lengths[ix])
    ensures Slices(lengths[ix..], bodies[start..]) ==
            [bodies[start..start + lengths[ix]]] + Slices(lengths[ix + 1..], bodies[start + lengths[ix]..])
  {
    assert lengths[ix..][1..] == lengths[ix + 1..];
    assert lengths[ix..][0] == lengths[ix];
    SumOfValidLengths(lengths[ix + 1..]);
    assert bodies[start..][..lengths[ix]] == bodies[start..start + lengths[ix]];
    assert bodies[start..][lengths[ix]..] == bodies[start + lengths[ix]..];
  }

  /**
   * Loop state of a walk over a batch: `done` holds the first `ix` bodies and
   * the rest of the batch starts at `ix` in the lengths and `start` in the bodies.
   */
  ghost predicate Walked(b: Batch, done: seq<seq<byte>>, ix: nat, start: nat) {
    && WellFormed(b)
    && ix <= |b.lengths| && start <= |b.bodies| && |done| == ix
    && ValidLengths(b.lengths[ix..]) && Sum(b.lengths[ix..]) == |b.bodies| - start
    && Items(b) == done + Slices(b.lengths[ix..], b.bodies[start..])
  }

  lemma WalkStart(b: Batch)
    requires WellFormed(b)
    ensures Walked(b, [], 0, 0)
  {
    assert b.lengths[0..] == b.lengths && b.bodies[0..] == b.bodies;
  }

  /** One step of the walk takes the next body off the batch. */
  lemma WalkStep(b: Batch, done: seq<seq<byte>>, ix: nat, start: nat)
    requires Walked(b, done, ix, start) && ix < |b.lengths|
    ensures start + b.lengths[ix] <= |b.bodies|
    ensures Items(b)[ix] == b.bodies[start..start + b.lengths[ix]]
    ensures Walked(b, done + [b.bodies[start..start + b.lengths[ix]]], ix + 1, start + b.lengths[ix])
  {
    SlicesUnfold(b.lengths, b.bodies, ix, start);
    var body := b.bodies[start..start + b.lengths[ix]];
    assert done + Slices(b.lengths[ix..], b.bodies[start..]) ==
           (done + [body]) + Slices(b.lengths[ix + 1..], b.bodies[start + b.lengths[ix]..]);
  }

  /** At the end of the walk `done` holds every body. */
  lemma WalkEnd(b: Batch, done: seq<seq<byte>>, ix: nat, start: nat)
    requires Walked(b, done, ix, start) && ix == |b.lengths|
    ensures done == Items(b)
  {
    assert b.lengths[ix..] == [];
  }

  // ---------------------------------------------------------------------
  // CollectionSerializerAsync.HandleWorkerOutput
  // ---------------------------------------------------------------------

  /**
   * The serializing worker: each item of the batch is serialized after the
   * previous ones, and its length is what the body writer grew by.
   */
  method SerializeBatch<T>(batch: seq<T>, serializeItem: T -> seq<byte>) returns (out: Batch)
    requires forall i :: 0 <= i < |batch| ==> |serializeItem(batch[i])| <= Int32Max
    ensures WellFormed(out)
    ensures Items(out) == MapSeq(serializeItem, batch)
  {
    var lengths: seq<int> := [];
    var bodies: seq<byte> := [];
    var prevWrittenBytesCount := 0;
    var ix := 0;
    while ix < |batch|
      invariant 0 <= ix <= |batch|
      invariant prevWrittenBytesCount == |bodies|
      invariant ValidLengths(lengths) && Sum(lengths) == |bodies|
      invariant Slices(lengths, bodies) == MapSeq(serializeItem, batch[..ix])
    {
      var body := serializeItem(batch[ix]);
      SlicesSnoc(lengths, bodies, body);
      bodies := bodies + body;
      var objLen := |bodies| - prevWrittenBytesCount;
      prevWrittenBytesCount := |bodies|;
      lengths := lengths + [objLen];
      assert MapSeq(serializeItem, batch[..ix + 1]) == MapSeq(serializeItem, batch[..ix]) + [body];
      ix := ix + 1;
    }
    assert batch[..ix] == batch;
    out := Batch(lengths, bodies);
  }

  // ---------------------------------------------------------------------
  // CollectionDeserializerAsync.HandleWorkerOutput
  // ---------------------------------------------------------------------

  /**
   * The deserializing worker: every body, sliced off the concatenation in
   * order, is deserialized and becomes a frame through the implicit
   * conversion from an item.
   */
  method DeserializeBatch<T>(batch: Batch, deserializeBody: seq<byte> -> T) returns (frames: seq<Frames.Frame<T>>)
    requires WellFormed(batch)
    ensures |frames| == |batch.lengths|
    ensures forall i :: 0 <= i < |frames| ==> frames[i] == Frames.FromItem(Some(deserializeBody(Items(batch)[i])))
  {
    var lengths := batch.lengths;
    var bodies := batch.bodies;
    var batchSize := |lengths|;
    frames := [];
    ghost var done: seq<seq<byte>> := [];
    var ix: nat, bodyStartIx: nat := 0, 0;
    WalkStart(batch);
    while ix < batchSize
      invariant Walked(batch, done, ix, bodyStartIx)
      invariant |frames| == ix
      invariant forall i :: 0 <= i < ix ==> frames[i] == Frames.FromItem(Some(deserializeBody(done[i])))
    {
      WalkStep(batch, done, ix, bodyStartIx);
      var itemLen := lengths[ix];
      var body := bodies[bodyStartIx..bodyStartIx + itemLen];
      frames := frames + [Frames.FromItem(Some(deserializeBody(body)))];
      done := done + [body];
      bodyStartIx := bodyStartIx + itemLen;
      ix := ix + 1;
    }
    WalkEnd(batch, done, ix, bodyStartIx);
  }

  // ---------------------------------------------------------------------
  // CollectionSerializerAsync.BatchToStreamAsync
  // ---------------------------------------------------------------------

  /** Every body fits the `int` length of a frame. */
  ghost predicate Framable(bodies: seq<seq<byte>>) {
    forall i :: 0 <= i < |bodies| ==> |bodies[i]| <= Int32Max
  }

  /** The bodies of a well-formed batch can be framed. */
  lemma ItemsFramable(b: Batch)
    requires WellFormed(b)
    ensures Framable(Items(b))
  {
    SlicesLengths(b.lengths, b.bodies);
  }

  /** The frames of the bodies, one after the other. */
  function FramedItems(bodies: seq<seq<byte>>): (r: seq<byte>)
    requires Framable(bodies)
  {
    if bodies == [] then [] else FrameBytes(bodies[0]) + FramedItems(bodies[1..])
  }

  lemma {:induction false} FramedItemsAppend(a: seq<seq<byte>>, b: seq<seq<byte>>)
    requires Framable(a) && Framable(b)
    ensures Framable(a + b) && FramedItems(a + b) == FramedItems(a) + FramedItems(b)
  {
    if a == [] {
      assert a + b == b;
    } else {
      assert (a + b)[0] == a[0] && (a + b)[1..] == a[1..] + b;
      FramedItemsAppend(a[1..], b);
    }
  }

  lemma FramedItemsSnoc(a: seq<seq<byte>>, body: seq<byte>)
    requires Framable(a) && |body| <= Int32Max
    ensures Framable(a + [body]) && FramedItems(a + [body]) == FramedItems(a) + HeaderBytes(|body|) + body
  {
    FramedItemsAppend(a, [body]);
    FrameBytesIsHeaderAndBody(body);
    assert FramedItems([body]) == FrameBytes(body) + FramedItems([]);
  }

  /** One step of the walk writes the frame of the next body. */
  lemma FrameStep(b: Batch, done: seq<seq<byte>>, ix: nat, start: nat)
    requires Walked(b, done, ix, start) && ix < |b.lengths| && Framable(done)
    ensures start + b.lengths[ix] <= |b.bodies|
    ensures var body := b.bodies[start..start + b.lengths[ix]];
            && Walked(b, done + [body], ix + 1, start + b.lengths[ix])
            && Framable(done + [body])
            && FramedItems(done + [body]) == FramedItems(done) + HeaderBytes(b.lengths[ix]) + body
  {
    WalkStep(b, done, ix, start);
    FramedItemsSnoc(done, b.bodies[start..start + b.lengths[ix]]);
  }

  /**
   * Writes every body of the batch as a frame: the header with the body's
   * length, then the body sliced off the concatenation.
   */
  method BatchToStream(batch: Batch) returns (written: seq<byte>)
    requires WellFormed(batch)
    ensures Framable(Items(batch)) && written == FramedItems(Items(batch))
  {
    var lengths := batch.lengths;
    var bodies := batch.bodies;
    var batchSize := |lengths|;
    written := [];
    ghost var done: seq<seq<byte>> := [];
    var ix: nat, bodyStartIx: nat := 0, 0;
    WalkStart(batch);
    while ix < batchSize
      invariant Walked(batch, done, ix, bodyStartIx)
      invariant Framable(done) && written == FramedItems(done)
    {
      FrameStep(batch, done, ix, bodyStartIx);
      var itemLen := lengths[ix];
      var body := bodies[bodyStartIx..bodyStartIx + itemLen];
      written := written + HeaderBytes(itemLen) + body;
      done := done + [body];
      bodyStartIx := bodyStartIx + itemLen;
      ix := ix + 1;
    }
    WalkEnd(batch, done, ix, bodyStartIx);
    ItemsFramable(batch);
  }

  /** The bodies of a sequence of well-formed batches, batch after batch. */
  ghost predicate AllWellFormed(batches: seq<Batch>) {
    forall k :: 0 <= k < |batches| ==> WellFormed(batches[k])
  }

  function AllItems(batches: seq<Batch>): (r: seq<seq<byte>>)
    requires AllWellFormed(batches)
  {
    if batches == [] then [] else Items(batches[0]) + AllItems(batches[1..])
  }

  lemma {:induction false} AllItemsSnoc(batches: seq<Batch>, b: Batch)
    requires AllWellFormed(batches) && WellFormed(b)
    ensures AllWellFormed(batches + [b]) && AllItems(batches + [b]) == AllItems(batches) + Items(b)
  {
    if batches == [] {
      assert batches + [b] == [b];
    } else {
      assert (batches + [b])[0] == batches[0] && (batches + [b])[1..] == batches[1..] + [b];
      AllItemsSnoc(batches[1..], b);
    }
  }
}
