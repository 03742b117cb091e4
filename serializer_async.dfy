/**
 * `CollectionSerializerAsync`: items are collected into a batch, a full batch
 * is handed to the worker queue, the worker serializes it
 * (`Batches.SerializeBatch`) and the batches the queue yields, oldest first,
 * are written to the stream as frames (`Batches.BatchToStream`).
 *
 * How many finished batches the queue yields on a hand-off is up to the
 * worker threads; it is a parameter here (`completed`), and the model holds
 * for every value of it.
 */
module SerializerAsync {
  import opened Bytes
  import opened Seqs
  import opened FrameHeader
  import opened Batches

  /** Every body the formatter produces fits the `int` lengths the batch keeps. */
  ghost predicate FitsFrames<T(!new)>(serializeItem: T -> seq<byte>) {
    forall t :: |serializeItem(t)| <= Int32Max
  }

  /** The frames of `items`, one after the other, in order. */
  function Framed<T(!new)>(serializeItem: T -> seq<byte>, items: seq<T>): (r: seq<byte>)
    requires FitsFrames(serializeItem)
  {
    FramedItems(MapSeq(serializeItem, items))
  }

  /** Framing distributes over concatenation: batches can be written one after the other. */
  lemma FramedAppend<T(!new)>(serializeItem: T -> seq<byte>, a: seq<T>, b: seq<T>)
    requires FitsFrames(serializeItem)
    ensures Framed(serializeItem, a + b) == Framed(serializeItem, a) + Framed(serializeItem, b)
  {
    MapSeqAppend(serializeItem, a, b);
    FramedItemsAppend(MapSeq(serializeItem, a), MapSeq(serializeItem, b));
  }

  /** Moving the oldest batch from the worker to the stream keeps the split of the items. */
  lemma OldestWritten<T(!new)>(serializeItem: T -> seq<byte>, items: seq<T>, written: seq<T>,
                               pending: seq<seq<T>>, currentBatch: seq<T>, stream: seq<byte>)
    requires FitsFrames(serializeItem) && pending != []
    requires items == written + Concat(pending) + currentBatch
    requires stream == Framed(serializeItem, written)
    ensures items == (written + pending[0]) + Concat(pending[1..]) + currentBatch
    ensures stream + Framed(serializeItem, pending[0]) == Framed(serializeItem, written + pending[0])
  {
    FramedAppend(serializeItem, written, pending[0]);
    assert Concat(pending) == pending[0] + Concat(pending[1..]);
    AppendAssoc(written, pending[0], Concat(pending[1..]));
  }

  /** Handing the batch being collected to the worker keeps the split of the items. */
  lemma HandedOff<T>(items: seq<T>, written: seq<T>, pending: seq<seq<T>>, currentBatch: seq<T>)
    requires items == written + Concat(pending) + currentBatch
    ensures items == written + Concat(pending + [currentBatch]) + []
  {
    ConcatSnoc(pending, currentBatch);
    AppendAssoc(written, Concat(pending), currentBatch);
  }

  /**
   * How many of the `held` batches the worker queue yields on a hand-off
   * when its threads have finished `completed` of them: it cannot yield
   * more than it holds.
   */
  function Yielded(completed: nat, held: nat): (r: nat)
    ensures r <= held
    ensures r == completed || r == held
  {
    if completed <= held then completed else held
  }

  class CollectionSerializerAsync<T(!new)> {
    /** The formatter of `T`. */
    const serializeItem: T -> seq<byte>
    /** The items collected since the last hand-off. */
    var currentBatch: seq<T>
    /** The batches with the worker queue, oldest first. */
    var pending: seq<seq<T>>
    /** The bytes written to the stream. */
    var stream: seq<byte>
    /** Every item passed to `SerializeAsync`, in order. */
    ghost var items: seq<T>
    /** The items whose frames are on the stream. */
    ghost var written: seq<T>

    /**
     * The items split into those written, those with the worker and those
     * still collected; the stream holds exactly the frames of the first.
     */
    ghost predicate Valid()
      reads this
    {
      && FitsFrames(serializeItem)
      && items == written + Concat(pending) + currentBatch
      && stream == Framed(serializeItem, written)
    }

    constructor (serializeItem: T -> seq<byte>)
      requires FitsFrames(serializeItem)
      ensures Valid()
      ensures this.serializeItem == serializeItem
      ensures items == [] && currentBatch == [] && pending == [] && stream == []
    {
      this.serializeItem := serializeItem;
      currentBatch := [];
      pending := [];
      stream := [];
      items := [];
      written := [];
    }

    /** Serializes the oldest batch with the worker and writes its frames. */
    method WriteOldest()
      requires Valid() && pending != []
      modifies this
      ensures Valid()
      ensures items == old(items) && currentBatch == old(currentBatch)
      ensures pending == old(pending)[1..]
      ensures written == old(written) + old(pending)[0]
      ensures stream == old(stream) + Framed(serializeItem, old(pending)[0])
    {
      var batch := pending[0];
      var serialized := SerializeBatch(batch, serializeItem);
      var bytes := BatchToStream(serialized);
      OldestWritten(serializeItem, items, written, pending, currentBatch, stream);
      stream, written, pending := stream + bytes, written + batch, pending[1..];
    }

    /**
     * The batches the worker queue yields, oldest first: the first `count` of
     * those it holds.
     */
    method WriteYielded(count: nat)
      requires Valid() && count <= |pending|
      modifies this
      ensures Valid()
      ensures items == old(items) && currentBatch == old(currentBatch)
      ensures pending == old(pending)[count..]
      ensures written == old(written) + Concat(old(pending)[..count])
      ensures stream == old(stream) + Framed(serializeItem, Concat(old(pending)[..count]))
    {
      ghost var all, done := pending, written;
      var ix := 0;
      while ix < count
        invariant 0 <= ix <= count
        invariant Valid()
        invariant items == old(items) && currentBatch == old(currentBatch)
        invariant pending == all[ix..]
        invariant written == done + Concat(all[..ix])
      {
        ghost var before := written;
        WriteOldest();
        ConcatPrefix(all, ix);
        assert pending == all[ix + 1..];
        assert written == before + all[ix];
        AppendAssoc(done, Concat(all[..ix]), all[ix]);
        ix := ix + 1;
      }
      FramedAppend(serializeItem, done, Concat(all[..count]));
    }

    /**
     * `CompleteBatch`: when flushing, or once the batch holds at least the
     * recommended number of items, it is handed to the worker queue, the
     * batches the queue yields are written, and a new batch is started.
     */
    method CompleteBatch(flushBatch: bool, desiredBatchSize: int, completed: nat)
      requires Valid()
      modifies this
      ensures Valid()
      ensures items == old(items)
      ensures var handOff := flushBatch || |old(currentBatch)| >= desiredBatchSize;
              !handOff ==> currentBatch == old(currentBatch) && pending == old(pending)
                           && written == old(written) && stream == old(stream)
      ensures var handOff := flushBatch || |old(currentBatch)| >= desiredBatchSize;
              var all := old(pending) + [old(currentBatch)];
              var k := Yielded(completed, |all|);
              handOff ==> && currentBatch == []
                          && pending == all[k..]
                          && written == old(written) + Concat(all[..k])
                          && stream == old(stream) + Framed(serializeItem, Concat(all[..k]))
    {
      if flushBatch || |currentBatch| >= desiredBatchSize {
        HandedOff(items, written, pending, currentBatch);
        pending, currentBatch := pending + [currentBatch], [];
        WriteYielded(Yielded(completed, |pending|));
      }
    }

    /** `SerializeAsync`: appends the item to the batch and completes the batch if it is full. */
    method SerializeAsync(t: T, desiredBatchSize: int, completed: nat)
      requires Valid()
      modifies this
      ensures Valid()
      ensures items == old(items) + [t]
      ensures |old(currentBatch)| + 1 < desiredBatchSize ==>
                && currentBatch == old(currentBatch) + [t] && pending == old(pending)
                && written == old(written) && stream == old(stream)
      ensures var all := old(pending) + [old(currentBatch) + [t]];
              var k := Yielded(completed, |all|);
              |old(currentBatch)| + 1 >= desiredBatchSize ==>
                && currentBatch == []
                && pending == all[k..]
                && written == old(written) + Concat(all[..k])
                && stream == old(stream) + Framed(serializeItem, Concat(all[..k]))
    {
      currentBatch := currentBatch + [t];
      items := items + [t];
      CompleteBatch(false, desiredBatchSize, completed);
    }

    /**
     * `FlushAsync`: hands off the batch being collected, even if empty, and
     * writes every batch the worker queue still holds.
     */
    method FlushAsync(completed: nat)
      requires Valid()
      modifies this
      ensures Valid()
      ensures items == old(items)
      ensures currentBatch == [] && pending == []
      ensures stream == Framed(serializeItem, items)
    {
      CompleteBatch(true, 0, completed);
      WriteYielded(|pending|);
      assert currentBatch == [] && Concat(pending) == [];
      assert items == written;
    }
  }
}
