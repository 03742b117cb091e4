/**
 * Serializing a collection with `CollectionSerializerAsync` and reading the
 * stream back with `CollectionDeserializerAsync`: every item comes back, in
 * order, provided the item formatter reads back what it writes and writes
 * at least one byte (every MessagePack value does).
 */
module RoundTrip {
  import opened Bytes
  import opened Seqs
  import opened Wrappers
  import opened Batches
  import opened DeserializerAsync
  import opened SerializerAsync
  import Streams

  lemma SerializeThenDeserialize<T(!new)>(serializeItem: T -> seq<byte>, deserializeBody: seq<byte> -> T,
                                          items: seq<T>, budget: int, maxChunk: Streams.ChunkSize)
    requires FitsFrames(serializeItem)
    requires forall t :: |serializeItem(t)| > 0
    requires forall t :: deserializeBody(serializeItem(t)) == t
    requires forall i :: 0 <= i < |items| ==> |serializeItem(items[i])| <= maxChunk
    ensures var (sent, err) := SplitStream(Framed(serializeItem, items), budget, maxChunk, Start);
            && err == None
            && AllWellFormed(sent)
            && AllItems(sent) == MapSeq(serializeItem, items)
            && MapSeq(deserializeBody, AllItems(sent)) == items
  {
    var bodies := MapSeq(serializeItem, items);
    assert Framable(bodies) && NonEmpty(bodies) && WithinChunk(bodies, maxChunk);
    DeserializeAsyncOfFramedItems(bodies, budget, maxChunk);
    var back := MapSeq(deserializeBody, bodies);
    assert forall i :: 0 <= i < |items| ==> back[i] == deserializeBody(serializeItem(items[i])) == items[i];
  }
}
