/**
 * `FIFOWorker`: work items are processed out of order by up to `TotThreads`
 * tasks and their results are yielded in the order the items were added.
 * Each item gets the next index; a finished result whose index is the one
 * expected next is yielded, any other is parked in `finishedUnsortedBuffers`
 * until the results before it are out.
 *
 * The tasks themselves, the semaphore and `Task.WhenAny` are not modelled:
 * a pending task is its index and its input (the list of tasks is a map
 * from index to input, since its order plays no part), its result is
 * `process` of the input, and which pending task finishes first is a
 * parameter, so every completion order is covered.
 */
module WorkerQueue {
  import opened Wrappers
  import opened Seqs
  import opened WorkerConfig

  /** The `ArgumentOutOfRangeException`s of the constructor. */
  datatype WorkerError = MaxQueuedItemsOutOfRange | TotThreadsNegative | TotThreadsExceedMaxQueuedItems

  /** The constructor's checks of the configuration, in order; `None` when they all pass. */
  function CheckConfig(maxQueuedItems: int, totThreads: int): (r: Option<WorkerError>)
    ensures r == None <==> 0 < maxQueuedItems && 0 <= totThreads <= maxQueuedItems
    ensures maxQueuedItems <= 0 ==> r == Some(MaxQueuedItemsOutOfRange)
    ensures 0 < maxQueuedItems && totThreads < 0 ==> r == Some(TotThreadsNegative)
    ensures 0 < maxQueuedItems < totThreads ==> r == Some(TotThreadsExceedMaxQueuedItems)
  {
    if maxQueuedItems <= 0 then Some(MaxQueuedItemsOutOfRange)
    else if totThreads < 0 then Some(TotThreadsNegative)
    else if totThreads > maxQueuedItems then Some(TotThreadsExceedMaxQueuedItems)
    else None
  }

  /**
   * The values of `m` at the consecutive indices from `next` on, up to the
   * first index missing: what the drain loop of `AppendOutputSorted` yields.
   */
  function Run<V>(m: map<int, V>, next: nat): (r: seq<V>)
    ensures forall i :: next <= i < next + |r| ==> i in m
    ensures next + |r| !in m
    ensures forall i :: 0 <= i < |r| ==> r[i] == m[next + i]
    decreases m.Keys
  {
    if next in m then [m[next]] + Run(m - {next}, next + 1) else []
  }

  /** A run of `n` keys from `next`, ending at a missing key, is the run `Run` finds. */
  lemma RunUnique<V>(m: map<int, V>, next: nat, out: seq<V>)
    requires forall i :: next <= i < next + |out| ==> i in m
    requires next + |out| !in m
    requires forall i :: 0 <= i < |out| ==> out[i] == m[next + i]
    ensures out == Run(m, next)
  {
  }

  /** `m` without the keys from `from` up to `to`: the parked results once those are yielded. */
  function Unpark<V>(m: map<int, V>, from: nat, to: nat): (r: map<int, V>)
    ensures forall k :: k in r <==> k in m && !(from <= k < to)
    ensures forall k :: k in r ==> r[k] == m[k]
  {
    map k | k in m && !(from <= k < to) :: m[k]
  }

  /**
   * The reorder state between calls: every index from `next` up to the
   * number of items added is either with a pending task, which holds that
   * item, or parked with its result, and not both; parked indices are all
   * above `next`, and nothing is pending outside the range.
   */
  ghost predicate Reordering<TIn, TOut>(process: TIn -> TOut, inputs: seq<TIn>, next: nat,
                                        pending: map<int, TIn>, parked: map<int, TOut>)
  {
    && next <= |inputs|
    && (forall i :: i in pending ==> next <= i < |inputs| && pending[i] == inputs[i] && i !in parked)
    && (forall k :: k in parked ==> next < k < |inputs| && parked[k] == process(inputs[k]))
    && (forall i :: next <= i < |inputs| ==> i in pending || i in parked)
  }

  /** `out` is the results of the items from index `from` on, in order. */
  ghost predicate ResultsOf<TIn, TOut>(process: TIn -> TOut, inputs: seq<TIn>, from: nat, out: seq<TOut>)
  {
    && from + |out| <= |inputs|
    && forall i :: 0 <= i < |out| ==> out[i] == process(inputs[from + i])
  }

  /** The results in order of the items from `from` to the last are `MapSeq` of those items. */
  lemma ResultsOfIsMapSeq<TIn, TOut>(process: TIn -> TOut, inputs: seq<TIn>, from: nat, out: seq<TOut>)
    requires ResultsOf(process, inputs, from, out) && from + |out| == |inputs|
    ensures out == MapSeq(process, inputs[from..])
    ensures from == 0 ==> out == MapSeq(process, inputs)
  {
    var m := MapSeq(process, inputs[from..]);
    assert forall i :: 0 <= i < |out| ==> m[i] == process(inputs[from + i]);
    if from == 0 {
      assert inputs[from..] == inputs;
    }
  }

  /** The results of two runs of items in a row are the results of both. */
  lemma ResultsOfAppend<TIn, TOut>(process: TIn -> TOut, inputs: seq<TIn>, from: nat, a: seq<TOut>, b: seq<TOut>)
    requires ResultsOf(process, inputs, from, a) && ResultsOf(process, inputs, from + |a|, b)
    ensures ResultsOf(process, inputs, from, a + b)
  {
    forall i | 0 <= i < |a + b|
      ensures (a + b)[i] == process(inputs[from + i])
    {
      if i >= |a| {
        assert (a + b)[i] == b[i - |a|];
      }
    }
  }

  /** Adding items keeps the results of the items already there. */
  lemma ResultsOfExtend<TIn, TOut>(process: TIn -> TOut, inputs: seq<TIn>, from: nat, out: seq<TOut>, x: TIn)
    requires ResultsOf(process, inputs, from, out)
    ensures ResultsOf(process, inputs + [x], from, out)
  {
    var inputs' := inputs + [x];
    assert forall i :: 0 <= i < |inputs| ==> inputs'[i] == inputs[i];
  }

  /** A new item gets the index after the last and a pending task of its own. */
  lemma AddKeepsReordering<TIn, TOut>(process: TIn -> TOut, inputs: seq<TIn>, next: nat,
                                      pending: map<int, TIn>, parked: map<int, TOut>, x: TIn)
    requires Reordering(process, inputs, next, pending, parked)
    ensures |inputs| !in pending
    ensures Reordering(process, inputs + [x], next, pending[|inputs| := x], parked)
  {
    var inputs' := inputs + [x];
    assert forall i :: 0 <= i < |inputs| ==> inputs'[i] == inputs[i];
  }

  /**
   * A pending task finishing and its result going through
   * `AppendOutputSorted` keeps the reorder state: the results yielded are
   * those of the next items in order, and there are some exactly when the
   * task had the index expected next.
   */
  lemma CompleteKeepsReordering<TIn, TOut>(process: TIn -> TOut, inputs: seq<TIn>, next: nat,
                                           pending: map<int, TIn>, parked: map<int, TOut>, pick: int,
                                           b: map<int, TOut>, out: seq<TOut>)
    requires Reordering(process, inputs, next, pending, parked) && pick in pending
    requires b == parked[pick := process(pending[pick])] && out == Run(b, next)
    ensures pick !in parked
    ensures next + |out| <= |inputs|
    ensures ResultsOf(process, inputs, next, out)
    ensures out != [] <==> pick == next
    ensures Reordering(process, inputs, next + |out|, pending - {pick}, Unpark(b, next, next + |out|))
  {
    var n := |out|;
    assert forall k :: k in b ==> next <= k < |inputs|;
    if n > 0 {
      assert next + n - 1 in b;
    }
    if pick != next {
      assert next !in b;
    }
    var next', pending', parked' := next + n, pending - {pick}, Unpark(b, next, next + n);
    forall i | i in pending'
      ensures next' <= i < |inputs| && pending'[i] == inputs[i] && i !in parked'
    {
      assert i !in b;
    }
    forall i | next' <= i < |inputs|
      ensures i in pending' || i in parked'
    {
      assert i in pending || i in parked;
    }
    forall k | k in parked'
      ensures next' < k < |inputs| && parked'[k] == process(inputs[k])
    {
      assert k in b && parked'[k] == b[k];
    }
    forall i | 0 <= i < n
      ensures out[i] == process(inputs[next + i])
    {
      assert next + i in b;
    }
  }

  /**
   * `ProcessOnePendingItem` in terms of values: the state before, with the
   * results `AppendOutputSorted` yields, gives a reorder state again, one
   * task fewer, and the results of the items before the new expected index
   * yielded in order.
   */
  lemma Completed<TIn, TOut>(process: TIn -> TOut, inputs: seq<TIn>, next: nat,
                             pending: map<int, TIn>, parked: map<int, TOut>, emitted: seq<TOut>,
                             pick: int, out: seq<TOut>)
    requires Reordering(process, inputs, next, pending, parked) && pick in pending
    requires |emitted| == next && ResultsOf(process, inputs, 0, emitted)
    requires out == Run(parked[pick := process(pending[pick])], next)
    ensures pick !in parked
    ensures next + |out| <= |inputs|
    ensures Reordering(process, inputs, next + |out|, pending - {pick},
                       Unpark(parked[pick := process(pending[pick])], next, next + |out|))
    ensures |pending - {pick}| == |pending| - 1
    ensures ResultsOf(process, inputs, next, out)
    ensures ResultsOf(process, inputs, 0, emitted + out)
    ensures out != [] <==> pick == next
  {
    var b := parked[pick := process(pending[pick])];
    CompleteKeepsReordering(process, inputs, next, pending, parked, pick, b, out);
    RemoveOneKey(pending, pick);
    ResultsOfAppend(process, inputs, 0, emitted, out);
  }

  /**
   * Once no task is pending, every result has come out: nothing is parked,
   * and what was yielded, in all and since `start`, is `MapSeq` of the items
   * added, in all and from `start` on.
   */
  lemma FlushedAll<TIn, TOut>(process: TIn -> TOut, inputs: seq<TIn>, next: nat, parked: map<int, TOut>,
                              emitted: seq<TOut>, start: nat, out: seq<TOut>)
    requires Reordering(process, inputs, next, map[], parked)
    requires |emitted| == next && ResultsOf(process, inputs, 0, emitted)
    requires start + |out| == next && ResultsOf(process, inputs, start, out)
    ensures next == |inputs| && parked == map[]
    ensures emitted == MapSeq(process, inputs)
    ensures out == MapSeq(process, inputs[start..])
  {
    assert next !in parked;
    assert forall k :: k !in parked;
    assert parked.Keys == {};
    ResultsOfIsMapSeq(process, inputs, 0, emitted);
    ResultsOfIsMapSeq(process, inputs, start, out);
  }

  /** Removing a key from a map leaves one key fewer. */
  lemma RemoveOneKey<K, V>(m: map<K, V>, k: K)
    requires k in m
    ensures |m - {k}| == |m| - 1
  {
    assert (m - {k}).Keys == m.Keys - {k};
  }

  class FIFOWorker<TIn, TOut> {
    /** `config.MaxQueuedItems`. */
    const maxQueuedItems: int
    /** `config.TotThreads`, the configuration's `MaxConcurrentTasks`. */
    const totThreads: int
    /** What a task computes from its input. */
    const process: TIn -> TOut
    var nextWorkIx: nat
    var nextExpectedWorkIx: nat
    /** The tasks started and not yet finished, by the index of their item. */
    var pendingTasks: map<int, TIn>
    var finishedUnsortedBuffers: map<int, TOut>
    /** Every item added, in order. */
    ghost var inputs: seq<TIn>
    /** Every result yielded, in order. */
    ghost var emitted: seq<TOut>

    /**
     * With worker tasks: the reorder state holds, the pending tasks are
     * within their bound, and what was yielded is the results of the items
     * before `nextExpectedWorkIx`, in order.
     */
    ghost predicate Ordered()
      reads this
    {
      && |pendingTasks| <= maxQueuedItems
      && Reordering(process, inputs, nextExpectedWorkIx, pendingTasks, finishedUnsortedBuffers)
      && |emitted| == nextExpectedWorkIx && ResultsOf(process, inputs, 0, emitted)
    }

    ghost predicate Valid()
      reads this
    {
      && CheckConfig(maxQueuedItems, totThreads) == None
      && nextWorkIx == |inputs|
      && (totThreads == 0 ==>
            && pendingTasks == map[] && finishedUnsortedBuffers == map[] && nextExpectedWorkIx == 0
            && |emitted| == |inputs| && ResultsOf(process, inputs, 0, emitted))
      && (totThreads > 0 ==> Ordered())
    }

    constructor (config: FIFOWorkerConfig, process: TIn -> TOut)
      requires CheckConfig(config.MaxQueuedItems(), config.maxConcurrentTasks) == None
      ensures Valid()
      ensures maxQueuedItems == config.MaxQueuedItems() && totThreads == config.maxConcurrentTasks
      ensures this.process == process
      ensures nextWorkIx == 0 && nextExpectedWorkIx == 0 && pendingTasks == map[] && finishedUnsortedBuffers == map[]
      ensures inputs == [] && emitted == []
    {
      maxQueuedItems := config.MaxQueuedItems();
      totThreads := config.maxConcurrentTasks;
      this.process := process;
      nextWorkIx := 0;
      nextExpectedWorkIx := 0;
      pendingTasks := map[];
      finishedUnsortedBuffers := map[];
      inputs := [];
      emitted := [];
    }

    /** The constructor with its checks: an error where it throws, a new worker otherwise. */
    static method Create(config: FIFOWorkerConfig, process: TIn -> TOut) returns (r: Result<FIFOWorker<TIn, TOut>, WorkerError>)
      ensures r.Err? <==> CheckConfig(config.MaxQueuedItems(), config.maxConcurrentTasks).Some?
      ensures r.Err? ==> Some(r.error) == CheckConfig(config.MaxQueuedItems(), config.maxConcurrentTasks)
      ensures r.Ok? ==> fresh(r.value) && r.value.Valid() && r.value.inputs == [] && r.value.emitted == []
      ensures r.Ok? ==> r.value.maxQueuedItems == config.MaxQueuedItems() && r.value.totThreads == config.maxConcurrentTasks
    {
      var check := CheckConfig(config.MaxQueuedItems(), config.maxConcurrentTasks);
      if check.Some? {
        return Err(check.value);
      }
      var w := new FIFOWorker(config, process);
      return Ok(w);
    }

    /**
     * `AppendOutputSorted`: yields the result if its index is the one
     * expected, parks it otherwise, then yields the parked results for as
     * long as the next expected index is parked.
     */
    method AppendOutputSorted(workIx: int, finishedUnsortedItem: TOut) returns (out: seq<TOut>)
      requires workIx !in finishedUnsortedBuffers
      modifies this
      ensures out == Run(old(finishedUnsortedBuffers)[workIx := finishedUnsortedItem], old(nextExpectedWorkIx))
      ensures nextExpectedWorkIx == old(nextExpectedWorkIx) + |out|
      ensures finishedUnsortedBuffers
              == Unpark(old(finishedUnsortedBuffers)[workIx := finishedUnsortedItem], old(nextExpectedWorkIx), nextExpectedWorkIx)
      ensures nextWorkIx == old(nextWorkIx) && pendingTasks == old(pendingTasks)
      ensures inputs == old(inputs) && emitted == old(emitted)
    {
      ghost var b := finishedUnsortedBuffers[workIx := finishedUnsortedItem];
      ghost var start := nextExpectedWorkIx;
      out := [];
      if workIx == nextExpectedWorkIx {
        nextExpectedWorkIx := nextExpectedWorkIx + 1;
        out := [finishedUnsortedItem];
      } else {
        finishedUnsortedBuffers := finishedUnsortedBuffers[workIx := finishedUnsortedItem];
      }
      while nextExpectedWorkIx in finishedUnsortedBuffers
        invariant start <= nextExpectedWorkIx
        invariant forall i :: start <= i < nextExpectedWorkIx ==> i in b
        invariant finishedUnsortedBuffers == Unpark(b, start, nextExpectedWorkIx)
        invariant |out| == nextExpectedWorkIx - start
        invariant forall i :: 0 <= i < |out| ==> out[i] == b[start + i]
        invariant nextWorkIx == old(nextWorkIx) && pendingTasks == old(pendingTasks)
        invariant inputs == old(inputs) && emitted == old(emitted)
        decreases finishedUnsortedBuffers.Keys
      {
        var finishedWork := finishedUnsortedBuffers[nextExpectedWorkIx];
        finishedUnsortedBuffers := finishedUnsortedBuffers - {nextExpectedWorkIx};
        nextExpectedWorkIx := nextExpectedWorkIx + 1;
        out := out + [finishedWork];
      }
      RunUnique(b, start, out);
    }

    /**
     * `ProcessOnePendingItem`: the task for index `pick` finishes, leaves
     * the pending tasks, and its result goes through `AppendOutputSorted`.
     * What comes out is the results of the next items in order, and
     * something comes out exactly when the task had the index expected next.
     */
    method ProcessOnePendingItem(pick: int) returns (out: seq<TOut>)
      requires Valid() && totThreads > 0 && pick in pendingTasks
      modifies this
      ensures Valid()
      ensures pendingTasks == old(pendingTasks) - {pick} && |pendingTasks| == |old(pendingTasks)| - 1
      ensures nextWorkIx == old(nextWorkIx) && inputs == old(inputs)
      ensures emitted == old(emitted) + out
      ensures nextExpectedWorkIx == old(nextExpectedWorkIx) + |out|
      ensures ResultsOf(process, inputs, old(nextExpectedWorkIx), out)
      ensures out != [] <==> pick == old(nextExpectedWorkIx)
    {
      ghost var start, pending, parked, before := nextExpectedWorkIx, pendingTasks, finishedUnsortedBuffers, emitted;
      var result := process(pendingTasks[pick]);
      pendingTasks := pendingTasks - {pick};
      out := AppendOutputSorted(pick, result);
      emitted := emitted + out;
      Completed(process, inputs, start, pending, parked, before, pick, out);
      assert nextExpectedWorkIx == start + |out| && result == process(pending[pick]);
    }

    /**
     * `AddWorkItemAsync`: the item gets the next index. Without worker tasks
     * its result is yielded at once; otherwise, when the pending tasks are
     * at their bound, one of them (the one for index `pick`) finishes first,
     * and then a task is started for the item.
     */
    method AddWorkItem(inputWorkItem: TIn, pick: int) returns (out: seq<TOut>)
      requires Valid()
      requires totThreads > 0 && |pendingTasks| >= maxQueuedItems ==> pick in pendingTasks
      modifies this
      ensures Valid()
      ensures inputs == old(inputs) + [inputWorkItem] && nextWorkIx == old(nextWorkIx) + 1
      ensures emitted == old(emitted) + out
      ensures totThreads == 0 ==> out == [process(inputWorkItem)]
      ensures totThreads > 0 && |old(pendingTasks)| < maxQueuedItems ==>
                out == [] && pendingTasks == old(pendingTasks)[old(nextWorkIx) := inputWorkItem]
      ensures totThreads > 0 && |old(pendingTasks)| >= maxQueuedItems ==>
                pendingTasks == (old(pendingTasks) - {pick})[old(nextWorkIx) := inputWorkItem]
      ensures totThreads > 0 ==> |pendingTasks| <= maxQueuedItems
    {
      var itemIx := nextWorkIx;
      ResultsOfExtend(process, inputs, 0, emitted, inputWorkItem);
      if totThreads == 0 {
        ResultsOfAppend(process, inputs + [inputWorkItem], 0, emitted, [process(inputWorkItem)]);
        nextWorkIx := nextWorkIx + 1;
        inputs := inputs + [inputWorkItem];
        out := [process(inputWorkItem)];
        emitted := emitted + out;
        return;
      }
      out := [];
      if |pendingTasks| >= maxQueuedItems {
        out := ProcessOnePendingItem(pick);
        ResultsOfExtend(process, inputs, 0, emitted, inputWorkItem);
      }
      // Nothing in between reads `nextWorkIx`, so taking the index here is
      // the same as taking it on entry.
      AddKeepsReordering(process, inputs, nextExpectedWorkIx, pendingTasks, finishedUnsortedBuffers, inputWorkItem);
      nextWorkIx := nextWorkIx + 1;
      inputs := inputs + [inputWorkItem];
      pendingTasks := pendingTasks[itemIx := inputWorkItem];
    }

    /**
     * `FlushAsync`: the pending tasks finish one by one in the order
     * `order`, a permutation of their indices, and their results are
     * yielded in input order. Afterwards every result has been yielded:
     * `emitted` is the results of all the items, in the order they were
     * added, whatever the completion order.
     */
    method FlushAsync(order: seq<int>) returns (out: seq<TOut>)
      requires Valid()
      requires |order| == |pendingTasks| && forall j :: 0 <= j < |order| ==> order[j] in pendingTasks
      requires forall a, c :: 0 <= a < c < |order| ==> order[a] != order[c]
      modifies this
      ensures Valid()
      ensures inputs == old(inputs) && pendingTasks == map[]
      ensures emitted == old(emitted) + out
      ensures emitted == MapSeq(process, inputs)
      ensures totThreads > 0 ==> out == MapSeq(process, inputs[old(nextExpectedWorkIx)..])
    {
      out := [];
      if totThreads == 0 {
        ResultsOfIsMapSeq(process, inputs, 0, emitted);
        return;
      }
      var k := 0;
      while k < |order|
        invariant k <= |order|
        invariant Valid() && inputs == old(inputs) && nextWorkIx == old(nextWorkIx)
        invariant |pendingTasks| == |order| - k && forall j :: k <= j < |order| ==> order[j] in pendingTasks
        invariant emitted == old(emitted) + out
        invariant nextExpectedWorkIx == old(nextExpectedWorkIx) + |out|
        invariant ResultsOf(process, inputs, old(nextExpectedWorkIx), out)
      {
        var o := ProcessOnePendingItem(order[k]);
        assert ResultsOf(process, inputs, old(nextExpectedWorkIx) + |out|, o);
        ResultsOfAppend(process, inputs, old(nextExpectedWorkIx), out, o);
        out := out + o;
        k := k + 1;
      }
      FlushedAll(process, inputs, nextExpectedWorkIx, finishedUnsortedBuffers, emitted, old(nextExpectedWorkIx), out);
    }
  }
}
