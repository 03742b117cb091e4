/**
 * `FIFOWorkerConfig`: the bound on concurrent tasks and the sizes of the
 * three queues of a `FIFOWorker`. The constructor fills in the sizes left
 * unset and throws unless every size is positive and at least the number of
 * concurrent tasks, which must be at least 1. C# `int` arithmetic is
 * unchecked, so `2 * maxConcurrentTasks` and the sum of the sizes wrap.
 */
module WorkerConfig {
  import opened Wrappers
  import opened Bytes

  /** Unchecked C# `int` arithmetic: `x` reduced to 32-bit two's complement. */
  function Wrap32(x: int): (r: int32)
    ensures (r - x) % 0x1_0000_0000 == 0
    ensures -0x8000_0000 <= x < 0x8000_0000 ==> r == x
  {
    ToInt32(x % 0x1_0000_0000)
  }

  function Max(a: int, b: int): (m: int)
    ensures m >= a && m >= b && (m == a || m == b)
  {
    if a >= b then a else b
  }

  datatype FIFOWorkerConfig = FIFOWorkerConfig(
    maxConcurrentTasks: int32,
    maxInputSortedQueuedItems: int32,
    maxOutputSortedQueuedItems: int32,
    maxOutputUnsortedQueuedItems: int32)
  {
    /**
     * `MaxQueuedItems`: the sum of the three queue sizes, in `int`; wrapping
     * once at the end gives what wrapping after each addition gives.
     */
    function MaxQueuedItems(): (n: int32)
      ensures var sum := maxInputSortedQueuedItems as int + maxOutputSortedQueuedItems as int + maxOutputUnsortedQueuedItems as int;
              && (-0x8000_0000 <= sum < 0x8000_0000 ==> n == sum)
              && (n - sum) % 0x1_0000_0000 == 0
    {
      Wrap32(maxInputSortedQueuedItems as int + maxOutputSortedQueuedItems as int + maxOutputUnsortedQueuedItems as int)
    }
  }

  /** The `ArgumentOutOfRangeException`s of the constructor, by the member named in each. */
  datatype ConfigError =
    | InputQueueNotPositive
    | OutputQueueNotPositive
    | UnsortedQueueNotPositive
    | NoConcurrentTasks
    | TasksExceedInputQueue
    | TasksExceedOutputQueue
    | TasksExceedUnsortedQueue

  /** The default size of the input and sorted-output queues: `Math.Max(1, maxConcurrentTasks * 2)`. */
  function DefaultQueueSize(maxConcurrentTasks: int32): (n: int32)
    ensures n >= 1
    ensures -0x4000_0000 <= maxConcurrentTasks < 0x4000_0000 ==> n == Max(1, 2 * maxConcurrentTasks)
  {
    Max(1, Wrap32(maxConcurrentTasks as int * 2))
  }

  /** The constructor: a `null` size argument is `None`. */
  function NewConfig(maxConcurrentTasks: int32, maxInputQueuedItems: Option<int32>,
                     maxOutputQueuedItems: Option<int32>, maxOutputUnsortedQueuedItems: Option<int32>)
    : (r: Result<FIFOWorkerConfig, ConfigError>)
  {
    var input := if maxInputQueuedItems.None? then DefaultQueueSize(maxConcurrentTasks) else maxInputQueuedItems.value;
    var output := if maxOutputQueuedItems.None? then DefaultQueueSize(maxConcurrentTasks) else maxOutputQueuedItems.value;
    var unsorted := if maxOutputUnsortedQueuedItems.None? then output else maxOutputUnsortedQueuedItems.value;
    if input <= 0 then Err(InputQueueNotPositive)
    else if output <= 0 then Err(OutputQueueNotPositive)
    else if unsorted <= 0 then Err(UnsortedQueueNotPositive)
    else if maxConcurrentTasks < 1 then Err(NoConcurrentTasks)
    else if maxConcurrentTasks > input then Err(TasksExceedInputQueue)
    else if maxConcurrentTasks > output then Err(TasksExceedOutputQueue)
    else if maxConcurrentTasks > unsorted then Err(TasksExceedUnsortedQueue)
    else Ok(FIFOWorkerConfig(maxConcurrentTasks, input, output, unsorted))
  }

  /** A size given, or the default the constructor puts in its place. */
  function SizeOrDefault(size: Option<int32>, default: int32): (n: int32)
    ensures size.Some? ==> n == size.value
    ensures size.None? ==> n == default
  {
    if size.None? then default else size.value
  }

  /**
   * The constructor succeeds exactly when the concurrency bound is at least 1
   * and every queue size, given or defaulted, is at least that bound; the
   * configuration then holds the sizes given, the default for those left out,
   * and the sorted-output size for an unset unsorted size.
   */
  lemma NewConfigSucceeds(maxConcurrentTasks: int32, maxInputQueuedItems: Option<int32>,
                          maxOutputQueuedItems: Option<int32>, maxOutputUnsortedQueuedItems: Option<int32>)
    ensures var input := SizeOrDefault(maxInputQueuedItems, DefaultQueueSize(maxConcurrentTasks));
            var output := SizeOrDefault(maxOutputQueuedItems, DefaultQueueSize(maxConcurrentTasks));
            var unsorted := SizeOrDefault(maxOutputUnsortedQueuedItems, output);
            var r := NewConfig(maxConcurrentTasks, maxInputQueuedItems, maxOutputQueuedItems, maxOutputUnsortedQueuedItems);
            && (r.Ok? <==> 1 <= maxConcurrentTasks <= input && maxConcurrentTasks <= output && maxConcurrentTasks <= unsorted)
            && (r.Ok? ==> r.value == FIFOWorkerConfig(maxConcurrentTasks, input, output, unsorted))
            && (r.Ok? ==> r.value.maxInputSortedQueuedItems > 0 && r.value.maxOutputSortedQueuedItems > 0
                          && r.value.maxOutputUnsortedQueuedItems > 0)
  {
  }

  /**
   * The checks run in order: a size that is not positive is reported before
   * a bad concurrency bound, and the queues are compared with the bound
   * input, then sorted output, then unsorted output.
   */
  lemma NewConfigErrors(maxConcurrentTasks: int32, input: int32, output: int32, unsorted: int32)
    ensures var r := NewConfig(maxConcurrentTasks, Some(input), Some(output), Some(unsorted));
            && (input <= 0 ==> r == Err(InputQueueNotPositive))
            && (input > 0 && output <= 0 ==> r == Err(OutputQueueNotPositive))
            && (input > 0 && output > 0 && unsorted <= 0 ==> r == Err(UnsortedQueueNotPositive))
            && (input > 0 && output > 0 && unsorted > 0 && maxConcurrentTasks < 1 ==> r == Err(NoConcurrentTasks))
            && (input > 0 && output > 0 && unsorted > 0 && maxConcurrentTasks >= 1 ==>
                  && (maxConcurrentTasks > input ==> r == Err(TasksExceedInputQueue))
                  && (maxConcurrentTasks <= input && maxConcurrentTasks > output ==> r == Err(TasksExceedOutputQueue))
                  && ((maxConcurrentTasks <= input && maxConcurrentTasks <= output && maxConcurrentTasks > unsorted)
                        ==> r == Err(TasksExceedUnsortedQueue)))
  {
  }

  /**
   * With only the concurrency bound given, each queue holds twice as many
   * items as there are concurrent tasks, and the worker may hold six times
   * as many.
   */
  lemma DefaultConfig(maxConcurrentTasks: int32)
    requires 1 <= maxConcurrentTasks <= 357_913_941
    ensures var r := NewConfig(maxConcurrentTasks, None, None, None);
            && r == Ok(FIFOWorkerConfig(maxConcurrentTasks, 2 * maxConcurrentTasks, 2 * maxConcurrentTasks, 2 * maxConcurrentTasks))
            && r.value.MaxQueuedItems() == 6 * maxConcurrentTasks
  {
  }

  /**
   * From 2^30 concurrent tasks on, `maxConcurrentTasks * 2` wraps to a
   * negative `int`, the default sizes fall to 1 and the constructor throws.
   */
  lemma HugeConcurrencyRefused(maxConcurrentTasks: int32)
    requires maxConcurrentTasks >= 0x4000_0000
    ensures DefaultQueueSize(maxConcurrentTasks) == 1
    ensures NewConfig(maxConcurrentTasks, None, None, None) == Err(TasksExceedInputQueue)
  {
    assert Wrap32(maxConcurrentTasks as int * 2) == maxConcurrentTasks as int * 2 - 0x1_0000_0000;
  }
}
