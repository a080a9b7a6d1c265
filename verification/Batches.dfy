/** The sequential parts of batch execution: cutting the input into batches whose size changes on
    the way (cli/polygonetl/utils.py), and retrying one call
    (cli/polygonetl/executors/batch_work_executor.py). */
module Batches {
  import opened Common

  /** How many of the `remaining` items go into a batch when the size read is `size`. */
  function BatchLength(size: int, remaining: nat): (n: nat)
    ensures remaining > 0 ==> 0 < n <= remaining
    ensures n <= size || n <= 1
    ensures n < size ==> n == remaining
  {
    if remaining == 0 then 0
    else if size < 1 then 1
    else if size < remaining then size else remaining
  }

  function Concat<T>(batches: seq<seq<T>>): seq<T> {
    if batches == [] then [] else Concat(batches[..|batches| - 1]) + batches[|batches| - 1]
  }

  /** The k-th batch is as long as the k-th reading of the batch size asks for, unless the input
      ends first; with input left, that is at least one item. */
  ghost predicate CutBy<T>(total: nat, sizes: nat -> int, batches: seq<seq<T>>) {
    forall k :: 0 <= k < |batches| ==> CutAt(total, sizes(k), batches, k)
  }

  ghost predicate CutAt<T>(total: nat, size: int, batches: seq<seq<T>>, k: nat)
    requires k < |batches|
  {
    |Concat(batches[..k])| < total
    && |batches[k]| == BatchLength(size, total - |Concat(batches[..k])|)
  }

  lemma CutOneMore<T>(total: nat, sizes: nat -> int, batches: seq<seq<T>>, batch: seq<T>)
    requires CutBy(total, sizes, batches)
    requires |Concat(batches)| < total
    requires |batch| == BatchLength(sizes(|batches|), total - |Concat(batches)|)
    ensures CutBy(total, sizes, batches + [batch])
    ensures Concat(batches + [batch]) == Concat(batches) + batch
  {
    var longer := batches + [batch];
    assert longer[..|batches|] == batches;
    forall k | 0 <= k < |longer| ensures CutAt(total, sizes(k), longer, k) {
      if k < |batches| {
        assert CutAt(total, sizes(k), batches, k);
        assert longer[..k] == batches[..k];
      }
    }
  }

  /** `sizes(k)` is what the getter returns the k-th time it is called. Together the batches are
      the input, in order, whatever the sizes are. */
  method DynamicBatchIterator<T>(items: seq<T>, sizes: nat -> int) returns (batches: seq<seq<T>>)
    ensures Concat(batches) == items
    ensures CutBy(|items|, sizes, batches)
  {
    batches := [];
    var batch: seq<T> := [];
    var batchSize := sizes(0);
    var i := 0;
    while i < |items|
      invariant 0 <= i <= |items|
      invariant Concat(batches) + batch == items[..i]
      invariant batchSize == sizes(|batches|)
      invariant |batch| == 0 || |batch| < batchSize
      invariant CutBy(|items|, sizes, batches)
    {
      ghost var before := batch;
      batch := batch + [items[i]];
      assert items[..i + 1] == (Concat(batches) + before) + [items[i]] == Concat(batches) + batch;
      i := i + 1;
      if |batch| >= batchSize {
        assert |Concat(batches)| + |batch| == i;
        CutOneMore(|items|, sizes, batches, batch);
        batches := batches + [batch];
        batch := [];
        batchSize := sizes(|batches|);
      }
    }
    assert items[..i] == items;
    if |batch| > 0 {
      assert |Concat(batches)| + |batch| == |items|;
      CutOneMore(|items|, sizes, batches, batch);
      batches := batches + [batch];
    }
  }

  /** How a call of the handler ends. */
  datatype Outcome = Returned | RetryError | FatalError

  datatype Attempted = Done | NeverCalled | GaveUp | Died

  /** `outcomes(i)` is how the i-th call ends. The function returns normally after a call that did,
      and, with no attempts allowed, also without having called the handler at all. Between two calls
      it sleeps, first a second and then twice as long each time. */
  method ExecuteWithRetries(outcomes: nat -> Outcome, maxRetries: int)
    returns (r: Attempted, calls: nat, sleeps: seq<nat>)
    ensures maxRetries <= 0 <==> r == NeverCalled
    ensures calls == 0 <==> r == NeverCalled
    ensures maxRetries > 0 ==> calls <= maxRetries
    ensures forall i :: 0 <= i < calls - 1 ==> outcomes(i) == RetryError
    ensures r == Done <==> calls > 0 && outcomes(calls - 1) == Returned
    ensures r == Died <==> calls > 0 && outcomes(calls - 1) == FatalError
    ensures r == GaveUp ==> calls == maxRetries
    ensures |sleeps| == if calls == 0 then 0 else calls - 1
    ensures sleeps != [] ==> sleeps[0] == 1
    ensures forall i :: 0 <= i < |sleeps| - 1 ==> sleeps[i + 1] == 2 * sleeps[i]
  {
    var sleepSeconds := 1;
    calls, sleeps := 0, [];
    while calls < maxRetries
      invariant calls > 0 ==> calls < maxRetries
      invariant forall i :: 0 <= i < calls ==> outcomes(i) == RetryError
      invariant |sleeps| == calls
      invariant sleepSeconds == if calls == 0 then 1 else 2 * sleeps[calls - 1]
      invariant sleeps != [] ==> sleeps[0] == 1
      invariant forall i :: 0 <= i < |sleeps| - 1 ==> sleeps[i + 1] == 2 * sleeps[i]
    {
      var i := calls;
      calls := calls + 1;
      match outcomes(i) {
        case Returned => return Done, calls, sleeps;
        case FatalError => return Died, calls, sleeps;
        case RetryError =>
          if i < maxRetries - 1 {
            sleeps := sleeps + [sleepSeconds];
            sleepSeconds := sleepSeconds * 2;
          } else {
            return GaveUp, calls, sleeps;
          }
      }
    }
    return NeverCalled, 0, [];
  }
}
