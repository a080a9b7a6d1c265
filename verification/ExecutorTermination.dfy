/** Every run of the executor ends: a number that bounds the steps still possible falls with each. */
module ExecutorTermination {
  import opened Batches
  import opened BatchExecutor
  import opened ExecutorProgress

  /** n * k, by repeated addition. */
  function Times(n: nat, k: nat): (r: nat)
    ensures n >= 1 ==> r >= k
  {
    if n == 0 then 0 else Times(n - 1, k) + k
  }

  lemma {:induction false} TimesOfSum(m: nat, n: nat, k: nat)
    ensures Times(m + n, k) == Times(m, k) + Times(n, k)
  {
    if n > 0 {
      TimesOfSum(m, n - 1, k);
    }
  }

  lemma {:induction false} TimesOfMore(n: nat, k: nat, extra: nat)
    requires n >= 1
    ensures Times(n, k + extra) >= Times(n, k) + extra
  {
    if n > 1 {
      TimesOfMore(n - 1, k, extra);
    }
  }

  /** The steps of the retry loop from this item and attempt on. */
  function RetrySteps(c: Config, size: int, item: nat, attempt: nat): nat {
    if item >= size || attempt > c.maxRetries then 1
    else Times(size - item, c.maxRetries + 1) + 1 - attempt
  }

  function StepsOf(c: Config, t: Task): nat {
    match t.pc
    case Queued => RetrySteps(c, t.Size(), 0, 0) + 5
    case Calling => RetrySteps(c, t.Size(), 0, 0) + 4
    case Growing => 3
    case GrowWrite(_) => 2
    case GrowStamp(_) => 1
    case Shrinking => RetrySteps(c, t.Size(), 0, 0) + 3
    case ShrinkWrite => RetrySteps(c, t.Size(), 0, 0) + 2
    case ShrinkStamp => RetrySteps(c, t.Size(), 0, 0) + 1
    case Retrying(item, attempt) => RetrySteps(c, t.Size(), item, attempt)
    case Finished(_) => 0
  }

  /** What a task and its done callback can still do. */
  function Rank(c: Config, t: Task): nat {
    StepsOf(c, t) + if t.released then 0 else 1
  }

  function Ranks(c: Config, tasks: seq<Task>): nat {
    if tasks == [] then 0 else Ranks(c, tasks[..|tasks| - 1]) + Rank(c, tasks[|tasks| - 1])
  }

  /** What the producer can still do before it submits again or ends. */
  function ProducerRank(s: State): nat {
    match s.producer
    case Reading => |s.futures| + 6
    case BatchReady(_) => |s.futures| + 5
    case Checking(_, k, _) => 4 + if k < |s.futures| then |s.futures| - k else 0
    case Acquiring(_) => 3
    case Delegating(_) => 2
    case Releasing => 1
    case AddingCallback(_) => |s.futures| + 9
    case Appending(_) => |s.futures| + 8
    case Waiting => |s.futures| + 3
    case FinalChecking(k) => 2 + if k < |s.futures| then |s.futures| - k else 0
    case Asserting => 1
    case Completed => 0
    case Raised => 0
  }

  /** More than what one item more in a batch can cause. */
  function ItemWeight(c: Config): nat { c.maxRetries + 17 + c.Permits() }

  function Measure(c: Config, s: State): nat
    requires s.Submitted() <= c.items
  {
    Times(c.items - s.Submitted(), ItemWeight(c)) + Ranks(c, s.tasks) + ProducerRank(s)
  }

  lemma {:induction false} RanksUpdate(c: Config, tasks: seq<Task>, id: nat, t: Task)
    requires id < |tasks|
    ensures Ranks(c, tasks[id := t]) == Ranks(c, tasks) - Rank(c, tasks[id]) + Rank(c, t)
  {
    var init := tasks[..|tasks| - 1];
    if id == |init| {
      assert tasks[id := t][..|init|] == init;
    } else {
      RanksUpdate(c, init, id, t);
      assert tasks[id := t][..|init|] == init[id := t];
    }
  }

  lemma RanksAppend(c: Config, tasks: seq<Task>, t: Task)
    ensures Ranks(c, tasks + [t]) == Ranks(c, tasks) + Rank(c, t)
  {
    assert (tasks + [t])[..|tasks|] == tasks;
  }

  lemma NextItemIsFewerSteps(c: Config, size: int, item: nat, attempt: nat)
    requires item < size && attempt <= c.maxRetries
    ensures RetrySteps(c, size, item + 1, 0) < RetrySteps(c, size, item, attempt)
    ensures attempt < c.maxRetries ==> RetrySteps(c, size, item, attempt + 1) < RetrySteps(c, size, item, attempt)
  {
  }

  /** Every step of a worker leaves it fewer. */
  lemma WorkerDescends(c: Config, s: State, t: Task, e: Effect)
    requires CanDo(c, s, t, e)
    requires t.pc.Retrying? ==> t.pc.attempt < c.maxRetries || t.pc.attempt == 0
    ensures StepsOf(c, t.(pc := e.pc)) < StepsOf(c, t)
  {
    if t.pc.Retrying? && t.lo + t.pc.item < t.hi {
      NextItemIsFewerSteps(c, t.Size(), t.pc.item, t.pc.attempt);
    }
  }

  lemma WorkerStepDescends(c: Config, s: State, s': State, id: nat)
    requires Inv(c, s) && WorkerStep(c, s, s', id)
    ensures s'.Submitted() == s.Submitted() && Measure(c, s') < Measure(c, s)
  {
    var e :| CanDo(c, s, s.tasks[id], e) && s' == Apply(s, id, e);
    assert TaskOk(c, s.handovers, s.handled, s.tasks[id]);
    WorkerDescends(c, s, s.tasks[id], e);
    TaskDescends(c, s, s', id, s.tasks[id].(pc := e.pc));
  }

  lemma TaskDescends(c: Config, s: State, s': State, id: nat, t: Task)
    requires s.Submitted() <= c.items && id < |s.tasks| && s'.tasks == s.tasks[id := t]
    requires t.hi == s.tasks[id].hi && Rank(c, t) < Rank(c, s.tasks[id])
    requires s'.producer == s.producer && s'.futures == s.futures
    ensures s'.Submitted() == s.Submitted() && Measure(c, s') < Measure(c, s)
  {
    RanksUpdate(c, s.tasks, id, t);
  }

  lemma ReleaseStepDescends(c: Config, s: State, s': State, id: nat)
    requires Inv(c, s) && ReleaseStep(s, s', id)
    ensures s'.Submitted() == s.Submitted() && Measure(c, s') < Measure(c, s)
  {
    TaskDescends(c, s, s', id, s.tasks[id].(released := true));
  }

  /** A new batch brings less work than its items have stood for. */
  lemma SubmitDescends(c: Config, s: State, s': State)
    requires BatchesAdjoin(c, s) && |s.futures| <= c.Permits() && s.producer.Delegating?
    requires s' == s.(tasks := s.tasks + [Task(s.Submitted(), s.producer.hi, Queued, false, false)],
                      producer := AddingCallback(|s.tasks|))
    ensures s'.Submitted() <= c.items && Measure(c, s') < Measure(c, s)
  {
    var t := Task(s.Submitted(), s.producer.hi, Queued, false, false);
    var n, left := t.Size(), c.items - s.Submitted();
    RanksAppend(c, s.tasks, t);
    assert s'.Submitted() == s.Submitted() + n && n >= 1;
    TimesOfSum(left - n, n, ItemWeight(c));
    TimesOfMore(n, c.maxRetries + 1, 16 + c.Permits());
  }

  lemma ProducerStepDescends(c: Config, s: State, s': State)
    requires Inv(c, s) && ProducerStep(c, s, s')
    ensures s'.Submitted() <= c.items && Measure(c, s') < Measure(c, s)
  {
    if s.producer.Delegating? && s'.producer != Releasing {
      SubmitDescends(c, s, s');
    } else if s.producer.AddingCallback? {
      CallbackDescends(c, s, s');
    } else {
      OtherProducerStepDescends(c, s, s');
    }
  }

  lemma CallbackDescends(c: Config, s: State, s': State)
    requires s.Submitted() <= c.items && ProducerStep(c, s, s') && s.producer.AddingCallback?
    ensures s'.Submitted() == s.Submitted() && Measure(c, s') < Measure(c, s)
  {
    var id := s.producer.id;
    RanksUpdate(c, s.tasks, id, s.tasks[id].(callbackAdded := true));
  }

  lemma OtherProducerStepDescends(c: Config, s: State, s': State)
    requires ProducerStep(c, s, s') && !s.producer.AddingCallback?
    requires s.producer.Delegating? ==> s'.producer == Releasing
    ensures s'.tasks == s.tasks && ProducerRank(s') < ProducerRank(s)
  {
  }

  lemma NextDescends(c: Config, s: State, s': State)
    requires Inv(c, s) && Next(c, s, s')
    ensures s'.Submitted() <= c.items && Measure(c, s') < Measure(c, s)
  {
    if ProducerStep(c, s, s') {
      ProducerStepDescends(c, s, s');
    } else if id: nat :| WorkerStep(c, s, s', id) {
      WorkerStepDescends(c, s, s', id);
    } else {
      var id: nat :| ReleaseStep(s, s', id);
      ReleaseStepDescends(c, s, s', id);
    }
  }

  /** The longest a run can be. */
  function LongestRun(c: Config): nat { Times(c.items, ItemWeight(c)) + 7 }

  lemma {:induction false} StepsAreCounted(c: Config, run: seq<State>, i: nat)
    requires IsRun(c, run) && i < |run|
    ensures run[i].Submitted() <= c.items && i + Measure(c, run[i]) <= LongestRun(c) - 1
  {
    if i > 0 {
      StepsAreCounted(c, run, i - 1);
      RunKeeps(c, run, i - 1);
      NextDescends(c, run[i - 1], run[i]);
    }
  }

  /** No run is longer than the configuration allows, whatever fails and however steps interleave. */
  lemma RunsAreBounded(c: Config, run: seq<State>)
    requires IsRun(c, run)
    ensures |run| <= LongestRun(c)
  {
    StepsAreCounted(c, run, |run| - 1);
  }

  /** Every run that goes on as long as it can comes to the end of shutdown, or to an error: a run that
      is not there yet can be continued, and not for ever. */
  lemma {:induction false} EveryRunEnds(c: Config, run: seq<State>) returns (longer: seq<State>)
    requires IsRun(c, run) && c.maxWorkers >= 1
    ensures IsRun(c, longer) && run <= longer
    ensures longer[|longer| - 1].producer.Completed? || longer[|longer| - 1].producer.Raised?
    decreases LongestRun(c) - |run|
  {
    var last := run[|run| - 1];
    if last.producer.Completed? || last.producer.Raised? {
      longer := run;
    } else {
      NeverStuck(c, run, |run| - 1);
      var s' :| Next(c, last, s');
      var more := run + [s'];
      assert IsRun(c, more);
      RunsAreBounded(c, more);
      longer := EveryRunEnds(c, more);
    }
  }

  /** A run that cannot be continued has ended. */
  lemma MaximalRunHasEnded(c: Config, run: seq<State>)
    requires IsRun(c, run) && c.maxWorkers >= 1
    requires !CanGoOn(c, run[|run| - 1])
    ensures run[|run| - 1].producer.Completed? || run[|run| - 1].producer.Raised?
  {
    if !run[|run| - 1].producer.Completed? && !run[|run| - 1].producer.Raised? {
      NeverStuck(c, run, |run| - 1);
    }
  }
}
