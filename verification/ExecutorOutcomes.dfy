/** What the outcomes of handler calls lead to in every run: which errors stop the executor and how
    soon, how often a call is repeated, and how the batch size follows. */
module ExecutorOutcomes {
  import opened Common
  import opened Batches
  import opened BatchExecutor

  /** A worker's step, in which its call of the handler on items lo..hi ended like this. */
  ghost predicate CallEnds(c: Config, s: State, s': State, id: nat, lo: nat, hi: nat, outcome: Outcome) {
    && id < |s.tasks|
    && exists e :: (CanDo(c, s, s.tasks[id], e) && s' == Apply(s, id, e) && e.call == Call(lo, hi, outcome))
  }

  ghost predicate HasFailed(s: State, id: nat) {
    id < |s.tasks| && s.tasks[id].pc == Finished(false)
  }

  /* ---- Errors that are not retried ---- */

  lemma FatalErrorFailsTask(c: Config, s: State, s': State, id: nat, lo: nat, hi: nat)
    requires CallEnds(c, s, s', id, lo, hi, FatalError)
    ensures HasFailed(s', id)
  {
  }

  /** What every step keeps, a run keeps. */
  lemma {:induction false} RunKeepsProperty(c: Config, run: seq<State>, i: nat, j: nat, p: State -> bool)
    requires IsRun(c, run) && i <= j < |run| && p(run[i])
    requires forall s, s' :: p(s) && Next(c, s, s') ==> p(s')
    ensures p(run[j])
  {
    if i < j {
      RunKeepsProperty(c, run, i, j - 1, p);
      assert Next(c, run[j - 1], run[j - 1 + 1]);
    }
  }

  /** What steps of workers and callbacks leave alone. */
  ghost predicate OnlyWorks(s: State, s': State) {
    && s'.producer == s.producer && s'.futures == s.futures && |s'.tasks| == |s.tasks|
    && (forall k :: 0 <= k < |s.tasks| ==> s'.tasks[k].lo == s.tasks[k].lo && s'.tasks[k].hi == s.tasks[k].hi)
    && (forall k :: 0 <= k < |s.tasks| && s.tasks[k].pc.Finished? ==> s'.tasks[k].pc == s.tasks[k].pc)
  }

  lemma WorkerOnlyWorks(c: Config, s: State, s': State, id: nat)
    requires WorkerStep(c, s, s', id)
    ensures OnlyWorks(s, s')
  {
    var e :| CanDo(c, s, s.tasks[id], e) && s' == Apply(s, id, e);
  }

  lemma OthersOnlyWork(c: Config, s: State, s': State)
    requires Next(c, s, s') && !ProducerStep(c, s, s')
    ensures OnlyWorks(s, s')
  {
    if id: nat :| WorkerStep(c, s, s', id) {
      WorkerOnlyWorks(c, s, s', id);
    } else {
      var id: nat :| ReleaseStep(s, s', id);
    }
  }

  lemma ProducerKeepsFinished(c: Config, s: State, s': State, id: nat)
    requires ProducerStep(c, s, s') && id < |s.tasks|
    ensures id < |s'.tasks| && s'.tasks[id].pc == s.tasks[id].pc
  {
  }

  lemma FinishedStays(c: Config, s: State, s': State, id: nat)
    requires Next(c, s, s') && id < |s.tasks| && s.tasks[id].pc.Finished?
    ensures id < |s'.tasks| && s'.tasks[id].pc == s.tasks[id].pc
  {
    if ProducerStep(c, s, s') {
      ProducerKeepsFinished(c, s, s', id);
    } else {
      OthersOnlyWork(c, s, s');
    }
  }

  lemma NextKeepsFailed(c: Config, s: State, s': State, id: nat)
    requires Next(c, s, s') && HasFailed(s, id)
    ensures HasFailed(s', id)
  {
    FinishedStays(c, s, s', id);
  }

  lemma FailedStays(c: Config, run: seq<State>, i: nat, j: nat, id: nat)
    requires IsRun(c, run) && i <= j < |run| && HasFailed(run[i], id)
    ensures HasFailed(run[j], id)
  {
    var p := (s: State) => HasFailed(s, id);
    forall s, s' | p(s) && Next(c, s, s') ensures p(s') {
      NextKeepsFailed(c, s, s', id);
    }
    RunKeepsProperty(c, run, i, j, p);
  }

  lemma FailedMeansNotCompleted(c: Config, run: seq<State>, i: nat, j: nat, id: nat)
    requires IsRun(c, run) && i <= j < |run| && HasFailed(run[i], id)
    ensures !run[j].producer.Completed?
  {
    FailedStays(c, run, i, j, id);
    CompletedMeansNoneFailed(c, run, j, id);
  }

  lemma CompletedMeansNoneFailed(c: Config, run: seq<State>, j: nat, id: nat)
    requires IsRun(c, run) && j < |run|
    ensures run[j].producer.Completed? ==> !HasFailed(run[j], id)
  {
    if run[j].producer.Completed? {
      CompletedRunHandlesAll(c, run, j);
    }
  }

  /** An error that is not one of those to retry fails its future at once, and execute and shutdown do
      not both return normally any more. */
  lemma FatalErrorIsRaised(c: Config, run: seq<State>, i: nat, id: nat, lo: nat, hi: nat, j: nat)
    requires IsRun(c, run) && i < j < |run| && CallEnds(c, run[i], run[i + 1], id, lo, hi, FatalError)
    ensures HasFailed(run[i + 1], id) && !run[j].producer.Completed?
  {
    FatalErrorFailsTask(c, run[i], run[i + 1], id, lo, hi);
    FailedMeansNotCompleted(c, run, i + 1, j, id);
  }

  /* ---- Failing fast ---- */

  /** The producer's present or next look at the futures meets this one. */
  ghost predicate WillBeMet(s: State, id: nat) {
    match s.producer
    case Checking(_, k, _) => exists q :: k <= q < |s.futures| && s.futures[q] == id
    case FinalChecking(k) => exists q :: k <= q < |s.futures| && s.futures[q] == id
    case AddingCallback(x) => x == id || id in s.futures
    case Appending(x) => x == id || id in s.futures
    case Reading => id in s.futures
    case BatchReady(_) => id in s.futures
    case Waiting => id in s.futures
    case Raised => true
    case Releasing => true
    case _ => false
  }

  lemma CheckAfterFailure(s: State, s': State, id: nat, k: nat, kept: Producer, done: Producer)
    requires HasFailed(s, id) && WillBeMet(s, id)
    requires s.producer.Checking? || s.producer.FinalChecking?
    requires k == s.producer.k && kept == s.producer.(k := k + 1) && CheckStep(s, s', k, kept, done)
    ensures WillBeMet(s', id) && |s'.tasks| == |s.tasks|
  {
    var q :| k <= q < |s.futures| && s.futures[q] == id;
    if s.tasks[s.futures[k]].pc == Finished(true) {
      assert s'.futures[q - 1] == id;
      StillMet(s', id, q - 1);
    } else if s.tasks[s.futures[k]].pc != Finished(false) {
      assert q != k;
      StillMet(s', id, q);
    }
  }

  lemma StillMet(s: State, id: nat, q: nat)
    requires s.producer.Checking? || s.producer.FinalChecking?
    requires s.producer.k <= q < |s.futures| && s.futures[q] == id
    ensures WillBeMet(s, id)
  {
  }

  lemma ProducerAfterFailure(c: Config, s: State, s': State, id: nat)
    requires ProducerStep(c, s, s') && HasFailed(s, id) && WillBeMet(s, id)
    ensures WillBeMet(s', id) && |s'.tasks| == |s.tasks|
  {
    if s.producer.Checking? {
      CheckingAfterFailure(c, s, s', id);
    } else if s.producer.FinalChecking? {
      FinalCheckingAfterFailure(c, s, s', id);
    } else {
      WaitingAfterFailure(c, s, s', id);
    }
  }

  lemma CheckingAfterFailure(c: Config, s: State, s': State, id: nat)
    requires ProducerStep(c, s, s') && HasFailed(s, id) && WillBeMet(s, id) && s.producer.Checking?
    ensures WillBeMet(s', id) && |s'.tasks| == |s.tasks|
  {
    var p := s.producer;
    CheckAfterFailure(s, s', id, p.k, Checking(p.hi, p.k + 1, p.pending), Acquiring(p.hi));
  }

  lemma FinalCheckingAfterFailure(c: Config, s: State, s': State, id: nat)
    requires ProducerStep(c, s, s') && HasFailed(s, id) && WillBeMet(s, id) && s.producer.FinalChecking?
    ensures WillBeMet(s', id) && |s'.tasks| == |s.tasks|
  {
    CheckAfterFailure(s, s', id, s.producer.k, FinalChecking(s.producer.k + 1), Asserting);
  }

  lemma WaitingAfterFailure(c: Config, s: State, s': State, id: nat)
    requires ProducerStep(c, s, s') && HasFailed(s, id) && WillBeMet(s, id)
    requires !s.producer.Checking? && !s.producer.FinalChecking?
    ensures WillBeMet(s', id) && |s'.tasks| == |s.tasks|
  {
    if s.producer.BatchReady? || s.producer.Waiting? {
      var q :| 0 <= q < |s.futures| && s.futures[q] == id;
      assert s'.futures[q] == id;
    }
  }

  lemma OthersDoNotMatter(c: Config, s: State, s': State, id: nat)
    requires s'.producer == s.producer && s'.futures == s.futures
    ensures WillBeMet(s', id) <==> WillBeMet(s, id)
  {
  }

  /** A failure that the producer has passed by or could not see yet. */
  lemma ProducerBeforeNotice(c: Config, s: State, s': State, id: nat)
    requires Inv(c, s) && ProducerStep(c, s, s') && HasFailed(s, id) && !WillBeMet(s, id)
    ensures |s'.tasks| == |s.tasks| || (|s'.tasks| == |s.tasks| + 1 && WillBeMet(s', id))
  {
    assert id in s.futures || AboutToList(s.producer, id);
  }

  /** When one has failed, there are no more batches than this, or as many only if the failure will be
      met. */
  ghost predicate AreLast(s: State, id: nat, count: nat) {
    |s.tasks| < count || (|s.tasks| == count && WillBeMet(s, id))
  }

  lemma StepAfterFailure(c: Config, s: State, s': State, id: nat)
    requires Inv(c, s) && Next(c, s, s') && HasFailed(s, id)
    ensures forall count: nat :: AreLast(s, id, count) ==> AreLast(s', id, count)
  {
    if ProducerStep(c, s, s') {
      if WillBeMet(s, id) {
        ProducerAfterFailure(c, s, s', id);
      } else {
        ProducerBeforeNotice(c, s, s', id);
      }
    } else {
      OthersOnlyWork(c, s, s');
      OthersDoNotMatter(c, s, s', id);
    }
  }

  /** A failure whose consequences are settled. */
  ghost predicate Settled(c: Config, s: State, id: nat, count: nat) {
    Inv(c, s) && HasFailed(s, id) && AreLast(s, id, count)
  }

  lemma NextKeepsSettled(c: Config, s: State, s': State, id: nat, count: nat)
    requires Settled(c, s, id, count) && Next(c, s, s')
    ensures Settled(c, s', id, count)
  {
    NextKeeps(c, s, s');
    FinishedStays(c, s, s', id);
    StepAfterFailure(c, s, s', id);
  }

  lemma RunKeepsSettled(c: Config, run: seq<State>, i: nat, j: nat, id: nat, count: nat)
    requires IsRun(c, run) && i <= j < |run| && Settled(c, run[i], id, count)
    ensures |run[j].tasks| <= count
  {
    var p := (s: State) => Settled(c, s, id, count);
    forall s, s' | p(s) && Next(c, s, s') ensures p(s') {
      NextKeepsSettled(c, s, s', id, count);
    }
    RunKeepsProperty(c, run, i, j, p);
  }

  /** Once a batch has failed, at most one more is submitted, and none if the producer has yet to look at
      the futures. */
  lemma FailsFast(c: Config, run: seq<State>, i: nat, j: nat, id: nat)
    requires IsRun(c, run) && i <= j < |run| && HasFailed(run[i], id)
    ensures |run[j].tasks| <= |run[i].tasks| + 1
    ensures run[i].producer.BatchReady? && id in run[i].futures ==> |run[j].tasks| == |run[i].tasks|
  {
    RunKeeps(c, run, i);
    RunKeepsSettled(c, run, i, j, id, |run[i].tasks| + 1);
    if run[i].producer.BatchReady? && id in run[i].futures {
      RunKeepsSettled(c, run, i, j, id, |run[i].tasks|);
    }
    TasksGrow(c, run, i, j);
  }

  lemma TasksGrow(c: Config, run: seq<State>, i: nat, j: nat)
    requires IsRun(c, run) && i <= j < |run|
    ensures |run[i].tasks| <= |run[j].tasks|
  {
    var p := (s: State) => |run[i].tasks| <= |s.tasks|;
    forall s, s' | p(s) && Next(c, s, s') ensures p(s') {
      StepKeepsTasks(c, s, s');
    }
    RunKeepsProperty(c, run, i, j, p);
  }

  lemma StepKeepsTasks(c: Config, s: State, s': State)
    requires Next(c, s, s')
    ensures |s.tasks| <= |s'.tasks|
  {
    if !ProducerStep(c, s, s') {
      OthersOnlyWork(c, s, s');
    }
  }

  /* ---- Retries ---- */

  /** A call for one item that fails to be retried fails the future if it was the last one allowed, and
      otherwise the same item comes again. */
  lemma RetriesUntilTheLast(c: Config, run: seq<State>, i: nat, s': State, id: nat, x: nat)
    requires IsRun(c, run) && i < |run| && x < c.items
    requires CallEnds(c, run[i], s', id, x, x + 1, RetryError) && run[i].tasks[id].pc.Retrying?
    ensures x < |s'.handovers| && s'.handovers[x] <= 1 + c.maxRetries
    ensures HasFailed(s', id) <==> s'.handovers[x] == 1 + c.maxRetries
    ensures !HasFailed(s', id) ==>
              s'.tasks[id].pc.Retrying? && s'.tasks[id].pc.item == run[i].tasks[id].pc.item
  {
    RunKeeps(c, run, i);
    var s, t := run[i], run[i].tasks[id];
    assert TaskOk(c, s.handovers, s.handled, t);
    assert t.Has(x) ==> ItemOk(c, t, x, s.handovers[x], s.handled[x]);
  }

  /** A batch whose call fails to be retried does not fail its future. */
  lemma FailedBatchIsRetried(c: Config, s: State, s': State, id: nat, lo: nat, hi: nat)
    requires CallEnds(c, s, s', id, lo, hi, RetryError) && s.tasks[id].pc.Calling?
    ensures lo == s.tasks[id].lo && hi == s.tasks[id].hi && !s'.tasks[id].pc.Finished?
  {
  }

  /** The items that this task has yet to bring through. */
  ghost predicate IsOpen(t: Task, x: int) {
    t.Has(x) &&
    match t.pc
    case Retrying(item, _) => t.lo + item <= x
    case Growing => false
    case GrowWrite(_) => false
    case GrowStamp(_) => false
    case Finished(_) => false
    case _ => true
  }

  ghost predicate TaskIsFresh(handled: seq<bool>, t: Task) {
    forall x :: IsOpen(t, x) && x < |handled| ==> !handled[x]
  }

  /** Nothing that is still open has been handled. */
  ghost predicate Fresh(s: State) {
    && (forall id :: 0 <= id < |s.tasks| ==> TaskIsFresh(s.handled, s.tasks[id]))
    && (forall x :: EndOf(s.tasks) <= x < |s.handled| ==> !s.handled[x])
  }

  lemma OwnTaskStaysFresh(c: Config, s: State, t: Task, e: Effect, x: int, done: bool)
    requires CanDo(c, s, t, e) && t.lo < t.hi && (IsOpen(t, x) ==> !done)
    ensures IsOpen(t.(pc := e.pc), x) ==>
              !done && !(e.call.Call? && e.call.outcome.Returned? && e.call.lo <= x < e.call.hi)
  {
  }

  lemma WorkerKeepsOwnFresh(c: Config, s: State, id: nat, e: Effect)
    requires Fresh(s) && id < |s.tasks| && CanDo(c, s, s.tasks[id], e) && s.tasks[id].lo < s.tasks[id].hi
    ensures TaskIsFresh(Apply(s, id, e).handled, s.tasks[id].(pc := e.pc))
  {
    var s', t := Apply(s, id, e), s.tasks[id];
    assert TaskIsFresh(s.handled, t);
    forall x | IsOpen(t.(pc := e.pc), x) && x < |s'.handled| ensures !s'.handled[x] {
      OwnTaskStaysFresh(c, s, t, e, x, s.handled[x]);
    }
  }

  lemma WorkerKeepsOthersFresh(s: State, id: nat, e: Effect, t: Task)
    requires TaskIsFresh(s.handled, t) && id < |s.tasks|
    requires e.call.Call? ==> e.call.hi <= t.lo || t.hi <= e.call.lo
    ensures TaskIsFresh(Apply(s, id, e).handled, t)
  {
    var s' := Apply(s, id, e);
    forall x | IsOpen(t, x) && x < |s'.handled| ensures !s'.handled[x] {
    }
  }

  lemma WorkerKeepsFresh(c: Config, s: State, s': State, id: nat)
    requires BatchesAdjoin(c, s) && Fresh(s) && WorkerStep(c, s, s', id)
    ensures Fresh(s')
  {
    var e :| CanDo(c, s, s.tasks[id], e) && s' == Apply(s, id, e);
    CallsStayInTask(c, s, s.tasks[id], e);
    WorkerKeepsOwnFresh(c, s, id, e);
    forall k | 0 <= k < |s'.tasks| && k != id ensures TaskIsFresh(s'.handled, s'.tasks[k]) {
      WorkerKeepsOthersFresh(s, id, e, s.tasks[k]);
    }
    BatchesEnd(c, s, id);
    assert EndOf(s'.tasks) == EndOf(s.tasks);
  }

  lemma ProducerKeepsFresh(c: Config, s: State, s': State)
    requires BatchesAdjoin(c, s) && Fresh(s) && ProducerStep(c, s, s')
    ensures Fresh(s')
  {
    if s.producer.Delegating? && s'.producer != Releasing {
      SubmitKeepsFresh(c, s, s');
    } else if s.producer.AddingCallback? {
      SameTasksStayFresh(s, s');
    } else {
      assert s'.tasks == s.tasks && s'.handled == s.handled;
    }
  }

  lemma SubmitKeepsFresh(c: Config, s: State, s': State)
    requires BatchesAdjoin(c, s) && Fresh(s) && s.producer.Delegating?
    requires s' == s.(tasks := s.tasks + [Task(s.Submitted(), s.producer.hi, Queued, false, false)],
                      producer := AddingCallback(|s.tasks|))
    ensures Fresh(s')
  {
  }

  /** The flags of the semaphore callback play no part. */
  lemma SameTasksStayFresh(s: State, s': State)
    requires Fresh(s) && s'.handled == s.handled && |s'.tasks| == |s.tasks|
    requires forall k :: 0 <= k < |s.tasks| ==>
      s'.tasks[k] == s.tasks[k].(callbackAdded := s'.tasks[k].callbackAdded, released := s'.tasks[k].released)
    ensures Fresh(s')
  {
    forall k | 0 <= k < |s'.tasks| ensures TaskIsFresh(s'.handled, s'.tasks[k]) {
      assert TaskIsFresh(s.handled, s.tasks[k]);
      assert forall x :: IsOpen(s'.tasks[k], x) ==> IsOpen(s.tasks[k], x);
    }
  }

  lemma ReleaseKeepsFresh(s: State, s': State, id: nat)
    requires Fresh(s) && ReleaseStep(s, s', id)
    ensures Fresh(s')
  {
    SameTasksStayFresh(s, s');
  }

  lemma RunStaysFresh(c: Config, run: seq<State>, i: nat)
    requires IsRun(c, run) && i < |run|
    ensures Fresh(run[i])
  {
    var p := (s: State) => Inv(c, s) && Fresh(s);
    forall s, s' | p(s) && Next(c, s, s') ensures p(s') {
      NextKeeps(c, s, s');
      NextKeepsFresh(c, s, s');
    }
    InitOk(c);
    StartIsFresh(c);
    RunKeepsProperty(c, run, 0, i, p);
  }

  lemma StartIsFresh(c: Config)
    ensures Fresh(Init(c))
  {
  }

  lemma NextKeepsFresh(c: Config, s: State, s': State)
    requires BatchesAdjoin(c, s) && Fresh(s) && Next(c, s, s')
    ensures Fresh(s')
  {
    if ProducerStep(c, s, s') {
      ProducerKeepsFresh(c, s, s');
    } else if id: nat :| WorkerStep(c, s, s', id) {
      WorkerKeepsFresh(c, s, s', id);
    } else {
      var id: nat :| ReleaseStep(s, s', id);
      ReleaseKeepsFresh(s, s', id);
    }
  }

  /** What was in a call that returned normally is never handed over again. */
  lemma HandledItemsAreNotRepeated(c: Config, run: seq<State>, i: nat, s': State, id: nat, lo: nat, hi: nat,
                                   outcome: Outcome, x: nat)
    requires IsRun(c, run) && i < |run| && CallEnds(c, run[i], s', id, lo, hi, outcome)
    requires lo <= x < hi
    ensures x < |run[i].handled| && !run[i].handled[x]
  {
    RunStaysFresh(c, run, i);
    RunKeeps(c, run, i);
    BatchesEnd(c, run[i], id);
    var t := run[i].tasks[id];
    assert TaskIsFresh(run[i].handled, t);
    assert IsOpen(t, x);
  }

  /* ---- The batch size ---- */

  /** A batch of n that fails to be retried while the batch size is n, more than 1, halves it, rounding
      down, as long as nobody else writes; otherwise it leaves it alone. */
  lemma FailedBatchHalvesSize(c: Config, s0: State, s1: State, s2: State, s3: State, id: nat, lo: nat, hi: nat)
    requires CallEnds(c, s0, s1, id, lo, hi, RetryError) && s0.tasks[id].pc.Calling?
    requires WorkerStep(c, s1, s2, id) && WorkerStep(c, s2, s3, id)
    ensures s2.batchSize == s1.batchSize == s0.batchSize
    ensures s1.batchSize == hi - lo && hi - lo > 1 ==> 2 * s3.batchSize <= hi - lo <= 2 * s3.batchSize + 1
    ensures !(s1.batchSize == hi - lo && hi - lo > 1) ==> s3.batchSize == s1.batchSize
  {
    var e1 :| CanDo(c, s1, s1.tasks[id], e1) && s2 == Apply(s1, id, e1);
    var e2 :| CanDo(c, s2, s2.tasks[id], e2) && s3 == Apply(s2, id, e2);
    assert s1.tasks[id].pc == Shrinking;
  }

  /** Whatever changes the batch size is a worker that writes half or twice the size of its batch; what
      makes it larger than a batch is at most the starting size. */
  lemma SizeIsHalvedOrDoubled(c: Config, run: seq<State>, i: nat, s': State)
    requires IsRun(c, run) && i < |run| && Next(c, run[i], s') && s'.batchSize != run[i].batchSize
    ensures exists id: nat :: id < |run[i].tasks| && WritesSize(c, run[i].tasks[id].Size(), s'.batchSize)
  {
    RunKeeps(c, run, i);
    OnlyWorkersWriteSize(c, run[i], s');
    var id: nat :| WorkerStep(c, run[i], s', id);
    assert TaskSizeOk(c, run[i].shrunk, run[i].tasks[id]);
    WorkerWritesSize(c, run[i], s', id);
  }

  lemma OnlyWorkersWriteSize(c: Config, s: State, s': State)
    requires Next(c, s, s') && s'.batchSize != s.batchSize
    ensures exists id: nat :: WorkerStep(c, s, s', id)
  {
  }

  lemma WorkerWritesSize(c: Config, s: State, s': State, id: nat)
    requires WorkerStep(c, s, s', id) && s'.batchSize != s.batchSize && TaskSizeOk(c, s.shrunk, s.tasks[id])
    ensures WritesSize(c, s.tasks[id].Size(), s'.batchSize)
  {
    var e :| CanDo(c, s, s.tasks[id], e) && s' == Apply(s, id, e);
  }

  ghost predicate WritesSize(c: Config, n: int, size: int) {
    || (n > 1 && 2 * size <= n <= 2 * size + 1)
    || (size == 2 * n && size <= c.startSize)
  }

  /** A batch of n that returns doubles its size, as long as nobody else writes, only if that is not more
      than the starting size and more than 120 seconds have passed since the last change; then it notes
      the time. */
  lemma GrowthWaitsForCooldown(
    c: Config, s0: State, s1: State, s2: State, s3: State, s4: State, id: nat, lo: nat, hi: nat)
    requires CallEnds(c, s0, s1, id, lo, hi, Returned) && s0.tasks[id].pc.Calling?
    requires WorkerStep(c, s1, s2, id) && WorkerStep(c, s2, s3, id) && WorkerStep(c, s3, s4, id)
    ensures s3.batchSize == 2 * (hi - lo) <= c.startSize
    ensures s1.latest.Some? && s4.latest.Some? && s4.latest.value > s1.latest.value + 120
    ensures s4.tasks[id].pc == Finished(true)
  {
    ReturnedBatchMayGrow(c, s0, s1, id, lo, hi);
    var now := GrowthReadsClock(c, s1, s2, id);
    GrowthWrites(c, s2, s3, s4, id, now);
  }

  lemma ReturnedBatchMayGrow(c: Config, s0: State, s1: State, id: nat, lo: nat, hi: nat)
    requires CallEnds(c, s0, s1, id, lo, hi, Returned) && s0.tasks[id].pc.Calling?
    ensures s1.tasks[id].lo == lo && s1.tasks[id].hi == hi
    ensures s1.tasks[id].pc == if 2 * (hi - lo) <= c.startSize then Growing else Finished(true)
  {
  }

  lemma GrowthReadsClock(c: Config, s1: State, s2: State, id: nat) returns (now: int)
    requires WorkerStep(c, s1, s2, id) && s1.tasks[id].pc.Growing?
    ensures id < |s2.tasks| && s2.tasks[id].lo == s1.tasks[id].lo && s2.tasks[id].hi == s1.tasks[id].hi
    ensures s2.tasks[id].pc == Finished(true)
         || (s2.tasks[id].pc == GrowWrite(now) && s1.latest.Some? && now > s1.latest.value + 120)
  {
    var e :| CanDo(c, s1, s1.tasks[id], e) && s2 == Apply(s1, id, e);
    now := if e.pc.GrowWrite? then e.pc.now else 0;
  }

  lemma GrowthWrites(c: Config, s2: State, s3: State, s4: State, id: nat, now: int)
    requires id < |s2.tasks| && (s2.tasks[id].pc == Finished(true) || s2.tasks[id].pc == GrowWrite(now))
    requires WorkerStep(c, s2, s3, id) && WorkerStep(c, s3, s4, id)
    ensures s2.tasks[id].pc == GrowWrite(now) && s3.batchSize == 2 * s2.tasks[id].Size()
    ensures s4.latest == Some(now) && s4.tasks[id].pc == Finished(true)
  {
    var e2 :| CanDo(c, s2, s2.tasks[id], e2) && s3 == Apply(s2, id, e2);
    var e3 :| CanDo(c, s3, s3.tasks[id], e3) && s4 == Apply(s3, id, e3);
  }

  /** When more than 120 seconds have passed, the size can grow. */
  lemma GrowthIsPossible(c: Config, s0: State, s1: State, id: nat, lo: nat, hi: nat, now: int)
    returns (s2: State, s3: State)
    requires CallEnds(c, s0, s1, id, lo, hi, Returned) && s0.tasks[id].pc.Calling?
    requires 2 * (hi - lo) <= c.startSize && s1.latest.Some? && now > s1.latest.value + 120
    ensures WorkerStep(c, s1, s2, id) && WorkerStep(c, s2, s3, id) && s3.batchSize == 2 * (hi - lo)
  {
    var e1 := Go(s1, GrowWrite(now), NoCall);
    assert CanDo(c, s1, s1.tasks[id], e1);
    s2 := Apply(s1, id, e1);
    var e2 := Go(s2, GrowStamp(now), NoCall).(batchSize := 2 * (hi - lo));
    assert CanDo(c, s2, s2.tasks[id], e2);
    s3 := Apply(s2, id, e2);
  }

  /* ---- What is submitted ---- */

  /** A batch of n items is what a batch size asks for when this many are left. */
  ghost predicate IsAskedFor(n: int, size: int, left: int) {
    0 < n <= left && (n == size || (n < size && n == left) || (n == 1 && size < 1))
  }

  /** The producer has decided on its next batch, items `submitted` to hi, and not submitted it. */
  ghost predicate Intends(s: State, count: nat, submitted: nat, hi: nat) {
    && |s.tasks| == count && s.Submitted() == submitted
    && match s.producer
       case BatchReady(h) => h == hi
       case Checking(h, _, _) => h == hi
       case Acquiring(h) => h == hi
       case Delegating(h) => h == hi
       case Releasing => true
       case Raised => true
       case _ => false
  }

  ghost predicate HasSubmitted(s: State, count: nat, submitted: nat, hi: nat) {
    |s.tasks| > count && s.tasks[count].lo == submitted && s.tasks[count].hi == hi
  }

  lemma SubmittedStays(c: Config, s: State, s': State, count: nat, submitted: nat, hi: nat)
    requires Next(c, s, s') && HasSubmitted(s, count, submitted, hi)
    ensures HasSubmitted(s', count, submitted, hi)
  {
    if !ProducerStep(c, s, s') {
      OthersOnlyWork(c, s, s');
    }
  }

  lemma IntentIsKept(c: Config, s: State, s': State, count: nat, submitted: nat, hi: nat)
    requires Next(c, s, s') && Intends(s, count, submitted, hi)
    ensures Intends(s', count, submitted, hi) || HasSubmitted(s', count, submitted, hi)
  {
    if !ProducerStep(c, s, s') {
      OthersOnlyWork(c, s, s');
    }
  }

  lemma IntentInRun(c: Config, run: seq<State>, i: nat, j: nat, count: nat, submitted: nat, hi: nat)
    requires IsRun(c, run) && i <= j < |run| && Intends(run[i], count, submitted, hi)
    ensures Intends(run[j], count, submitted, hi) || HasSubmitted(run[j], count, submitted, hi)
  {
    var p := (s: State) => Intends(s, count, submitted, hi) || HasSubmitted(s, count, submitted, hi);
    forall s, s' | p(s) && Next(c, s, s') ensures p(s') {
      if Intends(s, count, submitted, hi) {
        IntentIsKept(c, s, s', count, submitted, hi);
      } else {
        SubmittedStays(c, s, s', count, submitted, hi);
      }
    }
    RunKeepsProperty(c, run, i, j, p);
  }

  lemma ReadingDecides(c: Config, s: State, s': State)
    requires s.Submitted() <= c.items && Next(c, s, s') && s.producer.Reading? && s'.producer.BatchReady?
    ensures Intends(s', |s.tasks|, s.Submitted(), s'.producer.hi)
    ensures IsAskedFor(s'.producer.hi - s.Submitted(), s.batchSize, c.items - s.Submitted())
  {
    if !ProducerStep(c, s, s') {
      OthersOnlyWork(c, s, s');
    }
  }

  /** The next batch to be submitted after the size was read starts where the last one ended and is as
      long as the size that was read asks for, however the size changes in between. */
  lemma BatchIsAsLongAsRead(c: Config, run: seq<State>, i: nat, j: nat)
    requires IsRun(c, run) && i < j < |run|
    requires run[i].producer.Reading? && run[i + 1].producer.BatchReady?
    requires |run[j].tasks| > |run[i].tasks|
    ensures var t := run[j].tasks[|run[i].tasks|];
            t.lo == run[i].Submitted() && IsAskedFor(t.Size(), run[i].batchSize, c.items - run[i].Submitted())
  {
    RunKeeps(c, run, i);
    assert Next(c, run[i], run[i + 1]);
    ReadingDecides(c, run[i], run[i + 1]);
    IntentInRun(c, run, i + 1, j, |run[i].tasks|, run[i].Submitted(), run[i + 1].producer.hi);
  }

  /* ---- The pool ---- */

  /** No more calls are at work at once than there are workers. */
  lemma WorkersAreBounded(c: Config, run: seq<State>, i: nat)
    requires IsRun(c, run) && i < |run|
    ensures |run[i].Running()| <= c.maxWorkers
  {
    var p := (s: State) => |s.Running()| <= c.maxWorkers;
    forall s, s' | p(s) && Next(c, s, s') ensures p(s') {
      StepKeepsWorkersBounded(c, s, s');
    }
    assert run[0].Running() == {};
    RunKeepsProperty(c, run, 0, i, p);
  }

  lemma StepKeepsWorkersBounded(c: Config, s: State, s': State)
    requires Next(c, s, s') && |s.Running()| <= c.maxWorkers
    ensures |s'.Running()| <= c.maxWorkers
  {
    if ProducerStep(c, s, s') {
      ProducerKeepsRunning(c, s, s');
    } else if id: nat :| WorkerStep(c, s, s', id) {
      WorkerKeepsRunningBounded(c, s, s', id);
    } else {
      var id: nat :| ReleaseStep(s, s', id);
      assert s'.Running() == s.Running();
    }
  }

  lemma ProducerKeepsRunning(c: Config, s: State, s': State)
    requires ProducerStep(c, s, s')
    ensures s'.Running() == s.Running()
  {
  }

  lemma WorkerKeepsRunningBounded(c: Config, s: State, s': State, id: nat)
    requires WorkerStep(c, s, s', id) && |s.Running()| <= c.maxWorkers
    ensures |s'.Running()| <= c.maxWorkers
  {
    var e :| CanDo(c, s, s.tasks[id], e) && s' == Apply(s, id, e);
    if s.tasks[id].pc.Queued? {
      assert s'.Running() == s.Running() + {id};
    } else {
      assert s'.Running() <= s.Running();
      SubsetCardinality(s'.Running(), s.Running());
    }
  }
}
