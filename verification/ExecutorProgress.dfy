/** The executor cannot deadlock: the producer never waits for a permit, or for the pool, that nobody
    will give. */
module ExecutorProgress {
  import opened Common
  import opened Batches
  import opened BatchExecutor

  /** A future without its done callback is the one the producer is about to give it to. */
  ghost predicate CallbacksAdded(s: State) {
    forall id :: 0 <= id < |s.tasks| && !s.tasks[id].callbackAdded ==> s.producer == AddingCallback(id)
  }

  lemma NextAddsCallbacks(c: Config, s: State, s': State)
    requires CallbacksAdded(s) && Next(c, s, s')
    ensures CallbacksAdded(s')
  {
    if ProducerStep(c, s, s') {
      ProducerAddsCallbacks(c, s, s');
    } else if id: nat :| WorkerStep(c, s, s', id) {
      var e :| CanDo(c, s, s.tasks[id], e) && s' == Apply(s, id, e);
    } else {
      var id: nat :| ReleaseStep(s, s', id);
    }
  }

  lemma ProducerAddsCallbacks(c: Config, s: State, s': State)
    requires CallbacksAdded(s) && ProducerStep(c, s, s')
    ensures CallbacksAdded(s')
  {
  }

  lemma {:induction false} RunAddsCallbacks(c: Config, run: seq<State>, i: nat)
    requires IsRun(c, run) && i < |run|
    ensures CallbacksAdded(run[i])
  {
    if i > 0 {
      RunAddsCallbacks(c, run, i - 1);
      NextAddsCallbacks(c, run[i - 1], run[i]);
    }
  }

  ghost predicate CanGoOn(c: Config, s: State) {
    exists s' :: Next(c, s, s')
  }

  /** Some worker of the pool has a next step. */
  ghost predicate PoolGoesOn(c: Config, s: State) {
    exists s', id: nat :: WorkerStep(c, s, s', id)
  }

  /** A worker that has started always has a next step. */
  lemma StartedWorkerGoesOn(c: Config, s: State, id: nat)
    requires id < |s.tasks| && !s.tasks[id].pc.Queued? && !s.tasks[id].pc.Finished?
    ensures PoolGoesOn(c, s)
  {
    var t := s.tasks[id];
    var e := match t.pc
      case Calling => Go(s, Finished(false), Call(t.lo, t.hi, FatalError))
      case Growing => Go(s, Finished(true), NoCall)
      case GrowWrite(now) => Go(s, GrowStamp(now), NoCall).(batchSize := t.Size() * 2)
      case GrowStamp(now) => Go(s, Finished(true), NoCall).(latest := Some(now))
      case Shrinking =>
        Go(s, if s.batchSize == t.Size() && s.batchSize > 1 then ShrinkWrite else Retrying(0, 0), NoCall)
      case ShrinkWrite => Go(s, ShrinkStamp, NoCall).(batchSize := t.Size() / 2, shrunk := true)
      case ShrinkStamp => Go(s, Retrying(0, 0), NoCall).(latest := Some(0))
      case Retrying(item, attempt) =>
        if t.lo + item >= t.hi then Go(s, Finished(true), NoCall)
        else if attempt >= c.maxRetries then Go(s, Retrying(item + 1, 0), NoCall)
        else Go(s, Finished(false), Call(t.lo + item, t.lo + item + 1, FatalError))
      case _ => Go(s, t.pc, NoCall);
    assert CanDo(c, s, t, e);
    assert WorkerStep(c, s, Apply(s, id, e), id);
  }

  /** As long as a future is not done, some worker can work. */
  lemma NotDoneMeansWork(c: Config, s: State)
    requires c.maxWorkers >= 1 && s.NotDone() != {}
    ensures PoolGoesOn(c, s)
  {
    if s.Running() != {} {
      var id :| id in s.Running();
      StartedWorkerGoesOn(c, s, id);
    } else {
      var id :| id in s.NotDone();
      assert id !in s.Running();
      var e := Go(s, Calling, NoCall);
      assert CanDo(c, s, s.tasks[id], e);
      assert WorkerStep(c, s, Apply(s, id, e), id);
    }
  }

  /** A future that holds a permit can give it back, or is not done and the pool is at work. */
  lemma HeldPermitComesBack(c: Config, s: State, id: nat)
    requires c.maxWorkers >= 1 && CallbacksAdded(s) && s.producer != AddingCallback(id)
    requires id in s.Unreleased()
    ensures (exists s' :: ReleaseStep(s, s', id)) || (id in s.NotDone() && PoolGoesOn(c, s))
  {
    if s.tasks[id].pc.Finished? {
      var s' := s.(tasks := s.tasks[id := s.tasks[id].(released := true)], free := s.free + 1);
      assert ReleaseStep(s, s', id);
    } else {
      assert id in s.NotDone();
      NotDoneMeansWork(c, s);
    }
  }

  lemma PermitOrWorkGoesOn(c: Config, s: State)
    requires c.maxWorkers >= 1 && CallbacksAdded(s) && !s.producer.AddingCallback?
    requires s.Unreleased() != {} || s.NotDone() != {}
    ensures CanGoOn(c, s)
  {
    if s.Unreleased() != {} {
      var id :| id in s.Unreleased();
      HeldPermitComesBack(c, s, id);
      if s' :| ReleaseStep(s, s', id) {
        assert Next(c, s, s');
        return;
      }
    } else {
      NotDoneMeansWork(c, s);
    }
    var s', id: nat :| WorkerStep(c, s, s', id);
    assert Next(c, s, s');
  }

  lemma ProducerGoesOn(c: Config, s: State, s': State)
    requires ProducerStep(c, s, s')
    ensures CanGoOn(c, s)
  {
    assert Next(c, s, s');
  }

  /** Looking at a future is always possible. */
  lemma CheckGoesOn(c: Config, s: State, k: nat, kept: Producer, done: Producer) returns (s': State)
    requires FuturesOk(c, s)
    ensures CheckStep(s, s', k, kept, done)
  {
    if k >= |s.futures| {
      s' := s.(producer := done);
    } else {
      assert s.futures[k] in s.futures;
      s' := match s.tasks[s.futures[k]].pc
        case Finished(true) => s.(futures := s.futures[..k] + s.futures[k + 1..])
        case Finished(false) => s.(producer := Raised)
        case _ => s.(producer := kept);
    }
  }

  ghost predicate InShutdown(p: Producer) { p.Waiting? || p.FinalChecking? || p.Asserting? }

  lemma ExecuteGoesOn(c: Config, s: State)
    requires c.maxWorkers >= 1 && Inv(c, s) && CallbacksAdded(s)
    requires !InShutdown(s.producer) && !s.producer.Completed? && !s.producer.Raised?
    ensures CanGoOn(c, s)
  {
    match s.producer
    case Reading =>
      var n := s.Submitted();
      var next := if n >= c.items then Waiting else BatchReady(n + BatchLength(s.batchSize, c.items - n));
      ProducerGoesOn(c, s, s.(producer := next));
    case BatchReady(hi) => ProducerGoesOn(c, s, s.(producer := Checking(hi, 0, s.NotDone())));
    case Checking(hi, k, pending) =>
      var s' := CheckGoesOn(c, s, k, Checking(hi, k + 1, pending), Acquiring(hi));
      ProducerGoesOn(c, s, s');
    case Acquiring(hi) =>
      if s.free > 0 {
        ProducerGoesOn(c, s, s.(free := s.free - 1, producer := Delegating(hi)));
      } else {
        assert |s.Unreleased()| == c.Permits();
        PermitOrWorkGoesOn(c, s);
      }
    case Delegating(_) => ProducerGoesOn(c, s, s.(producer := Releasing));
    case Releasing => ProducerGoesOn(c, s, s.(free := s.free + 1, producer := Raised));
    case AddingCallback(id) =>
      ProducerGoesOn(c, s, s.(tasks := s.tasks[id := s.tasks[id].(callbackAdded := true)], producer := Appending(id)));
    case Appending(id) => ProducerGoesOn(c, s, s.(futures := s.futures + [id], producer := Reading));
  }

  lemma ShutdownGoesOn(c: Config, s: State)
    requires c.maxWorkers >= 1 && Inv(c, s) && CallbacksAdded(s) && InShutdown(s.producer)
    ensures CanGoOn(c, s)
  {
    match s.producer
    case Waiting =>
      if s.NotDone() != {} || s.Unreleased() != {} {
        PermitOrWorkGoesOn(c, s);
      } else {
        ProducerGoesOn(c, s, s.(producer := FinalChecking(0)));
      }
    case FinalChecking(k) =>
      var s' := CheckGoesOn(c, s, k, FinalChecking(k + 1), Asserting);
      ProducerGoesOn(c, s, s');
    case Asserting => ProducerGoesOn(c, s, s.(producer := if s.futures == [] then Completed else Raised));
  }

  /** Whatever the interleaving, some step is possible until execute and shutdown have returned or
      raised: also for a producer that waits for a permit or for the pool. */
  lemma NeverStuck(c: Config, run: seq<State>, i: nat)
    requires IsRun(c, run) && i < |run| && c.maxWorkers >= 1
    requires !run[i].producer.Completed? && !run[i].producer.Raised?
    ensures CanGoOn(c, run[i])
  {
    var s := run[i];
    RunKeeps(c, run, i);
    RunAddsCallbacks(c, run, i);
    if InShutdown(s.producer) {
      ShutdownGoesOn(c, s);
    } else {
      ExecuteGoesOn(c, s);
    }
  }
}
