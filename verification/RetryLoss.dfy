/** With max_retries == 0 the executor can drop every item and still return normally. */
module RetryLoss {
  import opened Common
  import opened Batches
  import opened BatchExecutor

  ghost predicate Path(c: Config, p: seq<State>) {
    p != [] && forall i :: 0 <= i < |p| - 1 ==> Next(c, p[i], p[i + 1])
  }

  ghost predicate Reaches(c: Config, s: State, t: State) {
    exists p :: Path(c, p) && p[0] == s && p[|p| - 1] == t
  }

  lemma ReachesSelf(c: Config, s: State)
    ensures Reaches(c, s, s)
  {
    assert Path(c, [s]);
  }

  lemma Then(c: Config, s: State, t: State, u: State)
    requires Reaches(c, s, t) && Next(c, t, u)
    ensures Reaches(c, s, u)
  {
    var p :| Path(c, p) && p[0] == s && p[|p| - 1] == t;
    var q := p + [u];
    forall i | 0 <= i < |q| - 1 ensures Next(c, q[i], q[i + 1]) {
    }
    assert Path(c, q);
  }

  lemma ThenWorker(c: Config, s: State, t: State, id: nat, e: Effect)
    requires Reaches(c, s, t) && id < |t.tasks| && CanDo(c, t, t.tasks[id], e)
    ensures Reaches(c, s, Apply(t, id, e))
  {
    assert WorkerStep(c, t, Apply(t, id, e), id);
    Then(c, s, t, Apply(t, id, e));
  }

  /** s with task id at pc: what the worker's own steps change besides the size bookkeeping. */
  ghost predicate SameBut(s: State, t: State, id: nat, pc: Pc)
    requires id < |s.tasks|
  {
    && t.tasks == s.tasks[id := s.tasks[id].(pc := pc)]
    && t.futures == s.futures && t.free == s.free && t.producer == s.producer && t.handled == s.handled
  }

  /** Without attempts, the retry loop walks over the items and calls nothing. */
  lemma LoopDropsItems(c: Config, s: State, t: State, id: nat, item: nat) returns (u: State)
    requires c.maxRetries == 0 && id < |s.tasks|
    requires Reaches(c, s, t) && SameBut(s, t, id, Retrying(item, 0))
    ensures Reaches(c, s, u) && SameBut(s, u, id, Finished(true))
    decreases s.tasks[id].hi - item
  {
    var pc := if s.tasks[id].lo + item >= s.tasks[id].hi then Finished(true) else Retrying(item + 1, 0);
    u := Apply(t, id, Go(t, pc, NoCall));
    ThenWorker(c, s, t, id, Go(t, pc, NoCall));
    if pc.Retrying? {
      u := LoopDropsItems(c, s, u, id, item + 1);
    }
  }

  /** A batch fails, its items are dropped, and its future succeeds. */
  lemma BatchIsLost(c: Config, s: State, id: nat) returns (t: State)
    requires c.maxRetries == 0 && c.maxWorkers >= 1
    requires id < |s.tasks| && s.tasks[id].pc == Queued && s.Running() == {}
    ensures Reaches(c, s, t) && SameBut(s, t, id, Finished(true))
  {
    ReachesSelf(c, s);
    var s1 := Apply(s, id, Go(s, Calling, NoCall));
    ThenWorker(c, s, s, id, Go(s, Calling, NoCall));
    var call := Call(s.tasks[id].lo, s.tasks[id].hi, RetryError);
    var s2 := Apply(s1, id, Go(s1, Shrinking, call));
    ThenWorker(c, s, s1, id, Go(s1, Shrinking, call));
    var s3 := ReachRetrying(c, s, s2, id);
    t := LoopDropsItems(c, s, s3, id, 0);
  }

  /** After a failed call the worker comes to the retry loop, whether it shrinks the batch size or not. */
  lemma ReachRetrying(c: Config, s: State, s2: State, id: nat) returns (t: State)
    requires id < |s.tasks| && Reaches(c, s, s2) && SameBut(s, s2, id, Shrinking)
    ensures Reaches(c, s, t) && SameBut(s, t, id, Retrying(0, 0))
  {
    if s2.batchSize == s2.tasks[id].Size() && s2.batchSize > 1 {
      var s3 := Apply(s2, id, Go(s2, ShrinkWrite, NoCall));
      ThenWorker(c, s, s2, id, Go(s2, ShrinkWrite, NoCall));
      var e4 := Go(s3, ShrinkStamp, NoCall).(batchSize := s3.tasks[id].Size() / 2, shrunk := true);
      var s4 := Apply(s3, id, e4);
      ThenWorker(c, s, s3, id, e4);
      var e5 := Go(s4, Retrying(0, 0), NoCall).(latest := Some(0));
      ThenWorker(c, s, s4, id, e5);
      t := Apply(s4, id, e5);
    } else {
      ThenWorker(c, s, s2, id, Go(s2, Retrying(0, 0), NoCall));
      t := Apply(s2, id, Go(s2, Retrying(0, 0), NoCall));
    }
  }

  /** The producer is about to cut the next batch, nothing is running, nothing was handled. */
  ghost predicate Calm(c: Config, s: State) {
    && s.producer.Reading? && s.free == c.Permits() && s.Submitted() <= c.items
    && (forall id :: 0 <= id < |s.tasks| ==>
         s.tasks[id].pc == Finished(true) && s.tasks[id].callbackAdded && s.tasks[id].released)
    && |s.futures| <= 1 && (forall id :: id in s.futures ==> id < |s.tasks|)
    && |s.handled| == c.items && (forall x :: 0 <= x < c.items ==> !s.handled[x])
  }

  lemma ThenProducer(c: Config, s: State, t: State, u: State)
    requires Reaches(c, s, t) && ProducerStep(c, t, u)
    ensures Reaches(c, s, u)
  {
    Then(c, s, t, u);
  }

  /** The producer looks at the at most one future left, finds it done, and comes to Acquiring. */
  lemma ReachAcquiring(c: Config, s: State) returns (t: State)
    requires Calm(c, s) && s.Submitted() < c.items
    ensures Reaches(c, s, t) && t.producer.Acquiring? && t.futures == []
    ensures s.Submitted() < t.producer.hi <= c.items
    ensures t == s.(futures := [], producer := t.producer)
  {
    ReachesSelf(c, s);
    var hi := s.Submitted() + BatchLength(s.batchSize, c.items - s.Submitted());
    var s1 := s.(producer := BatchReady(hi));
    ThenProducer(c, s, s, s1);
    var s2 := s.(producer := Checking(hi, 0, s1.NotDone()));
    ThenProducer(c, s, s1, s2);
    var s3 := s2;
    if s.futures != [] {
      s3 := s2.(futures := []);
      assert s2.futures[0] in s.futures;
      assert s2.futures[..0] + s2.futures[1..] == [];
      ThenProducer(c, s, s2, s3);
    }
    t := s3.(producer := Acquiring(hi));
    ThenProducer(c, s, s3, t);
  }

  lemma ReachLostBatch(c: Config, s: State) returns (t: State)
    requires c.maxRetries == 0 && c.maxWorkers >= 1
    requires Calm(c, s) && s.Submitted() < c.items
    ensures Reaches(c, s, t) && Calm(c, t) && t.Submitted() > s.Submitted()
  {
    var s8 := ReachSubmitted(c, s);
    var id := |s.tasks|;
    assert s8.Running() == {};
    var s9 := BatchIsLost(c, s8, id);
    ReachesTransitive(c, s, s8, s9);
    t := s9.(tasks := s9.tasks[id := s9.tasks[id].(released := true)], free := s9.free + 1);
    assert ReleaseStep(s9, t, id);
    Then(c, s, s9, t);
  }

  /** The next batch is submitted, and waits. */
  lemma ReachSubmitted(c: Config, s: State) returns (s8: State)
    requires Calm(c, s) && s.Submitted() < c.items && c.maxWorkers >= 1
    ensures Reaches(c, s, s8) && s8.producer == Reading && s8.futures == [|s.tasks|]
    ensures s.Submitted() < s8.Submitted() <= c.items
    ensures s8.tasks == s.tasks + [Task(s.Submitted(), s8.Submitted(), Queued, true, false)]
    ensures s8.free == s.free - 1 && s8.handled == s.handled
  {
    var s4 := ReachAcquiring(c, s);
    var hi, id := s4.producer.hi, |s.tasks|;
    var s5 := s4.(free := s4.free - 1, producer := Delegating(hi));
    ThenProducer(c, s, s4, s5);
    var s6 := s5.(tasks := s.tasks + [Task(s.Submitted(), hi, Queued, false, false)],
                  producer := AddingCallback(id));
    ThenProducer(c, s, s5, s6);
    var s7 := s6.(tasks := s6.tasks[id := s6.tasks[id].(callbackAdded := true)], producer := Appending(id));
    ThenProducer(c, s, s6, s7);
    s8 := s7.(futures := [id], producer := Reading);
    assert s7.futures + [id] == [id];
    ThenProducer(c, s, s7, s8);
  }

  lemma ReachesTransitive(c: Config, s: State, t: State, u: State)
    requires Reaches(c, s, t) && Reaches(c, t, u)
    ensures Reaches(c, s, u)
  {
    var p :| Path(c, p) && p[0] == s && p[|p| - 1] == t;
    var q :| Path(c, q) && q[0] == t && q[|q| - 1] == u;
    var r := p + q[1..];
    forall i | 0 <= i < |r| - 1 ensures Next(c, r[i], r[i + 1]) {
      if i >= |p| - 1 {
        assert r[i] == q[i - |p| + 1] && r[i + 1] == q[i - |p| + 2];
      }
    }
    assert Path(c, r);
  }

  lemma ReachShutdown(c: Config, s: State) returns (t: State)
    requires Calm(c, s) && s.Submitted() == c.items
    ensures Reaches(c, s, t) && t.producer.Completed? && t.handled == s.handled
  {
    ReachesSelf(c, s);
    var s1 := s.(producer := Waiting);
    ThenProducer(c, s, s, s1);
    assert s1.NotDone() == {} && s1.Unreleased() == {};
    var s2 := s.(producer := FinalChecking(0));
    ThenProducer(c, s, s1, s2);
    var s3 := s2;
    if s.futures != [] {
      s3 := s2.(futures := []);
      assert s2.futures[0] in s.futures;
      assert s2.futures[..0] + s2.futures[1..] == [];
      ThenProducer(c, s, s2, s3);
    }
    var s4 := s3.(producer := Asserting);
    ThenProducer(c, s, s3, s4);
    t := s4.(producer := Completed);
    ThenProducer(c, s, s4, t);
  }

  lemma {:induction false} ReachCompletion(c: Config, s: State) returns (t: State)
    requires c.maxRetries == 0 && c.maxWorkers >= 1 && Calm(c, s)
    ensures Reaches(c, s, t) && t.producer.Completed?
    ensures |t.handled| == c.items && forall x :: 0 <= x < c.items ==> !t.handled[x]
    decreases c.items - s.Submitted()
  {
    if s.Submitted() == c.items {
      t := ReachShutdown(c, s);
    } else {
      var u := ReachLostBatch(c, s);
      t := ReachCompletion(c, u);
      ReachesTransitive(c, s, u, t);
    }
  }

  /** Every item was handled. */
  ghost predicate AllHandled(s: State) {
    forall x :: 0 <= x < |s.handled| ==> s.handled[x]
  }

  /** A normal return means that everything was handled. */
  ghost predicate NormalReturnMeansDone(c: Config) {
    forall run: seq<State>, i ::
      IsRun(c, run) && 0 <= i < |run| && run[i].producer.Completed? ==> AllHandled(run[i])
  }

  /** Exactly when the executor's promise holds. (A pool has at least one worker.) */
  lemma PromiseHoldsIffRetriesAllowed(c: Config)
    requires c.items >= 1 && c.maxWorkers >= 1
    ensures NormalReturnMeansDone(c) <==> c.maxRetries >= 1
  {
    if c.maxRetries >= 1 {
      forall run: seq<State>, i | IsRun(c, run) && 0 <= i < |run| && run[i].producer.Completed?
        ensures AllHandled(run[i]) {
        CompletedRunHandlesAll(c, run, i);
      }
    } else {
      var t := ReachCompletion(c, Init(c));
      var run :| Path(c, run) && run[0] == Init(c) && run[|run| - 1] == t;
      assert IsRun(c, run);
      assert !AllHandled(t) by {
        assert !t.handled[0];
      }
    }
  }
}
