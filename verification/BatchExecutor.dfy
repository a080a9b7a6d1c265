/** The batch work executor as a step system: one producer thread in `execute` and then `shutdown`,
    and the worker threads of the pool, interleaved between any two accesses to what they share
    (cli/polygonetl/executors). A run is any sequence of steps from the initial state. */
module BatchExecutor {
  import opened Common
  import opened Batches

  datatype Config = Config(items: nat, startSize: int, maxWorkers: nat, bound: nat, maxRetries: nat) {
    function Permits(): nat { bound + maxWorkers }
  }

  const COOLDOWN_SECONDS := 2 * 60

  /** Where a submitted call of `_fail_safe_execute` stands. */
  datatype Pc =
    | Queued
    | Calling                             // about to call work_handler(batch)
    | Growing                             // about to look at the clock and the last change
    | GrowWrite(now: int)
    | GrowStamp(now: int)
    | Shrinking                           // about to read batch_size
    | ShrinkWrite
    | ShrinkStamp
    | Retrying(item: nat, attempt: nat)   // about to make this attempt at this item of the batch
    | Finished(ok: bool)                  // the future is done

  /** A future: its batch is items lo..hi. */
  datatype Task = Task(lo: nat, hi: nat, pc: Pc, callbackAdded: bool, released: bool) {
    function Size(): int { hi - lo }
    predicate Has(x: int) { lo <= x < hi }
  }

  datatype Producer =
    | Reading                                        // about to read batch_size
    | BatchReady(hi: nat)                            // a batch up to item hi, about to submit it
    | Checking(hi: nat, k: nat, pending: set<nat>)   // about to look at futures[k]
    | Acquiring(hi: nat)
    | Delegating(hi: nat)                            // holds a permit, about to submit to the pool
    | Releasing                                      // the pool refused, about to give it back
    | AddingCallback(id: nat)
    | Appending(id: nat)
    | Waiting                                        // in shutdown, for the pool
    | FinalChecking(k: nat)
    | Asserting
    | Completed                                      // execute and shutdown returned normally
    | Raised

  /** `pending` in Checking and the last three fields are history: the futures that were not done
      when the check began, the items some call of the handler returned normally for, how often
      each item was handed over, and whether the batch size was ever decreased. */
  datatype State = State(
    tasks: seq<Task>,
    futures: seq<nat>,
    free: int,
    batchSize: int,
    latest: Option<int>,
    producer: Producer,
    handled: seq<bool>,
    handovers: seq<nat>,
    shrunk: bool)
  {
    /** How many items have been submitted. */
    function Submitted(): nat { EndOf(tasks) }

    function Running(): set<nat> {
      set id | 0 <= id < |tasks| && !tasks[id].pc.Queued? && !tasks[id].pc.Finished?
    }

    function NotDone(): set<nat> {
      set id | 0 <= id < |tasks| && !tasks[id].pc.Finished?
    }

    function Unreleased(): set<nat> {
      set id | 0 <= id < |tasks| && !tasks[id].released
    }

    /** Permits held: one by each future whose callback has not fired, and possibly one by the
        producer. */
    function Held(): nat {
      |Unreleased()| + (if producer.Delegating? || producer.Releasing? then 1 else 0)
    }
  }

  function EndOf(tasks: seq<Task>): nat {
    if tasks == [] then 0 else tasks[|tasks| - 1].hi
  }

  function Init(c: Config): State {
    State([], [], c.Permits(), c.startSize, None, Reading,
          seq(c.items, _ => false), seq(c.items, _ => 0), false)
  }

  /* ---- Steps ---- */

  function HandOver(counts: seq<nat>, lo: nat, hi: nat): (r: seq<nat>)
    ensures |r| == |counts|
    ensures forall x :: 0 <= x < |r| ==> r[x] == counts[x] + (if lo <= x < hi then 1 else 0)
  {
    seq(|counts|, x requires 0 <= x < |counts| => if lo <= x < hi then counts[x] + 1 else counts[x])
  }

  function MarkHandled(done: seq<bool>, lo: nat, hi: nat): (r: seq<bool>)
    ensures |r| == |done|
    ensures forall x :: 0 <= x < |r| ==> r[x] == (done[x] || lo <= x < hi)
  {
    seq(|done|, x requires 0 <= x < |done| => done[x] || lo <= x < hi)
  }

  datatype Call = NoCall | Call(lo: nat, hi: nat, outcome: Outcome)

  /** What one step of a worker does: where its task goes, the handler call it makes, and the new
      values of the executor's fields. */
  datatype Effect = Effect(pc: Pc, call: Call, batchSize: int, latest: Option<int>, shrunk: bool)

  function Apply(s: State, id: nat, e: Effect): State
    requires id < |s.tasks|
  {
    s.(tasks := s.tasks[id := s.tasks[id].(pc := e.pc)],
       handovers := if e.call.NoCall? then s.handovers else HandOver(s.handovers, e.call.lo, e.call.hi),
       handled := if e.call.NoCall? || !e.call.outcome.Returned? then s.handled
                  else MarkHandled(s.handled, e.call.lo, e.call.hi),
       batchSize := e.batchSize, latest := e.latest, shrunk := e.shrunk)
  }

  /** A step that only moves its own task on, possibly after calling the handler. */
  function Go(s: State, pc: Pc, call: Call): Effect {
    Effect(pc, call, s.batchSize, s.latest, s.shrunk)
  }

  ghost predicate CanDo(c: Config, s: State, t: Task, e: Effect) {
    match t.pc
    case Queued => |s.Running()| < c.maxWorkers && e == Go(s, Calling, NoCall)
    case Calling =>
      && e.call.Call? && e.call.lo == t.lo && e.call.hi == t.hi
      && e == Go(s, match e.call.outcome
                    case Returned => if t.Size() * 2 <= c.startSize then Growing else Finished(true)
                    case RetryError => Shrinking
                    case FatalError => Finished(false), e.call)
    case Growing =>
      || (e.pc.GrowWrite? && s.latest.Some? && e.pc.now - s.latest.value > COOLDOWN_SECONDS
          && e == Go(s, e.pc, NoCall))
      || e == Go(s, Finished(true), NoCall)
    case GrowWrite(now) => e == Go(s, GrowStamp(now), NoCall).(batchSize := t.Size() * 2)
    case GrowStamp(now) => e == Go(s, Finished(true), NoCall).(latest := Some(now))
    case Shrinking =>
      e == Go(s, if s.batchSize == t.Size() && s.batchSize > 1 then ShrinkWrite else Retrying(0, 0), NoCall)
    case ShrinkWrite => e == Go(s, ShrinkStamp, NoCall).(batchSize := t.Size() / 2, shrunk := true)
    case ShrinkStamp => e.latest.Some? && e == Go(s, Retrying(0, 0), NoCall).(latest := e.latest)
    case Retrying(item, attempt) =>
      // One turn of the loop over the items and, inside it, of execute_with_retries.
      var x := t.lo + item;
      if x >= t.hi then e == Go(s, Finished(true), NoCall)
      else if attempt >= c.maxRetries then e == Go(s, Retrying(item + 1, 0), NoCall)
      else
        && e.call.Call? && e.call.lo == x && e.call.hi == x + 1
        && e == Go(s, match e.call.outcome
                      case Returned => Retrying(item + 1, 0)
                      case RetryError => if attempt + 1 < c.maxRetries then Retrying(item, attempt + 1)
                                         else Finished(false)
                      case FatalError => Finished(false), e.call)
    case Finished(_) => false
  }

  ghost predicate WorkerStep(c: Config, s: State, s': State, id: nat) {
    id < |s.tasks| && exists e :: CanDo(c, s, s.tasks[id], e) && s' == Apply(s, id, e)
  }

  /** The done callback of a future fires, once, in whatever thread. */
  ghost predicate ReleaseStep(s: State, s': State, id: nat) {
    && id < |s.tasks| && s.tasks[id].pc.Finished? && s.tasks[id].callbackAdded && !s.tasks[id].released
    && s' == s.(tasks := s.tasks[id := s.tasks[id].(released := true)], free := s.free + 1)
  }

  ghost predicate ProducerStep(c: Config, s: State, s': State) {
    match s.producer
    case Reading =>
      var n := s.Submitted();
      s' == s.(producer := if n >= c.items then Waiting
                           else BatchReady(n + BatchLength(s.batchSize, c.items - n)))
    case BatchReady(hi) => s' == s.(producer := Checking(hi, 0, s.NotDone()))
    case Checking(hi, k, pending) => CheckStep(s, s', k, Checking(hi, k + 1, pending), Acquiring(hi))
    case Acquiring(hi) => s.free > 0 && s' == s.(free := s.free - 1, producer := Delegating(hi))
    case Delegating(hi) =>
      || s' == s.(tasks := s.tasks + [Task(s.Submitted(), hi, Queued, false, false)],
                  producer := AddingCallback(|s.tasks|))
      || s' == s.(producer := Releasing)
    case Releasing => s' == s.(free := s.free + 1, producer := Raised)
    case AddingCallback(id) =>
      id < |s.tasks|
      && s' == s.(tasks := s.tasks[id := s.tasks[id].(callbackAdded := true)], producer := Appending(id))
    case Appending(id) => s' == s.(futures := s.futures + [id], producer := Reading)
    case Waiting =>
      s.NotDone() == {} && s.Unreleased() == {} && s' == s.(producer := FinalChecking(0))
    case FinalChecking(k) => CheckStep(s, s', k, FinalChecking(k + 1), Asserting)
    case Asserting => s' == s.(producer := if s.futures == [] then Completed else Raised)
    case Completed => false
    case Raised => false
  }

  /** `_check_completed_futures` looks at the next future. The source walks over a copy; nothing
      else changes the list meanwhile, so the position in the list says the same. */
  ghost predicate CheckStep(s: State, s': State, k: nat, kept: Producer, done: Producer) {
    if k >= |s.futures| then s' == s.(producer := done)
    else
      s.futures[k] < |s.tasks| &&
      match s.tasks[s.futures[k]].pc
      case Finished(true) => s' == s.(futures := s.futures[..k] + s.futures[k + 1..])
      case Finished(false) => s' == s.(producer := Raised)
      case _ => s' == s.(producer := kept)
  }

  ghost predicate Next(c: Config, s: State, s': State) {
    || ProducerStep(c, s, s')
    || (exists id :: WorkerStep(c, s, s', id))
    || (exists id :: ReleaseStep(s, s', id))
  }

  ghost predicate IsRun(c: Config, run: seq<State>) {
    && run != [] && run[0] == Init(c)
    && forall i :: 0 <= i < |run| - 1 ==> Next(c, run[i], run[i + 1])
  }

  /* ---- Invariants ---- */

  function Bounds(tasks: seq<Task>): seq<(nat, nat)> {
    seq(|tasks|, k requires 0 <= k < |tasks| => (tasks[k].lo, tasks[k].hi))
  }

  /** Each batch starts where the one before it ends. */
  ghost predicate Adjoin(bounds: seq<(nat, nat)>) {
    bounds == [] ||
    (var init, last := bounds[..|bounds| - 1], bounds[|bounds| - 1];
     Adjoin(init) && last.0 == if init == [] then 0 else init[|init| - 1].1)
  }

  ghost predicate BatchesAdjoin(c: Config, s: State) {
    && s.Submitted() <= c.items
    && Adjoin(Bounds(s.tasks))
    && (forall k :: 0 <= k < |s.tasks| ==> s.tasks[k].lo < s.tasks[k].hi)
    && (forall j, k :: 0 <= j < k < |s.tasks| ==> s.tasks[j].hi <= s.tasks[k].lo)
    && (match s.producer
        case BatchReady(hi) => s.Submitted() < hi <= c.items
        case Checking(hi, _, _) => s.Submitted() < hi <= c.items
        case Acquiring(hi) => s.Submitted() < hi <= c.items
        case Delegating(hi) => s.Submitted() < hi <= c.items
        case Waiting => s.Submitted() == c.items
        case FinalChecking(_) => s.Submitted() == c.items
        case Asserting => s.Submitted() == c.items
        case Completed => s.Submitted() == c.items
        case _ => true)
  }

  /** How far task t has come with item x. */
  ghost predicate ItemOk(c: Config, t: Task, x: int, calls: nat, done: bool) {
    match t.pc
    case Queued => calls == 0
    case Calling => calls == 0
    case Growing => calls == 1 && done
    case GrowWrite(_) => calls == 1 && done
    case GrowStamp(_) => calls == 1 && done
    case Shrinking => calls == 1
    case ShrinkWrite => calls == 1
    case ShrinkStamp => calls == 1
    case Retrying(item, attempt) =>
      if x < t.lo + item then calls <= 1 + c.maxRetries && (c.maxRetries >= 1 ==> done)
      else if x == t.lo + item then calls == 1 + attempt
      else calls == 1
    case Finished(ok) => calls <= 1 + c.maxRetries && (ok && c.maxRetries >= 1 ==> done)
  }

  ghost predicate TaskOk(c: Config, handovers: seq<nat>, handled: seq<bool>, t: Task)
    requires |handovers| == |handled| == c.items
  {
    && (t.pc.Retrying? ==> t.pc.item <= t.Size() && (t.pc.attempt < c.maxRetries || t.pc.attempt == 0))
    && forall x :: t.Has(x) && x < c.items ==> ItemOk(c, t, x, handovers[x], handled[x])
  }

  ghost predicate WorkOk(c: Config, tasks: seq<Task>, handovers: seq<nat>, handled: seq<bool>) {
    && |handovers| == |handled| == c.items
    && (forall id :: 0 <= id < |tasks| ==> TaskOk(c, handovers, handled, tasks[id]))
    && (forall x :: EndOf(tasks) <= x < c.items ==> handovers[x] == 0)
  }

  /** No size is ever written outside 1..startSize, and none before the first decrease. */
  ghost predicate SizesOk(c: Config, tasks: seq<Task>, batchSize: int, latest: Option<int>, shrunk: bool) {
    && (c.startSize >= 1 ==> 1 <= batchSize <= c.startSize)
    && (!shrunk ==> batchSize == c.startSize && latest.None?)
    && forall id :: 0 <= id < |tasks| ==> TaskSizeOk(c, shrunk, tasks[id])
  }

  ghost predicate TaskSizeOk(c: Config, shrunk: bool, t: Task) {
    && (t.pc.Growing? || t.pc.GrowWrite? || t.pc.GrowStamp? ==> t.Size() * 2 <= c.startSize)
    && (t.pc.ShrinkWrite? ==> 2 <= t.Size() && (c.startSize >= 1 ==> t.Size() <= c.startSize))
    && (t.pc.GrowWrite? || t.pc.GrowStamp? || t.pc.ShrinkStamp? ==> shrunk)
  }

  /** Permits are conserved, and only a done future has given its permit back. */
  ghost predicate PermitsOk(c: Config, s: State) {
    && s.free >= 0
    && s.free + s.Held() == c.Permits()
    && forall id :: 0 <= id < |s.tasks| && s.tasks[id].released ==> s.tasks[id].pc.Finished?
  }

  ghost predicate Distinct(ids: seq<nat>) {
    forall i, j :: 0 <= i < j < |ids| ==> ids[i] != ids[j]
  }

  /** Every future is in the list, or about to be, or was removed from it having succeeded. */
  ghost predicate Listed(s: State) {
    && Distinct(s.futures)
    && (forall id :: id in s.futures ==> id < |s.tasks|)
    && (forall id :: 0 <= id < |s.tasks| ==>
         id in s.futures || AboutToList(s.producer, id) || s.tasks[id].pc == Finished(true))
  }

  predicate AboutToList(p: Producer, id: nat) {
    (p.AddingCallback? || p.Appending?) && p.id == id
  }

  ghost predicate AllDone(s: State) { s.NotDone() == {} }

  /** What the producer knows of the futures, by where it is. */
  ghost predicate PhaseOk(c: Config, s: State) {
    match s.producer
    case Checking(_, k, pending) =>
      && k <= |s.futures| && |pending| <= c.Permits()
      && s.NotDone() <= pending
      && (forall j :: 0 <= j < k ==> s.futures[j] in pending)
    case AddingCallback(id) => id < |s.tasks| && id !in s.futures
    case Appending(id) => id < |s.tasks| && id !in s.futures
    case FinalChecking(k) => k == 0 && AllDone(s)
    case Asserting => s.futures == [] && AllDone(s)
    case Completed => s.futures == [] && AllDone(s)
    case _ => true
  }

  ghost predicate FuturesOk(c: Config, s: State) {
    && Listed(s)
    && |s.futures| <= c.Permits() + (if InSubmit(s.producer) then 0 else 1)
    && PhaseOk(c, s)
  }

  predicate InSubmit(p: Producer) {
    p.Acquiring? || p.Delegating? || p.Releasing? || p.AddingCallback? || p.Appending?
  }

  ghost predicate Working(c: Config, s: State) { WorkOk(c, s.tasks, s.handovers, s.handled) }

  ghost predicate Sized(c: Config, s: State) { SizesOk(c, s.tasks, s.batchSize, s.latest, s.shrunk) }

  ghost predicate Inv(c: Config, s: State) {
    BatchesAdjoin(c, s) && Working(c, s) && Sized(c, s) && PermitsOk(c, s) && FuturesOk(c, s)
  }

  /* ---- Every step keeps the invariants ---- */

  lemma InitOk(c: Config)
    ensures Inv(c, Init(c))
  {
    assert Init(c).Unreleased() == {};
  }

  /** A handler call only sees items of its own task. */
  lemma CallsStayInTask(c: Config, s: State, t: Task, e: Effect)
    requires CanDo(c, s, t, e) && t.lo < t.hi
    ensures e.call.Call? ==> t.lo <= e.call.lo && e.call.hi <= t.hi
    ensures !t.pc.Finished?
  {
  }

  lemma WorkerKeepsBatches(c: Config, s: State, id: nat, e: Effect)
    requires BatchesAdjoin(c, s) && id < |s.tasks|
    ensures BatchesAdjoin(c, Apply(s, id, e))
  {
    SameBatchesAdjoin(c, s, Apply(s, id, e));
  }

  lemma SameBatchesAdjoin(c: Config, s: State, s': State)
    requires BatchesAdjoin(c, s) && s'.producer == s.producer && |s'.tasks| == |s.tasks|
    requires forall k :: 0 <= k < |s.tasks| ==>
               s'.tasks[k].lo == s.tasks[k].lo && s'.tasks[k].hi == s.tasks[k].hi
    ensures BatchesAdjoin(c, s') && s'.Submitted() == s.Submitted()
  {
    assert Bounds(s'.tasks) == Bounds(s.tasks);
  }

  lemma WorkerKeepsOwnItem(c: Config, s: State, t: Task, e: Effect, x: int, calls: nat, done: bool)
    requires CanDo(c, s, t, e) && t.Has(x)
    requires t.pc.Retrying? ==> t.pc.attempt < c.maxRetries || t.pc.attempt == 0
    requires ItemOk(c, t, x, calls, done)
    ensures var seen := e.call.Call? && e.call.lo <= x < e.call.hi;
            ItemOk(c, t.(pc := e.pc), x, if seen then calls + 1 else calls,
                   done || (seen && e.call.outcome.Returned?))
  {
  }

  lemma WorkerStaysInLoop(c: Config, s: State, t: Task, e: Effect)
    requires CanDo(c, s, t, e) && t.lo < t.hi
    requires t.pc.Retrying? ==> t.pc.item <= t.Size() && (t.pc.attempt < c.maxRetries || t.pc.attempt == 0)
    ensures e.pc.Retrying? ==> e.pc.item <= t.Size() && (e.pc.attempt < c.maxRetries || e.pc.attempt == 0)
  {
  }

  lemma WorkerKeepsOwnTask(c: Config, s: State, id: nat, e: Effect)
    requires Working(c, s) && id < |s.tasks| && CanDo(c, s, s.tasks[id], e)
    requires s.tasks[id].lo < s.tasks[id].hi
    ensures TaskOk(c, Apply(s, id, e).handovers, Apply(s, id, e).handled, s.tasks[id].(pc := e.pc))
  {
    var s', t := Apply(s, id, e), s.tasks[id];
    assert TaskOk(c, s.handovers, s.handled, t);
    WorkerStaysInLoop(c, s, t, e);
    forall x | t.Has(x) && x < c.items
      ensures ItemOk(c, t.(pc := e.pc), x, s'.handovers[x], s'.handled[x]) {
      WorkerKeepsOwnItem(c, s, t, e, x, s.handovers[x], s.handled[x]);
    }
  }

  /** The batches of other tasks are untouched. */
  lemma WorkerKeepsOtherTask(c: Config, s: State, id: nat, e: Effect, t: Task)
    requires |s.handovers| == |s.handled| == c.items && TaskOk(c, s.handovers, s.handled, t)
    requires id < |s.tasks|
    requires e.call.Call? ==> e.call.hi <= t.lo || t.hi <= e.call.lo
    ensures TaskOk(c, Apply(s, id, e).handovers, Apply(s, id, e).handled, t)
  {
    var s' := Apply(s, id, e);
    forall x | t.Has(x) && x < c.items ensures ItemOk(c, t, x, s'.handovers[x], s'.handled[x]) {
      assert ItemOk(c, t, x, s.handovers[x], s.handled[x]);
    }
  }

  lemma BatchesEnd(c: Config, s: State, id: nat)
    requires BatchesAdjoin(c, s) && id < |s.tasks|
    ensures s.tasks[id].hi <= EndOf(s.tasks)
  {
    var last := |s.tasks| - 1;
    assert id == last || s.tasks[id].hi <= s.tasks[last].lo;
  }

  lemma WorkerKeepsWork(c: Config, s: State, id: nat, e: Effect)
    requires BatchesAdjoin(c, s) && Working(c, s)
    requires id < |s.tasks| && CanDo(c, s, s.tasks[id], e)
    ensures Working(c, Apply(s, id, e))
  {
    var s' := Apply(s, id, e);
    CallsStayInTask(c, s, s.tasks[id], e);
    WorkerKeepsOwnTask(c, s, id, e);
    forall k | 0 <= k < |s'.tasks| && k != id ensures TaskOk(c, s'.handovers, s'.handled, s'.tasks[k]) {
      WorkerKeepsOtherTask(c, s, id, e, s.tasks[k]);
    }
    BatchesEnd(c, s, id);
    assert EndOf(s'.tasks) == EndOf(s.tasks);
  }

  lemma WorkerKeepsSizes(c: Config, s: State, id: nat, e: Effect)
    requires BatchesAdjoin(c, s) && Sized(c, s)
    requires id < |s.tasks| && CanDo(c, s, s.tasks[id], e)
    ensures Sized(c, Apply(s, id, e))
  {
    var s', t := Apply(s, id, e), s.tasks[id];
    assert TaskSizeOk(c, s.shrunk, t);
    EffectKeepsSizes(c, s, t, e);
    forall k | 0 <= k < |s'.tasks| ensures TaskSizeOk(c, s'.shrunk, s'.tasks[k]) {
      assert TaskSizeOk(c, s.shrunk, s.tasks[k]);
    }
  }

  /** What a worker writes is in range, whatever the others have written since it read. */
  lemma EffectKeepsSizes(c: Config, s: State, t: Task, e: Effect)
    requires TaskSizeOk(c, s.shrunk, t) && CanDo(c, s, t, e) && t.lo < t.hi
    requires c.startSize >= 1 ==> 1 <= s.batchSize <= c.startSize
    requires !s.shrunk ==> s.batchSize == c.startSize && s.latest.None?
    ensures s.shrunk ==> e.shrunk
    ensures TaskSizeOk(c, e.shrunk, t.(pc := e.pc))
    ensures c.startSize >= 1 ==> 1 <= e.batchSize <= c.startSize
    ensures !e.shrunk ==> e.batchSize == c.startSize && e.latest.None?
  {
  }

  lemma WorkerKeepsPermitsAndFutures(c: Config, s: State, id: nat, e: Effect)
    requires Inv(c, s)
    requires id < |s.tasks| && CanDo(c, s, s.tasks[id], e)
    ensures PermitsOk(c, Apply(s, id, e)) && FuturesOk(c, Apply(s, id, e))
  {
    var s' := Apply(s, id, e);
    CallsStayInTask(c, s, s.tasks[id], e);
    assert s'.Unreleased() == s.Unreleased();
    assert id in s.NotDone();
  }

  /** Flags of the semaphore callback play no part in the work done. */
  lemma SameWork(c: Config, tasks: seq<Task>, tasks': seq<Task>, handovers: seq<nat>, handled: seq<bool>)
    requires WorkOk(c, tasks, handovers, handled) && |tasks'| == |tasks|
    requires forall k :: 0 <= k < |tasks| ==>
      tasks'[k] == tasks[k].(callbackAdded := tasks'[k].callbackAdded, released := tasks'[k].released)
    ensures WorkOk(c, tasks', handovers, handled)
  {
    forall k | 0 <= k < |tasks'| ensures TaskOk(c, handovers, handled, tasks'[k]) {
      var t, t' := tasks[k], tasks'[k];
      assert TaskOk(c, handovers, handled, t);
      forall x | t'.Has(x) && x < c.items ensures ItemOk(c, t', x, handovers[x], handled[x]) {
        assert t.Has(x);
        assert ItemOk(c, t, x, handovers[x], handled[x]);
      }
    }
  }

  lemma SameSizes(c: Config, s: State, tasks': seq<Task>)
    requires Sized(c, s) && |tasks'| == |s.tasks|
    requires forall k :: 0 <= k < |s.tasks| ==>
      tasks'[k] == s.tasks[k].(callbackAdded := tasks'[k].callbackAdded, released := tasks'[k].released)
    ensures SizesOk(c, tasks', s.batchSize, s.latest, s.shrunk)
  {
    forall k | 0 <= k < |tasks'| ensures TaskSizeOk(c, s.shrunk, tasks'[k]) {
      assert TaskSizeOk(c, s.shrunk, s.tasks[k]);
    }
  }

  /** A release always finds a permit missing: the semaphore is never over-released. */
  lemma ReleaseKeeps(c: Config, s: State, s': State, id: nat)
    requires Inv(c, s) && ReleaseStep(s, s', id)
    ensures Inv(c, s')
    ensures s.free < c.Permits()
  {
    ReleaseKeepsWork(c, s, s', id);
    assert s'.Unreleased() == s.Unreleased() - {id};
    assert id in s.Unreleased();
    assert s'.NotDone() == s.NotDone();
  }

  lemma ReleaseKeepsWork(c: Config, s: State, s': State, id: nat)
    requires BatchesAdjoin(c, s) && Working(c, s) && Sized(c, s) && ReleaseStep(s, s', id)
    ensures BatchesAdjoin(c, s') && Working(c, s') && Sized(c, s')
  {
    SameBatchesAdjoin(c, s, s');
    SameWork(c, s.tasks, s'.tasks, s.handovers, s.handled);
    SameSizes(c, s, s'.tasks);
  }

  /** Until a batch is handed to the pool, the producer touches neither tasks nor items. */
  lemma ProducerKeepsWork(c: Config, s: State, s': State)
    requires Inv(c, s) && ProducerStep(c, s, s')
    requires s'.tasks == s.tasks
    ensures BatchesAdjoin(c, s') && Working(c, s') && Sized(c, s')
  {
    assert s'.handovers == s.handovers && s'.handled == s.handled;
    assert s'.batchSize == s.batchSize && s'.latest == s.latest && s'.shrunk == s.shrunk;
    ProducerKeepsBatches(c, s, s');
  }

  lemma ProducerKeepsBatches(c: Config, s: State, s': State)
    requires BatchesAdjoin(c, s) && ProducerStep(c, s, s') && s'.tasks == s.tasks
    requires SizesOk(c, s.tasks, s.batchSize, s.latest, s.shrunk)
    ensures BatchesAdjoin(c, s')
  {
  }

  lemma ProducerKeepsPermits(c: Config, s: State, s': State)
    requires Inv(c, s) && ProducerStep(c, s, s')
    requires s'.tasks == s.tasks
    ensures PermitsOk(c, s')
    ensures s.producer.Releasing? ==> s.free < c.Permits()
  {
    assert s'.Unreleased() == s.Unreleased();
  }

  lemma SubmitKeepsWork(c: Config, s: State, s': State)
    requires Inv(c, s) && s.producer.Delegating?
    requires s' == s.(tasks := s.tasks + [Task(s.Submitted(), s.producer.hi, Queued, false, false)],
                      producer := AddingCallback(|s.tasks|))
    ensures BatchesAdjoin(c, s') && Working(c, s') && Sized(c, s')
  {
    SubmitKeepsBatches(c, s, s');
    SubmitKeepsTasks(c, s, s');
  }

  lemma SubmitKeepsTasks(c: Config, s: State, s': State)
    requires BatchesAdjoin(c, s) && Working(c, s) && Sized(c, s) && s.producer.Delegating?
    requires s' == s.(tasks := s.tasks + [Task(s.Submitted(), s.producer.hi, Queued, false, false)],
                      producer := AddingCallback(|s.tasks|))
    ensures Working(c, s') && Sized(c, s')
  {
  }

  lemma SubmitKeepsBatches(c: Config, s: State, s': State)
    requires BatchesAdjoin(c, s) && s.producer.Delegating?
    requires s' == s.(tasks := s.tasks + [Task(s.Submitted(), s.producer.hi, Queued, false, false)],
                      producer := AddingCallback(|s.tasks|))
    ensures BatchesAdjoin(c, s')
  {
    var bounds := Bounds(s'.tasks);
    assert bounds[..|bounds| - 1] == Bounds(s.tasks);
    forall j, k | 0 <= j < k < |s'.tasks| ensures s'.tasks[j].hi <= s'.tasks[k].lo {
      if k == |s.tasks| && j < k - 1 {
        assert s.tasks[j].hi <= s.tasks[k - 1].lo;
      }
    }
  }

  lemma SubmitKeepsPermits(c: Config, s: State, s': State)
    requires Inv(c, s) && s.producer.Delegating?
    requires s' == s.(tasks := s.tasks + [Task(s.Submitted(), s.producer.hi, Queued, false, false)],
                      producer := AddingCallback(|s.tasks|))
    ensures PermitsOk(c, s') && FuturesOk(c, s')
  {
    SubmitKeepsFreePermits(c, s, s');
    SubmitKeepsFutures(c, s, s');
  }

  lemma SubmitKeepsFreePermits(c: Config, s: State, s': State)
    requires PermitsOk(c, s) && s.producer.Delegating?
    requires s' == s.(tasks := s.tasks + [Task(s.Submitted(), s.producer.hi, Queued, false, false)],
                      producer := AddingCallback(|s.tasks|))
    ensures PermitsOk(c, s')
  {
    assert s'.Unreleased() == s.Unreleased() + {|s.tasks|};
  }

  lemma SubmitKeepsFutures(c: Config, s: State, s': State)
    requires FuturesOk(c, s) && s.producer.Delegating?
    requires s' == s.(tasks := s.tasks + [Task(s.Submitted(), s.producer.hi, Queued, false, false)],
                      producer := AddingCallback(|s.tasks|))
    ensures FuturesOk(c, s')
  {
  }

  lemma CallbackKeeps(c: Config, s: State, s': State)
    requires Inv(c, s) && ProducerStep(c, s, s') && s.producer.AddingCallback?
    ensures BatchesAdjoin(c, s') && Working(c, s') && Sized(c, s')
  {
    CallbackKeepsBatches(c, s, s');
    SameWork(c, s.tasks, s'.tasks, s.handovers, s.handled);
    SameSizes(c, s, s'.tasks);
  }

  lemma CallbackKeepsBatches(c: Config, s: State, s': State)
    requires BatchesAdjoin(c, s) && ProducerStep(c, s, s') && s.producer.AddingCallback?
    ensures BatchesAdjoin(c, s')
  {
    SameBatchesAdjoin(c, s.(producer := s'.producer), s');
  }

  lemma CallbackKeepsPermits(c: Config, s: State, s': State)
    requires PermitsOk(c, s) && FuturesOk(c, s) && ProducerStep(c, s, s') && s.producer.AddingCallback?
    ensures PermitsOk(c, s') && FuturesOk(c, s')
  {
    assert s'.Unreleased() == s.Unreleased();
    assert Listed(s');
  }

  lemma DistinctWithin(ids: seq<nat>, within: set<nat>)
    requires Distinct(ids) && forall j :: 0 <= j < |ids| ==> ids[j] in within
    ensures |ids| <= |within|
  {
    if ids != [] {
      DistinctWithin(ids[1..], within - {ids[0]});
    }
  }

  lemma DistinctRemove(ids: seq<nat>, k: nat)
    requires Distinct(ids) && k < |ids|
    ensures Distinct(ids[..k] + ids[k + 1..])
    ensures forall id :: id in ids[..k] + ids[k + 1..] <==> id in ids && id != ids[k]
  {
    forall id | id in ids && id != ids[k] ensures id in ids[..k] + ids[k + 1..] {
      var j :| 0 <= j < |ids| && ids[j] == id;
      assert (ids[..k] + ids[k + 1..])[if j < k then j else j - 1] == id;
    }
  }

  /** The check removes a future that succeeded. */
  lemma RemoveKeepsFutures(c: Config, s: State, k: nat)
    requires FuturesOk(c, s) && k < |s.futures| && s.futures[k] < |s.tasks|
    requires s.tasks[s.futures[k]].pc == Finished(true)
    requires s.producer.Checking? || s.producer.FinalChecking?
    requires s.producer.k == k
    ensures FuturesOk(c, s.(futures := s.futures[..k] + s.futures[k + 1..]))
  {
    var s' := s.(futures := s.futures[..k] + s.futures[k + 1..]);
    DistinctRemove(s.futures, k);
    forall id | id in s'.futures ensures id in s.futures && id < |s.tasks| {
    }
    assert s'.NotDone() == s.NotDone();
    assert Listed(s');
  }

  lemma KeepLooking(c: Config, s: State, s': State)
    requires FuturesOk(c, s) && s.producer.Checking? && s.producer.k < |s.futures|
    requires s.futures[s.producer.k] in s.NotDone()
    requires s' == s.(producer := s.producer.(k := s.producer.k + 1))
    ensures FuturesOk(c, s')
  {
    assert s'.NotDone() == s.NotDone();
    assert Listed(s');
  }

  /** What is left in the list was not done when the check began. */
  lemma AllLooked(c: Config, s: State, s': State)
    requires FuturesOk(c, s) && ProducerStep(c, s, s')
    requires s.producer.Checking? || s.producer.FinalChecking?
    requires s.producer.k >= |s.futures|
    ensures FuturesOk(c, s')
  {
    if s.producer.Checking? {
      DistinctWithin(s.futures, s.producer.pending);
    }
    assert s'.NotDone() == s.NotDone();
    assert Listed(s');
  }

  lemma CheckKeepsFutures(c: Config, s: State, s': State)
    requires FuturesOk(c, s) && ProducerStep(c, s, s')
    requires s.producer.Checking? || s.producer.FinalChecking?
    ensures FuturesOk(c, s')
  {
    var k := s.producer.k;
    if k >= |s.futures| {
      AllLooked(c, s, s');
    } else if s.tasks[s.futures[k]].pc == Finished(true) {
      assert s' == s.(futures := s.futures[..k] + s.futures[k + 1..]);
      RemoveKeepsFutures(c, s, k);
    } else if s.tasks[s.futures[k]].pc == Finished(false) {
      assert s' == s.(producer := Raised);
      RaisedKeepsFutures(c, s);
    } else {
      NotDoneIsPassed(c, s, s');
    }
  }

  lemma NotDoneIsPassed(c: Config, s: State, s': State)
    requires FuturesOk(c, s) && ProducerStep(c, s, s')
    requires s.producer.Checking? || s.producer.FinalChecking?
    requires s.producer.k < |s.futures| && s.futures[s.producer.k] < |s.tasks|
    requires !s.tasks[s.futures[s.producer.k]].pc.Finished?
    ensures FuturesOk(c, s')
  {
    StillRunning(s, s.producer.k);
    KeepLooking(c, s, s');
  }

  /** A future that is not done can only be met before shutdown has waited for all. */
  lemma StillRunning(s: State, k: nat)
    requires k < |s.futures| && s.futures[k] < |s.tasks| && !s.tasks[s.futures[k]].pc.Finished?
    ensures s.futures[k] in s.NotDone() && !AllDone(s)
  {
  }

  lemma RaisedKeepsFutures(c: Config, s: State)
    requires FuturesOk(c, s) && (s.producer.Checking? || s.producer.FinalChecking?)
    ensures FuturesOk(c, s.(producer := Raised))
  {
  }

  lemma ProducerKeepsFutures(c: Config, s: State, s': State)
    requires PermitsOk(c, s) && FuturesOk(c, s) && ProducerStep(c, s, s')
    requires s'.tasks == s.tasks && !s.producer.Checking? && !s.producer.FinalChecking?
    ensures FuturesOk(c, s')
  {
    assert s'.NotDone() == s.NotDone();
    if s.producer.BatchReady? {
      SubsetCardinality(s.NotDone(), s.Unreleased());
    }
    assert Listed(s');
  }

  lemma WorkerKeeps(c: Config, s: State, s': State, id: nat)
    requires Inv(c, s) && WorkerStep(c, s, s', id)
    ensures Inv(c, s')
  {
    var e :| CanDo(c, s, s.tasks[id], e) && s' == Apply(s, id, e);
    WorkerKeepsBatches(c, s, id, e);
    WorkerKeepsWork(c, s, id, e);
    WorkerKeepsSizes(c, s, id, e);
    WorkerKeepsPermitsAndFutures(c, s, id, e);
  }

  lemma ProducerKeeps(c: Config, s: State, s': State)
    requires Inv(c, s) && ProducerStep(c, s, s')
    ensures Inv(c, s')
  {
    if s.producer.Delegating? && s'.producer != Releasing {
      SubmitKeepsWork(c, s, s');
      SubmitKeepsPermits(c, s, s');
    } else if s.producer.AddingCallback? {
      CallbackKeeps(c, s, s');
      CallbackKeepsPermits(c, s, s');
    } else {
      ProducerKeepsWork(c, s, s');
      ProducerKeepsPermits(c, s, s');
      if s.producer.Checking? || s.producer.FinalChecking? {
        CheckKeepsFutures(c, s, s');
      } else {
        ProducerKeepsFutures(c, s, s');
      }
    }
  }

  lemma NextKeeps(c: Config, s: State, s': State)
    requires Inv(c, s) && Next(c, s, s')
    ensures Inv(c, s')
  {
    if ProducerStep(c, s, s') {
      ProducerKeeps(c, s, s');
    } else if id :| WorkerStep(c, s, s', id) {
      WorkerKeeps(c, s, s', id);
    } else {
      var id :| ReleaseStep(s, s', id);
      ReleaseKeeps(c, s, s', id);
    }
  }

  lemma {:induction false} RunKeeps(c: Config, run: seq<State>, i: nat)
    requires IsRun(c, run) && i < |run|
    ensures Inv(c, run[i])
  {
    if i == 0 {
      InitOk(c);
    } else {
      RunKeeps(c, run, i - 1);
      NextKeeps(c, run[i - 1], run[i]);
    }
  }

  /* ---- What runs guarantee ---- */

  lemma {:induction false} FindTask(tasks: seq<Task>, x: nat) returns (id: nat)
    requires Adjoin(Bounds(tasks)) && x < EndOf(tasks)
    ensures id < |tasks| && tasks[id].Has(x)
  {
    var init := tasks[..|tasks| - 1];
    assert Bounds(tasks)[..|tasks| - 1] == Bounds(init);
    if x >= tasks[|tasks| - 1].lo {
      id := |tasks| - 1;
    } else {
      id := FindTask(init, x);
    }
  }

  /** If execute and shutdown returned normally, then every future succeeded, and every item was in
      a call of the handler that returned normally, provided at least one retry is allowed. */
  lemma CompletedRunHandlesAll(c: Config, run: seq<State>, i: nat)
    requires IsRun(c, run) && i < |run| && run[i].producer.Completed?
    ensures forall id :: 0 <= id < |run[i].tasks| ==> run[i].tasks[id].pc == Finished(true)
    ensures run[i].Submitted() == c.items == |run[i].handled|
    ensures c.maxRetries >= 1 ==> forall x :: 0 <= x < c.items ==> run[i].handled[x]
  {
    RunKeeps(c, run, i);
    var s := run[i];
    if c.maxRetries >= 1 {
      forall x | 0 <= x < c.items ensures s.handled[x] {
        var id := FindTask(s.tasks, x);
        assert TaskOk(c, s.handovers, s.handled, s.tasks[id]);
        assert ItemOk(c, s.tasks[id], x, s.handovers[x], s.handled[x]);
      }
    }
  }

  /** No item is handed over more often than once with its batch and maxRetries times alone. */
  lemma HandoversAreBounded(c: Config, run: seq<State>, i: nat, x: nat)
    requires IsRun(c, run) && i < |run| && x < c.items
    ensures x < |run[i].handovers| && run[i].handovers[x] <= 1 + c.maxRetries
  {
    RunKeeps(c, run, i);
    var s := run[i];
    if x < EndOf(s.tasks) {
      var id := FindTask(s.tasks, x);
      assert TaskOk(c, s.handovers, s.handled, s.tasks[id]);
      assert ItemOk(c, s.tasks[id], x, s.handovers[x], s.handled[x]);
    }
  }

  /** The batches submitted so far, as pieces of the input. */
  function Pieces<T>(input: seq<T>, tasks: seq<Task>): seq<seq<T>>
    requires forall k :: 0 <= k < |tasks| ==> tasks[k].lo <= tasks[k].hi <= |input|
  {
    seq(|tasks|, k requires 0 <= k < |tasks| => input[tasks[k].lo..tasks[k].hi])
  }

  lemma {:induction false} AdjoiningPiecesConcat<T>(input: seq<T>, tasks: seq<Task>)
    requires Adjoin(Bounds(tasks))
    requires forall k :: 0 <= k < |tasks| ==> tasks[k].lo <= tasks[k].hi <= |input|
    ensures Concat(Pieces(input, tasks)) == input[..EndOf(tasks)]
  {
    if tasks != [] {
      var init, last := tasks[..|tasks| - 1], tasks[|tasks| - 1];
      assert Bounds(tasks)[..|tasks| - 1] == Bounds(init);
      assert Pieces(input, tasks)[..|tasks| - 1] == Pieces(input, init);
      AdjoiningPiecesConcat(input, init);
    }
  }

  /** At every moment of every run, however the batch size changes, the submitted batches are
      non-empty and together are a prefix of the input, in order; in the end, all of it. */
  lemma SubmittedBatchesAreThePrefix<T>(c: Config, run: seq<State>, i: nat, input: seq<T>)
    requires IsRun(c, run) && i < |run| && |input| == c.items
    ensures var s := run[i];
            && s.Submitted() <= |input|
            && (forall k :: 0 <= k < |s.tasks| ==> s.tasks[k].lo < s.tasks[k].hi <= |input|)
            && Concat(Pieces(input, s.tasks)) == input[..s.Submitted()]
            && (s.producer.Completed? ==> Concat(Pieces(input, s.tasks)) == input)
  {
    RunKeeps(c, run, i);
    var s := run[i];
    forall k | 0 <= k < |s.tasks| ensures s.tasks[k].hi <= |input| {
      BatchesEnd(c, s, k);
    }
    AdjoiningPiecesConcat(input, s.tasks);
    assert input[..c.items] == input;
  }

  /** Permits are neither lost nor invented, no release finds them all free, and the queue of work
      and the list of futures stay bounded. */
  lemma PermitsAreConserved(c: Config, run: seq<State>, i: nat)
    requires IsRun(c, run) && i < |run|
    ensures 0 <= run[i].free && run[i].free + run[i].Held() == c.Permits()
    ensures |run[i].NotDone()| <= c.Permits()
    ensures |run[i].futures| <= c.Permits() + 1
    ensures run[i].producer.Releasing? ==> run[i].free < c.Permits()
    ensures forall id, s' :: ReleaseStep(run[i], s', id) ==> run[i].free < c.Permits()
  {
    RunKeeps(c, run, i);
    var s := run[i];
    SubsetCardinality(s.NotDone(), s.Unreleased());
    forall id, s' | ReleaseStep(s, s', id) ensures s.free < c.Permits() {
      ReleaseKeeps(c, s, s', id);
    }
  }

  /** The racing updates of batch_size never take it out of 1..startSize, and nothing changes it
      before the first decrease. */
  lemma BatchSizeStaysInRange(c: Config, run: seq<State>, i: nat)
    requires IsRun(c, run) && i < |run|
    ensures c.startSize >= 1 ==> 1 <= run[i].batchSize <= c.startSize
    ensures !run[i].shrunk ==> run[i].batchSize == c.startSize
  {
    RunKeeps(c, run, i);
  }

  /** The assertion at the end of shutdown cannot fail: it is reached with an empty list. */
  lemma ShutdownAssertionHolds(c: Config, run: seq<State>, i: nat)
    requires IsRun(c, run) && i < |run| && run[i].producer.Asserting?
    ensures run[i].futures == []
    ensures forall s' :: ProducerStep(c, run[i], s') ==> s'.producer.Completed?
  {
    RunKeeps(c, run, i);
  }
}
