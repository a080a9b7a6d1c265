/** From a window of timestamps to a range of blocks (cli/polygonetl/service/eth_service.py). */
module BlockRange {
  import opened Common
  import opened GraphSearch

  datatype RangeError = WrongOrder | NotCovered | NoBlocks

  /** `int(x)`: truncation toward zero. */
  function Truncate(x: real): int {
    if x < 0.0 then -((-x).Floor) else x.Floor
  }

  /** The fraction is dropped, and the sign kept. */
  lemma TruncateDropsFraction(x: real)
    ensures x >= 0.0 ==> 0.0 <= x - Truncate(x) as real < 1.0
    ensures x <= 0.0 ==> 0.0 <= Truncate(x) as real - x < 1.0
  {
  }

  /** Block n is in the chain, after genesis, and its timestamp is in [a, b]. */
  ghost predicate InWindow(c: Chain, a: int, b: int, n: int) {
    c.Has(n) && a <= c.Y(n) <= b
  }

  ghost predicate SomeInWindow(c: Chain, a: int, b: int) {
    exists n :: InWindow(c, a, b, n)
  }

  /** A block of the window, or genesis (block 0, which the search never sees) accompanying block 1. */
  ghost predicate InRange(c: Chain, a: int, b: int, n: int) {
    InWindow(c, a, b, n) || (n == 0 && InWindow(c, a, b, 1))
  }

  /** What the range means: the blocks of the window, and genesis with block 1; and exactly when each
      error is raised. */
  ghost predicate RangeOf(c: Chain, a: int, b: int, r: Result<(int, int), RangeError>)
    requires c.Valid()
  {
    match r
    case Failure(WrongOrder) => a > b
    case Failure(NotCovered) => a <= b && (b < c.ys[0] || c.ys[|c.ys| - 1] < b)
    case Failure(NoBlocks) => a <= b && c.ys[0] <= b <= c.ys[|c.ys| - 1] && !SomeInWindow(c, a, b)
    case Success((s, e)) =>
      a <= b && c.ys[0] <= b <= c.ys[|c.ys| - 1] && s <= e &&
      forall n :: InRange(c, a, b, n) <==> s <= n <= e
  }

  /** Each window has one answer. */
  lemma RangeIsDetermined(c: Chain, a: int, b: int,
                          r: Result<(int, int), RangeError>, q: Result<(int, int), RangeError>)
    requires c.Valid() && RangeOf(c, a, b, r) && RangeOf(c, a, b, q)
    ensures r == q
  {
    EndsInWindow(c, a, b, r);
    EndsInWindow(c, a, b, q);
    if r.Success? && q.Success? {
      assert InRange(c, a, b, r.value.0) <==> q.value.0 <= r.value.0 <= q.value.1;
      assert InRange(c, a, b, r.value.1) <==> q.value.0 <= r.value.1 <= q.value.1;
      assert InRange(c, a, b, q.value.0) <==> r.value.0 <= q.value.0 <= r.value.1;
      assert InRange(c, a, b, q.value.1) <==> r.value.0 <= q.value.1 <= r.value.1;
    }
  }

  lemma EndsInWindow(c: Chain, a: int, b: int, r: Result<(int, int), RangeError>)
    requires c.Valid() && RangeOf(c, a, b, r)
    ensures r.Success? ==> InRange(c, a, b, r.value.0) && InRange(c, a, b, r.value.1)
  {
    if r.Success? {
      var (s, e) := r.value;
      assert InRange(c, a, b, s) <==> s <= s <= e;
      assert InRange(c, a, b, e) <==> s <= e <= e;
    }
  }

  /* ---- Two lookups, and what the chain does between them ---- */

  function Head(c: Chain): int
    requires c.ys != []
  {
    c.ys[|c.ys| - 1]
  }

  /** The start of the window was beyond the chain when it was looked up, and the end was not any more
      when it was. */
  predicate Overtaken(c1: Chain, c2: Chain, a: int, b: int) {
    c1.ys != [] && c2.ys != [] && Head(c1) < a <= b <= Head(c2)
  }

  /** All blocks until b, genesis included. */
  ghost predicate IsAllUntil(c: Chain, b: int, r: (int, int)) {
    r.0 == 0 && 0 < r.1 && forall n :: 0 < n <= r.1 <==> c.Has(n) && c.Y(n) <= b
  }

  /** What a call answers that looks up the start in c1 and then the end in c2. */
  ghost predicate AnswerOf(c1: Chain, c2: Chain, a: int, b: int, r: Result<(int, int), RangeError>)
    requires c1.Valid() && c2.Valid()
  {
    if Overtaken(c1, c2, a, b) then r.Success? && IsAllUntil(c2, b, r.value) else RangeOf(c2, a, b, r)
  }

  /** Exactly when the answer is the range of the window: when the chain did not overtake the start of
      the window between the lookups. Otherwise the whole chain before the window is in it as well. */
  lemma AnswerIsRangeIffNotOvertaken(c1: Chain, c2: Chain, a: int, b: int, r: Result<(int, int), RangeError>)
    requires c1.Valid() && c2.Valid() && c1.first == 1 && c2.Extends(c1)
    requires AnswerOf(c1, c2, a, b, r)
    ensures RangeOf(c2, a, b, r) <==> !Overtaken(c1, c2, a, b)
  {
    if Overtaken(c1, c2, a, b) {
      assert c2.Y(1) == c1.Y(1) <= Head(c1);
      assert !InRange(c2, a, b, 1) && 0 < 1 <= r.value.1;
    }
  }

  /** The smallest such case: one block arrives, and none is in the window, but all are returned. */
  lemma GrowthReturnsTheWholeChain(c1: Chain, c2: Chain, r: Result<(int, int), RangeError>)
    requires c1.Valid() && c1.first == 1 && c2 == Chain(1, c1.ys + [Head(c1) + 2])
    requires AnswerOf(c1, c2, Head(c1) + 1, Head(c1) + 1, r)
    ensures r == Success((0, |c1.ys|)) && RangeOf(c2, Head(c1) + 1, Head(c1) + 1, Failure(NoBlocks))
  {
    var n, b := |c1.ys|, Head(c1) + 1;
    assert c2.Y(n) == Head(c1) && c2.Y(n + 1) == Head(c1) + 2;
    forall m | c2.Has(m) ensures c2.Y(m) <= b <==> m <= n {
    }
    assert c2.Has(n) && !(c2.Has(n + 1) && c2.Y(n + 1) <= b);
  }

  lemma ScanIsStable(older: Chain, newer: Chain, y: int)
    requires older.Valid() && newer.Valid() && newer.Extends(older)
    requires y <= Head(older)
    ensures ScanQuery(newer, y) == ScanQuery(older, y)
  {
    assert newer.ys[0] == older.ys[0];
    if older.ys[0] <= y {
      var s := Scan(older, y, older.first);
      TightIsScan(older, y, s.0, s.1);
      assert newer.ys[s.0 - older.first] == older.ys[s.0 - older.first];
      assert newer.ys[s.1 - older.first] == older.ys[s.1 - older.first];
      TightIsScan(newer, y, s.0, s.1);
    }
  }

  /** The blocks of a window lie from the right start bound to the left end bound. */
  lemma WindowBetweenBounds(c: Chain, a: int, b: int, sb: (int, int), eb: (int, int))
    requires c.Valid() && c.first == 1 && a <= b
    requires ScanQuery(c, b) == Success(eb)
    requires if ScanQuery(c, a).Success? then ScanQuery(c, a) == Success(sb) else sb == (0, 0)
    requires !(sb == eb && sb.0 != sb.1)
    ensures sb.1 <= eb.0
    ensures forall n :: InWindow(c, a, b, n) <==> 1 <= n && sb.1 <= n <= eb.0
    ensures InWindow(c, a, b, 1) <==> sb.1 <= 1
  {
    TightIsScan(c, b, eb.0, eb.1);
    TightIsScan(c, a, sb.0, sb.1);
  }

  /** The same when the start was looked up in an older chain, unless that was overtaken. */
  lemma BoundsAnswer(c1: Chain, c2: Chain, a: int, b: int, sb: (int, int), eb: (int, int))
    requires c1.Valid() && c2.Valid() && c1.first == 1 && c2.Extends(c1) && a <= b
    requires ScanQuery(c2, b) == Success(eb)
    requires if ScanQuery(c1, a).Success? then ScanQuery(c1, a) == Success(sb) else sb == (0, 0)
    ensures AnswerOf(c1, c2, a, b,
              if sb == eb && sb.0 != sb.1 then Failure(NoBlocks)
              else Success((if sb.1 == 1 then 0 else sb.1, eb.0)))
  {
    TightIsScan(c2, b, eb.0, eb.1);
    if Overtaken(c1, c2, a, b) {
      assert IsAllUntil(c2, b, (0, eb.0));
    } else {
      StartBoundsAreCurrent(c1, c2, a, b, sb);
      BoundsAnswerInOneChain(c2, a, b, sb, eb);
    }
  }

  lemma StartBoundsAreCurrent(c1: Chain, c2: Chain, a: int, b: int, sb: (int, int))
    requires c1.Valid() && c2.Valid() && c2.Extends(c1) && a <= b <= Head(c2) && !Overtaken(c1, c2, a, b)
    requires if ScanQuery(c1, a).Success? then ScanQuery(c1, a) == Success(sb) else sb == (0, 0)
    ensures if ScanQuery(c2, a).Success? then ScanQuery(c2, a) == Success(sb) else sb == (0, 0)
  {
    ScanIsStable(c1, c2, a);
  }

  lemma BoundsAnswerInOneChain(c: Chain, a: int, b: int, sb: (int, int), eb: (int, int))
    requires c.Valid() && c.first == 1 && a <= b && ScanQuery(c, b) == Success(eb)
    requires if ScanQuery(c, a).Success? then ScanQuery(c, a) == Success(sb) else sb == (0, 0)
    ensures RangeOf(c, a, b,
              if sb == eb && sb.0 != sb.1 then Failure(NoBlocks)
              else Success((if sb.1 == 1 then 0 else sb.1, eb.0)))
  {
    TightIsScan(c, b, eb.0, eb.1);
    if sb == eb && sb.0 != sb.1 {
      TightIsScan(c, a, sb.0, sb.1);
    } else {
      WindowBetweenBounds(c, a, b, sb, eb);
    }
  }

  class EthService {
    const graphOperations: GraphOperations

    ghost predicate Valid()
      reads this, graphOperations, graphOperations.graph
    {
      graphOperations.Valid() && graphOperations.graph.start.first == 1
    }

    constructor (g: Graph, estimate: (Point, Point, int) -> int)
      requires g.Increasing() && g.start.first == 1
      ensures Valid() && graphOperations.graph == g
    {
      graphOperations := new GraphOperations(g, estimate);
    }

    /** The chain as it was at t. */
    ghost function At(t: nat): Chain {
      graphOperations.graph.At(t)
    }

    /** The chain may grow all the time: the start is looked up in what it was at t1, the end in what
        it was at t2. */
    method GetBlockRangeForTimestamps(startTimestamp: real, endTimestamp: real)
      returns (r: Result<(int, int), RangeError>, ghost t1: nat, ghost t2: nat)
      requires Valid()
      modifies graphOperations`cachedPoints, graphOperations.graph`time
      ensures Valid()
      ensures old(graphOperations.graph.time) <= t1 <= t2 <= graphOperations.graph.time
      ensures At(t1).Valid() && At(t2).Valid() && At(t2).Extends(At(t1))
      ensures AnswerOf(At(t1), At(t2), Truncate(startTimestamp), Truncate(endTimestamp), r)
      ensures RangeOf(At(t2), Truncate(startTimestamp), Truncate(endTimestamp), r) <==>
              !Overtaken(At(t1), At(t2), Truncate(startTimestamp), Truncate(endTimestamp))
    {
      var start := Truncate(startTimestamp);
      var end := Truncate(endTimestamp);
      t1, t2 := graphOperations.graph.time, graphOperations.graph.time;
      assert At(t1).Valid();
      if start > end {
        return Failure(WrongOrder), t1, t2;
      }
      var startResult, endResult;
      startResult, t1 := graphOperations.GetBoundsForYCoordinate(start);
      var startBounds := if startResult.Success? then startResult.value else (0, 0);
      endResult, t2 := graphOperations.GetBoundsForYCoordinate(end);
      graphOperations.graph.Grows(t1, t2);
      assert At(t1).Valid() && At(t2).Valid();
      if endResult.Failure? {
        return Failure(NotCovered), t1, t2;
      }
      var endBounds := endResult.value;
      BoundsAnswer(At(t1), At(t2), start, end, startBounds, endBounds);
      if startBounds == endBounds && startBounds.0 != startBounds.1 {
        r := Failure(NoBlocks);
      } else {
        var startBlock, endBlock := startBounds.1, endBounds.0;
        if startBlock == 1 {
          startBlock := 0;
        }
        r := Success((startBlock, endBlock));
      }
      AnswerIsRangeIffNotOvertaken(At(t1), At(t2), start, end, r);
    }

    /** A date is a count of days since the epoch; the day ends one microsecond early. Truncation
        drops that microsecond's second from a day after the epoch; before the epoch it rounds up
        into the next day. */
    method GetBlockRangeForDate(day: int) returns (r: Result<(int, int), RangeError>, ghost t1: nat, ghost t2: nat)
      requires Valid()
      modifies graphOperations`cachedPoints, graphOperations.graph`time
      ensures Valid()
      ensures old(graphOperations.graph.time) <= t1 <= t2 <= graphOperations.graph.time
      ensures At(t1).Valid() && At(t2).Valid() && At(t2).Extends(At(t1))
      ensures AnswerOf(At(t1), At(t2), day * 86400, LastSecond(day), r)
      ensures RangeOf(At(t2), day * 86400, LastSecond(day), r) <==>
              !Overtaken(At(t1), At(t2), day * 86400, LastSecond(day))
    {
      var midnight := (day * 86400) as real;
      assert Truncate(midnight) == day * 86400;
      if day >= 0 {
        assert Truncate(midnight + 86399.999999) == day * 86400 + 86399;
      } else {
        assert -(midnight + 86399.999999) == (-(day * 86400) - 86400) as real + 0.000001;
        assert Truncate(midnight + 86399.999999) == day * 86400 + 86400;
      }
      r, t1, t2 := GetBlockRangeForTimestamps(midnight, midnight + 86399.999999);
    }
  }

  function LastSecond(day: int): int {
    day * 86400 + (if day >= 0 then 86399 else 86400)
  }

  /* ---- Ranges of several windows ---- */

  lemma WindowIsStable(older: Chain, newer: Chain, a: int, b: int, n: int)
    requires older.Valid() && newer.Valid() && newer.Extends(older) && b <= Head(older)
    ensures InWindow(newer, a, b, n) <==> InWindow(older, a, b, n)
  {
    var last := |older.ys| - 1;
    assert newer.ys[last] == older.ys[last];
    if newer.Has(n) && !older.Has(n) {
      assert newer.ys[last] < newer.ys[n - newer.first];
    } else if older.Has(n) {
      assert newer.ys[n - newer.first] == older.ys[n - older.first];
    }
  }

  /** A range that was found stays the range of its window when the chain grows. */
  lemma RangeIsStable(older: Chain, newer: Chain, a: int, b: int, r: Result<(int, int), RangeError>)
    requires older.Valid() && newer.Valid() && newer.Extends(older)
    requires RangeOf(older, a, b, r) && r != Failure(NotCovered)
    ensures RangeOf(newer, a, b, r)
  {
    assert newer.ys[0] == older.ys[0];
    assert Head(older) == newer.ys[|older.ys| - 1] <= Head(newer);
    match r
    case Success(range) =>
      FoundRangeIsStable(older, newer, a, b, range);
    case Failure(NoBlocks) =>
      forall n ensures !InWindow(newer, a, b, n) {
        WindowIsStable(older, newer, a, b, n);
        assert !InWindow(older, a, b, n);
      }
    case Failure(_) =>
  }

  lemma FoundRangeIsStable(older: Chain, newer: Chain, a: int, b: int, r: (int, int))
    requires older.Valid() && newer.Valid() && newer.Extends(older)
    requires newer.ys[0] == older.ys[0] && Head(older) <= Head(newer)
    requires RangeOf(older, a, b, Success(r))
    ensures RangeOf(newer, a, b, Success(r))
  {
    WindowIsStable(older, newer, a, b, 1);
    forall n ensures InRange(newer, a, b, n) <==> r.0 <= n <= r.1 {
      WindowIsStable(older, newer, a, b, n);
      assert InRange(older, a, b, n) <==> r.0 <= n <= r.1;
    }
  }

  /** Two windows that share no instant and leave none out share no block and leave none out. */
  lemma AdjacentRangesMeet(c: Chain, a: int, b: int, d: int, r1: (int, int), r2: (int, int))
    requires c.Valid() && c.first == 1
    requires RangeOf(c, a, b, Success(r1)) && RangeOf(c, b + 1, d, Success(r2))
    ensures r1.1 + 1 == r2.0
    ensures RangeOf(c, a, d, Success((r1.0, r2.1)))
  {
    AdjacentRangesTouch(c, a, b, d, r1, r2);
    assert !InWindow(c, b + 1, d, 1);
    assert InWindow(c, a, d, 1) <==> InWindow(c, a, b, 1);
    forall n ensures InRange(c, a, d, n) <==> r1.0 <= n <= r2.1 {
      assert InRange(c, a, b, n) <==> r1.0 <= n <= r1.1;
      assert InRange(c, b + 1, d, n) <==> r2.0 <= n <= r2.1;
      assert InRange(c, a, d, n) <==> InRange(c, a, b, n) || InRange(c, b + 1, d, n);
    }
  }

  lemma AdjacentRangesTouch(c: Chain, a: int, b: int, d: int, r1: (int, int), r2: (int, int))
    requires c.Valid() && c.first == 1
    requires RangeOf(c, a, b, Success(r1)) && RangeOf(c, b + 1, d, Success(r2))
    ensures !InWindow(c, b + 1, d, 1) && r1.1 + 1 == r2.0
  {
    EndsInWindow(c, a, b, Success(r1));
    EndsInWindow(c, b + 1, d, Success(r2));
    // Block 1 is before the end of the first window, so it is not in the second.
    assert c.Y(1) <= b;
    assert !InWindow(c, b + 1, d, 1);
    assert InWindow(c, b + 1, d, r2.0);
    assert InWindow(c, a, b, r1.1) || r1.1 == 0;
    assert r1.1 < r2.0;
    // The block after the first range is not in the first window, so it is in the second.
    var n := r1.1 + 1;
    assert c.Y(n) <= c.Y(r2.0);
    assert InRange(c, a, b, n) <==> r1.0 <= n <= r1.1;
    assert InRange(c, b + 1, d, n) <==> r2.0 <= n <= r2.1;
  }

  /** Window i is [cuts[i], cuts[i + 1] - 1]. */
  ghost predicate AnswersIn(c: Chain, cuts: seq<int>, rs: seq<(int, int)>)
    requires c.Valid() && |cuts| == |rs| + 1
  {
    forall i :: 0 <= i < |rs| ==> RangeOf(c, cuts[i], cuts[i + 1] - 1, Success(rs[i]))
  }

  /** The ranges meet without gap or overlap, and together are the range of all the windows. */
  ghost predicate Tile(c: Chain, cuts: seq<int>, rs: seq<(int, int)>)
    requires c.Valid() && |cuts| == |rs| + 1 && |rs| >= 1
  {
    && (forall i :: 0 <= i < |rs| - 1 ==> rs[i].1 + 1 == rs[i + 1].0)
    && RangeOf(c, cuts[0], cuts[|rs|] - 1, Success((rs[0].0, rs[|rs| - 1].1)))
  }

  lemma {:induction false} RangesTile(c: Chain, cuts: seq<int>, rs: seq<(int, int)>)
    requires c.Valid() && c.first == 1
    requires |rs| >= 1 && |cuts| == |rs| + 1 && AnswersIn(c, cuts, rs)
    ensures Tile(c, cuts, rs)
  {
    var k := |rs| - 1;
    if k > 0 {
      RangesTile(c, cuts[..k + 1], rs[..k]);
      AdjacentRangesMeet(c, cuts[k - 1], cuts[k] - 1, cuts[k + 1] - 1, rs[k - 1], rs[k]);
      AdjacentRangesMeet(c, cuts[0], cuts[k] - 1, cuts[k + 1] - 1, (rs[0].0, rs[k - 1].1), rs[k]);
      forall i | 0 <= i < |rs| - 1 ensures rs[i].1 + 1 == rs[i + 1].0 {
        if i < k - 1 {
          assert rs[..k][i].1 + 1 == rs[..k][i + 1].0;
        }
      }
    }
  }

  /** What two lookups of one call saw of a chain. */
  datatype Seen = Seen(c1: Chain, c2: Chain)

  /** r is what a call returned for window [a, b], having seen the chain at some earlier times. */
  ghost predicate IsAnswer(latest: Chain, seen: Seen, a: int, b: int, r: (int, int)) {
    && seen.c1.Valid() && seen.c2.Valid() && seen.c1.first == 1
    && seen.c2.Extends(seen.c1) && latest.Extends(seen.c2)
    && AnswerOf(seen.c1, seen.c2, a, b, Success(r))
  }

  ghost predicate AreAnswers(latest: Chain, seen: seq<Seen>, cuts: seq<int>, rs: seq<(int, int)>) {
    && |rs| >= 1 && |seen| == |rs| && |cuts| == |rs| + 1
    && forall i :: 0 <= i < |rs| ==> IsAnswer(latest, seen[i], cuts[i], cuts[i + 1] - 1, rs[i])
  }

  /** In no call did the chain overtake the start of the window. */
  ghost predicate NoneOvertaken(seen: seq<Seen>, cuts: seq<int>)
    requires |cuts| == |seen| + 1
  {
    forall i :: 0 <= i < |seen| ==> !Overtaken(seen[i].c1, seen[i].c2, cuts[i], cuts[i + 1] - 1)
  }

  lemma RangesDoNotEndBelowZero(latest: Chain, seen: Seen, a: int, b: int, r: (int, int))
    requires IsAnswer(latest, seen, a, b, r)
    ensures r.1 >= 0
  {
    if !Overtaken(seen.c1, seen.c2, a, b) {
      EndsInWindow(seen.c2, a, b, Success(r));
      assert seen.c2.first == 1;
    }
  }

  lemma NoRangeFromGenesis(c: Chain, a: int, b: int, r: (int, int))
    requires c.Valid() && c.first == 1 && c.ys[0] < a && r.0 == 0
    ensures !RangeOf(c, a, b, Success(r))
  {
    assert !InWindow(c, a, b, 1) && !InRange(c, a, b, 0);
    assert RangeOf(c, a, b, Success(r)) ==> r.0 <= r.1;
  }

  /** A range that starts too early neither meets one before it nor starts a range of its windows. */
  lemma OvertakenBreaksTiles(latest: Chain, seen: seq<Seen>, cuts: seq<int>, rs: seq<(int, int)>, i: nat)
    requires latest.Valid() && AreAnswers(latest, seen, cuts, rs) && i < |rs|
    requires Overtaken(seen[i].c1, seen[i].c2, cuts[i], cuts[i + 1] - 1)
    ensures !Tile(latest, cuts, rs)
  {
    assert IsAnswer(latest, seen[i], cuts[i], cuts[i + 1] - 1, rs[i]);
    if i > 0 {
      assert IsAnswer(latest, seen[i - 1], cuts[i - 1], cuts[i - 1 + 1] - 1, rs[i - 1]);
      RangesDoNotEndBelowZero(latest, seen[i - 1], cuts[i - 1], cuts[i] - 1, rs[i - 1]);
      assert rs[i - 1].1 + 1 != rs[i - 1 + 1].0;
    } else {
      assert latest.ys[0] == seen[0].c1.ys[0] <= Head(seen[0].c1) < cuts[0];
      NoRangeFromGenesis(latest, cuts[0], cuts[|rs|] - 1, (rs[0].0, rs[|rs| - 1].1));
    }
  }

  /** Exactly when successful calls for consecutive windows, whenever they are made, tile the union of
      the windows: when in none of them the chain overtook the start of the window. */
  lemma ConsecutiveRangesTileIff(latest: Chain, seen: seq<Seen>, cuts: seq<int>, rs: seq<(int, int)>)
    requires latest.Valid() && latest.first == 1 && AreAnswers(latest, seen, cuts, rs)
    ensures Tile(latest, cuts, rs) <==> NoneOvertaken(seen, cuts)
  {
    if NoneOvertaken(seen, cuts) {
      forall i | 0 <= i < |rs| ensures RangeOf(latest, cuts[i], cuts[i + 1] - 1, Success(rs[i])) {
        assert IsAnswer(latest, seen[i], cuts[i], cuts[i + 1] - 1, rs[i]);
        RangeIsStable(seen[i].c2, latest, cuts[i], cuts[i + 1] - 1, Success(rs[i]));
      }
      RangesTile(latest, cuts, rs);
    } else {
      var i :| 0 <= i < |seen| && Overtaken(seen[i].c1, seen[i].c2, cuts[i], cuts[i + 1] - 1);
      OvertakenBreaksTiles(latest, seen, cuts, rs, i);
    }
  }

  /** Where the hours of a day start; an hour ends a second before the next one starts. */
  function Hours(day: nat): (cuts: seq<int>)
    ensures |cuts| == 25 && forall h :: 0 <= h <= 24 ==> cuts[h] == day * 86400 + h * 3600
  {
    seq(25, h requires 0 <= h <= 24 => day * 86400 + h * 3600)
  }

  /** The 24 hourly exports of a day follow each other and together are the daily export, block for
      block, if and only if in none of them the chain overtook the start of the hour. */
  lemma HourlyRangesTileDayIff(latest: Chain, seen: seq<Seen>, day: nat, rs: seq<(int, int)>)
    requires latest.Valid() && latest.first == 1
    requires |rs| == 24 && AreAnswers(latest, seen, Hours(day), rs)
    ensures Tile(latest, Hours(day), rs) <==> NoneOvertaken(seen, Hours(day))
    ensures Tile(latest, Hours(day), rs) ==>
              RangeOf(latest, day * 86400, LastSecond(day), Success((rs[0].0, rs[23].1)))
  {
    ConsecutiveRangesTileIff(latest, seen, Hours(day), rs);
  }
}
