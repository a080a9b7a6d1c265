/** Interpolation search over a graph whose points may only be fetched one at a time
    (cli/polygonetl/service/graph_operations.py), against a linear scan of the same graph. */
module GraphSearch {
  import opened Common
  import opened StableSort

  datatype Point = Point(x: int, y: int)

  datatype SearchError = OutOfBounds | NotIncreasing | NoBounds | SameY

  /** The points of a graph at consecutive x, starting with x == first. */
  datatype Chain = Chain(first: int, ys: seq<int>) {
    ghost predicate Valid() {
      ys != [] && forall i, j :: 0 <= i < j < |ys| ==> ys[i] < ys[j]
    }

    predicate Has(x: int) { first <= x < first + |ys| }

    function Y(x: int): int
      requires Has(x)
    {
      ys[x - first]
    }

    ghost predicate On(p: Point) { Has(p.x) && p.y == Y(p.x) }

    ghost predicate Extends(older: Chain) {
      first == older.first && older.ys <= ys
    }
  }

  /** The reference: walk the graph from its first point until y is reached or passed. */
  function Scan(c: Chain, y: int, x: int): (int, int)
    requires c.Has(x) && c.Y(x) <= y <= c.Y(c.first + |c.ys| - 1)
    decreases c.first + |c.ys| - x
  {
    if c.Y(x) == y then (x, x)
    else if y < c.Y(x + 1) then (x, x + 1)
    else Scan(c, y, x + 1)
  }

  function ScanQuery(c: Chain, y: int): Result<(int, int), SearchError>
    requires c.ys != []
  {
    if y < c.ys[0] || c.ys[|c.ys| - 1] < y then Failure(OutOfBounds)
    else Success(Scan(c, y, c.first))
  }

  /** (a, b) are the x coordinates of the closest points that bound y. */
  ghost predicate Tight(c: Chain, y: int, a: int, b: int) {
    c.Has(a) && c.Has(b) && (if a == b then c.Y(a) == y else b == a + 1 && c.Y(a) < y < c.Y(b))
  }

  lemma {:induction false} ScanIsTight(c: Chain, y: int, x: int)
    requires c.Valid() && c.Has(x) && c.Y(x) <= y <= c.Y(c.first + |c.ys| - 1)
    ensures Tight(c, y, Scan(c, y, x).0, Scan(c, y, x).1)
    decreases c.first + |c.ys| - x
  {
    if c.Y(x) != y && c.Y(x + 1) <= y {
      ScanIsTight(c, y, x + 1);
    }
  }

  /** Tight bounds exist exactly for the y inside the graph, and then they are unique: whatever
      way they are found, they are what the linear scan finds. */
  lemma TightIsScan(c: Chain, y: int, a: int, b: int)
    requires c.Valid()
    ensures Tight(c, y, a, b) <==> ScanQuery(c, y) == Success((a, b))
  {
    if !(y < c.ys[0] || c.ys[|c.ys| - 1] < y) {
      ScanIsTight(c, y, c.first);
      var s := Scan(c, y, c.first);
      if Tight(c, y, a, b) {
        assert !(a < s.0) && !(s.0 < a);
        assert !(b < s.1) && !(s.1 < b);
      }
    }
  }

  function SortedByY(points: seq<Point>): (s: seq<Point>)
    ensures |s| == |points|
    ensures forall i, j :: 0 <= i < j < |s| ==> s[i].y <= s[j].y
    ensures forall p :: p in s <==> p in points
  {
    var key := (p: Point) => p.y;
    SortByCorrect(key, points);
    SortByMembers(key, points);
    assert forall i, j :: 0 <= i < j < |points| ==>
        key(SortBy(key, points)[i]) <= key(SortBy(key, points)[j]);
    SortBy(key, points)
  }

  /** The pair (p, q) brackets y, and no point lies strictly between them. */
  ghost predicate Best(y: int, points: seq<Point>, p: Point, q: Point) {
    p in points && q in points && p.y <= y <= q.y
    && forall o :: o in points ==> o.y <= p.y || q.y <= o.y
  }

  ghost predicate AllBeyond(y: int, points: seq<Point>) {
    (forall o :: o in points ==> y < o.y) || (forall o :: o in points ==> o.y < y)
  }

  lemma NeighboursAreBest(y: int, points: seq<Point>, i: nat)
    requires i + 1 < |points|
    requires SortedByY(points)[i].y <= y <= SortedByY(points)[i + 1].y
    ensures Best(y, points, SortedByY(points)[i], SortedByY(points)[i + 1])
  {
    var s := SortedByY(points);
    assert s[i] in s && s[i + 1] in s;
    forall o | o in points ensures o.y <= s[i].y || s[i + 1].y <= o.y {
      var k :| 0 <= k < |s| && s[k] == o;
    }
  }

  lemma NoNeighbours(y: int, points: seq<Point>)
    requires |points| >= 2
    requires y < SortedByY(points)[0].y || SortedByY(points)[|points| - 1].y < y
    ensures AllBeyond(y, points)
  {
    var s := SortedByY(points);
    forall o | o in points ensures s[0].y <= o.y <= s[|s| - 1].y {
      var k :| 0 <= k < |s| && s[k] == o;
    }
  }

  /** The neighbouring pair around y in the list sorted by y: the closest bracket among the given
      points, found unless there are fewer than two or y lies beyond them all. */
  method FindBestBounds(y: int, points: seq<Point>) returns (r: Option<(Point, Point)>)
    ensures r.Some? ==> Best(y, points, r.value.0, r.value.1)
    ensures r.None? <==> |points| < 2 || AllBeyond(y, points)
  {
    var sorted := SortedByY(points);
    var i := 0;
    while i + 1 < |sorted|
      invariant 0 <= i <= |sorted|
      invariant i > 0 ==> i < |sorted| && (y < sorted[0].y || sorted[i].y < y)
    {
      if sorted[i].y <= y <= sorted[i + 1].y {
        NeighboursAreBest(y, points, i);
        return Some((sorted[i], sorted[i + 1]));
      }
      i := i + 1;
    }
    if |sorted| >= 2 {
      NoNeighbours(y, points);
    }
    return None;
  }

  /** Moves an estimate to the nearest place strictly inside the interval, in whichever order its ends
      are given, when there is room. */
  function Bound(x: int, lo: int, hi: int): (r: int)
    ensures lo + 1 < hi || hi + 1 < lo ==> Inside(r, lo, hi)
    ensures forall z :: Inside(z, lo, hi) ==> Distance(r, x) <= Distance(z, x)
  {
    var (x1, x2) := if lo > hi then (hi, lo) else (lo, hi);
    if x <= x1 then x1 + 1
    else if x >= x2 then x2 - 1
    else x
  }

  predicate Inside(z: int, lo: int, hi: int) { lo < z < hi || hi < z < lo }

  function Distance(x: int, z: int): nat { if x < z then z - x else x - z }

  /** The remote graph, which grows by itself. Its time is the number of accesses so far, and
      `growth(n)` is what appears at its end before access n, be it within a query or between two. */
  class Graph {
    const start: Chain
    const growth: nat -> seq<int>
    var time: nat

    constructor (c: Chain, g: nat -> seq<int>)
      ensures start == c && growth == g && time == 0
    {
      start, growth, time := c, g, 0;
    }

    function At(t: nat): Chain {
      if t == 0 then start else Chain(start.first, At(t - 1).ys + growth(t - 1))
    }

    /** y increases strictly with x, all the time. */
    ghost predicate Increasing() {
      forall t: nat :: At(t).Valid()
    }

    /** What the graph was stays part of what it becomes. */
    lemma {:induction false} Grows(t: nat, u: nat)
      requires t <= u
      ensures At(u).Extends(At(t))
    {
      if t < u {
        Grows(t, u - 1);
      }
    }

    lemma PointsStay(t: nat, u: nat)
      requires t <= u
      ensures forall x :: At(t).Has(x) ==> At(u).Has(x) && At(u).Y(x) == At(t).Y(x)
    {
      Grows(t, u);
      forall x | At(t).Has(x) ensures At(u).Has(x) && At(u).Y(x) == At(t).Y(x) {
        assert At(u).ys[x - start.first] == At(t).ys[x - start.first];
      }
    }

    method GetPoint(x: int) returns (p: Point)
      requires At(time).Has(x)
      modifies this`time
      ensures time == old(time) + 1 && At(time).On(p) && p == Point(x, At(old(time)).Y(x))
    {
      PointsStay(time, time + 1);
      time := time + 1;
      p := Point(x, At(time).Y(x));
    }

    method GetFirstPoint() returns (p: Point)
      requires Increasing()
      modifies this`time
      ensures time == old(time) + 1 && p == Point(start.first, At(time).ys[0])
    {
      time := time + 1;
      assert At(time).Valid();
      p := Point(start.first, At(time).ys[0]);
    }

    method GetLastPoint() returns (p: Point)
      requires Increasing()
      modifies this`time
      ensures time == old(time) + 1
      ensures p == Point(start.first + |At(time).ys| - 1, At(time).ys[|At(time).ys| - 1])
    {
      time := time + 1;
      assert At(time).Valid();
      p := Point(start.first + |At(time).ys| - 1, At(time).ys[|At(time).ys| - 1]);
    }
  }

  class GraphOperations {
    const graph: Graph
    var cachedPoints: seq<Point>
    /** Where to probe for y between two points. The search is right for every choice. */
    const estimate: (Point, Point, int) -> int

    /** The cache holds points of the graph, fetched at whatever time. */
    ghost predicate Valid()
      reads this, graph
    {
      graph.Increasing() && forall p :: p in cachedPoints ==> graph.At(graph.time).On(p)
    }

    constructor (g: Graph, e: (Point, Point, int) -> int)
      requires g.Increasing()
      ensures Valid() && graph == g && cachedPoints == []
    {
      graph := g;
      estimate := e;
      cachedPoints := [];
    }

    function Interpolate(p: Point, q: Point, y: int): Result<int, SearchError> {
      if p.y == q.y then Failure(SameY) else Success(estimate(p, q, y))
    }

    /** Points cached before the graph grew are still points of the graph. */
    lemma CacheStays(points: seq<Point>, t: nat, u: nat)
      requires t <= u && forall p :: p in points ==> graph.At(t).On(p)
      ensures forall p :: p in points ==> graph.At(u).On(p)
    {
      graph.PointsStay(t, u);
    }

    method GetPoint(x: int) returns (p: Point)
      requires Valid() && graph.At(graph.time).Has(x)
      modifies this`cachedPoints, graph`time
      ensures Valid() && graph.time == old(graph.time) + 1
      ensures p == Point(x, graph.At(old(graph.time)).Y(x))
      ensures cachedPoints == old(cachedPoints) + [p]
    {
      CacheStays(cachedPoints, graph.time, graph.time + 1);
      p := graph.GetPoint(x);
      cachedPoints := cachedPoints + [p];
    }

    method GetFirstPoint() returns (p: Point)
      requires Valid()
      modifies this`cachedPoints, graph`time
      ensures Valid() && graph.time == old(graph.time) + 1
      ensures p == Point(graph.start.first, graph.At(graph.time).ys[0])
      ensures cachedPoints == old(cachedPoints) + [p]
    {
      CacheStays(cachedPoints, graph.time, graph.time + 1);
      p := graph.GetFirstPoint();
      cachedPoints := cachedPoints + [p];
    }

    method GetLastPoint() returns (p: Point)
      requires Valid()
      modifies this`cachedPoints, graph`time
      ensures Valid() && graph.time == old(graph.time) + 1
      ensures p.x == graph.start.first + |graph.At(graph.time).ys| - 1
      ensures p.y == graph.At(graph.time).ys[|graph.At(graph.time).ys| - 1]
      ensures cachedPoints == old(cachedPoints) + [p]
    {
      CacheStays(cachedPoints, graph.time, graph.time + 1);
      p := graph.GetLastPoint();
      cachedPoints := cachedPoints + [p];
    }

    /** Although the graph may grow at every access, the answer is that of a linear scan of the graph
        as it was at one moment t of the query. */
    method GetBoundsForYCoordinate(y: int) returns (r: Result<(int, int), SearchError>, ghost t: nat)
      requires Valid()
      modifies this`cachedPoints, graph`time
      ensures Valid() && old(cachedPoints) <= cachedPoints
      ensures old(graph.time) <= t <= graph.time
      ensures r == ScanQuery(graph.At(t), y)
    {
      t := graph.time;
      var bounds := FindBestBounds(y, cachedPoints);
      if bounds.None? {
        var first := GetFirstPoint();
        var last := GetLastPoint();
        t := graph.time;
        graph.PointsStay(t - 1, t);
        assert graph.At(t - 1).Valid() && graph.At(t).Valid();
        assert graph.At(t - 1).Has(first.x);
        bounds := Some((first, last));
      }
      r := BoundsRecursive(y, bounds.value.0, bounds.value.1, t);
    }

    /** Terminates for every estimate because the interval shrinks. Of the four errors only
        OutOfBounds remains, and no probe asks for a point the graph does not have. */
    method BoundsRecursive(y: int, start: Point, end: Point, ghost t: nat)
      returns (r: Result<(int, int), SearchError>)
      requires Valid() && t <= graph.time
      requires graph.At(t).On(start) && graph.At(t).On(end) && start.y <= end.y
      modifies this`cachedPoints, graph`time
      ensures Valid() && old(cachedPoints) <= cachedPoints && old(graph.time) <= graph.time
      ensures r == if start.y <= y <= end.y then ScanQuery(graph.At(t), y) else Failure(OutOfBounds)
      decreases end.x - start.x
    {
      assert graph.At(t).Valid();
      if y < start.y || y > end.y {
        return Failure(OutOfBounds);
      }
      if y == start.y {
        TightIsScan(graph.At(t), y, start.x, start.x);
        return Success((start.x, start.x));
      } else if y == end.y {
        TightIsScan(graph.At(t), y, end.x, end.x);
        return Success((end.x, end.x));
      } else if end.x - start.x <= 1 {
        TightIsScan(graph.At(t), y, start.x, end.x);
        return Success((start.x, end.x));
      } else {
        assert start.y < y < end.y;
        if start.y >= end.y {
          assert false;
        }
        var estimation1 := Interpolate(start, end, y);
        if estimation1.Failure? {
          assert false;
        }
        var e1 := Probe(estimation1.value, start, end, t);
        var points := if e1.y < y then (start, e1) else (e1, end);
        var estimation2 := Interpolate(points.0, points.1, y);
        if estimation2.Failure? {
          assert false;
        }
        var e2 := Probe(estimation2.value, start, end, t);
        var all := [start, e1, e2, end];
        var bounds := FindBestBounds(y, all);
        assert start in all && end in all && e1 in all;
        if bounds.None? {
          assert false;
        }
        var (p, q) := bounds.value;
        r := BoundsRecursive(y, p, q, t);
      }
    }

    /** A probe strictly between two points of the graph as it was at t finds what was there at t. */
    method Probe(estimation: int, start: Point, end: Point, ghost t: nat) returns (p: Point)
      requires Valid() && t <= graph.time
      requires graph.At(t).On(start) && graph.At(t).On(end) && start.x + 1 < end.x
      modifies this`cachedPoints, graph`time
      ensures Valid() && old(cachedPoints) <= cachedPoints && graph.time == old(graph.time) + 1
      ensures graph.At(t).On(p) && start.x < p.x < end.x
    {
      var x := Bound(estimation, start.x, end.x);
      graph.PointsStay(t, graph.time);
      assert graph.At(t).Has(x);
      p := GetPoint(x);
    }
  }

  /** However queries follow each other and whatever the graph does meanwhile, query n is answered by
      what a linear scan of the graph as it was at a moment ts[n] would find, and these moments follow
      each other as the queries do, although the cache holds points from before. */
  method Session(operations: GraphOperations, ys: seq<int>)
    returns (answers: seq<Result<(int, int), SearchError>>, ghost ts: seq<nat>)
    requires operations.Valid()
    modifies operations`cachedPoints, operations.graph`time
    ensures operations.Valid() && |answers| == |ts| == |ys|
    ensures forall n :: 0 <= n < |ys| ==> answers[n] == ScanQuery(operations.graph.At(ts[n]), ys[n])
    ensures forall n :: 0 <= n < |ys| ==> old(operations.graph.time) <= ts[n] <= operations.graph.time
    ensures forall m, n :: 0 <= m < n < |ys| ==> ts[m] <= ts[n]
  {
    answers, ts := [], [];
    for n := 0 to |ys|
      invariant operations.Valid() && |answers| == |ts| == n && old(operations.graph.time) <= operations.graph.time
      invariant forall m :: 0 <= m < n ==> answers[m] == ScanQuery(operations.graph.At(ts[m]), ys[m])
      invariant forall m :: 0 <= m < n ==> old(operations.graph.time) <= ts[m] <= operations.graph.time
      invariant forall l, m :: 0 <= l < m < n ==> ts[l] <= ts[m]
    {
      var answer, t := operations.GetBoundsForYCoordinate(ys[n]);
      answers, ts := answers + [answer], ts + [t];
    }
  }
}
