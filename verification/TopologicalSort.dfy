/** Topological sort by levels (airflow/dags/polygonetl_airflow/parse/toposort.py). */
module TopologicalSort {
  import opened Common

  type Name = string
  type Graph = map<Name, set<Name>>

  /** What x depends on, itself not counted. */
  function Deps(data: Graph, x: Name): set<Name> {
    if x in data then data[x] - {x} else {}
  }

  /** Keys, and items that only occur as dependencies. */
  function Items(data: Graph): set<Name> {
    data.Keys + (set x, d | x in data && d in data[x] :: d)
  }

  function Upto(levels: seq<set<Name>>, k: nat): set<Name>
    requires k <= |levels|
  {
    if k == 0 then {} else Upto(levels, k - 1) + levels[k - 1]
  }

  function All(levels: seq<set<Name>>): set<Name> { Upto(levels, |levels|) }

  /** Level k holds the items whose dependencies are all on lower levels, and that are not on a
      lower level themselves. */
  ghost predicate Layered(data: Graph, levels: seq<set<Name>>) {
    forall k :: 0 <= k < |levels| ==> IsLevel(data, levels, k)
  }

  ghost predicate IsLevel(data: Graph, levels: seq<set<Name>>, k: nat)
    requires k < |levels|
  {
    && levels[k] != {}
    && (forall x :: x in levels[k] <==> x in Items(data) && x !in Upto(levels, k) && Deps(data, x) <= Upto(levels, k))
  }

  /** The rest of the graph, with what was emitted struck out. */
  ghost predicate IsRest(data: Graph, levels: seq<set<Name>>, rest: Graph) {
    && rest.Keys == Items(data) - All(levels)
    && forall x :: x in rest ==> rest[x] == Deps(data, x) - All(levels)
  }

  lemma UptoPrefix(levels: seq<set<Name>>, more: seq<set<Name>>, k: nat)
    requires k <= |levels|
    ensures Upto(levels + more, k) == Upto(levels, k)
  {
  }

  lemma LayeredOneMore(data: Graph, levels: seq<set<Name>>, rest: Graph, ordered: set<Name>)
    requires Layered(data, levels) && IsRest(data, levels, rest)
    requires ordered == (set x | x in rest && rest[x] == {}) && ordered != {}
    ensures Layered(data, levels + [ordered])
    ensures All(levels + [ordered]) == All(levels) + ordered
  {
    var longer := levels + [ordered];
    forall k | 0 <= k <= |levels| ensures Upto(longer, k) == Upto(levels, k) {
      UptoPrefix(levels, [ordered], k);
    }
    forall k | 0 <= k < |longer| ensures IsLevel(data, longer, k) {
      if k < |levels| {
        assert IsLevel(data, levels, k);
      } else {
        assert forall x :: x in rest ==> (rest[x] == {} <==> Deps(data, x) <= All(levels));
      }
    }
  }

  /** The copy the loop starts from: no self-dependencies, and an entry for every item. */
  method Copy(data: Graph) returns (rest: Graph)
    ensures IsRest(data, [], rest)
  {
    var copied: Graph := map x | x in data :: data[x] - {x};
    var extra := (set x, d | x in copied && d in copied[x] :: d) - copied.Keys;
    rest := copied + (map x | x in extra :: {});
    forall d ensures d in rest <==> d in Items(data) {
      if x :| x in data && d in data[x] && d !in data {
        assert x in copied && d in copied[x];
      }
    }
  }

  method Strike(ghost data: Graph, ghost levels: seq<set<Name>>, rest: Graph, ordered: set<Name>)
    returns (next: Graph)
    requires IsRest(data, levels, rest)
    requires All(levels + [ordered]) == All(levels) + ordered
    requires ordered <= rest.Keys && ordered != {}
    ensures IsRest(data, levels + [ordered], next) && |next| < |rest|
  {
    next := map x | x in rest && x !in ordered :: rest[x] - ordered;
    assert next.Keys == rest.Keys - ordered;
    ghost var gone :| gone in ordered;
    SmallerSet(next.Keys, rest.Keys, gone);
  }

  /** The generator's output: the levels it yields, and the data of the error it raises in the end;
      it raises none if that is empty. */
  method Toposort(data: Graph) returns (levels: seq<set<Name>>, stuck: Graph)
    ensures Layered(data, levels) && IsRest(data, levels, stuck)
    ensures forall x :: x in stuck ==> stuck[x] != {}
  {
    levels := [];
    if |data| == 0 {
      stuck := map[];
      return;
    }
    stuck := Copy(data);
    while true
      invariant Layered(data, levels) && IsRest(data, levels, stuck)
      decreases |stuck|
    {
      var ordered := set x | x in stuck && stuck[x] == {};
      if ordered == {} {
        break;
      }
      LayeredOneMore(data, levels, stuck, ordered);
      stuck := Strike(data, levels, stuck, ordered);
      levels := levels + [ordered];
    }
    forall x | x in stuck ensures stuck[x] != {} {
      assert x !in (set y | y in stuck && stuck[y] == {});
    }
  }

  lemma SmallerSet<T>(a: set<T>, b: set<T>, x: T)
    requires a <= b && x in b && x !in a
    ensures |a| < |b|
  {
    SubsetCardinality(a, b - {x});
  }

  /* ---- Levels ---- */

  lemma {:induction false} InSomeLevel(levels: seq<set<Name>>, k: nat, x: Name) returns (j: nat)
    requires k <= |levels| && x in Upto(levels, k)
    ensures j < k && x in levels[j]
  {
    if x in levels[k - 1] {
      j := k - 1;
    } else {
      j := InSomeLevel(levels, k - 1, x);
    }
  }

  lemma {:induction false} LevelInUpto(levels: seq<set<Name>>, j: nat, k: nat, x: Name)
    requires j < k <= |levels| && x in levels[j]
    ensures x in Upto(levels, k)
  {
    if j < k - 1 {
      LevelInUpto(levels, j, k - 1, x);
    }
  }

  /** No item is emitted twice, and an item's level is one more than the highest level of the items
      it depends on, or the first level if it depends on none. */
  lemma LevelIsOneAboveDeps(data: Graph, levels: seq<set<Name>>, k: nat, x: Name)
    requires Layered(data, levels) && k < |levels| && x in levels[k]
    ensures forall j :: 0 <= j < |levels| && x in levels[j] ==> j == k
    ensures forall d :: d in Deps(data, x) ==> exists j :: 0 <= j < k && d in levels[j]
    ensures k == 0 <==> Deps(data, x) == {}
    ensures k > 0 ==> exists d :: d in Deps(data, x) && d in levels[k - 1]
  {
    forall j | 0 <= j < |levels| && x in levels[j] ensures j == k {
      assert IsLevel(data, levels, j) && IsLevel(data, levels, k);
      if j < k {
        LevelInUpto(levels, j, k, x);
      } else if k < j {
        LevelInUpto(levels, k, j, x);
      }
    }
    assert IsLevel(data, levels, k);
    forall d | d in Deps(data, x) ensures exists j :: 0 <= j < k && d in levels[j] {
      var j := InSomeLevel(levels, k, d);
    }
    if k > 0 {
      // Otherwise x would have been emitted one level earlier.
      assert IsLevel(data, levels, k - 1);
      assert x !in levels[k - 1] && x !in Upto(levels, k - 1);
      assert !(Deps(data, x) <= Upto(levels, k - 1));
      var d :| d in Deps(data, x) && d !in Upto(levels, k - 1);
      assert d in levels[k - 1];
    }
  }

  /* ---- Cycles ---- */

  /** Each item depends on the next. */
  ghost predicate IsPath(data: Graph, p: seq<Name>) {
    p != [] && forall i :: 0 <= i < |p| - 1 ==> p[i + 1] in Deps(data, p[i])
  }

  ghost predicate Reaches(data: Graph, x: Name, y: Name) {
    exists p :: IsPath(data, p) && p[0] == x && p[|p| - 1] == y
  }

  /** x is on a cycle. As self-dependencies are not counted, it has at least two items. */
  ghost predicate OnCycle(data: Graph, x: Name) {
    exists p :: IsPath(data, p) && |p| >= 2 && p[0] == x && p[|p| - 1] == x
  }

  ghost predicate DependsOnCycle(data: Graph, x: Name) {
    exists y :: Reaches(data, x, y) && OnCycle(data, y)
  }

  lemma CycleHasTwoItems(data: Graph, p: seq<Name>)
    requires IsPath(data, p) && |p| >= 2 && p[0] == p[|p| - 1]
    ensures |p| >= 3 && p[0] != p[1]
  {
    assert p[0 + 1] in Deps(data, p[0]);
  }

  /** Along a path from an emitted item, levels fall. */
  lemma {:induction false} PathDescends(data: Graph, levels: seq<set<Name>>, p: seq<Name>, k: nat) returns (m: nat)
    requires Layered(data, levels) && IsPath(data, p) && k < |levels| && p[0] in levels[k]
    ensures m + |p| - 1 <= k && p[|p| - 1] in levels[m]
  {
    if |p| == 1 {
      m := k;
    } else {
      assert p[0 + 1] in Deps(data, p[0]);
      LevelIsOneAboveDeps(data, levels, k, p[0]);
      var j :| 0 <= j < k && p[1] in levels[j];
      assert IsPath(data, p[1..]) by {
        forall i | 0 <= i < |p[1..]| - 1 ensures p[1..][i + 1] in Deps(data, p[1..][i]) {
          assert p[(i + 1) + 1] in Deps(data, p[i + 1]);
        }
      }
      m := PathDescends(data, levels, p[1..], j);
    }
  }

  lemma EmittedIsAcyclic(data: Graph, levels: seq<set<Name>>, k: nat, x: Name)
    requires Layered(data, levels) && k < |levels| && x in levels[k]
    ensures !DependsOnCycle(data, x)
  {
    if y :| Reaches(data, x, y) && OnCycle(data, y) {
      var p :| IsPath(data, p) && p[0] == x && p[|p| - 1] == y;
      var m := PathDescends(data, levels, p, k);
      var c :| IsPath(data, c) && |c| >= 2 && c[0] == y && c[|c| - 1] == y;
      var n := PathDescends(data, levels, c, m);
      LevelIsOneAboveDeps(data, levels, m, y);
    }
  }

  /** A walk that never leaves the stuck items. */
  lemma {:induction false} Walk(data: Graph, stuck: Graph, x: Name, n: nat) returns (p: seq<Name>)
    requires x in stuck
    requires forall y :: y in stuck ==> stuck[y] != {} && stuck[y] <= stuck.Keys && stuck[y] <= Deps(data, y)
    ensures |p| == n + 1 && p[0] == x && IsPath(data, p)
    ensures forall i :: 0 <= i < |p| ==> p[i] in stuck
    decreases n
  {
    if n == 0 {
      p := [x];
    } else {
      var y :| y in stuck[x];
      var q := Walk(data, stuck, y, n - 1);
      p := [x] + q;
      PathFrom(data, x, q);
    }
  }

  lemma PathFrom(data: Graph, x: Name, p: seq<Name>)
    requires IsPath(data, p) && p[0] in Deps(data, x)
    ensures IsPath(data, [x] + p)
  {
  }

  lemma {:induction false} Pigeonhole(p: seq<Name>, s: set<Name>) returns (i: nat, j: nat)
    requires |p| > |s| && forall i :: 0 <= i < |p| ==> p[i] in s
    ensures i < j < |p| && p[i] == p[j]
  {
    if k :| 0 < k < |p| && p[k] == p[0] {
      i, j := 0, k;
    } else {
      var a, b := Pigeonhole(p[1..], s - {p[0]});
      i, j := a + 1, b + 1;
    }
  }

  lemma PartOfPath(data: Graph, p: seq<Name>, i: nat, j: nat)
    requires IsPath(data, p) && i <= j < |p|
    ensures IsPath(data, p[i..j + 1])
  {
    var q := p[i..j + 1];
    forall k | 0 <= k < |q| - 1 ensures q[k + 1] in Deps(data, q[k]) {
      assert p[(i + k) + 1] in Deps(data, p[i + k]);
    }
  }

  lemma StuckDependsOnCycle(data: Graph, stuck: Graph, x: Name)
    requires x in stuck
    requires forall y :: y in stuck ==> stuck[y] != {} && stuck[y] <= stuck.Keys && stuck[y] <= Deps(data, y)
    ensures DependsOnCycle(data, x)
  {
    var p := Walk(data, stuck, x, |stuck.Keys|);
    var i, j := Pigeonhole(p, stuck.Keys);
    PathReaches(data, p, i);
    PathReturns(data, p, i, j);
  }

  lemma PathReaches(data: Graph, p: seq<Name>, i: nat)
    requires IsPath(data, p) && i < |p|
    ensures Reaches(data, p[0], p[i])
  {
    PartOfPath(data, p, 0, i);
    var before := p[0..i + 1];
    assert before[0] == p[0] && before[|before| - 1] == p[i];
  }

  lemma PathReturns(data: Graph, p: seq<Name>, i: nat, j: nat)
    requires IsPath(data, p) && i < j < |p| && p[i] == p[j]
    ensures OnCycle(data, p[i])
  {
    PartOfPath(data, p, i, j);
    var cycle := p[i..j + 1];
    assert cycle[0] == p[i] && cycle[|cycle| - 1] == p[j];
  }

  lemma DepsAreItems(data: Graph, x: Name)
    ensures Deps(data, x) <= Items(data)
  {
  }

  lemma CycleDependsOnItself(data: Graph, x: Name)
    requires OnCycle(data, x)
    ensures DependsOnCycle(data, x)
  {
    assert IsPath(data, [x]);
    assert Reaches(data, x, x);
  }

  lemma CycleOfItems(data: Graph, x: Name)
    requires DependsOnCycle(data, x)
    ensures exists y :: y in Items(data) && OnCycle(data, y)
  {
    var y :| Reaches(data, x, y) && OnCycle(data, y);
    var c :| IsPath(data, c) && |c| >= 2 && c[0] == y && c[|c| - 1] == y;
    var n := |c| - 2;
    assert c[n + 1] in Deps(data, c[n]);
    DepsAreItems(data, c[n]);
  }

  /** The error carries exactly the items that depend, directly or not, on a cycle; the levels hold
      exactly the others. */
  lemma StuckIffDependsOnCycle(data: Graph, levels: seq<set<Name>>, stuck: Graph)
    requires Layered(data, levels) && IsRest(data, levels, stuck)
    requires forall x :: x in stuck ==> stuck[x] != {}
    ensures forall x :: x in stuck <==> x in Items(data) && DependsOnCycle(data, x)
    ensures forall x :: x in All(levels) <==> x in Items(data) && !DependsOnCycle(data, x)
  {
    forall x | x in stuck ensures DependsOnCycle(data, x) {
      forall y | y in stuck ensures stuck[y] <= stuck.Keys {
        DepsAreItems(data, y);
      }
      StuckDependsOnCycle(data, stuck, x);
    }
    forall x | x in All(levels) ensures x in Items(data) && !DependsOnCycle(data, x) {
      var k := InSomeLevel(levels, |levels|, x);
      assert IsLevel(data, levels, k);
      EmittedIsAcyclic(data, levels, k, x);
    }
  }

  /** An error is raised exactly if there is a cycle. */
  lemma RaisesIffCycle(data: Graph, levels: seq<set<Name>>, stuck: Graph)
    requires Layered(data, levels) && IsRest(data, levels, stuck)
    requires forall x :: x in stuck ==> stuck[x] != {}
    ensures stuck == map[] <==> !exists x :: x in Items(data) && OnCycle(data, x)
  {
    StuckIffDependsOnCycle(data, levels, stuck);
    if x :| x in Items(data) && OnCycle(data, x) {
      CycleDependsOnItself(data, x);
    }
    if stuck != map[] {
      var x :| x in stuck;
      CycleOfItems(data, x);
    }
  }

  /* ---- Flattening ---- */

  /** a comes before b in a dictionary, or is b. */
  predicate Leq(a: Name, b: Name) {
    a == [] || (b != [] && (a[0] < b[0] || (a[0] == b[0] && Leq(a[1..], b[1..]))))
  }

  /** A name comes first if it is the beginning of the other, or has the smaller character where they
      first differ. */
  lemma {:induction false} LeqMeans(a: Name, b: Name)
    ensures Leq(a, b) <==> a <= b || exists k :: 0 <= k < |a| && DiffersAt(a, b, k) && a[k] < b[k]
  {
    if a != [] && b != [] {
      var a', b' := a[1..], b[1..];
      LeqMeans(a', b');
      assert a == [a[0]] + a' && b == [b[0]] + b';
      if a[0] < b[0] {
        assert DiffersAt(a, b, 0);
      } else if a[0] == b[0] {
        assert a <= b <==> a' <= b';
        if k :| 0 <= k < |a'| && DiffersAt(a', b', k) && a'[k] < b'[k] {
          assert a[..k + 1] == [a[0]] + a'[..k] && b[..k + 1] == [b[0]] + b'[..k];
          assert DiffersAt(a, b, k + 1);
        }
        if k :| 0 <= k < |a| && DiffersAt(a, b, k) && a[k] < b[k] {
          assert a'[..k - 1] == a[..k][1..] && b'[..k - 1] == b[..k][1..];
          assert DiffersAt(a', b', k - 1);
        }
      } else {
        assert forall k :: 0 < k < |a| && k < |b| ==> a[..k][0] != b[..k][0];
      }
    }
  }

  predicate DiffersAt(a: Name, b: Name, k: nat) {
    k < |a| && k < |b| && a[..k] == b[..k] && a[k] != b[k]
  }

  lemma {:induction false} LeqTotal(a: Name, b: Name)
    ensures Leq(a, b) || Leq(b, a)
    ensures Leq(a, b) && Leq(b, a) ==> a == b
  {
    if a != [] && b != [] {
      LeqTotal(a[1..], b[1..]);
      assert a == [a[0]] + a[1..] && b == [b[0]] + b[1..];
    }
  }

  lemma {:induction false} LeqTransitive(a: Name, b: Name, c: Name)
    requires Leq(a, b) && Leq(b, c)
    ensures Leq(a, c)
  {
    if a != [] {
      if a[0] == b[0] == c[0] {
        LeqTransitive(a[1..], b[1..], c[1..]);
      }
    }
  }

  ghost predicate IsLeast(s: set<Name>, x: Name) {
    x in s && forall y :: y in s ==> Leq(x, y)
  }

  lemma {:induction false} LeastExists(s: set<Name>) returns (x: Name)
    requires s != {}
    ensures IsLeast(s, x)
  {
    var y :| y in s;
    if s == {y} {
      x := y;
      LeqTotal(x, x);
    } else {
      var z := LeastExists(s - {y});
      LeqTotal(y, z);
      LeqTotal(y, y);
      x := if Leq(y, z) then y else z;
      forall w | w in s ensures Leq(x, w) {
        if w != y && x == y {
          LeqTransitive(y, z, w);
        }
      }
    }
  }

  /** The elements of s, each once, in ascending order: `sorted(s)`. */
  ghost predicate IsListing(s: set<Name>, r: seq<Name>) {
    if r == [] then s == {} else IsLeast(s, r[0]) && IsListing(s - {r[0]}, r[1..])
  }

  lemma {:induction false} ListingIsDetermined(s: set<Name>, r: seq<Name>, q: seq<Name>)
    requires IsListing(s, r) && IsListing(s, q)
    ensures r == q
  {
    if r != [] {
      LeqTotal(r[0], q[0]);
      ListingIsDetermined(s - {r[0]}, r[1..], q[1..]);
      assert r == [r[0]] + r[1..] && q == [q[0]] + q[1..];
    }
  }

  lemma {:induction false} ListingMembers(s: set<Name>, r: seq<Name>)
    requires IsListing(s, r)
    ensures forall x :: x in r <==> x in s
    ensures forall i, j :: 0 <= i < j < |r| ==> r[i] != r[j]
  {
    if r != [] {
      ListingMembers(s - {r[0]}, r[1..]);
      assert r == [r[0]] + r[1..];
    }
  }

  method ListSorted(s: set<Name>) returns (r: seq<Name>)
    ensures IsListing(s, r)
  {
    if s == {} {
      return [];
    }
    ghost var least := LeastExists(s);
    assert forall y :: y in s ==> Leq(least, y);
    forall x, y | x in s && y in s && Leq(x, y) && Leq(y, x) ensures x == y {
      LeqTotal(x, y);
    }
    var x :| x in s && forall y :: y in s ==> Leq(x, y);
    var rest := ListSorted(s - {x});
    r := [x] + rest;
  }

  /** The elements of s in some order: `list(s)`. */
  method ListAny(s: set<Name>) returns (r: seq<Name>)
    ensures Lists(s, r, false)
  {
    r := [];
    var rest := s;
    while rest != {}
      invariant rest <= s
      invariant forall x :: x in r <==> x in s && x !in rest
      invariant forall i, j :: 0 <= i < j < |r| ==> r[i] != r[j]
    {
      var x :| x in rest;
      rest := rest - {x};
      r := r + [x];
    }
  }

  /** The elements of s, each once; ascending, if that is asked for. */
  ghost predicate Lists(s: set<Name>, r: seq<Name>, sort: bool) {
    && (forall x :: x in r <==> x in s)
    && (forall i, j :: 0 <= i < j < |r| ==> r[i] != r[j])
    && (sort ==> IsListing(s, r))
  }

  /** The levels one after the other, each listed. */
  ghost predicate IsFlattening(levels: seq<set<Name>>, r: seq<Name>, sort: bool) {
    if levels == [] then r == []
    else exists n :: (0 <= n <= |r| && IsFlattening(levels[..|levels| - 1], r[..n], sort)
                      && Lists(levels[|levels| - 1], r[n..], sort))
  }

  /** Each item once, after everything it depends on. */
  ghost predicate InOrder(data: Graph, r: seq<Name>) {
    && (forall i, j :: 0 <= i < j < |r| ==> r[i] != r[j])
    && (forall i, d :: 0 <= i < |r| && d in Deps(data, r[i]) ==> d in r[..i])
  }

  lemma FlatteningOneMore(levels: seq<set<Name>>, r: seq<Name>, level: set<Name>, more: seq<Name>, sort: bool)
    requires IsFlattening(levels, r, sort) && Lists(level, more, sort)
    ensures IsFlattening(levels + [level], r + more, sort)
  {
    var longer, both := levels + [level], r + more;
    assert longer[..|longer| - 1] == levels && both[..|r|] == r && both[|r|..] == more;
  }

  /** Fails exactly if some item is on a cycle; then with the items that depend on one. */
  method ToposortFlatten(data: Graph, sort: bool) returns (r: Result<seq<Name>, Graph>, ghost levels: seq<set<Name>>)
    ensures Layered(data, levels)
    ensures r.Success? ==> All(levels) == Items(data) && IsFlattening(levels, r.value, sort)
    ensures r.Success? <==> !exists x :: x in Items(data) && OnCycle(data, x)
    ensures r.Success? ==> InOrder(data, r.value) && forall x :: x in r.value <==> x in Items(data)
    ensures r.Failure? ==> forall x :: x in r.error <==> x in Items(data) && DependsOnCycle(data, x)
  {
    var sets, stuck := Toposort(data);
    levels := sets;
    StuckIffDependsOnCycle(data, levels, stuck);
    RaisesIffCycle(data, levels, stuck);
    if stuck != map[] {
      return Failure(stuck), levels;
    }
    var result := FlattenSets(sets, sort);
    FlatteningMembers(data, levels, result, sort);
    assert levels[..|levels|] == levels;
    return Success(result), levels;
  }

  method List(s: set<Name>, sort: bool) returns (r: seq<Name>)
    ensures Lists(s, r, sort)
  {
    if sort {
      r := ListSorted(s);
      ListingMembers(s, r);
    } else {
      r := ListAny(s);
    }
  }

  method FlattenSets(sets: seq<set<Name>>, sort: bool) returns (result: seq<Name>)
    ensures IsFlattening(sets, result, sort)
  {
    result := [];
    for k := 0 to |sets|
      invariant IsFlattening(sets[..k], result, sort)
    {
      var more := List(sets[k], sort);
      FlatteningOneMore(sets[..k], result, sets[k], more, sort);
      assert sets[..k + 1] == sets[..k] + [sets[k]];
      result := result + more;
    }
    assert sets[..|sets|] == sets;
  }

  /** Whatever lists the levels one after the other lists every item once, after its dependencies. */
  lemma {:induction false} FlatteningMembers(data: Graph, levels: seq<set<Name>>, r: seq<Name>, sort: bool)
    requires Layered(data, levels) && IsFlattening(levels, r, sort)
    ensures InOrder(data, r) && forall x :: x in r <==> x in All(levels)
  {
    if levels != [] {
      var init, last := levels[..|levels| - 1], levels[|levels| - 1];
      var before, rest := LastPart(levels, r, sort);
      assert levels == init + [last];
      UptoInit(init, last);
      LayeredInit(data, init, last);
      FlatteningMembers(data, init, before, sort);
      LastLevel(data, init, last);
      InOrderConcat(data, before, rest);
    }
  }

  lemma LayeredInit(data: Graph, init: seq<set<Name>>, last: set<Name>)
    requires Layered(data, init + [last])
    ensures Layered(data, init)
  {
    forall k | 0 <= k < |init| ensures IsLevel(data, init, k) {
      assert IsLevel(data, init + [last], k);
      UptoPrefix(init, [last], k);
    }
  }

  lemma LastLevel(data: Graph, init: seq<set<Name>>, last: set<Name>)
    requires Layered(data, init + [last])
    ensures forall x :: x in last ==> x !in All(init) && Deps(data, x) <= All(init)
  {
    assert IsLevel(data, init + [last], |init|);
    UptoInit(init, last);
  }

  lemma UptoInit(init: seq<set<Name>>, last: set<Name>)
    ensures Upto(init + [last], |init|) == All(init) && All(init + [last]) == All(init) + last
  {
    UptoPrefix(init, [last], |init|);
  }

  lemma {:induction false} SameFirstLevels(data: Graph, a: seq<set<Name>>, b: seq<set<Name>>, k: nat)
    requires Layered(data, a) && Layered(data, b) && k <= |a| && k <= |b|
    ensures a[..k] == b[..k] && Upto(a, k) == Upto(b, k)
  {
    if k > 0 {
      SameFirstLevels(data, a, b, k - 1);
      SameNextLevel(data, a, b, k - 1);
      assert a[..k] == a[..k - 1] + [a[k - 1]] && b[..k] == b[..k - 1] + [b[k - 1]];
    }
  }

  lemma SameNextLevel(data: Graph, a: seq<set<Name>>, b: seq<set<Name>>, k: nat)
    requires Layered(data, a) && Layered(data, b) && k < |a| && k < |b| && Upto(a, k) == Upto(b, k)
    ensures a[k] == b[k]
  {
    assert IsLevel(data, a, k) && IsLevel(data, b, k);
  }

  lemma NoLevelAfterAll(data: Graph, a: seq<set<Name>>, k: nat)
    requires Layered(data, a) && k < |a|
    ensures Upto(a, k) != Items(data)
  {
    assert IsLevel(data, a, k);
    var x :| x in a[k];
  }

  lemma LastPart(levels: seq<set<Name>>, r: seq<Name>, sort: bool) returns (before: seq<Name>, last: seq<Name>)
    requires levels != [] && IsFlattening(levels, r, sort)
    ensures r == before + last
    ensures IsFlattening(levels[..|levels| - 1], before, sort) && Lists(levels[|levels| - 1], last, sort)
  {
    var n :| 0 <= n <= |r| && IsFlattening(levels[..|levels| - 1], r[..n], sort)
             && Lists(levels[|levels| - 1], r[n..], sort);
    before, last := r[..n], r[n..];
  }

  lemma {:induction false} FlatteningIsDetermined(levels: seq<set<Name>>, r: seq<Name>, q: seq<Name>)
    requires IsFlattening(levels, r, true) && IsFlattening(levels, q, true)
    ensures r == q
  {
    if levels != [] {
      var before, last := LastPart(levels, r, true);
      var before', last' := LastPart(levels, q, true);
      FlatteningIsDetermined(levels[..|levels| - 1], before, before');
      ListingIsDetermined(levels[|levels| - 1], last, last');
    }
  }

  /** The graph determines the result: sorting each level makes it the same every time. */
  lemma ResultIsDetermined(data: Graph, a: seq<set<Name>>, b: seq<set<Name>>, r: seq<Name>, q: seq<Name>)
    requires Layered(data, a) && Layered(data, b) && All(a) == Items(data) == All(b)
    requires IsFlattening(a, r, true) && IsFlattening(b, q, true)
    ensures a == b && r == q
  {
    var k := if |a| <= |b| then |a| else |b|;
    SameFirstLevels(data, a, b, k);
    if |a| < |b| {
      NoLevelAfterAll(data, b, k);
    } else if |b| < |a| {
      NoLevelAfterAll(data, a, k);
    }
    assert a == a[..k] && b == b[..k];
    FlatteningIsDetermined(a, r, q);
  }

  lemma InOrderConcat(data: Graph, r: seq<Name>, more: seq<Name>)
    requires InOrder(data, r)
    requires forall i, j :: 0 <= i < j < |more| ==> more[i] != more[j]
    requires forall x :: x in more ==> x !in r && forall d :: d in Deps(data, x) ==> d in r
    ensures InOrder(data, r + more)
  {
    var both := r + more;
    forall i, j | 0 <= i < j < |both| ensures both[i] != both[j] {
      if i < |r| <= j {
        assert both[i] in r && both[j] in more;
      }
    }
    forall i, d | 0 <= i < |both| && d in Deps(data, both[i]) ensures d in both[..i] {
      if i < |r| {
        assert both[..i] == r[..i];
      } else {
        assert both[i] in more;
        assert both[..i] == r + more[..i - |r|];
      }
    }
  }
}
