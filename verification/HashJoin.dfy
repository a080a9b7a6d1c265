/** The grouped join of cli/polygonetl/streaming/enrich.py against the nested-loop join. */
module HashJoin {
  import opened Grouping

  /** How to join: the keys of both sides, and the row made of a matching pair. */
  datatype Spec<!L, !R, !K, !O> = Spec(leftKey: L -> K, rightKey: R -> K, combine: (L, R) -> O)

  function Pair<L, R, O>(combine: (L, R) -> O, l: L, rs: seq<R>): seq<O> {
    seq(|rs|, i requires 0 <= i < |rs| => combine(l, rs[i]))
  }

  /** The rows made of l and the right rows with its key. */
  function Matches<L, R, K(==), O>(s: Spec<L, R, K, O>, l: L, right: seq<R>): seq<O> {
    Pair(s.combine, l, Group(s.rightKey, s.leftKey(l), right))
  }

  /** The reference: for every left row, every right row, if the keys agree. */
  function NestedLoop<L, R, K(==), O>(s: Spec<L, R, K, O>, left: seq<L>, right: seq<R>): seq<O> {
    if left == [] then []
    else NestedLoop(s, left[..|left| - 1], right) + Matches(s, left[|left| - 1], right)
  }

  /** What the source computes: group by group in the order of `keys`. */
  ghost function ByKeys<L, R, K, O>(s: Spec<L, R, K, O>, left: seq<L>, right: seq<R>, keys: seq<K>): seq<O> {
    if keys == [] then []
    else ByKeys(s, left, right, keys[..|keys| - 1])
         + NestedLoop(s, Group(s.leftKey, keys[|keys| - 1], left), right)
  }

  lemma NestedLoopOneMore<L, R, K, O>(s: Spec<L, R, K, O>, left: seq<L>, l: L, right: seq<R>)
    ensures NestedLoop(s, left + [l], right) == NestedLoop(s, left, right) + Matches(s, l, right)
  {
    assert (left + [l])[..|left|] == left;
  }

  ghost predicate Distinct<K>(keys: seq<K>) {
    forall i, j :: 0 <= i < j < |keys| ==> keys[i] != keys[j]
  }

  lemma ByKeysOneMoreKey<L, R, K, O>(s: Spec<L, R, K, O>, left: seq<L>, right: seq<R>, keys: seq<K>, k: K)
    ensures ByKeys(s, left, right, keys + [k])
         == ByKeys(s, left, right, keys) + NestedLoop(s, Group(s.leftKey, k, left), right)
  {
    assert (keys + [k])[..|keys|] == keys;
  }

  lemma GroupRowsOneMore<L, R, K, O>(s: Spec<L, R, K, O>, k: K, left: seq<L>, l: L, right: seq<R>)
    ensures NestedLoop(s, Group(s.leftKey, k, left + [l]), right)
         == NestedLoop(s, Group(s.leftKey, k, left), right) + (if s.leftKey(l) == k then Matches(s, l, right) else [])
  {
    GroupOneMore(s.leftKey, k, left, l);
    if s.leftKey(l) == k {
      NestedLoopOneMore(s, Group(s.leftKey, k, left), l, right);
    } else {
      assert Group(s.leftKey, k, left + [l]) == Group(s.leftKey, k, left);
    }
  }

  ghost function RowsIf<O>(b: bool, rows: seq<O>): multiset<O> {
    if b then multiset(rows) else multiset{}
  }

  lemma AddRows<O>(a: seq<O>, b: seq<O>, rows: seq<O>, before: bool, here: bool, a': seq<O>)
    requires multiset(a') == multiset(a) + RowsIf(before, rows)
    requires !(before && here)
    ensures multiset(a' + (b + if here then rows else [])) == multiset(a + b) + RowsIf(before || here, rows)
  {
  }

  /** A left row adds its matches to the group of its key, and to no other. */
  lemma {:induction false} ByKeysOneMore<L, R, K, O>(
    s: Spec<L, R, K, O>, left: seq<L>, l: L, right: seq<R>, keys: seq<K>)
    requires Distinct(keys)
    ensures multiset(ByKeys(s, left + [l], right, keys))
         == multiset(ByKeys(s, left, right, keys)) + RowsIf(s.leftKey(l) in keys, Matches(s, l, right))
  {
    if keys != [] {
      var init, k := keys[..|keys| - 1], keys[|keys| - 1];
      var rows, here := Matches(s, l, right), s.leftKey(l) == k;
      assert keys == init + [k] && k !in init;
      assert s.leftKey(l) in keys <==> s.leftKey(l) in init || here;
      ByKeysOneMore(s, left, l, right, init);
      GroupRowsOneMore(s, k, left, l, right);
      ByKeysOneMoreKey(s, left, right, init, k);
      ByKeysOneMoreKey(s, left + [l], right, init, k);
      AddRows(ByKeys(s, left, right, init), NestedLoop(s, Group(s.leftKey, k, left), right), rows,
              s.leftKey(l) in init, here, ByKeys(s, left + [l], right, init));
    }
  }

  ghost predicate KeysIn<L, R, K, O>(s: Spec<L, R, K, O>, left: seq<L>, keys: seq<K>) {
    forall l :: l in left ==> s.leftKey(l) in keys
  }

  /** Grouping changes the order of the rows and nothing else. */
  lemma {:induction false} ByKeysIsNestedLoop<L, R, K, O>(
    s: Spec<L, R, K, O>, left: seq<L>, right: seq<R>, keys: seq<K>)
    requires Distinct(keys) && KeysIn(s, left, keys)
    ensures multiset(ByKeys(s, left, right, keys)) == multiset(NestedLoop(s, left, right))
  {
    if left == [] {
      NothingByKeys(s, right, keys);
    } else {
      var init, l := left[..|left| - 1], left[|left| - 1];
      assert left == init + [l];
      assert KeysIn(s, init, keys);
      ByKeysIsNestedLoop(s, init, right, keys);
      ByKeysOneMore(s, init, l, right, keys);
      NestedLoopOneMore(s, init, l, right);
    }
  }

  lemma {:induction false} NothingByKeys<L, R, K, O>(s: Spec<L, R, K, O>, right: seq<R>, keys: seq<K>)
    ensures ByKeys(s, [], right, keys) == []
  {
    if keys != [] {
      NothingByKeys(s, right, keys[..|keys| - 1]);
    }
  }

  /** itertools.product of two groups of one key. */
  method JoinGroup<L, R, K(==), O>(s: Spec<L, R, K, O>, k: K, ls: seq<L>, rs: seq<R>, ghost right: seq<R>)
    returns (rows: seq<O>)
    requires forall l :: l in ls ==> s.leftKey(l) == k
    requires rs == Group(s.rightKey, k, right)
    ensures rows == NestedLoop(s, ls, right)
  {
    rows := [];
    for i := 0 to |ls|
      invariant rows == NestedLoop(s, ls[..i], right)
    {
      ghost var before := rows;
      for j := 0 to |rs|
        invariant rows == before + Pair(s.combine, ls[i], rs[..j])
      {
        assert Pair(s.combine, ls[i], rs[..j + 1]) == Pair(s.combine, ls[i], rs[..j]) + [s.combine(ls[i], rs[j])];
        rows := rows + [s.combine(ls[i], rs[j])];
      }
      assert rs[..|rs|] == rs;
      assert ls[i] in ls;
      NestedLoopOneMore(s, ls[..i], ls[i], right);
      assert ls[..i + 1] == ls[..i] + [ls[i]];
    }
    assert ls[..|ls|] == ls;
  }

  /** The rows in the order of the source: by left keys, in the order in which they first occur. */
  ghost function Joined<L, R, K, O>(s: Spec<L, R, K, O>, left: seq<L>, right: seq<R>): seq<O> {
    ByKeys(s, left, right, FirstKeys(s.leftKey, left))
  }

  /** Both sides are grouped once; then every group of the left side meets its group of the right
      side. */
  method Join<L, R, K(==,!new), O>(s: Spec<L, R, K, O>, left: seq<L>, right: seq<R>) returns (result: seq<O>)
    ensures result == Joined(s, left, right)
    ensures multiset(result) == multiset(NestedLoop(s, left, right))
  {
    var leftMap, keys := GroupBy(s.leftKey, left);
    var rightMap, rightKeys := GroupBy(s.rightKey, right);
    result := JoinKeys(s, keys, leftMap, rightMap, left, right, rightKeys);
    AllKeysAreThere(s, left, leftMap, keys);
    ByKeysIsNestedLoop(s, left, right, keys);
  }

  method JoinKeys<L, R, K(==,!new), O>(
    s: Spec<L, R, K, O>, keys: seq<K>, leftMap: map<K, seq<L>>, rightMap: map<K, seq<R>>,
    ghost left: seq<L>, ghost right: seq<R>, ghost rightKeys: seq<K>)
    returns (result: seq<O>)
    requires IsGrouping(s.leftKey, left, leftMap, keys) && IsGrouping(s.rightKey, right, rightMap, rightKeys)
    ensures result == ByKeys(s, left, right, keys)
  {
    result := [];
    for g := 0 to |keys|
      invariant result == ByKeys(s, left, right, keys[..g])
    {
      var k := keys[g];
      var rows := JoinKey(s, k, leftMap, rightMap, left, right, keys, rightKeys);
      ByKeysOneMoreKey(s, left, right, keys[..g], k);
      assert keys[..g + 1] == keys[..g] + [k];
      result := result + rows;
    }
    assert keys[..|keys|] == keys;
  }

  method JoinKey<L, R, K(==,!new), O>(
    s: Spec<L, R, K, O>, k: K, leftMap: map<K, seq<L>>, rightMap: map<K, seq<R>>,
    ghost left: seq<L>, ghost right: seq<R>, ghost leftKeys: seq<K>, ghost rightKeys: seq<K>)
    returns (rows: seq<O>)
    requires IsGrouping(s.leftKey, left, leftMap, leftKeys) && IsGrouping(s.rightKey, right, rightMap, rightKeys)
    requires k in leftKeys
    ensures rows == NestedLoop(s, Group(s.leftKey, k, left), right)
  {
    GroupMembers(s.leftKey, k, left);
    var rs := if k in rightMap then rightMap[k] else [];
    rows := JoinGroup(s, k, leftMap[k], rs, right);
  }

  lemma AllKeysAreThere<L, R, K(!new), O>(s: Spec<L, R, K, O>, left: seq<L>, groups: map<K, seq<L>>, keys: seq<K>)
    requires IsGrouping(s.leftKey, left, groups, keys)
    ensures KeysIn(s, left, keys) && Distinct(keys)
  {
    forall l | l in left ensures s.leftKey(l) in keys {
      InOwnGroup(s.leftKey, left, groups, keys, l);
    }
  }

  /* ---- Joins of joins ---- */

  lemma {:induction false} NestedLoopSplit<L, R, K, O>(s: Spec<L, R, K, O>, a: seq<L>, b: seq<L>, right: seq<R>)
    ensures NestedLoop(s, a + b, right) == NestedLoop(s, a, right) + NestedLoop(s, b, right)
  {
    if b == [] {
      assert a + b == a;
    } else {
      NestedLoopSplit(s, a, b[..|b| - 1], right);
      assert (a + b)[..|a + b| - 1] == a + b[..|b| - 1];
    }
  }

  lemma SameSize<T>(a: seq<T>, b: seq<T>)
    requires multiset(a) == multiset(b)
    ensures |a| == |b|
  {
    assert |multiset(a)| == |a| && |multiset(b)| == |b|;
  }

  lemma WithoutOne<T>(a: seq<T>, b: seq<T>, init: seq<T>, x: T, before: seq<T>, after: seq<T>)
    requires multiset(a) == multiset(b) && a == init + [x] && b == before + [x] + after
    ensures multiset(init) == multiset(before + after)
  {
    assert multiset(a) == multiset(init) + multiset{x};
    assert multiset(b) == multiset(before + after) + multiset{x};
    assert multiset(init) == multiset(a) - multiset{x};
  }

  /** The order of the left rows decides only the order of the result. */
  lemma {:induction false} LeftOrderDoesNotMatter<L, R, K, O>(s: Spec<L, R, K, O>, a: seq<L>, b: seq<L>, right: seq<R>)
    requires multiset(a) == multiset(b)
    ensures multiset(NestedLoop(s, a, right)) == multiset(NestedLoop(s, b, right))
    decreases |a|
  {
    if a == [] {
      SameSize(a, b);
    } else {
      var init, l := a[..|a| - 1], a[|a| - 1];
      assert a == init + [l];
      assert l in multiset(b);
      var j :| 0 <= j < |b| && b[j] == l;
      var before, after := b[..j], b[j + 1..];
      assert b == before + [l] + after;
      WithoutOne(a, b, init, l, before, after);
      LeftOrderDoesNotMatter(s, init, before + after, right);
      PlaceDoesNotMatter(s, before, l, after, right);
      PlaceDoesNotMatter(s, init, l, [], right);
      assert init + [l] + [] == a && init + [] == init;
    }
  }

  lemma PlaceDoesNotMatter<L, R, K, O>(s: Spec<L, R, K, O>, before: seq<L>, l: L, after: seq<L>, right: seq<R>)
    ensures multiset(NestedLoop(s, before + [l] + after, right))
         == multiset(NestedLoop(s, before + after, right)) + multiset(Matches(s, l, right))
  {
    NestedLoopSplit(s, before, after, right);
    NestedLoopSplit(s, before + [l], after, right);
    NestedLoopOneMore(s, before, l, right);
  }

  lemma {:induction false} NestedLoopMember<L, R, K, O>(s: Spec<L, R, K, O>, left: seq<L>, right: seq<R>, row: O)
    requires row in NestedLoop(s, left, right)
    ensures exists l, r :: l in left && r in right && s.rightKey(r) == s.leftKey(l) && row == s.combine(l, r)
  {
    var init, l := left[..|left| - 1], left[|left| - 1];
    if row in NestedLoop(s, init, right) {
      NestedLoopMember(s, init, right, row);
    } else {
      GroupMembers(s.rightKey, s.leftKey(l), right);
      var j :| 0 <= j < |Matches(s, l, right)| && Matches(s, l, right)[j] == row;
      assert Group(s.rightKey, s.leftKey(l), right)[j] in right;
    }
  }

  /** The pairs of positions whose rows have the same key. */
  ghost function MatchingPairs<L, R, K, O>(s: Spec<L, R, K, O>, left: seq<L>, right: seq<R>): set<(int, int)> {
    set i, j | 0 <= i < |left| && 0 <= j < |right| && s.rightKey(right[j]) == s.leftKey(left[i]) :: (i, j)
  }

  ghost function MatchingPlaces<L, R, K, O>(s: Spec<L, R, K, O>, l: L, right: seq<R>): set<int> {
    set j | 0 <= j < |right| && s.rightKey(right[j]) == s.leftKey(l)
  }

  lemma {:induction false} MatchesAreCounted<L, R, K, O>(s: Spec<L, R, K, O>, l: L, right: seq<R>)
    ensures |Matches(s, l, right)| == |MatchingPlaces(s, l, right)|
  {
    if right != [] {
      var init, r := right[..|right| - 1], right[|right| - 1];
      assert right == init + [r];
      MatchesAreCounted(s, l, init);
      GroupOneMore(s.rightKey, s.leftKey(l), init, r);
      var hit := s.rightKey(r) == s.leftKey(l);
      assert MatchingPlaces(s, l, right) == MatchingPlaces(s, l, init) + if hit then {|init|} else {};
    }
  }

  ghost function Tag<T>(places: set<T>, n: int): set<(int, T)> {
    set j | j in places :: (n, j)
  }

  lemma {:induction false} TagKeepsSize<T>(places: set<T>, n: int)
    ensures |Tag(places, n)| == |places|
  {
    if places != {} {
      var j :| j in places;
      TagKeepsSize(places - {j}, n);
      assert Tag(places, n) == Tag(places - {j}, n) + {(n, j)};
    }
  }

  /** The reference is what it should be: one row for every matching pair, and nothing else. */
  lemma {:induction false} NestedLoopIsAllPairs<L, R, K, O>(s: Spec<L, R, K, O>, left: seq<L>, right: seq<R>)
    ensures |NestedLoop(s, left, right)| == |MatchingPairs(s, left, right)|
    ensures forall i, j :: (i, j) in MatchingPairs(s, left, right) ==>
              s.combine(left[i], right[j]) in NestedLoop(s, left, right)
    ensures forall row :: row in NestedLoop(s, left, right) ==>
              exists l, r :: l in left && r in right && s.rightKey(r) == s.leftKey(l) && row == s.combine(l, r)
  {
    forall row | row in NestedLoop(s, left, right)
      ensures exists l, r :: l in left && r in right && s.rightKey(r) == s.leftKey(l) && row == s.combine(l, r)
    {
      NestedLoopMember(s, left, right, row);
    }
    if left != [] {
      var init, l := left[..|left| - 1], left[|left| - 1];
      NestedLoopIsAllPairs(s, init, right);
      AllMatchesAreThere(s, l, right);
      MatchesAreCounted(s, l, right);
      TagKeepsSize(MatchingPlaces(s, l, right), |init|);
      PairsSplit(s, init, l, right);
      assert left == init + [l];
      forall i, j | (i, j) in MatchingPairs(s, left, right)
        ensures s.combine(left[i], right[j]) in NestedLoop(s, left, right)
      {
        if i < |init| {
          assert (i, j) in MatchingPairs(s, init, right);
        }
      }
    }
  }

  lemma PairsSplit<L, R, K, O>(s: Spec<L, R, K, O>, init: seq<L>, l: L, right: seq<R>)
    ensures |MatchingPairs(s, init + [l], right)|
         == |MatchingPairs(s, init, right)| + |Tag(MatchingPlaces(s, l, right), |init|)|
  {
    var last := Tag(MatchingPlaces(s, l, right), |init|);
    assert MatchingPairs(s, init + [l], right) == MatchingPairs(s, init, right) + last;
    assert MatchingPairs(s, init, right) !! last;
  }

  lemma AllMatchesAreThere<L, R, K, O>(s: Spec<L, R, K, O>, l: L, right: seq<R>)
    ensures forall j :: 0 <= j < |right| && s.rightKey(right[j]) == s.leftKey(l) ==>
              s.combine(l, right[j]) in Matches(s, l, right)
  {
    var group := Group(s.rightKey, s.leftKey(l), right);
    GroupMembers(s.rightKey, s.leftKey(l), right);
    forall j | 0 <= j < |right| && s.rightKey(right[j]) == s.leftKey(l)
      ensures s.combine(l, right[j]) in Matches(s, l, right)
    {
      assert right[j] in right && right[j] in group;
      var k :| 0 <= k < |group| && group[k] == right[j];
      assert Matches(s, l, right)[k] == s.combine(l, right[j]);
    }
  }

  function Map<A, B>(f: A -> B, s: seq<A>): seq<B> {
    seq(|s|, i requires 0 <= i < |s| => f(s[i]))
  }

  /** The join that first changes every row: s after f on the left and g on the right. */
  function After<L, R, K, O>(s: Spec<L, R, K, O>, f: L -> L, g: R -> R): Spec<L, R, K, O> {
    Spec((l: L) => s.leftKey(f(l)), (r: R) => s.rightKey(g(r)), (l: L, r: R) => s.combine(f(l), g(r)))
  }

  lemma {:induction false} GroupOfMapped<R, K>(key: R -> K, g: R -> R, composed: R -> K, k: K, right: seq<R>)
    requires forall r :: composed(r) == key(g(r))
    ensures Group(key, k, Map(g, right)) == Map(g, Group(composed, k, right))
  {
    if right != [] {
      var init, r := right[..|right| - 1], right[|right| - 1];
      GroupOfMapped(key, g, composed, k, init);
      assert Map(g, right) == Map(g, init) + [g(r)];
      assert right == init + [r];
      GroupOneMore(key, k, Map(g, init), g(r));
      GroupOneMore(composed, k, init, r);
      assert Map(g, Group(composed, k, init) + [r]) == Map(g, Group(composed, k, init)) + [g(r)];
    }
  }

  /** Joining changed rows is the same as changing them on the fly. */
  lemma {:induction false} JoinOfMapped<L, R, K, O>(
    s: Spec<L, R, K, O>, f: L -> L, g: R -> R, left: seq<L>, right: seq<R>)
    ensures NestedLoop(s, Map(f, left), Map(g, right)) == NestedLoop(After(s, f, g), left, right)
  {
    if left != [] {
      var init, l := left[..|left| - 1], left[|left| - 1];
      JoinOfMapped(s, f, g, init, right);
      assert Map(f, left) == Map(f, init) + [f(l)];
      NestedLoopOneMore(s, Map(f, init), f(l), Map(g, right));
      GroupOfMapped(s.rightKey, g, After(s, f, g).rightKey, s.leftKey(f(l)), right);
      assert Matches(s, f(l), Map(g, right)) == Matches(After(s, f, g), l, right);
    }
  }

  /* ---- The length check ---- */

  ghost predicate UniqueRightKeys<L, R, K, O>(s: Spec<L, R, K, O>, right: seq<R>) {
    forall i, j :: 0 <= i < j < |right| ==> s.rightKey(right[i]) != s.rightKey(right[j])
  }

  ghost predicate HasMatch<L, R, K, O>(s: Spec<L, R, K, O>, l: L, right: seq<R>) {
    exists j :: 0 <= j < |right| && s.rightKey(right[j]) == s.leftKey(l)
  }

  /** row is made of l and a right row with its key. */
  ghost predicate IsMatch<L, R, K, O>(s: Spec<L, R, K, O>, l: L, right: seq<R>, row: O) {
    exists j :: 0 <= j < |right| && s.rightKey(right[j]) == s.leftKey(l) && row == s.combine(l, right[j])
  }

  lemma {:induction false} GroupOfNone<R, K>(key: R -> K, k: K, right: seq<R>)
    requires forall j :: 0 <= j < |right| ==> key(right[j]) != k
    ensures Group(key, k, right) == []
  {
    if right != [] {
      var init := right[..|right| - 1];
      assert right == init + [right[|right| - 1]];
      GroupOfNone(key, k, init);
      GroupOneMore(key, k, init, right[|right| - 1]);
    }
  }

  lemma {:induction false} GroupOfUnique<R, K>(key: R -> K, k: K, right: seq<R>, j: nat)
    requires j < |right| && key(right[j]) == k
    requires forall i :: 0 <= i < |right| && i != j ==> key(right[i]) != k
    ensures Group(key, k, right) == [right[j]]
  {
    var init := right[..|right| - 1];
    assert right == init + [right[|right| - 1]];
    GroupOneMore(key, k, init, right[|right| - 1]);
    if j < |init| {
      GroupOfUnique(key, k, init, j);
    } else {
      GroupOfNone(key, k, init);
    }
  }

  lemma MatchesOfUnique<L, R, K, O>(s: Spec<L, R, K, O>, l: L, right: seq<R>)
    requires UniqueRightKeys(s, right)
    ensures |Matches(s, l, right)| == if HasMatch(s, l, right) then 1 else 0
    ensures HasMatch(s, l, right) ==> IsMatch(s, l, right, Matches(s, l, right)[0])
  {
    if HasMatch(s, l, right) {
      var j :| 0 <= j < |right| && s.rightKey(right[j]) == s.leftKey(l);
      GroupOfUnique(s.rightKey, s.leftKey(l), right, j);
      assert Matches(s, l, right)[0] == s.combine(l, right[j]);
    } else {
      GroupOfNone(s.rightKey, s.leftKey(l), right);
    }
  }

  /** With unique keys on the right, there are as many rows as left rows exactly if every left row
      has a match, and never more; then the i-th row of the nested loop is made of the i-th left
      row and its one match. */
  lemma {:induction false} LengthCheckIsExact<L, R, K, O>(s: Spec<L, R, K, O>, left: seq<L>, right: seq<R>)
    requires UniqueRightKeys(s, right)
    ensures |NestedLoop(s, left, right)| <= |left|
    ensures |NestedLoop(s, left, right)| == |left| <==> forall i :: 0 <= i < |left| ==> HasMatch(s, left[i], right)
    ensures |NestedLoop(s, left, right)| == |left| ==>
              forall i :: 0 <= i < |left| ==> IsMatch(s, left[i], right, NestedLoop(s, left, right)[i])
  {
    if left != [] {
      var init, l := left[..|left| - 1], left[|left| - 1];
      LengthCheckIsExact(s, init, right);
      MatchesOfUnique(s, l, right);
      if |NestedLoop(s, left, right)| == |left| {
        forall i | 0 <= i < |left| ensures HasMatch(s, left[i], right) {
          assert i < |init| ==> left[i] == init[i];
        }
      }
      if forall i :: 0 <= i < |left| ==> HasMatch(s, left[i], right) {
        forall i | 0 <= i < |init| ensures HasMatch(s, init[i], right) {
          assert init[i] == left[i];
        }
      }
    }
  }

  /* ---- When the length check can be trusted ---- */

  /** As many rows as all the elements of left make. */
  function Total<L>(count: L -> nat, left: seq<L>): nat {
    if left == [] then 0 else Total(count, left[..|left| - 1]) + count(left[|left| - 1])
  }

  ghost predicate All<L>(ok: L -> bool, left: seq<L>) {
    forall i :: 0 <= i < |left| ==> ok(left[i])
  }

  /** There are as many rows as left rows exactly if every left row makes one. */
  ghost predicate CountIsExactFor<L>(count: L -> nat, left: seq<L>) {
    Total(count, left) == |left| <==> forall i :: 0 <= i < |left| ==> count(left[i]) >= 1
  }

  /** The same for all left sides of rows that are ok. */
  ghost predicate CountIsExact<L(!new)>(count: L -> nat, ok: L -> bool) {
    forall left: seq<L> :: All(ok, left) ==> CountIsExactFor(count, left)
  }

  lemma {:induction false} TotalOfSingles<L>(count: L -> nat, left: seq<L>)
    requires forall i :: 0 <= i < |left| ==> count(left[i]) <= 1
    ensures Total(count, left) <= |left|
    ensures Total(count, left) == |left| <==> forall i :: 0 <= i < |left| ==> count(left[i]) >= 1
  {
    if left != [] {
      var init := left[..|left| - 1];
      assert forall i :: 0 <= i < |init| ==> init[i] == left[i];
      TotalOfSingles(count, init);
    }
  }

  /** One row first, and then n times another one. */
  function OneAndMany<L>(one: L, other: L, n: nat): seq<L> {
    if n == 0 then [one] else OneAndMany(one, other, n - 1) + [other]
  }

  lemma {:induction false} TotalOfOneAndMany<L>(count: L -> nat, one: L, other: L, n: nat)
    requires count(other) == 0
    ensures |OneAndMany(one, other, n)| == n + 1
    ensures Total(count, OneAndMany(one, other, n)) == count(one)
    ensures forall i :: 0 <= i <= n ==> OneAndMany(one, other, n)[i] == if i == 0 then one else other
  {
    var left := OneAndMany(one, other, n);
    if n == 0 {
      assert left[..0] == [];
    } else {
      TotalOfOneAndMany(count, one, other, n - 1);
      assert left[..|left| - 1] == OneAndMany(one, other, n - 1);
    }
  }

  /** The check can be trusted exactly if no row makes two: a row that makes m could stand for
      itself and m - 1 rows that make none. */
  lemma CountIsExactIffNoDoubles<L(!new)>(count: L -> nat, ok: L -> bool, none: L)
    requires ok(none) && count(none) == 0
    ensures CountIsExact(count, ok) <==> forall l :: ok(l) ==> count(l) <= 1
  {
    if forall l :: ok(l) ==> count(l) <= 1 {
      forall left: seq<L> | All(ok, left) ensures CountIsExactFor(count, left) {
        TotalOfSingles(count, left);
      }
    } else {
      var l :| ok(l) && count(l) > 1;
      var left := OneAndMany(l, none, count(l) - 1);
      TotalOfOneAndMany(count, l, none, count(l) - 1);
      assert count(left[1]) == 0;
      assert All(ok, left) && !CountIsExactFor(count, left);
    }
  }

  lemma {:induction false} EachMakesAsMany<L, R, K, O>(s: Spec<L, R, K, O>, left: seq<L>, right: seq<R>, n: nat)
    requires forall l :: l in left ==> |Matches(s, l, right)| == n
    ensures |NestedLoop(s, left, right)| == |left| * n
  {
    if left != [] {
      var init := left[..|left| - 1];
      EachMakesAsMany(s, init, right, n);
      assert |left| * n == |init| * n + n;
    }
  }

  function RowsOf<L, R, K(==), O>(s: Spec<L, R, K, O>, right: seq<R>): L -> nat {
    (l: L) => |Matches(s, l, right)|
  }

  lemma {:induction false} RowsAreCounted<L, R, K, O>(s: Spec<L, R, K, O>, left: seq<L>, right: seq<R>)
    ensures |NestedLoop(s, left, right)| == Total(RowsOf(s, right), left)
  {
    if left != [] {
      RowsAreCounted(s, left[..|left| - 1], right);
    }
  }

  lemma HasMatchIffRows<L, R, K, O>(s: Spec<L, R, K, O>, l: L, right: seq<R>)
    ensures HasMatch(s, l, right) <==> RowsOf(s, right)(l) >= 1
  {
    GroupMembers(s.rightKey, s.leftKey(l), right);
    var group := Group(s.rightKey, s.leftKey(l), right);
    if HasMatch(s, l, right) {
      var j :| 0 <= j < |right| && s.rightKey(right[j]) == s.leftKey(l);
      assert right[j] in right && right[j] in group;
    } else {
      GroupOfNone(s.rightKey, s.leftKey(l), right);
    }
  }

  /** Two right rows with one key make two rows. */
  lemma {:induction false} GroupOfTwo<R, K>(key: R -> K, k: K, right: seq<R>, i: nat, j: nat)
    requires i < j < |right| && key(right[i]) == key(right[j]) == k
    ensures |Group(key, k, right)| >= 2
  {
    var init, last := right[..|right| - 1], right[|right| - 1];
    assert right == init + [last];
    GroupOneMore(key, k, init, last);
    if j < |init| {
      GroupOfTwo(key, k, init, i, j);
    } else {
      GroupMembers(key, k, init);
      assert init[i] in init && init[i] in Group(key, k, init);
    }
  }
}
