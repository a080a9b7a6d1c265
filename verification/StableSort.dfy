/** Python's `sorted(s, key=...)`: ascending by key, equal keys in their original order. */
module StableSort {
  import opened Common

  function Insert<T>(key: T -> int, x: T, s: seq<T>): seq<T> {
    if s == [] || key(x) <= key(s[0]) then [x] + s
    else [s[0]] + Insert(key, x, s[1..])
  }

  function SortBy<T>(key: T -> int, s: seq<T>): seq<T> {
    if s == [] then [] else Insert(key, s[0], SortBy(key, s[1..]))
  }

  ghost predicate Ascending<T>(key: T -> int, s: seq<T>) {
    forall i, j :: 0 <= i < j < |s| ==> key(s[i]) <= key(s[j])
  }

  lemma InsertMultiset<T>(key: T -> int, x: T, s: seq<T>)
    ensures multiset(Insert(key, x, s)) == multiset(s) + multiset{x}
  {
    if s == [] || key(x) <= key(s[0]) {
    } else {
      InsertMultiset(key, x, s[1..]);
      assert s == [s[0]] + s[1..];
    }
  }

  lemma InsertAscending<T>(key: T -> int, x: T, s: seq<T>)
    requires Ascending(key, s)
    ensures Ascending(key, Insert(key, x, s))
  {
    if s == [] || key(x) <= key(s[0]) {
    } else {
      InsertAscending(key, x, s[1..]);
      InsertMultiset(key, x, s[1..]);
      var t := Insert(key, x, s[1..]);
      forall i | 0 <= i < |t| ensures key(s[0]) <= key(t[i]) {
        assert t[i] in multiset(t);
        assert t[i] == x || t[i] in s[1..];
      }
    }
  }

  /** The entries with a given key. */
  function WithKey<T>(key: T -> int, k: int, s: seq<T>): seq<T> {
    if s == [] then []
    else (if key(s[0]) == k then [s[0]] else []) + WithKey(key, k, s[1..])
  }

  lemma InsertStable<T>(key: T -> int, k: int, x: T, s: seq<T>)
    requires Ascending(key, s)
    ensures WithKey(key, k, Insert(key, x, s)) == WithKey(key, k, [x] + s)
  {
    assert ([x] + s)[1..] == s;
    if s == [] || key(x) <= key(s[0]) {
    } else {
      InsertStable(key, k, x, s[1..]);
      assert ([x] + s[1..])[1..] == s[1..];
      var t := Insert(key, x, s[1..]);
      assert ([s[0]] + t)[1..] == t;
    }
  }

  /** `SortBy` returns an ascending, stable permutation of its input. */
  lemma {:induction false} SortByCorrect<T>(key: T -> int, s: seq<T>)
    ensures Ascending(key, SortBy(key, s))
    ensures multiset(SortBy(key, s)) == multiset(s)
    ensures forall k :: WithKey(key, k, SortBy(key, s)) == WithKey(key, k, s)
  {
    if s != [] {
      var t := SortBy(key, s[1..]);
      SortByCorrect(key, s[1..]);
      InsertMultiset(key, s[0], t);
      InsertAscending(key, s[0], t);
      assert s == [s[0]] + s[1..];
      forall k ensures WithKey(key, k, SortBy(key, s)) == WithKey(key, k, s) {
        InsertStable(key, k, s[0], t);
        assert ([s[0]] + t)[1..] == t;
      }
    }
  }

  lemma SortByMembers<T>(key: T -> int, s: seq<T>)
    ensures |SortBy(key, s)| == |s|
    ensures forall x :: x in SortBy(key, s) ==> x in s
    ensures forall x :: x in s ==> x in SortBy(key, s)
  {
    SortByCorrect(key, s);
    assert |multiset(SortBy(key, s))| == |multiset(s)|;
    forall x | x in SortBy(key, s) ensures x in s {
      assert x in multiset(SortBy(key, s));
    }
    forall x | x in s ensures x in SortBy(key, s) {
      assert x in multiset(s);
    }
  }

  lemma {:induction false} WithKeyIsFilter<T>(key: T -> int, k: int, s: seq<T>)
    ensures WithKey(key, k, s) == Filter(x => key(x) == k, s)
  {
    if s != [] {
      WithKeyIsFilter(key, k, s[1..]);
      FilterCons(x => key(x) == k, s);
    }
  }

  lemma {:induction false} FilterCons<T>(p: T -> bool, s: seq<T>)
    requires s != []
    ensures Filter(p, s) == (if p(s[0]) then [s[0]] else []) + Filter(p, s[1..])
  {
    if |s| > 1 {
      FilterCons(p, s[..|s| - 1]);
      assert s[..|s| - 1][1..] == s[1..][..|s| - 2];
    }
  }

  /** A dictionary built from the sorted list holds the same last entry as one built from the
      original list, when all candidates for the key have the same sort key. */
  lemma LastWhereSorted<T>(key: T -> int, p: T -> bool, k: int, s: seq<T>)
    requires forall x :: x in s && p(x) ==> key(x) == k
    ensures LastWhere(p, SortBy(key, s)) == LastWhere(p, s)
  {
    SortByCorrect(key, s);
    SortByMembers(key, s);
    var q := x => key(x) == k;
    LastWhereFilter(p, q, s);
    forall x | x in SortBy(key, s) && p(x) ensures q(x) {
      assert x in s;
    }
    LastWhereFilter(p, q, SortBy(key, s));
    WithKeyIsFilter(key, k, s);
    WithKeyIsFilter(key, k, SortBy(key, s));
  }
}
