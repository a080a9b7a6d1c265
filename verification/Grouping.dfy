/** `defaultdict(list)` filled by a loop, as trace_status_calculator.py, trace_id_calculator.py and
    enrich.py do it. */
module Grouping {
  import opened Common

  function HasKey<T, K(==)>(key: T -> K, k: K): T -> bool {
    (x: T) => key(x) == k
  }

  function Group<T, K(==)>(key: T -> K, k: K, s: seq<T>): seq<T> {
    Filter(HasKey(key, k), s)
  }

  ghost predicate IsGrouping<T, K(!new)>(key: T -> K, s: seq<T>, groups: map<K, seq<T>>, keys: seq<K>) {
    && (forall k :: k in groups <==> k in keys)
    && (forall k :: k in groups <==> Group(key, k, s) != [])
    && (forall k :: k in groups ==> groups[k] == Group(key, k, s))
    && (forall i, j :: 0 <= i < j < |keys| ==> keys[i] != keys[j])
  }

  lemma GroupMembers<T, K>(key: T -> K, k: K, s: seq<T>)
    ensures forall x :: x in Group(key, k, s) ==> x in s && key(x) == k
    ensures forall x :: x in s && key(x) == k ==> x in Group(key, k, s)
  {
    FilterMembers(HasKey(key, k), s);
  }

  lemma LastWhereInGroup<T, K>(p: T -> bool, key: T -> K, k: K, s: seq<T>)
    requires forall x :: x in s && p(x) ==> key(x) == k
    ensures LastWhere(p, Group(key, k, s)) == LastWhere(p, s)
  {
    LastWhereFilter(p, HasKey(key, k), s);
  }

  /** Every element is in the group of its key. */
  lemma InOwnGroup<T, K(!new)>(key: T -> K, s: seq<T>, groups: map<K, seq<T>>, keys: seq<K>, x: T)
    requires IsGrouping(key, s, groups, keys) && x in s
    ensures key(x) in groups && x in groups[key(x)]
  {
    GroupMembers(key, key(x), s);
    assert x in Group(key, key(x), s);
  }

  lemma GroupOneMore<T, K>(key: T -> K, k: K, s: seq<T>, x: T)
    ensures Group(key, k, s + [x]) == Group(key, k, s) + (if key(x) == k then [x] else [])
  {
    assert (s + [x])[..|s|] == s;
  }

  /** The keys in the order in which they first occur. */
  function FirstKeys<T, K(==)>(key: T -> K, s: seq<T>): seq<K> {
    if s == [] then []
    else
      var before := FirstKeys(key, s[..|s| - 1]);
      if key(s[|s| - 1]) in before then before else before + [key(s[|s| - 1])]
  }

  lemma GroupingOneMore<T, K(!new)>(key: T -> K, s: seq<T>, groups: map<K, seq<T>>, keys: seq<K>, x: T)
    requires IsGrouping(key, s, groups, keys) && keys == FirstKeys(key, s)
    ensures var k := key(x);
            var group := if k in groups then groups[k] else [];
            var keys' := if k in groups then keys else keys + [k];
            IsGrouping(key, s + [x], groups[k := group + [x]], keys') && keys' == FirstKeys(key, s + [x])
  {
    assert (s + [x])[..|s|] == s;
    forall q ensures Group(key, q, s + [x]) == Group(key, q, s) + (if key(x) == q then [x] else []) {
      GroupOneMore(key, q, s, x);
    }
  }

  /** Groups by key; `keys` are the dictionary's keys in insertion order. */
  method GroupBy<T, K(==,!new)>(key: T -> K, s: seq<T>) returns (groups: map<K, seq<T>>, keys: seq<K>)
    ensures IsGrouping(key, s, groups, keys)
    ensures keys == FirstKeys(key, s)
  {
    groups, keys := map[], [];
    for i := 0 to |s|
      invariant IsGrouping(key, s[..i], groups, keys)
      invariant keys == FirstKeys(key, s[..i])
    {
      assert s[..i + 1] == s[..i] + [s[i]];
      GroupingOneMore(key, s[..i], groups, keys, s[i]);
      var k := key(s[i]);
      var group := if k in groups then groups[k] else [];
      keys := if k in groups then keys else keys + [k];
      groups := groups[k := group + [s[i]]];
    }
    assert s[..|s|] == s;
  }
}
