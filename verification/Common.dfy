/** Result types shared by the whole project, and list operations the source's loops perform. */
module Common {

  datatype Option<+T> = None | Some(value: T)

  /** A call that either returns a value or raises an error. */
  datatype Result<+T, +E> = Success(value: T) | Failure(error: E)

  /** The elements of `s` that satisfy `p`, in order. */
  function Filter<T>(p: T -> bool, s: seq<T>): seq<T> {
    if s == [] then []
    else Filter(p, s[..|s| - 1]) + (if p(s[|s| - 1]) then [s[|s| - 1]] else [])
  }

  /** What a dictionary built from `s` in order holds for a key: the last entry written. */
  function LastWhere<T>(p: T -> bool, s: seq<T>): Option<T> {
    if s == [] then None
    else if p(s[|s| - 1]) then Some(s[|s| - 1])
    else LastWhere(p, s[..|s| - 1])
  }

  lemma FilterMembers<T>(p: T -> bool, s: seq<T>)
    ensures forall x :: x in Filter(p, s) ==> x in s && p(x)
    ensures forall x :: x in s && p(x) ==> x in Filter(p, s)
  {
  }

  lemma LastWhereMember<T>(p: T -> bool, s: seq<T>)
    ensures LastWhere(p, s).Some? <==> exists x :: x in s && p(x)
    ensures LastWhere(p, s).Some? ==> LastWhere(p, s).value in s && p(LastWhere(p, s).value)
  {
  }

  /** Looking only among a superset of the candidates finds the same entry. */
  lemma LastWhereFilter<T>(p: T -> bool, q: T -> bool, s: seq<T>)
    requires forall x :: x in s && p(x) ==> q(x)
    ensures LastWhere(p, Filter(q, s)) == LastWhere(p, s)
  {
    if s != [] {
      var init, x := s[..|s| - 1], s[|s| - 1];
      LastWhereFilter(p, q, init);
      if q(x) {
        assert Filter(q, s)[..|Filter(q, s)| - 1] == Filter(q, init);
      } else {
        assert Filter(q, s) == Filter(q, init);
      }
    }
  }

  lemma SubsetCardinality<T>(a: set<T>, b: set<T>)
    requires a <= b
    ensures |a| <= |b|
  {
    assert b == a + (b - a);
  }
}
