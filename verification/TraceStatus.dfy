/** Pushing failure from calls to the calls they made, on a flat list of rows
    (cli/polygonetl/service/trace_status_calculator.py). */
module TraceStatus {
  import opened Common
  import opened StableSort
  import opened Decimal
  import opened Grouping
  import opened CallTrees

  datatype StatusError = NoAddress | NoParent | DifferentBlock

  predicate HasError(r: Row) { r.error.Some? && r.error.value != "" }

  /** The status of a row on its own. */
  function Own(r: Row): Option<int> { Some(if HasError(r) then 0 else 1) }

  /* ---- Keys ---- */

  function TxKey(r: Row): string {
    Join('_', [Str(r.block), if r.tx.Some? then Str(r.tx.value) else ""])
  }

  function AddressKey(a: Option<seq<nat>>): string {
    if a.None? || a.value == [] then "" else Join(',', Strs(a.value))
  }

  lemma TxKeyInjective(r: Row, q: Row)
    requires r.tx.Some? && q.tx.Some? && TxKey(r) == TxKey(q)
    ensures r.block == q.block && r.tx == q.tx
  {
    var a, b := [r.block, r.tx.value], [q.block, q.tx.value];
    TxKeyIsJoined(r);
    TxKeyIsJoined(q);
    StrsContainNo('_', a);
    StrsContainNo('_', b);
    JoinInjective('_', Strs(a), Strs(b));
    StrsInjective(a, b);
    assert a[0] == b[0] && a[1] == b[1];
  }

  lemma TxKeyIsJoined(r: Row)
    requires r.tx.Some?
    ensures TxKey(r) == Join('_', Strs([r.block, r.tx.value]))
  {
    assert Strs([r.block, r.tx.value]) == [Str(r.block), Str(r.tx.value)];
  }

  lemma AddressKeyEmpty(a: Option<seq<nat>>)
    ensures AddressKey(a) == "" <==> a.None? || a.value == []
  {
    if a.Some? && a.value != [] {
      StrRoundTrip(a.value[0]);
      assert Join(',', Strs(a.value))[0] == Strs(a.value)[0][0];
    }
  }

  lemma AddressKeyInjective(a: seq<nat>, b: seq<nat>)
    requires AddressKey(Some(a)) == AddressKey(Some(b))
    ensures a == b
  {
    AddressKeyEmpty(Some(a));
    AddressKeyEmpty(Some(b));
    if a != [] {
      StrsContainNo(',', a);
      StrsContainNo(',', b);
      JoinInjective(',', Strs(a), Strs(b));
      StrsInjective(a, b);
    }
  }

  /* ---- What the statuses mean ---- */

  /** u's address is one step above that of r. */
  predicate IsAbove(u: Row, r: Row) {
    && u.address.Some? && r.address.Some? && r.address.value != []
    && u.address.value == r.address.value[..|r.address.value| - 1]
  }

  /** u is the row one step above r in the same transaction. */
  predicate IsParent(u: Row, r: Row) {
    r.tx.Some? && u.tx == r.tx && u.block == r.block && IsAbove(u, r)
  }

  /** The parent of t among ts: the last one, if several rows claim its address. */
  function ParentOf(ts: seq<EthTrace>, t: EthTrace): (p: Option<EthTrace>)
    ensures p.Some? ==> IsParent(p.value.row, t.row)
  {
    var p := (u: EthTrace) => IsParent(u.row, t.row);
    LastWhereMember(p, ts);
    LastWhere(p, ts)
  }

  lemma ParentMember(ts: seq<EthTrace>, t: EthTrace)
    ensures ParentOf(ts, t).Some? ==> ParentOf(ts, t).value in ts
    ensures ParentOf(ts, t).None? ==> forall u :: u in ts ==> !IsParent(u.row, t.row)
  {
    var p := (u: EthTrace) => IsParent(u.row, t.row);
    LastWhereMember(p, ts);
    assert forall u: EthTrace :: u in ts ==> (IsParent(u.row, t.row) <==> p(u));
  }

  predicate Failed(ts: seq<EthTrace>, t: EthTrace)
    decreases |AddressOf(t.row)|
  {
    HasError(t.row) || (ParentOf(ts, t).Some? && Failed(ts, ParentOf(ts, t).value))
  }

  function Final(ts: seq<EthTrace>, t: EthTrace): Option<int> {
    Some(if Failed(ts, t) then 0 else 1)
  }

  /** What is wrong with a trace of a transaction. */
  function ErrorOf(ts: seq<EthTrace>, t: EthTrace): Option<StatusError> {
    if t.row.tx.None? then None
    else if t.row.address.None? then Some(NoAddress)
    else if t.row.address.value != [] && ParentOf(ts, t).None? then Some(NoParent)
    else None
  }

  /** Nothing stops the calculation at t: it has an address, and a parent unless it is a root. */
  predicate Sound(ts: seq<EthTrace>, t: EthTrace) { ErrorOf(ts, t).None? }

  /* ---- One list, whose traces need not be of one transaction ---- */

  /** Of the traces one step above t, the last one. */
  function AboveOf(ts: seq<EthTrace>, t: EthTrace): (p: Option<EthTrace>)
    ensures p.Some? ==> IsAbove(p.value.row, t.row)
  {
    var p := (u: EthTrace) => IsAbove(u.row, t.row);
    LastWhereMember(p, ts);
    LastWhere(p, ts)
  }

  lemma AboveMember(ts: seq<EthTrace>, t: EthTrace)
    ensures AboveOf(ts, t).Some? ==> AboveOf(ts, t).value in ts
  {
    LastWhereMember((u: EthTrace) => IsAbove(u.row, t.row), ts);
  }

  predicate FailsIn(ts: seq<EthTrace>, t: EthTrace)
    decreases |AddressOf(t.row)|
  {
    HasError(t.row) || (AboveOf(ts, t).Some? && FailsIn(ts, AboveOf(ts, t).value))
  }

  function FinalIn(ts: seq<EthTrace>, t: EthTrace): Option<int> {
    Some(if FailsIn(ts, t) then 0 else 1)
  }

  /** What is wrong with t, all traces of the list taken for one transaction. */
  function ErrorIn(ts: seq<EthTrace>, t: EthTrace): Option<StatusError> {
    if t.row.address.None? then Some(NoAddress)
    else if t.row.address.value == [] then None
    else if AboveOf(ts, t).None? then Some(NoParent)
    else if AboveOf(ts, t).value.row.block != t.row.block then Some(DifferentBlock)
    else None
  }

  /* ---- The calculation ---- */

  ghost predicate IndexOk(indexed: map<string, EthTrace>, ts: seq<EthTrace>) {
    forall k :: (k in indexed <==> LastWithKey(k, ts).Some?)
                && (k in indexed ==> Some(indexed[k]) == LastWithKey(k, ts))
  }

  function LastWithKey(k: string, ts: seq<EthTrace>): Option<EthTrace> {
    LastWhere((u: EthTrace) => AddressKey(u.row.address) == k, ts)
  }

  /** The traces, parents before children. */
  function ByDepth(all: seq<EthTrace>): (s: seq<EthTrace>)
    ensures |s| == |all|
    ensures forall t :: t in s ==> t in all
    ensures forall t :: t in all ==> t in s
    ensures forall i, j :: 0 <= i < j < |s| ==> |AddressOf(s[i].row)| <= |AddressOf(s[j].row)|
  {
    var depth := (t: EthTrace) => |AddressOf(t.row)|;
    SortByCorrect(depth, all);
    SortByMembers(depth, all);
    assert forall i, j :: 0 <= i < j < |all| ==> depth(SortBy(depth, all)[i]) <= depth(SortBy(depth, all)[j]);
    SortBy(depth, all)
  }

  lemma LastWhereCongruent<T>(p: T -> bool, q: T -> bool, s: seq<T>)
    requires forall x :: x in s ==> p(x) == q(x)
    ensures LastWhere(p, s) == LastWhere(q, s)
  {
  }

  /** The index, keyed by text and filled in order of depth, finds the trace above. */
  lemma LookupFindsAbove(all: seq<EthTrace>, t: EthTrace)
    requires t in all && t.row.address.Some? && t.row.address.value != []
    requires forall u :: u in all && |AddressOf(u.row)| < |AddressOf(t.row)| ==> u.row.address.Some?
    ensures var a := t.row.address.value;
            LastWithKey(AddressKey(Some(a[..|a| - 1])), ByDepth(all)) == AboveOf(all, t)
  {
    var a := t.row.address.value;
    var above := a[..|a| - 1];
    var k := AddressKey(Some(above));
    var sorted := ByDepth(all);
    var p := (u: EthTrace) => AddressKey(u.row.address) == k;
    var q := (u: EthTrace) => IsAbove(u.row, t.row);
    forall u | u in sorted ensures p(u) == q(u) {
      assert u in all;
      AddressKeyEmpty(u.row.address);
      AddressKeyEmpty(Some(above));
      if p(u) {
        assert u.row.address.Some?;
        AddressKeyInjective(u.row.address.value, above);
      }
    }
    LastWhereCongruent(p, q, sorted);
    LastWhereSorted((u: EthTrace) => |AddressOf(u.row)|, q, |above|, all);
  }

  lemma ParentComesEarlier(all: seq<EthTrace>, i: nat, p: EthTrace)
    requires i < |all| && p in all
    requires |AddressOf(p.row)| < |AddressOf(ByDepth(all)[i].row)|
    ensures exists j :: 0 <= j < i && ByDepth(all)[j] == p
  {
    var sorted := ByDepth(all);
    assert p in sorted;
    var j :| 0 <= j < |sorted| && sorted[j] == p;
  }

  method BuildIndex(ts: seq<EthTrace>) returns (indexed: map<string, EthTrace>)
    ensures IndexOk(indexed, ts)
  {
    indexed := map[];
    for i := 0 to |ts|
      invariant IndexOk(indexed, ts[..i])
    {
      forall k ensures LastWithKey(k, ts[..i + 1]) ==
        if AddressKey(ts[i].row.address) == k then Some(ts[i]) else LastWithKey(k, ts[..i]) {
        assert ts[..i + 1][..i] == ts[..i];
      }
      indexed := indexed[AddressKey(ts[i].row.address) := ts[i]];
    }
    assert ts[..|ts|] == ts;
  }

  lemma ShallowerHaveAddress(all: seq<EthTrace>, i: nat)
    requires i < |all| && forall j :: 0 <= j < i ==> ErrorIn(all, ByDepth(all)[j]).None?
    ensures forall u :: u in all && |AddressOf(u.row)| < |AddressOf(ByDepth(all)[i].row)| ==> u.row.address.Some?
  {
    forall u | u in all && |AddressOf(u.row)| < |AddressOf(ByDepth(all)[i].row)| ensures u.row.address.Some? {
      ParentComesEarlier(all, i, u);
      var j :| 0 <= j < i && ByDepth(all)[j] == u;
      assert ErrorIn(all, u).None?;
    }
  }

  /** When nothing was wrong before position i, the lookup at i finds the trace above, and that one has
      been dealt with. */
  lemma LookupAt(all: seq<EthTrace>, i: nat, indexed: map<string, EthTrace>)
    requires i < |all| && IndexOk(indexed, ByDepth(all))
    requires forall j :: 0 <= j < i ==> ErrorIn(all, ByDepth(all)[j]).None?
    requires ByDepth(all)[i].row.address.Some? && ByDepth(all)[i].row.address.value != []
    ensures var t := ByDepth(all)[i];
            var a := t.row.address.value;
            var key := AddressKey(Some(a[..|a| - 1]));
            && (key in indexed <==> AboveOf(all, t).Some?)
            && (key in indexed ==> Some(indexed[key]) == AboveOf(all, t)
                                   && exists j :: 0 <= j < i && ByDepth(all)[j] == indexed[key])
  {
    var t := ByDepth(all)[i];
    assert t in all;
    ShallowerHaveAddress(all, i);
    LookupFindsAbove(all, t);
    AboveMember(all, t);
    if AboveOf(all, t).Some? {
      ParentComesEarlier(all, i, AboveOf(all, t).value);
    }
  }

  /** The traces before position i have their final status. */
  ghost predicate DoneUpTo(all: seq<EthTrace>, i: nat)
    reads set t: EthTrace | t in all
    requires i <= |all|
  {
    forall j :: 0 <= j < i ==> IsDone(all, ByDepth(all)[j])
  }

  ghost predicate IsDone(all: seq<EthTrace>, t: EthTrace)
    reads t
  {
    ErrorIn(all, t).None? && t.status == FinalIn(all, t)
  }

  ghost predicate Underway(all: seq<EthTrace>)
    reads set t: EthTrace | t in all
  {
    forall t :: t in all ==> t.status == Own(t.row) || t.status == FinalIn(all, t)
  }

  /** What the loop finds at position i. Parents come first, so the parent's status is already
      final: the trace fails exactly if it says so or has failed itself. */
  method Inspect(all: seq<EthTrace>, i: nat, indexed: map<string, EthTrace>)
    returns (err: Option<StatusError>, parentFailed: bool)
    requires i < |all| && IndexOk(indexed, ByDepth(all)) && DoneUpTo(all, i)
    ensures err == ErrorIn(all, ByDepth(all)[i])
    ensures var t := ByDepth(all)[i];
            err.None? ==> FinalIn(all, t) == if parentFailed then Some(0) else Own(t.row)
  {
    var trace := ByDepth(all)[i];
    assert trace in all;
    if trace.row.address.None? {
      return Some(NoAddress), false;
    }
    var a := trace.row.address.value;
    if |a| == 0 {
      return None, false;
    }
    LookupAt(all, i, indexed);
    var key := AddressKey(Some(a[..|a| - 1]));
    if key !in indexed {
      return Some(NoParent), false;
    }
    var parent := indexed[key];
    if parent.row.block != trace.row.block {
      return Some(DifferentBlock), false;
    }
    assert IsDone(all, parent);
    return None, parent.status == Some(0);
  }

  /** One turn of the loop. */
  method Visit(all: seq<EthTrace>, i: nat, trace: EthTrace, indexed: map<string, EthTrace>)
    returns (err: Option<StatusError>)
    requires i < |all| && IndexOk(indexed, ByDepth(all)) && trace == ByDepth(all)[i]
    requires DoneUpTo(all, i) && Underway(all)
    modifies trace`status
    ensures err == ErrorIn(all, trace)
    ensures err.None? ==> DoneUpTo(all, i + 1) && Underway(all)
  {
    assert trace in ByDepth(all) && trace in all;
    assert trace.status == Own(trace.row) || trace.status == FinalIn(all, trace);
    var parentFailed;
    err, parentFailed := Inspect(all, i, indexed);
    if err.None? {
      if parentFailed {
        trace.status := Some(0);
      }
      assert IsDone(all, trace);
      forall j | 0 <= j < i + 1 ensures IsDone(all, ByDepth(all)[j]) {
        assert ByDepth(all)[j] in ByDepth(all) && ByDepth(all)[j] in all;
        if ByDepth(all)[j] != trace {
          assert old(IsDone(all, ByDepth(all)[j]));
        }
      }
    }
  }

  /** err is what is wrong with the first trace, by depth, with which something is wrong. */
  ghost predicate IsFirstError(all: seq<EthTrace>, err: Option<StatusError>) {
    if forall t :: t in all ==> ErrorIn(all, t).None? then err.None?
    else err.Some? && exists i :: 0 <= i < |all| && IsErrorAt(all, err, i)
  }

  ghost predicate IsErrorAt(all: seq<EthTrace>, err: Option<StatusError>, i: nat)
    requires i < |all|
  {
    err == ErrorIn(all, ByDepth(all)[i]) && forall j :: 0 <= j < i ==> ErrorIn(all, ByDepth(all)[j]).None?
  }

  /** Any list of traces: it need not be a tree, nor of one transaction or block. The error, if any, is
      the first one; otherwise a trace fails exactly if it has an error or one above it has. */
  method CalculateForSingleTransaction(all: seq<EthTrace>) returns (err: Option<StatusError>)
    requires forall t :: t in all ==> t.status == Own(t.row)
    modifies (set t: EthTrace | t in all)`status
    ensures IsFirstError(all, err)
    ensures err.None? ==> forall t :: t in all ==> t.status == FinalIn(all, t)
  {
    var sorted := ByDepth(all);
    var indexed := BuildIndex(sorted);
    for i := 0 to |sorted|
      invariant DoneUpTo(all, i) && Underway(all)
    {
      assert sorted[i] in sorted && sorted[i] in all;
      err := Visit(all, i, sorted[i], indexed);
      if err.Some? {
        assert IsErrorAt(all, err, i);
        return;
      }
    }
    err := None;
    forall t | t in all ensures IsDone(all, t) {
      assert t in sorted;
    }
  }

  /* ---- Transactions ---- */

  ghost predicate OneTransaction(all: seq<EthTrace>) {
    forall t, u :: t in all && u in all ==>
      t.row.tx.Some? && t.row.tx == u.row.tx && t.row.block == u.row.block
  }

  /** Among the traces of one transaction, the one above is the parent, and has the same block. */
  lemma AboveIsParent(all: seq<EthTrace>, t: EthTrace)
    requires OneTransaction(all) && t in all
    ensures AboveOf(all, t) == ParentOf(all, t) && ErrorIn(all, t) == ErrorOf(all, t)
  {
    var p := (u: EthTrace) => IsAbove(u.row, t.row);
    var q := (u: EthTrace) => IsParent(u.row, t.row);
    LastWhereCongruent(p, q, all);
  }

  lemma {:induction false} FailsInIsFailed(all: seq<EthTrace>, t: EthTrace)
    requires OneTransaction(all) && t in all
    ensures FailsIn(all, t) == Failed(all, t)
    decreases |AddressOf(t.row)|
  {
    AboveIsParent(all, t);
    AboveMember(all, t);
    if AboveOf(all, t).Some? {
      FailsInIsFailed(all, AboveOf(all, t).value);
    }
  }

  predicate SameTransaction(r: Row, q: Row) {
    r.tx.Some? && r.tx == q.tx && r.block == q.block
  }

  /** Failure only depends on where parents are found. */
  lemma {:induction false} SameParentsSameFailures(ts: seq<EthTrace>, us: seq<EthTrace>, t: EthTrace)
    requires t.row.tx.Some?
    requires forall u: EthTrace :: SameTransaction(u.row, t.row) ==> ParentOf(us, u) == ParentOf(ts, u)
    ensures Failed(us, t) == Failed(ts, t)
    decreases |AddressOf(t.row)|
  {
    assert SameTransaction(t.row, t.row);
    if ParentOf(ts, t).Some? {
      SameParentsSameFailures(ts, us, ParentOf(ts, t).value);
    }
  }

  function KeyOf(): EthTrace -> string { (t: EthTrace) => TxKey(t.row) }

  function InTransaction(): EthTrace -> bool { (t: EthTrace) => t.row.tx.Some? }

  /** The group of a transaction's key holds the traces of that transaction and no others. */
  lemma GroupRows(traces: seq<EthTrace>, k: string)
    ensures var group := Group(KeyOf(), k, Filter(InTransaction(), traces));
            forall t :: t in group ==> t in traces && t.row.tx.Some? && TxKey(t.row) == k
    ensures OneTransaction(Group(KeyOf(), k, Filter(InTransaction(), traces)))
  {
    var inTx := Filter(InTransaction(), traces);
    var group := Group(KeyOf(), k, inTx);
    FilterMembers(InTransaction(), traces);
    GroupMembers(KeyOf(), k, inTx);
    forall t | t in group ensures t in traces && t.row.tx.Some? && TxKey(t.row) == k {
      assert t in inTx && KeyOf()(t) == k && InTransaction()(t);
    }
    forall u, v | u in group && v in group
      ensures u.row.tx.Some? && u.row.tx == v.row.tx && u.row.block == v.row.block {
      TxKeyInjective(u.row, v.row);
    }
  }

  lemma FailedInTransaction(traces: seq<EthTrace>, k: string, t: EthTrace)
    requires t.row.tx.Some? && TxKey(t.row) == k
    ensures var group := Group(KeyOf(), k, Filter(InTransaction(), traces));
            ParentOf(group, t) == ParentOf(traces, t) && Failed(group, t) == Failed(traces, t)
  {
    var inTx := Filter(InTransaction(), traces);
    forall u: EthTrace | SameTransaction(u.row, t.row)
      ensures ParentOf(Group(KeyOf(), k, inTx), u) == ParentOf(traces, u) {
      var p := (v: EthTrace) => IsParent(v.row, u.row);
      LastWhereFilter(p, InTransaction(), traces);
      LastWhereInGroup(p, KeyOf(), k, inTx);
    }
    assert SameTransaction(t.row, t.row);
    SameParentsSameFailures(traces, Group(KeyOf(), k, inTx), t);
  }

  ghost predicate AllFinal(ts: seq<EthTrace>, group: seq<EthTrace>)
    reads set t: EthTrace | t in group
  {
    forall i :: 0 <= i < |group| ==> Sound(ts, group[i]) && group[i].status == Final(ts, group[i])
  }

  ghost predicate AllOwn(group: seq<EthTrace>)
    reads set t: EthTrace | t in group
  {
    forall i :: 0 <= i < |group| ==> group[i].status == Own(group[i].row)
  }

  /** One transaction's traces get their final statuses. */
  method CalculateForGroup(traces: seq<EthTrace>, k: string, group: seq<EthTrace>)
    returns (err: Option<StatusError>)
    requires group == Group(KeyOf(), k, Filter(InTransaction(), traces))
    requires AllOwn(group)
    modifies (set t: EthTrace | t in group)`status
    ensures err.None? ==> AllFinal(traces, group)
    ensures err.Some? ==> exists t :: t in group && err == ErrorOf(traces, t)
  {
    GroupRows(traces, k);
    forall t | t in group
      ensures ErrorIn(group, t) == ErrorOf(traces, t) && FinalIn(group, t) == Final(traces, t) {
      FailedInTransaction(traces, k, t);
      AboveIsParent(group, t);
      FailsInIsFailed(group, t);
    }
    forall t | t in group ensures t.status == Own(t.row) {
    }
    err := CalculateForSingleTransaction(group);
    if err.Some? {
      ghost var i :| 0 <= i < |group| && IsErrorAt(group, err, i);
      assert ByDepth(group)[i] in ByDepth(group);
    }
  }

  method SetOwn(traces: seq<EthTrace>)
    modifies (set t: EthTrace | t in traces)`status
    ensures forall t :: t in traces ==> t.status == Own(t.row)
  {
    for i := 0 to |traces|
      invariant forall j :: 0 <= j < i ==> traces[j].status == Own(traces[j].row)
    {
      assert traces[i] in traces;
      traces[i].status := if HasError(traces[i].row) then Some(0) else Some(1);
    }
  }

  /** Sets the status of every trace. It raises exactly if some trace of a transaction has no
      address or no parent; otherwise a trace has status 0 exactly if it failed or its parent did. */
  method CalculateTraceStatuses(traces: seq<EthTrace>) returns (err: Option<StatusError>)
    modifies (set t: EthTrace | t in traces)`status
    ensures err.None? <==> forall t :: t in traces ==> Sound(traces, t)
    ensures err.Some? ==> exists t :: t in traces && err == ErrorOf(traces, t)
    ensures err.None? ==> forall t :: t in traces ==> t.status == Final(traces, t)
  {
    SetOwn(traces);
    var inTx := Filter(InTransaction(), traces);
    var groups, keys := GroupBy(KeyOf(), inTx);
    forall k | k in groups ensures AllOwn(groups[k]) && forall t :: t in groups[k] ==> t in traces {
      GroupRows(traces, k);
    }
    for g := 0 to |keys|
      invariant forall j :: 0 <= j < g ==> AllFinal(traces, groups[keys[j]])
      invariant forall j :: g <= j < |keys| ==> AllOwn(groups[keys[j]])
      invariant forall t :: t in traces && t.row.tx.None? ==> t.status == Own(t.row)
    {
      var group := groups[keys[g]];
      GroupRows(traces, keys[g]);
      OtherGroupsAreDisjoint(traces, groups, keys, g);
      err := CalculateForGroup(traces, keys[g], group);
      if err.Some? {
        return;
      }
    }
    err := None;
    forall t | t in traces ensures Sound(traces, t) && t.status == Final(traces, t) {
      if t.row.tx.Some? {
        InGroupOfTransaction(traces, groups, keys, t);
        assert AllFinal(traces, groups[KeyOf()(t)]);
      } else {
        NoTransactionNoParent(traces, t);
      }
    }
  }

  lemma InGroupOfTransaction(traces: seq<EthTrace>, groups: map<string, seq<EthTrace>>, keys: seq<string>, t: EthTrace)
    requires IsGrouping(KeyOf(), Filter(InTransaction(), traces), groups, keys)
    requires t in traces && t.row.tx.Some?
    ensures KeyOf()(t) in groups && t in groups[KeyOf()(t)]
  {
    FilterMembers(InTransaction(), traces);
    InOwnGroup(KeyOf(), Filter(InTransaction(), traces), groups, keys, t);
  }

  lemma OtherGroupsAreDisjoint(traces: seq<EthTrace>, groups: map<string, seq<EthTrace>>, keys: seq<string>, g: nat)
    requires IsGrouping(KeyOf(), Filter(InTransaction(), traces), groups, keys) && g < |keys|
    ensures forall j :: 0 <= j < |keys| && j != g ==> forall t :: t in groups[keys[j]] ==> t !in groups[keys[g]]
    ensures forall t :: t in groups[keys[g]] ==> t in traces && t.row.tx.Some?
  {
    GroupRows(traces, keys[g]);
    forall j | 0 <= j < |keys| && j != g ensures forall t :: t in groups[keys[j]] ==> t !in groups[keys[g]] {
      GroupRows(traces, keys[j]);
    }
  }

  lemma NoTransactionNoParent(ts: seq<EthTrace>, t: EthTrace)
    requires t.row.tx.None?
    ensures ParentOf(ts, t).None?
  {
  }

  /* ---- Order does not matter ---- */

  predicate SamePlace(r: Row, q: Row) {
    r.tx.Some? && r.tx == q.tx && r.block == q.block && r.address == q.address
  }

  /** No two traces claim the same place. */
  ghost predicate UniqueKeys(ts: seq<EthTrace>) {
    forall t, u | t in ts && u in ts ::
      SamePlace(t.row, u.row) ==> t == u
  }

  /** The statuses depend on which traces there are, not on their order in the list. */
  lemma {:induction false} OrderDoesNotMatter(ts: seq<EthTrace>, us: seq<EthTrace>, t: EthTrace)
    requires UniqueKeys(ts)
    requires forall x :: x in ts ==> x in us
    requires forall x :: x in us ==> x in ts
    ensures ParentOf(ts, t) == ParentOf(us, t)
    ensures Failed(ts, t) == Failed(us, t)
    decreases |AddressOf(t.row)|
  {
    ParentMember(ts, t);
    ParentMember(us, t);
    if ParentOf(ts, t).Some? {
      var p, q := ParentOf(ts, t), ParentOf(us, t);
      assert q.Some? && q.value in ts;
      assert p.value == q.value;
      OrderDoesNotMatter(ts, us, p.value);
    }
  }
}
