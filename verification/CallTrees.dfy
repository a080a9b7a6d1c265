/** Flattening nested calls to addressed rows (cli/polygonetl/mappers/trace_mapper.py). */
module CallTrees {
  import opened Common

  /** A call as the node reports it, with the calls it made. */
  datatype Call = Call(kind: string, error: Option<string>, calls: seq<Call>)

  /** What a trace row says that does not change after it is made. Rows from other sources may lack
      a transaction index or an address. */
  datatype Row = Row(
    block: nat,
    tx: Option<nat>,
    address: Option<seq<nat>>,
    traceType: string,
    callType: Option<string>,
    error: Option<string>,
    subtraces: nat)

  class EthTrace {
    const row: Row
    var status: Option<int>
    var traceId: string

    constructor (r: Row)
      ensures row == r
    {
      row := r;
      status := None;
      traceId := "";
    }
  }

  function Lower(s: string): string {
    seq(|s|, i requires 0 <= i < |s| =>
      if 'A' <= s[i] <= 'Z' then (s[i] as int - 'A' as int + 'a' as int) as char else s[i])
  }

  const CALL_KINDS := {"call", "callcode", "delegatecall", "staticcall"}

  function TraceType(kind: string): string {
    var k := Lower(kind);
    if k == "selfdestruct" then "suicide"
    else if k in CALL_KINDS then "call"
    else k
  }

  function RowOf(block: nat, tx: nat, call: Call, address: seq<nat>): Row {
    Row(block, Some(tx), Some(address), TraceType(call.kind),
        if Lower(call.kind) in CALL_KINDS then Some(Lower(call.kind)) else None,
        call.error, |call.calls|)
  }

  /* ---- Types of calls ---- */

  predicate IsUpper(c: char) { 'A' <= c <= 'Z' }

  /** The same letter, or one is the other in lower case. */
  predicate SameLetter(x: char, y: char) {
    x == y || (IsUpper(x) && y as int == x as int + 32) || (IsUpper(y) && x as int == y as int + 32)
  }

  predicate SameUpToCase(s: string, t: string) {
    |s| == |t| && forall i :: 0 <= i < |s| ==> SameLetter(s[i], t[i])
  }

  predicate NoUpper(s: string) {
    forall i :: 0 <= i < |s| ==> !IsUpper(s[i])
  }

  lemma LowerMeans(s: string)
    ensures SameUpToCase(Lower(s), s) && NoUpper(Lower(s))
  {
  }

  /** There is only one text without upper case. */
  lemma LowerIsUnique(s: string, t: string)
    requires SameUpToCase(s, t) && NoUpper(t)
    ensures Lower(s) == t
  {
    LowerMeans(s);
    forall i | 0 <= i < |s| ensures Lower(s)[i] == t[i] {
      assert SameLetter(s[i], t[i]) && !IsUpper(t[i]);
    }
  }

  lemma LowerOfSame(s: string, t: string)
    requires SameUpToCase(s, t)
    ensures Lower(s) == Lower(t)
  {
    forall i | 0 <= i < |s| ensures Lower(s)[i] == Lower(t)[i] {
      assert SameLetter(s[i], t[i]);
    }
  }

  /** The kind is one of the four kinds of call, in whatever case. */
  ghost predicate IsCallKind(kind: string) {
    || SameUpToCase(kind, "call")
    || SameUpToCase(kind, "callcode")
    || SameUpToCase(kind, "delegatecall")
    || SameUpToCase(kind, "staticcall")
  }

  lemma IsKindIff(kind: string, name: string)
    requires NoUpper(name)
    ensures SameUpToCase(kind, name) <==> Lower(kind) == name
  {
    LowerMeans(kind);
    if SameUpToCase(kind, name) {
      LowerIsUnique(kind, name);
    }
  }

  lemma IsCallKindIff(kind: string)
    ensures IsCallKind(kind) <==> Lower(kind) in CALL_KINDS
  {
    IsKindIff(kind, "call");
    IsKindIff(kind, "callcode");
    IsKindIff(kind, "delegatecall");
    IsKindIff(kind, "staticcall");
  }

  /** What a row says of the kind of its call: types have no upper case; a self-destruct is a
      "suicide"; a call of whatever kind is a "call" and keeps its kind as call type; any other type is
      the kind itself. */
  lemma TypesOfRows(block: nat, tx: nat, call: Call, address: seq<nat>)
    ensures var r := RowOf(block, tx, call, address);
            && NoUpper(r.traceType)
            && (SameUpToCase(call.kind, "selfdestruct") ==> r.traceType == "suicide" && r.callType.None?)
            && (IsCallKind(call.kind) ==> r.traceType == "call")
            && (r.callType.Some? <==> IsCallKind(call.kind))
            && (r.callType.Some? ==> NoUpper(r.callType.value) && SameUpToCase(r.callType.value, call.kind))
            && (!SameUpToCase(call.kind, "selfdestruct") && !IsCallKind(call.kind) ==>
                  SameUpToCase(r.traceType, call.kind))
  {
    LowerMeans(call.kind);
    IsKindIff(call.kind, "selfdestruct");
    IsCallKindIff(call.kind);
  }

  /** The case of the kind makes no difference. */
  lemma CaseDoesNotMatter(block: nat, tx: nat, call: Call, kind: string, address: seq<nat>)
    requires SameUpToCase(kind, call.kind)
    ensures RowOf(block, tx, call.(kind := kind), address) == RowOf(block, tx, call, address)
  {
    LowerOfSame(kind, call.kind);
  }

  /** The rows of a call and everything below it. */
  function Flatten(block: nat, tx: nat, call: Call, address: seq<nat>): seq<Row>
    decreases call, |call.calls| + 1
  {
    [RowOf(block, tx, call, address)] + FlattenFirst(block, tx, call, address, |call.calls|)
  }

  /** The rows below the first n calls made by a call. */
  function FlattenFirst(block: nat, tx: nat, call: Call, address: seq<nat>, n: nat): seq<Row>
    requires n <= |call.calls|
    decreases call, n
  {
    if n == 0 then []
    else FlattenFirst(block, tx, call, address, n - 1)
         + Flatten(block, tx, call.calls[n - 1], address + [n - 1])
  }

  function Rows(traces: seq<EthTrace>): seq<Row> {
    seq(|traces|, i requires 0 <= i < |traces| => traces[i].row)
  }

  lemma RowsConcat(a: seq<EthTrace>, b: seq<EthTrace>)
    ensures Rows(a + b) == Rows(a) + Rows(b)
  {
  }

  lemma Associate(x: seq<Row>, y: seq<Row>, z: seq<Row>)
    ensures (x + y) + z == x + (y + z)
  {
  }

  method IterateTransactionTrace(block: nat, tx: nat, call: Call, address: seq<nat>)
    returns (result: seq<EthTrace>)
    ensures Rows(result) == Flatten(block, tx, call, address)
    ensures forall t :: t in result ==> fresh(t)
    decreases call
  {
    var trace := new EthTrace(RowOf(block, tx, call, address));
    result := [trace];
    for k := 0 to |call.calls|
      invariant Rows(result) ==
        [RowOf(block, tx, call, address)] + FlattenFirst(block, tx, call, address, k)
      invariant forall t :: t in result ==> fresh(t)
    {
      var below := IterateTransactionTrace(block, tx, call.calls[k], address + [k]);
      RowsConcat(result, below);
      Associate([RowOf(block, tx, call, address)], FlattenFirst(block, tx, call, address, k), Rows(below));
      result := result + below;
    }
  }

  /** One block's worth of calls, one per transaction. */
  datatype GethTrace = GethTrace(block: nat, calls: seq<Call>)

  function FlattenBlock(g: GethTrace, n: nat): seq<Row>
    requires n <= |g.calls|
  {
    if n == 0 then [] else FlattenBlock(g, n - 1) + Flatten(g.block, n - 1, g.calls[n - 1], [])
  }

  method GethTraceToTraces(g: GethTrace) returns (traces: seq<EthTrace>)
    ensures Rows(traces) == FlattenBlock(g, |g.calls|)
    ensures forall t :: t in traces ==> fresh(t)
  {
    traces := [];
    for tx := 0 to |g.calls|
      invariant Rows(traces) == FlattenBlock(g, tx)
      invariant forall t :: t in traces ==> fresh(t)
    {
      var more := IterateTransactionTrace(g.block, tx, g.calls[tx], []);
      RowsConcat(traces, more);
      traces := traces + more;
    }
  }

  /* ---- Rows are the nodes of the tree ---- */

  /** The call at a path: which call it made, which call that one made, and so on. */
  function At(call: Call, path: seq<nat>): Option<Call> {
    if path == [] then Some(call)
    else if path[0] < |call.calls| then At(call.calls[path[0]], path[1..])
    else None
  }

  lemma {:induction false} RowHasPath(block: nat, tx: nat, call: Call, address: seq<nat>, r: Row)
    returns (path: seq<nat>)
    requires r in Flatten(block, tx, call, address)
    ensures At(call, path).Some? && r == RowOf(block, tx, At(call, path).value, address + path)
    decreases call, |call.calls| + 1
  {
    if r == RowOf(block, tx, call, address) {
      path := [];
      assert address + [] == address;
    } else {
      path := RowBelowHasPath(block, tx, call, address, |call.calls|, r);
    }
  }

  lemma {:induction false} RowBelowHasPath(block: nat, tx: nat, call: Call, address: seq<nat>, n: nat, r: Row)
    returns (path: seq<nat>)
    requires n <= |call.calls| && r in FlattenFirst(block, tx, call, address, n)
    ensures path != [] && path[0] < n && At(call, path).Some?
    ensures r == RowOf(block, tx, At(call, path).value, address + path)
    decreases call, n
  {
    if r in FlattenFirst(block, tx, call, address, n - 1) {
      path := RowBelowHasPath(block, tx, call, address, n - 1, r);
    } else {
      var p := RowHasPath(block, tx, call.calls[n - 1], address + [n - 1], r);
      path := [n - 1] + p;
      assert path[1..] == p;
      assert address + path == address + [n - 1] + p;
    }
  }

  lemma {:induction false} PathHasRow(block: nat, tx: nat, call: Call, address: seq<nat>, path: seq<nat>)
    requires At(call, path).Some?
    ensures RowOf(block, tx, At(call, path).value, address + path) in Flatten(block, tx, call, address)
    decreases path
  {
    if path == [] {
      assert address + [] == address;
    } else {
      var k := path[0];
      PathHasRow(block, tx, call.calls[k], address + [k], path[1..]);
      assert address + [k] + path[1..] == address + path;
      FirstContains(block, tx, call, address, k, |call.calls|,
                    RowOf(block, tx, At(call, path).value, address + path));
    }
  }

  lemma {:induction false} FirstContains(block: nat, tx: nat, call: Call, address: seq<nat>, k: nat, n: nat, r: Row)
    requires k < n <= |call.calls|
    requires r in Flatten(block, tx, call.calls[k], address + [k])
    ensures r in FlattenFirst(block, tx, call, address, n)
    decreases n
  {
    if k < n - 1 {
      FirstContains(block, tx, call, address, k, n - 1, r);
    }
  }

  /** The addresses in the flat list are exactly the paths of the tree, each with the row of the
      call at that path. */
  lemma FlattenIsTree(block: nat, tx: nat, call: Call, r: Row)
    ensures r in Flatten(block, tx, call, []) <==>
            r.address.Some? && At(call, r.address.value).Some?
            && r == RowOf(block, tx, At(call, r.address.value).value, r.address.value)
  {
    if r in Flatten(block, tx, call, []) {
      var path := RowHasPath(block, tx, call, [], r);
      assert [] + path == path;
    } else if r.address.Some? && At(call, r.address.value).Some? {
      PathHasRow(block, tx, call, [], r.address.value);
      assert [] + r.address.value == r.address.value;
    }
  }

  /** Whatever has an address has ancestors at all prefixes of that address. */
  lemma {:induction false} PrefixesExist(call: Call, path: seq<nat>, k: nat)
    requires At(call, path).Some? && k <= |path|
    ensures At(call, path[..k]).Some?
    decreases path
  {
    if k > 0 {
      PrefixesExist(call.calls[path[0]], path[1..], k - 1);
      assert path[..k][1..] == path[1..][..k - 1];
    }
  }

  /* ---- Pre-order ---- */

  /** The address a comes before b in pre-order: it is a proper prefix of b, or smaller where they
      first differ. */
  predicate Before(a: seq<nat>, b: seq<nat>) {
    b != [] && (a == [] || a[0] < b[0] || (a[0] == b[0] && Before(a[1..], b[1..])))
  }

  lemma {:induction false} BeforeUnder(p: seq<nat>, a: seq<nat>, b: seq<nat>)
    ensures Before(p + a, p + b) <==> Before(a, b)
  {
    if p == [] {
      assert p + a == a && p + b == b;
    } else {
      BeforeUnder(p[1..], a, b);
      assert (p + a)[1..] == p[1..] + a && (p + b)[1..] == p[1..] + b;
    }
  }

  lemma {:induction false} BeforeIrreflexive(a: seq<nat>)
    ensures !Before(a, a)
  {
    if a != [] {
      BeforeIrreflexive(a[1..]);
    }
  }

  function AddressOf(r: Row): seq<nat> {
    if r.address.Some? then r.address.value else []
  }

  ghost predicate PreOrdered(rows: seq<Row>) {
    forall i, j :: 0 <= i < j < |rows| ==> Before(AddressOf(rows[i]), AddressOf(rows[j]))
  }

  lemma PreOrderedConcat(xs: seq<Row>, ys: seq<Row>)
    requires PreOrdered(xs) && PreOrdered(ys)
    requires forall x, y :: x in xs && y in ys ==> Before(AddressOf(x), AddressOf(y))
    ensures PreOrdered(xs + ys)
  {
  }

  /** Rows come out in pre-order; in particular no address occurs twice. */
  lemma {:induction false} FlattenIsPreOrdered(block: nat, tx: nat, call: Call, address: seq<nat>)
    ensures PreOrdered(Flatten(block, tx, call, address))
    decreases call, |call.calls| + 1
  {
    var root := RowOf(block, tx, call, address);
    var below := FlattenFirst(block, tx, call, address, |call.calls|);
    FirstIsPreOrdered(block, tx, call, address, |call.calls|);
    forall x, y | x in [root] && y in below ensures Before(AddressOf(x), AddressOf(y)) {
      var q := RowBelowHasPath(block, tx, call, address, |call.calls|, y);
      BeforeUnder(address, [], q);
      assert address + [] == address;
    }
    PreOrderedConcat([root], below);
  }

  lemma {:induction false} FirstIsPreOrdered(block: nat, tx: nat, call: Call, address: seq<nat>, n: nat)
    requires n <= |call.calls|
    ensures PreOrdered(FlattenFirst(block, tx, call, address, n))
    decreases call, n
  {
    if n > 0 {
      var xs := FlattenFirst(block, tx, call, address, n - 1);
      var ys := Flatten(block, tx, call.calls[n - 1], address + [n - 1]);
      FirstIsPreOrdered(block, tx, call, address, n - 1);
      FlattenIsPreOrdered(block, tx, call.calls[n - 1], address + [n - 1]);
      forall x, y | x in xs && y in ys ensures Before(AddressOf(x), AddressOf(y)) {
        EarlierCallsComeFirst(block, tx, call, address, n, x, y);
      }
      PreOrderedConcat(xs, ys);
    }
  }

  lemma EarlierCallsComeFirst(block: nat, tx: nat, call: Call, address: seq<nat>, n: nat, x: Row, y: Row)
    requires 0 < n <= |call.calls| && x in FlattenFirst(block, tx, call, address, n - 1)
    requires y in Flatten(block, tx, call.calls[n - 1], address + [n - 1])
    ensures Before(AddressOf(x), AddressOf(y))
  {
    var p := RowBelowHasPath(block, tx, call, address, n - 1, x);
    var q := RowHasPath(block, tx, call.calls[n - 1], address + [n - 1], y);
    PathsInOrder(address, p, n - 1, q);
  }

  lemma PathsInOrder(address: seq<nat>, p: seq<nat>, n: nat, q: seq<nat>)
    requires p != [] && p[0] < n
    ensures Before(address + p, address + [n] + q)
  {
    BeforeUnder(address, p, [n] + q);
    assert address + ([n] + q) == address + [n] + q;
  }

  lemma AddressesAreUnique(block: nat, tx: nat, call: Call, i: nat, j: nat)
    requires i < j < |Flatten(block, tx, call, [])|
    ensures Flatten(block, tx, call, [])[i].address != Flatten(block, tx, call, [])[j].address
  {
    FlattenIsPreOrdered(block, tx, call, []);
    BeforeIrreflexive(AddressOf(Flatten(block, tx, call, [])[i]));
  }

  /* ---- Subtraces count children ---- */

  ghost predicate OneStepBelow(r: Row, a: seq<nat>) {
    r.address.Some? && |r.address.value| == |a| + 1 && r.address.value[..|a|] == a
  }

  ghost function ChildRows(block: nat, tx: nat, call: Call, address: seq<nat>, n: nat): set<Row>
    requires n <= |call.calls|
  {
    if n == 0 then {}
    else ChildRows(block, tx, call, address, n - 1) + {RowOf(block, tx, call.calls[n - 1], address + [n - 1])}
  }

  ghost predicate IsChildRow(block: nat, tx: nat, call: Call, address: seq<nat>, n: nat, r: Row)
    requires n <= |call.calls|
  {
    exists k :: 0 <= k < n && r == RowOf(block, tx, call.calls[k], address + [k])
  }

  lemma {:induction false} ChildRowsMember(block: nat, tx: nat, call: Call, address: seq<nat>, n: nat, r: Row)
    requires n <= |call.calls|
    ensures r in ChildRows(block, tx, call, address, n) <==> IsChildRow(block, tx, call, address, n, r)
  {
    if n > 0 {
      ChildRowsMember(block, tx, call, address, n - 1, r);
      if IsChildRow(block, tx, call, address, n - 1, r) {
        var k :| 0 <= k < n - 1 && r == RowOf(block, tx, call.calls[k], address + [k]);
      }
    }
  }

  lemma {:induction false} CountChildRows(block: nat, tx: nat, call: Call, address: seq<nat>, n: nat)
    requires n <= |call.calls|
    ensures |ChildRows(block, tx, call, address, n)| == n
  {
    if n > 0 {
      CountChildRows(block, tx, call, address, n - 1);
      var last := RowOf(block, tx, call.calls[n - 1], address + [n - 1]);
      ChildRowsMember(block, tx, call, address, n - 1, last);
      LastChildIsNew(block, tx, call, address, n);
    }
  }

  lemma LastChildIsNew(block: nat, tx: nat, call: Call, address: seq<nat>, n: nat)
    requires 0 < n <= |call.calls|
    ensures !IsChildRow(block, tx, call, address, n - 1, RowOf(block, tx, call.calls[n - 1], address + [n - 1]))
  {
    var last := RowOf(block, tx, call.calls[n - 1], address + [n - 1]);
    forall k | 0 <= k < n - 1 ensures RowOf(block, tx, call.calls[k], address + [k]) != last {
      AddressesDiffer(address, k, n - 1);
    }
  }

  lemma AddressesDiffer(address: seq<nat>, k: nat, m: nat)
    requires k != m
    ensures address + [k] != address + [m]
  {
    assert (address + [k])[|address|] != (address + [m])[|address|];
  }

  lemma {:induction false} AtAppend(call: Call, path: seq<nat>, k: nat)
    requires At(call, path).Some?
    ensures var parent := At(call, path).value;
            At(call, path + [k]) == if k < |parent.calls| then Some(parent.calls[k]) else None
  {
    if path == [] {
      assert (path + [k])[1..] == [];
    } else {
      AtAppend(call.calls[path[0]], path[1..], k);
      assert (path + [k])[1..] == path[1..] + [k];
    }
  }

  lemma ChildrenAreOneStepBelow(block: nat, tx: nat, call: Call, a: seq<nat>, q: Row)
    requires At(call, a).Some?
    ensures var node := At(call, a).value;
            q in Flatten(block, tx, call, []) && OneStepBelow(q, a) <==> IsChildRow(block, tx, node, a, |node.calls|, q)
  {
    var node := At(call, a).value;
    FlattenIsTree(block, tx, call, q);
    if q in Flatten(block, tx, call, []) && OneStepBelow(q, a) {
      var k := q.address.value[|a|];
      assert q.address.value == a + [k];
      AtAppend(call, a, k);
      assert q == RowOf(block, tx, node.calls[k], a + [k]);
    }
    if k :| 0 <= k < |node.calls| && q == RowOf(block, tx, node.calls[k], a + [k]) {
      AtAppend(call, a, k);
      assert (a + [k])[..|a|] == a;
    }
  }

  /** `subtraces` is the number of rows one step below. */
  lemma SubtracesCountChildren(block: nat, tx: nat, call: Call, r: Row)
    requires r in Flatten(block, tx, call, [])
    ensures |set q | q in Flatten(block, tx, call, []) && OneStepBelow(q, AddressOf(r))| == r.subtraces
  {
    FlattenIsTree(block, tx, call, r);
    var a := r.address.value;
    var node := At(call, a).value;
    var below := set q | q in Flatten(block, tx, call, []) && OneStepBelow(q, a);
    var children := ChildRows(block, tx, node, a, |node.calls|);
    CountChildRows(block, tx, node, a, |node.calls|);
    forall q ensures q in below <==> q in children {
      ChildrenAreOneStepBelow(block, tx, call, a, q);
      ChildRowsMember(block, tx, node, a, |node.calls|, q);
    }
    assert below == children;
  }

  /* ---- The tree comes back from the rows ---- */

  /** A tree of what the rows tell about the calls. */
  datatype Outline = Outline(traceType: string, error: Option<string>, calls: seq<Outline>)

  function OutlineOf(call: Call): Outline {
    Outline(TraceType(call.kind), call.error,
            seq(|call.calls|, i requires 0 <= i < |call.calls| => OutlineOf(call.calls[i])))
  }

  /** Reads one tree from the front of the rows, using only their order and `subtraces`. */
  function Rebuild(rows: seq<Row>): (r: Option<(Outline, seq<Row>)>)
    ensures r.Some? ==> |r.value.1| < |rows|
    decreases |rows|, 0
  {
    if rows == [] then None
    else
      match RebuildMany(rows[0].subtraces, rows[1..])
      case None => None
      case Some((calls, rest)) => Some((Outline(rows[0].traceType, rows[0].error, calls), rest))
  }

  function RebuildMany(n: nat, rows: seq<Row>): (r: Option<(seq<Outline>, seq<Row>)>)
    ensures r.Some? ==> |r.value.1| <= |rows|
    decreases |rows|, 1
  {
    if n == 0 then Some(([], rows))
    else
      match Rebuild(rows)
      case None => None
      case Some((first, rest)) =>
        match RebuildMany(n - 1, rest)
        case None => None
        case Some((others, end)) => Some(([first] + others, end))
  }

  /** The rows below the calls from the n-th on. */
  function FlattenRest(block: nat, tx: nat, call: Call, address: seq<nat>, n: nat): seq<Row>
    requires n <= |call.calls|
    decreases |call.calls| - n
  {
    if n == |call.calls| then []
    else Flatten(block, tx, call.calls[n], address + [n]) + FlattenRest(block, tx, call, address, n + 1)
  }

  lemma {:induction false} FirstAndRest(block: nat, tx: nat, call: Call, address: seq<nat>, n: nat)
    requires n <= |call.calls|
    ensures FlattenFirst(block, tx, call, address, n) + FlattenRest(block, tx, call, address, n)
         == FlattenFirst(block, tx, call, address, |call.calls|)
    decreases |call.calls| - n
  {
    if n < |call.calls| {
      FirstAndRest(block, tx, call, address, n + 1);
      Associate(FlattenFirst(block, tx, call, address, n), Flatten(block, tx, call.calls[n], address + [n]),
                FlattenRest(block, tx, call, address, n + 1));
    }
  }

  /** Flattening loses neither shape nor order: the tree can be read back from the rows. */
  lemma {:induction false} RebuildFlatten(block: nat, tx: nat, call: Call, address: seq<nat>, tail: seq<Row>)
    ensures Rebuild(Flatten(block, tx, call, address) + tail) == Some((OutlineOf(call), tail))
    decreases call, |call.calls| + 1
  {
    FirstAndRest(block, tx, call, address, 0);
    RebuildRest(block, tx, call, address, 0, tail);
    var rows := Flatten(block, tx, call, address) + tail;
    assert rows[1..] == FlattenRest(block, tx, call, address, 0) + tail;
    assert OutlineOf(call).calls[0..] == OutlineOf(call).calls;
  }

  lemma {:induction false} RebuildRest(block: nat, tx: nat, call: Call, address: seq<nat>, n: nat, tail: seq<Row>)
    requires n <= |call.calls|
    ensures RebuildMany(|call.calls| - n, FlattenRest(block, tx, call, address, n) + tail)
         == Some((OutlineOf(call).calls[n..], tail))
    decreases call, |call.calls| - n
  {
    if n < |call.calls| {
      var rest := FlattenRest(block, tx, call, address, n + 1) + tail;
      RebuildFlatten(block, tx, call.calls[n], address + [n], rest);
      RebuildRest(block, tx, call, address, n + 1, tail);
      Associate(Flatten(block, tx, call.calls[n], address + [n]), FlattenRest(block, tx, call, address, n + 1), tail);
      assert OutlineOf(call).calls[n..] == [OutlineOf(call.calls[n])] + OutlineOf(call).calls[n + 1..];
    } else {
      assert FlattenRest(block, tx, call, address, n) + tail == tail;
      assert OutlineOf(call).calls[n..] == [];
    }
  }
}
