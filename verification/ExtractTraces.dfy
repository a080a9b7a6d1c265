/** From nested calls to exported rows: flatten, propagate failure, give identifiers
    (cli/polygonetl/jobs/extract_geth_traces_job.py). The flat algorithm means what the tree means. */
module ExtractTraces {
  import opened Common
  import opened CallTrees
  import opened TraceStatus
  import opened TraceIds

  /* ---- The meaning of failure on the tree ---- */

  predicate ErrorIn(call: Call) { call.error.Some? && call.error.value != "" }

  /** The call at `path`, or one of those it was made by, reports an error. */
  ghost predicate PathFails(call: Call, path: seq<nat>)
    requires At(call, path).Some?
  {
    exists k :: 0 <= k <= |path| && FailsAt(call, path, k)
  }

  ghost predicate FailsAt(call: Call, path: seq<nat>, k: nat)
    requires k <= |path|
  {
    At(call, path[..k]).Some? && ErrorIn(At(call, path[..k]).value)
  }

  ghost predicate RowFails(blocks: seq<GethTrace>, r: Row) {
    exists i :: 0 <= i < |blocks| && RowFailsIn(blocks[i], r)
  }

  ghost predicate RowFailsIn(g: GethTrace, r: Row) {
    && IsNode(g, r)
    && PathFails(g.calls[r.tx.value], r.address.value)
  }

  /** r is the row of a call of this block. */
  ghost predicate IsNode(g: GethTrace, r: Row) {
    && r.block == g.block && r.tx.Some? && r.tx.value < |g.calls|
    && r.address.Some? && At(g.calls[r.tx.value], r.address.value).Some?
    && r == RowOf(g.block, r.tx.value, At(g.calls[r.tx.value], r.address.value).value, r.address.value)
  }

  lemma PathFailsStep(call: Call, path: seq<nat>)
    requires path != [] && At(call, path).Some? && At(call, path[..|path| - 1]).Some?
    ensures PathFails(call, path) <==>
            ErrorIn(At(call, path).value) || PathFails(call, path[..|path| - 1])
  {
    var up := path[..|path| - 1];
    assert path[..|path|] == path;
    if ErrorIn(At(call, path).value) {
      assert FailsAt(call, path, |path|);
    }
    if k :| 0 <= k <= |path| && FailsAt(call, path, k) {
      if k < |path| {
        assert up[..k] == path[..k];
        assert FailsAt(call, up, k);
      }
    }
    if k :| 0 <= k <= |up| && FailsAt(call, up, k) {
      assert up[..k] == path[..k];
      assert FailsAt(call, path, k);
    }
  }

  /* ---- The rows of several blocks ---- */

  function FlattenBlocks(blocks: seq<GethTrace>, n: nat): seq<Row>
    requires n <= |blocks|
  {
    if n == 0 then []
    else FlattenBlocks(blocks, n - 1) + FlattenBlock(blocks[n - 1], |blocks[n - 1].calls|)
  }

  ghost predicate DistinctBlocks(blocks: seq<GethTrace>) {
    forall i, j :: 0 <= i < j < |blocks| ==> blocks[i].block != blocks[j].block
  }

  lemma {:induction false} BlockRows(g: GethTrace, n: nat, r: Row)
    requires n <= |g.calls|
    ensures r in FlattenBlock(g, n) <==> IsNode(g, r) && r.tx.value < n
  {
    if n > 0 {
      BlockRows(g, n - 1, r);
      FlattenIsTree(g.block, n - 1, g.calls[n - 1], r);
    }
  }

  lemma {:induction false} AllRows(blocks: seq<GethTrace>, n: nat, r: Row)
    requires n <= |blocks|
    ensures r in FlattenBlocks(blocks, n) <==> IsNodeIn(blocks, n, r)
  {
    if n > 0 {
      AllRows(blocks, n - 1, r);
      BlockRows(blocks[n - 1], |blocks[n - 1].calls|, r);
      assert IsNodeIn(blocks, n, r) <==> IsNodeIn(blocks, n - 1, r) || IsNode(blocks[n - 1], r);
    }
  }

  lemma BlockOfRow(blocks: seq<GethTrace>, n: nat, r: Row) returns (i: nat)
    requires n <= |blocks| && r in FlattenBlocks(blocks, n)
    ensures i < n && r.block == blocks[i].block
  {
    AllRows(blocks, n, r);
    i :| 0 <= i < n && IsNode(blocks[i], r);
  }

  ghost predicate IsNodeIn(blocks: seq<GethTrace>, n: nat, r: Row)
    requires n <= |blocks|
  {
    exists i :: 0 <= i < n && IsNode(blocks[i], r)
  }

  ghost predicate DistinctPlaces(rows: seq<Row>) {
    forall i, j :: 0 <= i < j < |rows| ==> !SamePlace(rows[i], rows[j])
  }

  lemma DistinctPlacesConcat(xs: seq<Row>, ys: seq<Row>)
    requires DistinctPlaces(xs) && DistinctPlaces(ys)
    requires forall x, y :: x in xs && y in ys ==> !SamePlace(x, y)
    ensures DistinctPlaces(xs + ys)
  {
  }

  lemma {:induction false} BlockPlaces(g: GethTrace, n: nat)
    requires n <= |g.calls|
    ensures DistinctPlaces(FlattenBlock(g, n))
  {
    if n > 0 {
      var xs, ys := FlattenBlock(g, n - 1), Flatten(g.block, n - 1, g.calls[n - 1], []);
      BlockPlaces(g, n - 1);
      forall i, j | 0 <= i < j < |ys| ensures !SamePlace(ys[i], ys[j]) {
        AddressesAreUnique(g.block, n - 1, g.calls[n - 1], i, j);
      }
      forall x, y | x in xs && y in ys ensures !SamePlace(x, y) {
        BlockRows(g, n - 1, x);
        FlattenIsTree(g.block, n - 1, g.calls[n - 1], y);
      }
      DistinctPlacesConcat(xs, ys);
    }
  }

  /** No two rows of a batch of distinct blocks stand at the same place. */
  lemma {:induction false} AllPlaces(blocks: seq<GethTrace>, n: nat)
    requires n <= |blocks| && DistinctBlocks(blocks)
    ensures DistinctPlaces(FlattenBlocks(blocks, n))
  {
    if n > 0 {
      var g := blocks[n - 1];
      var xs, ys := FlattenBlocks(blocks, n - 1), FlattenBlock(g, |g.calls|);
      AllPlaces(blocks, n - 1);
      BlockPlaces(g, |g.calls|);
      forall x, y | x in xs && y in ys ensures !SamePlace(x, y) {
        var i := BlockOfRow(blocks, n - 1, x);
        BlockRows(g, |g.calls|, y);
      }
      DistinctPlacesConcat(xs, ys);
    }
  }

  /* ---- Parents in the list are parents in the tree ---- */

  ghost predicate TracesOf(blocks: seq<GethTrace>, traces: seq<EthTrace>) {
    Rows(traces) == FlattenBlocks(blocks, |blocks|)
  }

  lemma TraceOfRow(traces: seq<EthTrace>, r: Row) returns (t: EthTrace)
    requires r in Rows(traces)
    ensures t in traces && t.row == r
  {
    var i :| 0 <= i < |Rows(traces)| && Rows(traces)[i] == r;
    t := traces[i];
  }

  lemma NodeOfTrace(blocks: seq<GethTrace>, traces: seq<EthTrace>, t: EthTrace) returns (i: nat)
    requires TracesOf(blocks, traces) && t in traces
    ensures i < |blocks| && IsNode(blocks[i], t.row)
  {
    var k :| 0 <= k < |traces| && traces[k] == t;
    assert Rows(traces)[k] == t.row;
    AllRows(blocks, |blocks|, t.row);
    i :| 0 <= i < |blocks| && IsNode(blocks[i], t.row);
  }

  /** Whatever blocks are flattened, no error can stop the status calculation. */
  lemma FlattenedIsSound(blocks: seq<GethTrace>, traces: seq<EthTrace>, t: EthTrace)
    requires TracesOf(blocks, traces) && t in traces
    ensures Sound(traces, t)
  {
    var i := NodeOfTrace(blocks, traces, t);
    var a := t.row.address.value;
    if a != [] {
      var up := a[..|a| - 1];
      var call := blocks[i].calls[t.row.tx.value];
      PrefixesExist(call, a, |a| - 1);
      var r := RowOf(blocks[i].block, t.row.tx.value, At(call, up).value, up);
      assert IsNode(blocks[i], r);
      AllRows(blocks, |blocks|, r);
      var p := TraceOfRow(traces, r);
      ParentMember(traces, t);
    }
  }

  /** Failure in the flat list is failure in the tree. */
  lemma {:induction false} FailedIsPathFails(blocks: seq<GethTrace>, traces: seq<EthTrace>, t: EthTrace, i: nat)
    requires TracesOf(blocks, traces) && DistinctBlocks(blocks) && t in traces
    requires i < |blocks| && IsNode(blocks[i], t.row)
    ensures Failed(traces, t) <==> PathFails(blocks[i].calls[t.row.tx.value], t.row.address.value)
    decreases |AddressOf(t.row)|
  {
    var a := t.row.address.value;
    var call := blocks[i].calls[t.row.tx.value];
    if a == [] {
      assert a[..0] == a;
      assert FailsAt(call, a, 0) <==> ErrorIn(call);
      assert ParentOf(traces, t).None?;
    } else {
      FlattenedIsSound(blocks, traces, t);
      ParentMember(traces, t);
      var p := ParentOf(traces, t).value;
      var j := NodeOfTrace(blocks, traces, p);
      assert i == j;
      FailedIsPathFails(blocks, traces, p, i);
      PrefixesExist(call, a, |a| - 1);
      PathFailsStep(call, a);
    }
  }

  lemma FailedIsRowFails(blocks: seq<GethTrace>, traces: seq<EthTrace>, t: EthTrace)
    requires TracesOf(blocks, traces) && DistinctBlocks(blocks) && t in traces
    ensures Failed(traces, t) <==> RowFails(blocks, t.row)
  {
    var i := NodeOfTrace(blocks, traces, t);
    FailedIsPathFails(blocks, traces, t, i);
    if j :| 0 <= j < |blocks| && RowFailsIn(blocks[j], t.row) {
      assert i == j;
    }
  }

  /** The statuses do not depend on the order in which the rows come: in any other order there is
      still no error, and every trace fails or not as before. */
  lemma OrderOfRowsDoesNotMatter(blocks: seq<GethTrace>, traces: seq<EthTrace>, shuffled: seq<EthTrace>, t: EthTrace)
    requires TracesOf(blocks, traces) && DistinctBlocks(blocks) && t in traces
    requires multiset(shuffled) == multiset(traces)
    ensures Sound(shuffled, t) && Final(shuffled, t) == Final(traces, t)
  {
    assert forall u :: u in traces ==> u in multiset(traces);
    assert forall u :: u in multiset(shuffled) ==> u in shuffled;
    assert forall u :: u in shuffled ==> u in multiset(shuffled);
    FlattenedHaveUniqueKeys(blocks, traces);
    OrderDoesNotMatter(traces, shuffled, t);
    FlattenedIsSound(blocks, traces, t);
  }

  lemma FlattenedHaveUniqueKeys(blocks: seq<GethTrace>, traces: seq<EthTrace>)
    requires TracesOf(blocks, traces) && DistinctBlocks(blocks)
    ensures UniqueKeys(traces)
  {
    AllPlaces(blocks, |blocks|);
    forall t, u | t in traces && u in traces && SamePlace(t.row, u.row) ensures t == u {
      var i :| 0 <= i < |traces| && traces[i] == t;
      var j :| 0 <= j < |traces| && traces[j] == u;
      assert Rows(traces)[i] == t.row && Rows(traces)[j] == u.row;
    }
  }

  /* ---- The job ---- */

  datatype Exported = Exported(row: Row, status: Option<int>, traceId: string)

  function Kinds(exported: seq<Exported>): set<string> {
    set e | e in exported :: e.row.traceType
  }

  /** Exports one row for every call, in pre-order per transaction. For distinct blocks, a row has
      status 0 exactly if its call or one of those it was made by failed, and no two rows share an
      identifier if the types of the calls may be used together. The status calculation never
      raises. */
  method ExtractGethTraces(gethTraces: seq<GethTrace>)
    returns (err: Option<StatusError>, exported: seq<Exported>)
    ensures err.None?
    ensures |exported| == |FlattenBlocks(gethTraces, |gethTraces|)|
    ensures forall i :: 0 <= i < |exported| ==>
              && exported[i].row == FlattenBlocks(gethTraces, |gethTraces|)[i]
              && exported[i].traceId == TraceId(exported[i].row)
    ensures DistinctBlocks(gethTraces) ==> forall i :: 0 <= i < |exported| ==>
              exported[i].status == Some(if RowFails(gethTraces, exported[i].row) then 0 else 1)
    ensures DistinctBlocks(gethTraces) && IdsAreUnique(Kinds(exported)) ==>
              forall i, j :: 0 <= i < j < |exported| ==> exported[i].traceId != exported[j].traceId
  {
    var all := FlattenAll(gethTraces);
    err := CalculateTraceStatuses(all);
    forall t | t in all ensures Sound(all, t) {
      FlattenedIsSound(gethTraces, all, t);
    }
    CalculateTraceIds(all);
    if err.Some? {
      assert false;
    }
    exported := ExportAll(all);
    forall i | 0 <= i < |all|
      ensures exported[i] == Exported(all[i].row, Final(all, all[i]), TraceId(all[i].row))
    {
      assert all[i] in all;
    }
    ExportedIsRight(gethTraces, all, exported);
  }

  method FlattenAll(gethTraces: seq<GethTrace>) returns (all: seq<EthTrace>)
    ensures TracesOf(gethTraces, all)
    ensures forall t :: t in all ==> fresh(t)
  {
    all := [];
    for i := 0 to |gethTraces|
      invariant Rows(all) == FlattenBlocks(gethTraces, i)
      invariant forall t :: t in all ==> fresh(t)
    {
      var traces := GethTraceToTraces(gethTraces[i]);
      RowsConcat(all, traces);
      all := all + traces;
    }
  }

  method ExportAll(all: seq<EthTrace>) returns (exported: seq<Exported>)
    ensures |exported| == |all|
    ensures forall j :: 0 <= j < |all| ==>
              exported[j] == Exported(all[j].row, all[j].status, all[j].traceId)
  {
    exported := [];
    for i := 0 to |all|
      invariant |exported| == i
      invariant forall j :: 0 <= j < i ==>
        exported[j] == Exported(all[j].row, all[j].status, all[j].traceId)
    {
      exported := exported + [Exported(all[i].row, all[i].status, all[i].traceId)];
    }
  }

  lemma ExportedIsRight(blocks: seq<GethTrace>, traces: seq<EthTrace>, exported: seq<Exported>)
    requires TracesOf(blocks, traces) && |exported| == |traces|
    requires forall i :: 0 <= i < |traces| ==>
      && exported[i] == Exported(traces[i].row, Final(traces, traces[i]), TraceId(traces[i].row))
    ensures forall i :: 0 <= i < |exported| ==>
              exported[i].row == FlattenBlocks(blocks, |blocks|)[i]
    ensures |exported| == |FlattenBlocks(blocks, |blocks|)|
    ensures DistinctBlocks(blocks) ==> forall i :: 0 <= i < |exported| ==>
              exported[i].status == Some(if RowFails(blocks, exported[i].row) then 0 else 1)
    ensures DistinctBlocks(blocks) && IdsAreUnique(Kinds(exported)) ==>
              forall i, j :: 0 <= i < j < |exported| ==> exported[i].traceId != exported[j].traceId
  {
    var rows := Rows(traces);
    assert forall i :: 0 <= i < |traces| ==> rows[i] == traces[i].row;
    if DistinctBlocks(blocks) {
      forall i | 0 <= i < |exported|
        ensures exported[i].status == Some(if RowFails(blocks, exported[i].row) then 0 else 1) {
        FailedIsRowFails(blocks, traces, traces[i]);
      }
      AllPlaces(blocks, |blocks|);
      if IdsAreUnique(Kinds(exported)) {
        forall i, j | 0 <= i < j < |exported| ensures exported[i].traceId != exported[j].traceId {
          assert exported[i] in exported && exported[j] in exported;
          assert !SamePlace(rows[i], rows[j]);
          var k := NodeOfTrace(blocks, traces, traces[i]);
          var m := NodeOfTrace(blocks, traces, traces[j]);
          assert rows[i].traceType in Kinds(exported) && rows[j].traceType in Kinds(exported);
          assert TraceId(rows[i]) == TraceId(rows[j]) ==> SameIdentity(rows[i], rows[j]);
        }
      }
    }
  }
}
