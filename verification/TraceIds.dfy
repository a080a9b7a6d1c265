/** Identifiers of trace rows (cli/polygonetl/service/trace_id_calculator.py). */
module TraceIds {
  import opened Common
  import opened Decimal
  import opened Grouping
  import opened CallTrees

  function AddressText(a: Option<seq<nat>>): string {
    if a.None? || a.value == [] then "" else Join('_', Strs(a.value))
  }

  function TxText(tx: Option<nat>): string {
    if tx.None? then "None" else Str(tx.value)
  }

  function TraceId(r: Row): string {
    Join('_', [r.traceType, Str(r.block), TxText(r.tx), AddressText(r.address)])
  }

  /** The pieces between the underscores of an identifier. */
  function Pieces(r: Row): seq<string> {
    [r.traceType, Str(r.block), TxText(r.tx)]
    + (if AddressOf(r) == [] then [""] else Strs(AddressOf(r)))
  }

  lemma {:induction false} JoinAppend(sep: char, xs: seq<string>, ys: seq<string>)
    requires ys != []
    ensures Join(sep, xs + [Join(sep, ys)]) == Join(sep, xs + ys)
  {
    if xs == [] {
      assert [] + [Join(sep, ys)] == [Join(sep, ys)] && [] + ys == ys;
    } else {
      JoinAppend(sep, xs[1..], ys);
      assert (xs + [Join(sep, ys)])[1..] == xs[1..] + [Join(sep, ys)];
      assert (xs + ys)[1..] == xs[1..] + ys;
    }
  }

  lemma IdIsPieces(r: Row)
    ensures TraceId(r) == Join('_', Pieces(r))
  {
    var front := [r.traceType, Str(r.block), TxText(r.tx)];
    var a := AddressOf(r);
    var back := if a == [] then [""] else Strs(a);
    assert AddressText(r.address) == Join('_', back);
    JoinAppend('_', front, back);
    assert front + [Join('_', back)] == [r.traceType, Str(r.block), TxText(r.tx), AddressText(r.address)];
  }

  lemma PiecesHaveNoUnderscore(r: Row)
    requires '_' !in r.traceType
    ensures NoneContains('_', Pieces(r))
  {
    StrRoundTrip(r.block);
    if r.tx.Some? {
      StrRoundTrip(r.tx.value);
    }
    StrsContainNo('_', AddressOf(r));
  }

  lemma TxTextInjective(a: Option<nat>, b: Option<nat>)
    requires TxText(a) == TxText(b)
    ensures a == b
  {
    assert TxText(None)[0] == 'N' && !IsDigit('N');
    if a.Some? { StrRoundTrip(a.value); }
    if b.Some? { StrRoundTrip(b.value); }
    if a.Some? && b.Some? {
      StrInjective(a.value, b.value);
    }
  }

  /** Rows of types without an underscore share an identifier only if they have the same type and
      stand at the same place. */
  lemma TraceIdInjective(r: Row, q: Row)
    requires '_' !in r.traceType && '_' !in q.traceType
    requires TraceId(r) == TraceId(q)
    ensures r.traceType == q.traceType && r.block == q.block && r.tx == q.tx && AddressOf(r) == AddressOf(q)
  {
    IdIsPieces(r);
    IdIsPieces(q);
    PiecesHaveNoUnderscore(r);
    PiecesHaveNoUnderscore(q);
    JoinInjective('_', Pieces(r), Pieces(q));
    assert Pieces(r)[0] == Pieces(q)[0] && Pieces(r)[1] == Pieces(q)[1] && Pieces(r)[2] == Pieces(q)[2];
    StrInjective(r.block, q.block);
    TxTextInjective(r.tx, q.tx);
    var a, b := AddressOf(r), AddressOf(q);
    assert Pieces(r)[3..] == (if a == [] then [""] else Strs(a));
    assert Pieces(q)[3..] == (if b == [] then [""] else Strs(b));
    if a != [] { StrRoundTrip(a[0]); assert Pieces(r)[3] == Str(a[0]); }
    if b != [] { StrRoundTrip(b[0]); assert Pieces(q)[3] == Str(b[0]); }
    if a != [] && b != [] {
      StrsInjective(a, b);
    }
  }

  /* ---- Which types may be used together ---- */

  /** The pieces of an identifier after the type. */
  function Place(r: Row): seq<string> {
    [Str(r.block), TxText(r.tx)] + (if AddressOf(r) == [] then [""] else Strs(AddressOf(r)))
  }

  /** The pieces of an identifier, those of the type included. */
  function AllPieces(r: Row): seq<string> {
    Split('_', r.traceType) + Place(r)
  }

  lemma IdIsAllPieces(r: Row)
    ensures TraceId(r) == Join('_', AllPieces(r)) && NoneContains('_', AllPieces(r))
  {
    IdIsPieces(r);
    assert Pieces(r) == [r.traceType] + Place(r);
    JoinOfSplitFirst('_', r.traceType, Place(r));
    PlaceHasNoUnderscore(r);
    JoinOfSplit('_', r.traceType);
    NoneContainsConcat('_', Split('_', r.traceType), Place(r));
  }

  /** The first part may as well be split. */
  lemma JoinOfSplitFirst(sep: char, first: string, rest: seq<string>)
    requires rest != []
    ensures Join(sep, [first] + rest) == Join(sep, Split(sep, first) + rest)
  {
    JoinOfSplit(sep, first);
    JoinConcat(sep, Split(sep, first), rest);
    JoinConcat(sep, [first], rest);
  }

  lemma NoneContainsConcat(sep: char, xs: seq<string>, ys: seq<string>)
    requires NoneContains(sep, xs) && NoneContains(sep, ys)
    ensures NoneContains(sep, xs + ys)
  {
  }

  lemma PlaceHasNoUnderscore(r: Row)
    ensures NoneContains('_', Place(r))
  {
    var untyped := r.(traceType := "");
    PiecesHaveNoUnderscore(untyped);
    assert Place(r) == Pieces(untyped)[1..];
  }

  lemma SameIdIffSamePieces(r: Row, q: Row)
    ensures TraceId(r) == TraceId(q) <==> AllPieces(r) == AllPieces(q)
  {
    IdIsAllPieces(r);
    IdIsAllPieces(q);
    if TraceId(r) == TraceId(q) {
      JoinInjective('_', AllPieces(r), AllPieces(q));
    }
  }

  predicate SameIdentity(r: Row, q: Row) {
    r.traceType == q.traceType && r.block == q.block && r.tx == q.tx && AddressOf(r) == AddressOf(q)
  }

  lemma SamePlaceText(r: Row, q: Row)
    requires Place(r) == Place(q)
    ensures r.block == q.block && r.tx == q.tx && AddressOf(r) == AddressOf(q)
  {
    var r', q' := r.(traceType := ""), q.(traceType := "");
    assert Pieces(r') == [""] + Place(r) && Pieces(q') == [""] + Place(q);
    IdIsPieces(r');
    IdIsPieces(q');
    TraceIdInjective(r', q');
  }

  ghost predicate IsDecimal(s: string) { exists n: nat :: s == Str(n) }

  /** What can stand at the front of a place: a block, then perhaps a transaction index, which may be
      None, then numbers of an address. */
  ghost predicate IsFront(e: seq<string>) {
    && e != []
    && (forall i :: 0 <= i < |e| && i != 1 ==> IsDecimal(e[i]))
    && (|e| >= 2 ==> IsDecimal(e[1]) || e[1] == "None")
  }

  /** The longer type is the shorter one, an underscore, and the front of a place. */
  ghost predicate Extends(longer: string, shorter: string) {
    exists e :: IsFront(e) && longer == shorter + ['_'] + Join('_', e)
  }

  lemma ShorterFront(r: Row, q: Row, e: seq<string>)
    requires e != [] && e + Place(r) == Place(q)
    ensures IsFront(e)
  {
    assert |e| + 3 <= |Place(q)|;
    var a := AddressOf(q);
    assert a != [] && Place(q) == [Str(q.block), TxText(q.tx)] + Strs(a);
    forall i | 0 <= i < |e| && i != 1 ensures IsDecimal(e[i]) {
      assert e[i] == Place(q)[i];
      assert i > 1 ==> Place(q)[i] == Str(a[i - 2]);
    }
    if |e| >= 2 {
      assert e[1] == Place(q)[1] == TxText(q.tx);
    }
  }

  /** Rows with one identifier that are not the same have types that extend one another. */
  lemma SameIdMeansExtends(r: Row, q: Row)
    requires TraceId(r) == TraceId(q) && |Split('_', r.traceType)| >= |Split('_', q.traceType)|
    ensures SameIdentity(r, q) || Extends(r.traceType, q.traceType)
  {
    SameIdIffSamePieces(r, q);
    JoinOfSplit('_', r.traceType);
    JoinOfSplit('_', q.traceType);
    var k, l := Split('_', r.traceType), Split('_', q.traceType);
    var e := SplitLonger(k, Place(r), l, Place(q));
    if e == [] {
      assert e + Place(r) == Place(r) && l + e == l;
      SamePlaceText(r, q);
    } else {
      ShorterFront(r, q, e);
      JoinConcat('_', l, e);
    }
  }

  /** Two ways to cut one sequence. */
  lemma SplitLonger<T>(k: seq<T>, p: seq<T>, l: seq<T>, q: seq<T>) returns (e: seq<T>)
    requires k + p == l + q && |k| >= |l|
    ensures k == l + e && e + p == q
  {
    e := k[|l|..];
    assert l == (l + q)[..|l|] == (k + p)[..|l|] == k[..|l|];
    assert q == (l + q)[|l|..] == (k + p)[|l|..] == e + p;
  }

  lemma {:induction false} Numbers(texts: seq<string>) returns (ns: seq<nat>)
    requires forall i :: 0 <= i < |texts| ==> IsDecimal(texts[i])
    ensures Strs(ns) == texts
  {
    if texts == [] {
      ns := [];
    } else {
      var n: nat :| texts[0] == Str(n);
      var rest := Numbers(texts[1..]);
      ns := [n] + rest;
      StrsConcat([n], rest);
      assert Strs([n]) == [texts[0]];
    }
  }

  lemma StrsConcat(a: seq<nat>, b: seq<nat>)
    ensures Strs(a + b) == Strs(a) + Strs(b)
  {
  }

  function RowAt(kind: string, block: nat, tx: Option<nat>, address: seq<nat>): Row {
    Row(block, tx, Some(address), kind, None, None, 0)
  }

  /** A front, and three more numbers, is a place. */
  lemma FrontIsPlace(kind: string, e: seq<string>) returns (q: Row)
    requires IsFront(e)
    ensures q.traceType == kind && Place(q) == e + [Str(0), Str(0), Str(0)]
  {
    var n: nat :| e[0] == Str(n);
    if |e| == 1 {
      q := RowAt(kind, n, Some(0), [0, 0]);
      assert Strs([0, 0]) == [Str(0), Str(0)];
    } else {
      q := LongFrontIsPlace(kind, n, e);
    }
  }

  lemma LongFrontIsPlace(kind: string, n: nat, e: seq<string>) returns (q: Row)
    requires IsFront(e) && |e| >= 2 && e[0] == Str(n)
    ensures q.traceType == kind && Place(q) == e + [Str(0), Str(0), Str(0)]
  {
    var tx: Option<nat> := None;
    if e[1] != "None" {
      var m: nat :| e[1] == Str(m);
      tx := Some(m);
    }
    var a := Numbers(e[2..]);
    q := RowAt(kind, n, tx, a + [0, 0, 0]);
    StrsConcat(a, [0, 0, 0]);
    assert Strs([0, 0, 0]) == [Str(0), Str(0), Str(0)];
    assert Place(q) == [Str(n), TxText(tx)] + (e[2..] + [Str(0), Str(0), Str(0)]);
    assert e == [e[0], e[1]] + e[2..];
  }

  lemma FrontHasNoUnderscore(e: seq<string>)
    requires IsFront(e)
    ensures NoneContains('_', e)
  {
    forall i | 0 <= i < |e| ensures '_' !in e[i] {
      if IsDecimal(e[i]) {
        var n: nat :| e[i] == Str(n);
        StrRoundTrip(n);
      }
    }
  }

  /** If one type extends another, rows of the two can share an identifier. */
  lemma ExtendsMeansSameId(longer: string, shorter: string) returns (r: Row, q: Row)
    requires Extends(longer, shorter)
    ensures r.traceType == longer && q.traceType == shorter && TraceId(r) == TraceId(q) && !SameIdentity(r, q)
  {
    var e :| IsFront(e) && longer == shorter + ['_'] + Join('_', e);
    r := RowAt(longer, 0, Some(0), [0]);
    assert Strs([0]) == [Str(0)];
    assert Place(r) == [Str(0), Str(0), Str(0)];
    q := FrontIsPlace(shorter, e);
    SplitOfExtended(longer, shorter, e);
    assert AllPieces(r) == Split('_', shorter) + (e + Place(r)) == AllPieces(q);
    SameIdIffSamePieces(r, q);
  }

  lemma SplitOfExtended(longer: string, shorter: string, e: seq<string>)
    requires IsFront(e) && longer == shorter + ['_'] + Join('_', e)
    ensures Split('_', longer) == Split('_', shorter) + e
  {
    JoinOfSplit('_', longer);
    JoinOfSplit('_', shorter);
    FrontHasNoUnderscore(e);
    JoinConcat('_', Split('_', shorter), e);
    JoinInjective('_', Split('_', longer), Split('_', shorter) + e);
  }

  /** Rows of these types share an identifier only if they are at the same place and of one type. */
  ghost predicate IdsAreUnique(kinds: set<string>) {
    forall r: Row, q: Row :: r.traceType in kinds && q.traceType in kinds && TraceId(r) == TraceId(q) ==>
      SameIdentity(r, q)
  }

  /** Types without underscores may. */
  lemma NoUnderscoresNoCollisions(kinds: set<string>)
    requires forall k :: k in kinds ==> '_' !in k
    ensures IdsAreUnique(kinds)
  {
    forall r: Row, q: Row | r.traceType in kinds && q.traceType in kinds && TraceId(r) == TraceId(q)
      ensures SameIdentity(r, q)
    {
      TraceIdInjective(r, q);
    }
  }

  /** Exactly which types may be used together. */
  lemma IdsAreUniqueIffNoTypeExtendsAnother(kinds: set<string>)
    ensures IdsAreUnique(kinds) <==> forall k, l :: k in kinds && l in kinds ==> !Extends(k, l)
  {
    if forall k, l :: k in kinds && l in kinds ==> !Extends(k, l) {
      forall r: Row, q: Row | r.traceType in kinds && q.traceType in kinds && TraceId(r) == TraceId(q)
      ensures SameIdentity(r, q)
    {
        if |Split('_', r.traceType)| >= |Split('_', q.traceType)| {
          SameIdMeansExtends(r, q);
        } else {
          SameIdMeansExtends(q, r);
        }
      }
    } else {
      var k, l :| k in kinds && l in kinds && Extends(k, l);
      var r, q := ExtendsMeansSameId(k, l);
    }
  }

  /** An identifier reads back: split at the underscores, it gives the type, block, transaction and
      address of its row. */
  lemma IdReadsBack(r: Row)
    requires '_' !in r.traceType
    ensures var p := Split('_', TraceId(r));
            && |p| == 3 + (if AddressOf(r) == [] then 1 else |AddressOf(r)|)
            && p[0] == r.traceType && Value(p[1]) == r.block
            && (if r.tx.Some? then Value(p[2]) == r.tx.value else p[2] == "None")
            && (AddressOf(r) == [] ==> p[3] == "")
            && forall i :: 0 <= i < |AddressOf(r)| ==> Value(p[3 + i]) == AddressOf(r)[i]
  {
    IdIsPieces(r);
    PiecesHaveNoUnderscore(r);
    JoinOfSplit('_', TraceId(r));
    JoinInjective('_', Split('_', TraceId(r)), Pieces(r));
    StrRoundTrip(r.block);
    if r.tx.Some? {
      StrRoundTrip(r.tx.value);
    }
    forall i | 0 <= i < |AddressOf(r)| ensures Value(Pieces(r)[3 + i]) == AddressOf(r)[i] {
      StrRoundTrip(AddressOf(r)[i]);
      assert Pieces(r)[3 + i] == Strs(AddressOf(r))[i];
    }
  }

  method CalculateForBlock(traces: seq<EthTrace>)
    modifies (set t: EthTrace | t in traces)`traceId
    ensures forall t :: t in traces ==> t.traceId == TraceId(t.row)
  {
    for i := 0 to |traces|
      invariant forall j :: 0 <= j < i ==> traces[j].traceId == TraceId(traces[j].row)
    {
      assert traces[i] in traces;
      traces[i].traceId := TraceId(traces[i].row);
    }
  }

  function BlockOf(): EthTrace -> nat { (t: EthTrace) => t.row.block }

  method CalculateTraceIds(traces: seq<EthTrace>)
    modifies (set t: EthTrace | t in traces)`traceId
    ensures forall t :: t in traces ==> t.traceId == TraceId(t.row)
  {
    var groups, keys := GroupBy(BlockOf(), traces);
    forall k | k in groups ensures forall t :: t in groups[k] ==> t in traces {
      GroupMembers(BlockOf(), k, traces);
    }
    for g := 0 to |keys|
      invariant forall j, t: EthTrace :: 0 <= j < g && t in groups[keys[j]] ==> t.traceId == TraceId(t.row)
    {
      CalculateForBlock(groups[keys[g]]);
    }
    forall t | t in traces ensures t.traceId == TraceId(t.row) {
      InOwnGroup(BlockOf(), traces, groups, keys, t);
    }
  }
}
