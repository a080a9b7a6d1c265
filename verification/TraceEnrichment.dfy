/** Traces take fields from their block and from their transaction: two joins in a row, the second
    on a text made of block number and transaction index (cli/polygonetl/streaming/enrich.py). */
module TraceEnrichment {
  import opened Common
  import Decimal
  import opened Grouping
  import opened HashJoin
  import opened Enrichment

  /* ---- The text key ---- */

  /** `str(value)` */
  function StrOf(v: Value): string {
    match v
    case Null => "None"
    case Int(n) => if n < 0 then "-" + Decimal.Str(-n) else Decimal.Str(n)
    case Text(s) => s
  }

  function KeyText(block: Value, index: Value): string {
    StrOf(block) + ['-'] + StrOf(index)
  }

  predicate IsNumber(v: Value) { !v.Text? }

  /** The text after the sign. */
  function Unsigned(v: Value): string
    requires IsNumber(v)
  {
    if v.Null? then "None" else Decimal.Str(if v.n < 0 then -v.n else v.n)
  }

  predicate IsNegative(v: Value) { v.Int? && v.n < 0 }

  lemma UnsignedHasNoDash(v: Value)
    requires IsNumber(v)
    ensures Unsigned(v) != [] && '-' !in Unsigned(v)
    ensures StrOf(v) == (if IsNegative(v) then "-" else "") + Unsigned(v)
  {
    if v.Int? {
      Decimal.StrRoundTrip(if v.n < 0 then -v.n else v.n);
    }
  }

  lemma UnsignedInjective(a: Value, b: Value)
    requires IsNumber(a) && IsNumber(b) && Unsigned(a) == Unsigned(b) && IsNegative(a) == IsNegative(b)
    ensures a == b
  {
    if a.Int? {
      Decimal.StrRoundTrip(if a.n < 0 then -a.n else a.n);
    }
    if b.Int? {
      Decimal.StrRoundTrip(if b.n < 0 then -b.n else b.n);
    }
    assert "None"[0] == 'N' && !Decimal.IsDigit('N');
  }

  lemma SameSign(a: Value, b: Value, s: string, t: string)
    requires IsNumber(a) && IsNumber(b) && StrOf(a) + s == StrOf(b) + t
    ensures IsNegative(a) == IsNegative(b) && Unsigned(a) + s == Unsigned(b) + t
  {
    UnsignedHasNoDash(a);
    UnsignedHasNoDash(b);
    assert (StrOf(a) + s)[0] == StrOf(a)[0] && (StrOf(b) + t)[0] == StrOf(b)[0];
    if IsNegative(a) {
      assert (StrOf(a) + s)[1..] == Unsigned(a) + s;
      assert (StrOf(b) + t)[1..] == Unsigned(b) + t;
    } else {
      assert StrOf(a) == Unsigned(a) && StrOf(b) == Unsigned(b);
    }
  }

  lemma StrOfInjective(a: Value, b: Value)
    requires IsNumber(a) && IsNumber(b) && StrOf(a) == StrOf(b)
    ensures a == b
  {
    assert StrOf(a) + [] == StrOf(b) + [];
    SameSign(a, b, [], []);
    assert Unsigned(a) + [] == Unsigned(a) && Unsigned(b) + [] == Unsigned(b);
    UnsignedInjective(a, b);
  }

  lemma SplitAtDash(x: string, y: string, s: string, t: string)
    requires '-' !in x && '-' !in y && x + (['-'] + s) == y + (['-'] + t)
    ensures x == y && s == t
  {
    Decimal.SplitAtSeparator('-', x, ['-'] + s, y, ['-'] + t);
    assert s == (['-'] + s)[1..] && t == (['-'] + t)[1..];
  }

  lemma FirstPartInjective(a: Value, b: Value, s: string, t: string)
    requires IsNumber(a) && IsNumber(b) && StrOf(a) + (['-'] + s) == StrOf(b) + (['-'] + t)
    ensures a == b && s == t
  {
    SameSign(a, b, ['-'] + s, ['-'] + t);
    UnsignedHasNoDash(a);
    UnsignedHasNoDash(b);
    SplitAtDash(Unsigned(a), Unsigned(b), s, t);
    UnsignedInjective(a, b);
  }

  lemma Regroup(x: string, y: string, z: string)
    ensures (x + y) + z == x + (y + z)
  {
  }

  /** The text identifies block number and transaction index, whatever numbers they are and also
      if one is missing. */
  lemma KeyTextInjective(a: Value, i: Value, b: Value, j: Value)
    requires IsNumber(a) && IsNumber(i) && IsNumber(b) && IsNumber(j)
    ensures KeyText(a, i) == KeyText(b, j) <==> a == b && i == j
  {
    if KeyText(a, i) == KeyText(b, j) {
      Regroup(StrOf(a), ['-'], StrOf(i));
      Regroup(StrOf(b), ['-'], StrOf(j));
      FirstPartInjective(a, b, StrOf(i), StrOf(j));
      StrOfInjective(i, j);
    }
  }

  /** The text reads back: block number and transaction index are left and right of the dash. */
  lemma KeyTextReadsBack(block: nat, index: Value)
    requires index.Int? ==> index.n >= 0
    requires IsNumber(index)
    ensures var p := Decimal.Split('-', KeyText(Int(block), index));
            && |p| == 2 && Decimal.Value(p[0]) == block
            && (if index.Int? then Decimal.Value(p[1]) == index.n else p[1] == "None")
  {
    var parts := [Decimal.Str(block), StrOf(index)];
    UnsignedHasNoDash(index);
    Decimal.StrRoundTrip(block);
    if index.Int? {
      Decimal.StrRoundTrip(index.n);
    }
    assert KeyText(Int(block), index) == Decimal.Join('-', parts);
    Decimal.JoinOfSplit('-', KeyText(Int(block), index));
    Decimal.JoinInjective('-', Decimal.Split('-', KeyText(Int(block), index)), parts);
  }

  /* ---- The shapes of the two joins ---- */

  const KEY_NAME := "block_number_transaction_index"

  const WITH_BLOCKS := Shape("block_number", "number",
    Same(["type", "transaction_index", "from_address", "to_address", "value", "input", "output", "trace_type",
          "call_type", "reward_type", "gas", "gas_used", "subtraces", "trace_address", "error", "status",
          "transaction_hash", "block_number", "trace_id"]),
    [Field("timestamp", "block_timestamp"), Field("hash", "block_hash")])

  const TRACE_FIELDS :=
    ["type", "transaction_index", "from_address", "to_address", "value", "input", "output", "trace_type",
     "call_type", "reward_type", "gas", "gas_used", "subtraces", "trace_address", "error", "status",
     "block_number", "trace_id"]

  const WITH_TRANSACTIONS := Shape(KEY_NAME, KEY_NAME, Same(TRACE_FIELDS),
    [Field("block_timestamp", "block_timestamp"), Field("block_hash", "block_hash"), Field("hash", "transaction_hash")])

  lemma WithBlocksWellFormed()
    ensures WellFormed(WITH_BLOCKS)
    ensures HasDestination(WITH_BLOCKS.leftFields, "block_number")
    ensures HasDestination(WITH_BLOCKS.leftFields, "transaction_index")
  {
    var fields := WITH_BLOCKS.leftFields;
    assert fields[17].dst == "block_number" && fields[1].dst == "transaction_index";
    forall i | 0 <= i < |fields| ensures fields[i].dst != "block_timestamp" {}
    forall i | 0 <= i < |fields| ensures fields[i].dst != "block_hash" {}
  }

  lemma WithTransactionsWellFormed()
    ensures WellFormed(WITH_TRANSACTIONS)
  {
    var fields := WITH_TRANSACTIONS.leftFields;
    forall i | 0 <= i < |fields| ensures fields[i].dst != "block_timestamp" {}
    forall i | 0 <= i < |fields| ensures fields[i].dst != "block_hash" {}
    forall i | 0 <= i < |fields| ensures fields[i].dst != "transaction_hash" {}
  }

  /* ---- The two joins ---- */

  function Keyed(item: Item): Item {
    item[KEY_NAME := Text(KeyText(Get(item, "block_number"), Get(item, "transaction_index")))]
  }

  function BlockJoin(): Spec<Item, Item, Value, Item> { SpecOf(WITH_BLOCKS) }

  function TransactionJoin(): Spec<Item, Item, Value, Item> {
    After(SpecOf(WITH_TRANSACTIONS), Keyed, Keyed)
  }

  /** The reference: both joins as nested loops, the key computed on the fly. */
  function Reference(blocks: seq<Item>, traces: seq<Item>, transactions: seq<Item>): seq<Item> {
    NestedLoop(TransactionJoin(), NestedLoop(BlockJoin(), traces, blocks), transactions)
  }

  /** The rows in the order of the source. */
  ghost function InOrder(blocks: seq<Item>, traces: seq<Item>, transactions: seq<Item>): seq<Item> {
    Joined(SpecOf(WITH_TRANSACTIONS), Map(Keyed, Joined(BlockJoin(), traces, blocks)), Map(Keyed, transactions))
  }

  ghost predicate KeysPresent(blocks: seq<Item>, traces: seq<Item>, transactions: seq<Item>) {
    && AllHave(traces, "block_number")
    && AllHave(blocks, "number")
    && AllHave(transactions, "block_number")
    && AllHave(transactions, "transaction_index")
  }

  /** The key that a row gets holds its block number and its transaction index, and the row keeps what
      it had. */
  lemma KeyedReadsBack(item: Item, block: nat, index: nat)
    requires "block_number" in item && item["block_number"] == Int(block)
    requires "transaction_index" in item && item["transaction_index"] == Int(index)
    ensures "block_number_transaction_index" in Keyed(item) && Keyed(item)["block_number_transaction_index"].Text?
    ensures var p := Decimal.Split('-', Keyed(item)["block_number_transaction_index"].s);
            |p| == 2 && Decimal.Value(p[0]) == block && Decimal.Value(p[1]) == index
    ensures forall d :: d != "block_number_transaction_index" ==>
              (d in Keyed(item) <==> d in item) && (d in item ==> Keyed(item)[d] == item[d])
  {
    KeyTextReadsBack(block, Int(index));
  }

  /** Adds the text key to every row; a missing field raises. */
  method AddKeys(items: seq<Item>) returns (result: Result<seq<Item>, EnrichError>)
    ensures result.Success? <==> AllHave(items, "block_number") && AllHave(items, "transaction_index")
    ensures result.Success? ==> result.value == Map(Keyed, items)
    ensures result.Failure? ==> result.error == KeyError
  {
    var keyed := [];
    for i := 0 to |items|
      invariant keyed == Map(Keyed, items[..i])
      invariant forall j :: 0 <= j < i ==> "block_number" in items[j] && "transaction_index" in items[j]
    {
      if "block_number" !in items[i] || "transaction_index" !in items[i] {
        return Failure(KeyError);
      }
      keyed := keyed + [Keyed(items[i])];
    }
    assert items[..|items|] == items;
    return Success(keyed);
  }

  lemma JoinedWithBlocksHaveKeys(traces: seq<Item>, blocks: seq<Item>, rows: seq<Item>)
    requires multiset(rows) == multiset(NestedLoop(BlockJoin(), traces, blocks))
    ensures AllHave(rows, "block_number") && AllHave(rows, "transaction_index")
  {
    WithBlocksWellFormed();
    forall i | 0 <= i < |rows| ensures "block_number" in rows[i] && "transaction_index" in rows[i] {
      assert rows[i] in multiset(rows);
      NestedLoopMember(BlockJoin(), traces, blocks, rows[i]);
      var l, r :| l in traces && r in blocks && rows[i] == BlockJoin().combine(l, r);
      CombineKeepsFields(WITH_BLOCKS, l, r);
    }
  }

  lemma AddedKeysHaveKey(items: seq<Item>)
    ensures AllHave(Map(Keyed, items), KEY_NAME)
  {
    forall i | 0 <= i < |items| ensures KEY_NAME in Map(Keyed, items)[i] {
      assert Map(Keyed, items)[i] == Keyed(items[i]);
    }
  }

  /** `keyed` are the transactions, each with the key that this leaves in it. */
  method EnrichTraces(blocks: seq<Item>, traces: seq<Item>, transactions: seq<Item>)
    returns (result: Result<seq<Item>, EnrichError>, keyed: seq<Item>)
    ensures result == Failure(KeyError) <==> !KeysPresent(blocks, traces, transactions)
    ensures result == Failure(WrongNumber) <==>
              KeysPresent(blocks, traces, transactions) && |Reference(blocks, traces, transactions)| != |traces|
    ensures result.Success? ==> result.value == InOrder(blocks, traces, transactions)
    ensures result.Success? ==> multiset(result.value) == multiset(Reference(blocks, traces, transactions))
    ensures KeysPresent(blocks, traces, transactions) ==> keyed == Map(Keyed, transactions)
  {
    keyed := transactions;
    var joined := JoinItems(WITH_BLOCKS, traces, blocks);
    if joined.Failure? {
      return Failure(KeyError), keyed;
    }
    JoinedWithBlocksHaveKeys(traces, blocks, joined.value);
    var left := AddKeys(joined.value);
    var right := AddKeys(transactions);
    if right.Failure? {
      return Failure(KeyError), keyed;
    }
    keyed := right.value;
    AddedKeysHaveKey(joined.value);
    AddedKeysHaveKey(transactions);
    result := JoinItems(WITH_TRANSACTIONS, left.value, right.value);
    JoinOfMapped(SpecOf(WITH_TRANSACTIONS), Keyed, Keyed, joined.value, transactions);
    LeftOrderDoesNotMatter(TransactionJoin(), joined.value, NestedLoop(BlockJoin(), traces, blocks), transactions);
    SameSize(result.value, Reference(blocks, traces, transactions));
    if |result.value| != |traces| {
      result := Failure(WrongNumber);
    }
  }

  /* ---- What a successful call has done ---- */

  ghost predicate IsBlockOf(block: Item, trace: Item) {
    Get(block, "number") == Get(trace, "block_number")
  }

  ghost predicate IsTransactionOf(transaction: Item, trace: Item) {
    && Get(transaction, "block_number") == Get(trace, "block_number")
    && Get(transaction, "transaction_index") == Get(trace, "transaction_index")
  }

  ghost predicate Numbered(items: seq<Item>) {
    forall i :: 0 <= i < |items| ==>
      (IsNumber(Get(items[i], "block_number")) && IsNumber(Get(items[i], "transaction_index")))
  }

  ghost predicate UniqueBlocks(blocks: seq<Item>) {
    forall i, j :: 0 <= i < j < |blocks| ==> Get(blocks[i], "number") != Get(blocks[j], "number")
  }

  ghost predicate UniqueTransactions(transactions: seq<Item>) {
    forall i, j :: 0 <= i < j < |transactions| ==> !IsTransactionOf(transactions[i], transactions[j])
  }

  ghost predicate HasBlock(trace: Item, blocks: seq<Item>) {
    exists b :: b in blocks && IsBlockOf(b, trace)
  }

  ghost predicate HasTransaction(trace: Item, transactions: seq<Item>) {
    exists t :: t in transactions && IsTransactionOf(t, trace)
  }

  /** The trace's own fields, the times and hashes of its transaction, and nothing else. */
  ghost predicate TraceIsEnriched(row: Item, trace: Item, transaction: Item) {
    && TakesAll(row, trace,
         ["type", "transaction_index", "from_address", "to_address", "value", "input", "output", "trace_type",
          "call_type", "reward_type", "gas", "gas_used", "subtraces", "trace_address", "error", "status",
          "block_number", "trace_id"])
    && Takes(row, "block_timestamp", transaction, "block_timestamp")
    && Takes(row, "block_hash", transaction, "block_hash")
    && Takes(row, "transaction_hash", transaction, "hash")
    && HasOnly(row,
         ["type", "transaction_index", "from_address", "to_address", "value", "input", "output", "trace_type",
          "call_type", "reward_type", "gas", "gas_used", "subtraces", "trace_address", "error", "status",
          "block_number", "trace_id", "block_timestamp", "block_hash", "transaction_hash"])
  }

  ghost predicate TraceRowFor(row: Item, trace: Item, transactions: seq<Item>) {
    exists t :: t in transactions && IsTransactionOf(t, trace) && TraceIsEnriched(row, trace, t)
  }

  /** A row of the first join still has the trace's fields that the second one reads. */
  ghost predicate Carries(mid: Item, trace: Item) {
    forall d :: HasDestination(WITH_BLOCKS.leftFields, d) ==> Get(mid, d) == Get(trace, d)
  }

  lemma BlockMatch(trace: Item, blocks: seq<Item>)
    ensures HasMatch(BlockJoin(), trace, blocks) <==> HasBlock(trace, blocks)
  {
    if HasBlock(trace, blocks) {
      var b :| b in blocks && IsBlockOf(b, trace);
      var j :| 0 <= j < |blocks| && blocks[j] == b;
      assert BlockJoin().rightKey(blocks[j]) == BlockJoin().leftKey(trace);
    }
    if HasMatch(BlockJoin(), trace, blocks) {
      var j :| 0 <= j < |blocks| && BlockJoin().rightKey(blocks[j]) == BlockJoin().leftKey(trace);
      assert blocks[j] in blocks && IsBlockOf(blocks[j], trace);
    }
  }

  lemma BlockRowCarries(trace: Item, blocks: seq<Item>, mid: Item)
    requires IsMatch(BlockJoin(), trace, blocks, mid)
    ensures Carries(mid, trace)
  {
    var j :| 0 <= j < |blocks| && mid == BlockJoin().combine(trace, blocks[j]);
    WithBlocksWellFormed();
    CombineKeepsFields(WITH_BLOCKS, trace, blocks[j]);
  }

  function KeyOf(item: Item): string {
    KeyText(Get(item, "block_number"), Get(item, "transaction_index"))
  }

  lemma CarriesKey(mid: Item, trace: Item)
    requires Carries(mid, trace)
    ensures KeyOf(mid) == KeyOf(trace)
  {
    WithBlocksWellFormed();
  }

  lemma KeysRead(mid: Item, transaction: Item)
    ensures TransactionJoin().rightKey(transaction) == Text(KeyOf(transaction))
    ensures TransactionJoin().leftKey(mid) == Text(KeyOf(mid))
  {
    assert WITH_TRANSACTIONS.leftKey == KEY_NAME && WITH_TRANSACTIONS.rightKey == KEY_NAME;
    assert TransactionJoin().rightKey(transaction) == Get(Keyed(transaction), KEY_NAME);
    assert TransactionJoin().leftKey(mid) == Get(Keyed(mid), KEY_NAME);
  }

  /** The second join meets exactly the transactions of the trace. */
  lemma SameKeyIffTransactionOf(mid: Item, trace: Item, transaction: Item)
    requires Carries(mid, trace) && Numbered([trace]) && Numbered([transaction])
    ensures TransactionJoin().rightKey(transaction) == TransactionJoin().leftKey(mid)
       <==> IsTransactionOf(transaction, trace)
  {
    assert [trace][0] == trace && [transaction][0] == transaction;
    CarriesKey(mid, trace);
    KeysRead(mid, transaction);
    KeyTextInjective(Get(transaction, "block_number"), Get(transaction, "transaction_index"),
                     Get(trace, "block_number"), Get(trace, "transaction_index"));
  }

  lemma TransactionMatch(mid: Item, trace: Item, transactions: seq<Item>)
    requires Carries(mid, trace) && Numbered([trace]) && Numbered(transactions)
    ensures HasMatch(TransactionJoin(), mid, transactions) <==> HasTransaction(trace, transactions)
  {
    assert [trace][0] == trace;
    forall j | 0 <= j < |transactions|
      ensures TransactionJoin().rightKey(transactions[j]) == TransactionJoin().leftKey(mid)
         <==> IsTransactionOf(transactions[j], trace)
    {
      SameKeyIffTransactionOf(mid, trace, transactions[j]);
    }
    if HasTransaction(trace, transactions) {
      var t :| t in transactions && IsTransactionOf(t, trace);
      var j :| 0 <= j < |transactions| && transactions[j] == t;
    }
  }

  /** What the second join reads of a trace, the first one has kept, and the key is not among it. */
  lemma SecondReadsWhatFirstKeeps(d: string)
    requires HasDestination(WITH_TRANSACTIONS.leftFields, d)
    ensures HasDestination(WITH_BLOCKS.leftFields, d) && d != KEY_NAME
  {
    var fields := WITH_TRANSACTIONS.leftFields;
    var i :| 0 <= i < |fields| && fields[i].dst == d;
    var j := if i < 16 then i else i + 1;
    assert WITH_BLOCKS.leftFields[j].dst == d;
  }

  lemma TransactionFields(mid: Item, trace: Item, transaction: Item)
    requires Carries(mid, trace)
    ensures TraceIsEnriched(TransactionJoin().combine(mid, transaction), trace, transaction)
  {
    var row := Combine(WITH_TRANSACTIONS, Keyed(mid), Keyed(transaction));
    CombinedFields(Keyed(mid), Keyed(transaction));
    forall d | d in TRACE_FIELDS ensures Takes(row, d, trace, d) {
      SameHasDestination(TRACE_FIELDS, d);
      SecondReadsWhatFirstKeeps(d);
      assert Get(mid, d) == Get(trace, d);
    }
  }

  lemma CombinedFields(l: Item, r: Item)
    ensures var row := Combine(WITH_TRANSACTIONS, l, r);
            && TakesAll(row, l, TRACE_FIELDS)
            && Takes(row, "block_timestamp", r, "block_timestamp")
            && Takes(row, "block_hash", r, "block_hash")
            && Takes(row, "transaction_hash", r, "hash")
            && HasOnly(row, TRACE_FIELDS + ["block_timestamp", "block_hash", "transaction_hash"])
  {
    var rights := WITH_TRANSACTIONS.rightFields;
    WithTransactionsWellFormed();
    CombineTakes(WITH_TRANSACTIONS, TRACE_FIELDS, l, r);
    assert rights[0].dst == "block_timestamp" && rights[1].dst == "block_hash" && rights[2].dst == "transaction_hash";
    forall d ensures HasDestination(rights, d) <==> d in ["block_timestamp", "block_hash", "transaction_hash"] {
    }
  }

  lemma TransactionRow(mid: Item, trace: Item, transactions: seq<Item>, row: Item)
    requires Carries(mid, trace) && Numbered([trace]) && Numbered(transactions)
    requires IsMatch(TransactionJoin(), mid, transactions, row)
    ensures TraceRowFor(row, trace, transactions)
  {
    var s := TransactionJoin();
    var j :| 0 <= j < |transactions| && s.rightKey(transactions[j]) == s.leftKey(mid)
             && row == s.combine(mid, transactions[j]);
    SameKeyIffTransactionOf(mid, trace, transactions[j]);
    TransactionFields(mid, trace, transactions[j]);
    assert transactions[j] in transactions;
  }

  lemma UniqueTransactionKeys(transactions: seq<Item>)
    requires Numbered(transactions) && UniqueTransactions(transactions)
    ensures UniqueRightKeys(TransactionJoin(), transactions)
  {
    forall i, j | 0 <= i < j < |transactions|
      ensures TransactionJoin().rightKey(transactions[i]) != TransactionJoin().rightKey(transactions[j])
    {
      var a, b := transactions[i], transactions[j];
      KeysRead(a, a);
      KeysRead(b, b);
      assert !IsTransactionOf(a, b);
      KeyTextInjective(Get(a, "block_number"), Get(a, "transaction_index"),
                       Get(b, "block_number"), Get(b, "transaction_index"));
    }
  }

  lemma UniqueBlockKeys(blocks: seq<Item>)
    requires UniqueBlocks(blocks)
    ensures UniqueRightKeys(BlockJoin(), blocks)
  {
    forall i, j | 0 <= i < j < |blocks| ensures BlockJoin().rightKey(blocks[i]) != BlockJoin().rightKey(blocks[j]) {
      assert Get(blocks[i], "number") != Get(blocks[j], "number");
    }
  }

  lemma MidMatches(blocks: seq<Item>, traces: seq<Item>, transactions: seq<Item>, mid: Item, i: nat)
    requires i < |traces| && Numbered(traces) && Numbered(transactions)
    requires HasMatch(BlockJoin(), traces[i], blocks) && IsMatch(BlockJoin(), traces[i], blocks, mid)
    ensures HasBlock(traces[i], blocks) && Carries(mid, traces[i])
    ensures HasMatch(TransactionJoin(), mid, transactions) <==> HasTransaction(traces[i], transactions)
  {
    assert [traces[i]][0] == traces[i];
    BlockMatch(traces[i], blocks);
    BlockRowCarries(traces[i], blocks, mid);
    TransactionMatch(mid, traces[i], transactions);
  }

  /** The length check passes exactly if every trace has its block and its transaction, and then
      there is one row for every trace, made of it and its transaction. The block contributes
      nothing to the row: its time and hash are taken from the transaction. */
  lemma TracesAreEnrichedIffAllMatch(blocks: seq<Item>, traces: seq<Item>, transactions: seq<Item>)
    requires UniqueBlocks(blocks) && UniqueTransactions(transactions)
    requires Numbered(traces) && Numbered(transactions)
    ensures |Reference(blocks, traces, transactions)| == |traces| <==>
              forall i :: 0 <= i < |traces| ==> HasBlock(traces[i], blocks) && HasTransaction(traces[i], transactions)
    ensures |Reference(blocks, traces, transactions)| == |traces| ==>
              forall i :: 0 <= i < |traces| ==>
                TraceRowFor(Reference(blocks, traces, transactions)[i], traces[i], transactions)
  {
    var mids, rows := NestedLoop(BlockJoin(), traces, blocks), Reference(blocks, traces, transactions);
    UniqueBlockKeys(blocks);
    UniqueTransactionKeys(transactions);
    LengthCheckIsExact(BlockJoin(), traces, blocks);
    LengthCheckIsExact(TransactionJoin(), mids, transactions);
    if |mids| == |traces| {
      forall i | 0 <= i < |traces|
        ensures HasBlock(traces[i], blocks) && Carries(mids[i], traces[i])
        ensures HasMatch(TransactionJoin(), mids[i], transactions) <==> HasTransaction(traces[i], transactions)
      {
        MidMatches(blocks, traces, transactions, mids[i], i);
      }
      if |rows| == |traces| {
        forall i | 0 <= i < |traces| ensures TraceRowFor(rows[i], traces[i], transactions) {
          TransactionRow(mids[i], traces[i], transactions, rows[i]);
        }
      }
    } else {
      var i :| 0 <= i < |traces| && !HasMatch(BlockJoin(), traces[i], blocks);
      BlockMatch(traces[i], blocks);
    }
  }

  /* ---- When the length check can be trusted ---- */

  function HasNumbers(): Item -> bool {
    (t: Item) => "block_number" in t && IsNumber(Get(t, "block_number")) && IsNumber(Get(t, "transaction_index"))
  }

  function RowsPerTrace(blocks: seq<Item>, transactions: seq<Item>): Item -> nat {
    (t: Item) => TraceRows(blocks, t, transactions)
  }

  function TraceRows(blocks: seq<Item>, t: Item, transactions: seq<Item>): nat {
    |NestedLoop(TransactionJoin(), Matches(BlockJoin(), t, blocks), transactions)|
  }

  lemma {:induction false} TraceRowsAreCounted(blocks: seq<Item>, traces: seq<Item>, transactions: seq<Item>)
    ensures |Reference(blocks, traces, transactions)| == Total(RowsPerTrace(blocks, transactions), traces)
  {
    if traces != [] {
      var init, t := traces[..|traces| - 1], traces[|traces| - 1];
      TraceRowsAreCounted(blocks, init, transactions);
      NestedLoopSplit(TransactionJoin(), NestedLoop(BlockJoin(), init, blocks),
                      Matches(BlockJoin(), t, blocks), transactions);
    }
  }

  function BlocksFor(t: Item, blocks: seq<Item>): seq<Item> {
    Group(BlockJoin().rightKey, Get(t, "block_number"), blocks)
  }

  function TransactionsFor(t: Item, transactions: seq<Item>): seq<Item> {
    Group(TransactionJoin().rightKey, Text(KeyOf(t)), transactions)
  }

  /** A trace makes as many rows as it has blocks, times as many as it has transactions. */
  lemma RowsAreBlocksTimesTransactions(blocks: seq<Item>, t: Item, transactions: seq<Item>)
    ensures TraceRows(blocks, t, transactions)
         == |BlocksFor(t, blocks)|
            * |TransactionsFor(t, transactions)|
  {
    var mids := Matches(BlockJoin(), t, blocks);
    var group := BlocksFor(t, blocks);
    var n := |TransactionsFor(t, transactions)|;
    forall mid | mid in mids ensures |Matches(TransactionJoin(), mid, transactions)| == n {
      var j :| 0 <= j < |mids| && mids[j] == mid;
      BlockRowKeepsFields(t, group[j]);
      CarriesKey(mid, t);
      KeysRead(mid, mid);
    }
    EachMakesAsMany(TransactionJoin(), mids, transactions, n);
  }

  lemma BlockRowKeepsFields(trace: Item, block: Item)
    ensures Carries(BlockJoin().combine(trace, block), trace)
  {
    WithBlocksWellFormed();
    CombineKeepsFields(WITH_BLOCKS, trace, block);
  }

  lemma BlocksOfTrace(blocks: seq<Item>, t: Item)
    ensures HasBlock(t, blocks) <==> |BlocksFor(t, blocks)| >= 1
  {
    BlockMatch(t, blocks);
    HasMatchIffRows(BlockJoin(), t, blocks);
  }

  lemma SameKeyIffSameNumbers(transaction: Item, t: Item)
    requires Numbered([t]) && Numbered([transaction])
    ensures TransactionJoin().rightKey(transaction) == Text(KeyOf(t)) <==> IsTransactionOf(transaction, t)
  {
    assert [t][0] == t && [transaction][0] == transaction;
    KeysRead(t, transaction);
    KeyTextInjective(Get(transaction, "block_number"), Get(transaction, "transaction_index"),
                     Get(t, "block_number"), Get(t, "transaction_index"));
  }

  lemma AllSameKeyIffSameNumbers(transactions: seq<Item>, t: Item)
    requires Numbered([t]) && Numbered(transactions)
    ensures forall i :: 0 <= i < |transactions| ==>
              (TransactionJoin().rightKey(transactions[i]) == Text(KeyOf(t)) <==> IsTransactionOf(transactions[i], t))
  {
    forall i | 0 <= i < |transactions|
      ensures TransactionJoin().rightKey(transactions[i]) == Text(KeyOf(t)) <==> IsTransactionOf(transactions[i], t)
    {
      SameKeyIffSameNumbers(transactions[i], t);
    }
  }

  lemma TransactionsOfTrace(transactions: seq<Item>, t: Item)
    requires Numbered([t]) && Numbered(transactions)
    ensures HasTransaction(t, transactions) <==> |TransactionsFor(t, transactions)| >= 1
  {
    var key, k := TransactionJoin().rightKey, Text(KeyOf(t));
    AllSameKeyIffSameNumbers(transactions, t);
    GroupMembers(key, k, transactions);
    if HasTransaction(t, transactions) {
      var x :| x in transactions && IsTransactionOf(x, t);
      assert x in Group(key, k, transactions);
    } else {
      forall i | 0 <= i < |transactions| ensures key(transactions[i]) != k {
        assert transactions[i] in transactions;
      }
      GroupOfNone(key, k, transactions);
    }
  }

  /** Transaction i and block j, which belong together, are the only ones with their numbers. */
  ghost predicate Alone(blocks: seq<Item>, transactions: seq<Item>, i: nat, j: nat)
    requires i < |transactions| && j < |blocks|
  {
    && (forall x :: 0 <= x < |transactions| && x != i ==> !IsTransactionOf(transactions[x], transactions[i]))
    && (forall y :: 0 <= y < |blocks| && y != j ==> !IsBlockOf(blocks[y], transactions[i]))
  }

  ghost predicate NoDoubles(blocks: seq<Item>, transactions: seq<Item>) {
    forall i, j :: 0 <= i < |transactions| && 0 <= j < |blocks| && IsBlockOf(blocks[j], transactions[i]) ==>
      Alone(blocks, transactions, i, j)
  }

  lemma AtMostOneRow(blocks: seq<Item>, t: Item, transactions: seq<Item>)
    requires Numbered([t]) && Numbered(transactions) && NoDoubles(blocks, transactions)
    ensures TraceRows(blocks, t, transactions) <= 1
  {
    RowsAreBlocksTimesTransactions(blocks, t, transactions);
    BlocksOfTrace(blocks, t);
    TransactionsOfTrace(transactions, t);
    Product(|BlocksFor(t, blocks)|, |TransactionsFor(t, transactions)|);
    if HasBlock(t, blocks) && HasTransaction(t, transactions) {
      var b :| b in blocks && IsBlockOf(b, t);
      var j :| 0 <= j < |blocks| && blocks[j] == b;
      var x :| x in transactions && IsTransactionOf(x, t);
      var i :| 0 <= i < |transactions| && transactions[i] == x;
      assert IsBlockOf(blocks[j], transactions[i]) && Alone(blocks, transactions, i, j);
      OnlyBlock(blocks, t, j);
      OnlyTransaction(transactions, t, i);
    }
  }

  lemma Product(m: nat, n: nat)
    ensures m * n >= 1 <==> m >= 1 && n >= 1
    ensures m <= 1 && n <= 1 ==> m * n <= 1
    ensures m >= 1 && n >= 1 && m + n >= 3 ==> m * n >= 2
  {
    if m >= 1 && n >= 1 {
      assert m * n == (m - 1) * (n - 1) + m + n - 1;
    }
  }

  lemma OnlyBlock(blocks: seq<Item>, t: Item, j: nat)
    requires j < |blocks| && IsBlockOf(blocks[j], t)
    requires forall y :: 0 <= y < |blocks| && y != j ==> !IsBlockOf(blocks[y], t)
    ensures |BlocksFor(t, blocks)| == 1
  {
    GroupOfUnique(BlockJoin().rightKey, Get(t, "block_number"), blocks, j);
  }

  lemma OnlyTransaction(transactions: seq<Item>, t: Item, i: nat)
    requires Numbered([t]) && Numbered(transactions)
    requires i < |transactions| && IsTransactionOf(transactions[i], t)
    requires forall x :: 0 <= x < |transactions| && x != i ==> !IsTransactionOf(transactions[x], t)
    ensures |TransactionsFor(t, transactions)| == 1
  {
    AllSameKeyIffSameNumbers(transactions, t);
    GroupOfUnique(TransactionJoin().rightKey, Text(KeyOf(t)), transactions, i);
  }

  /** A transaction or a block that is not alone makes two rows of its trace. */
  lemma SomeTraceDoubles(blocks: seq<Item>, transactions: seq<Item>) returns (t: Item)
    requires Numbered(transactions) && !NoDoubles(blocks, transactions)
    ensures HasNumbers()(t) && TraceRows(blocks, t, transactions) >= 2
  {
    var i, j :| 0 <= i < |transactions| && 0 <= j < |blocks| && IsBlockOf(blocks[j], transactions[i])
                && !Alone(blocks, transactions, i, j);
    var x := transactions[i];
    t := TraceOf(x);
    assert x in transactions && blocks[j] in blocks;
    RowsAreBlocksTimesTransactions(blocks, t, transactions);
    BlocksOfTrace(blocks, t);
    TransactionsOfTrace(transactions, t);
    Product(|BlocksFor(t, blocks)|, |TransactionsFor(t, transactions)|);
    if y :| 0 <= y < |blocks| && y != j && IsBlockOf(blocks[y], x) {
      TwoBlocks(blocks, t, if y < j then y else j, if y < j then j else y);
    } else {
      var y :| 0 <= y < |transactions| && y != i && IsTransactionOf(transactions[y], x);
      TwoTransactions(transactions, t, if y < i then y else i, if y < i then i else y);
    }
  }

  /** A trace of this transaction. */
  lemma TraceOf(x: Item) returns (t: Item)
    requires Numbered([x])
    ensures HasNumbers()(t) && Numbered([t])
    ensures Get(t, "block_number") == Get(x, "block_number")
    ensures Get(t, "transaction_index") == Get(x, "transaction_index")
  {
    assert [x][0] == x;
    assert |"block_number"| != |"transaction_index"|;
    t := map["block_number" := Get(x, "block_number"), "transaction_index" := Get(x, "transaction_index")];
  }

  lemma TwoBlocks(blocks: seq<Item>, t: Item, i: nat, j: nat)
    requires i < j < |blocks| && IsBlockOf(blocks[i], t) && IsBlockOf(blocks[j], t)
    ensures |BlocksFor(t, blocks)| >= 2
  {
    GroupOfTwo(BlockJoin().rightKey, Get(t, "block_number"), blocks, i, j);
  }

  lemma TwoTransactions(transactions: seq<Item>, t: Item, i: nat, j: nat)
    requires Numbered([t]) && Numbered(transactions)
    requires i < j < |transactions| && IsTransactionOf(transactions[i], t) && IsTransactionOf(transactions[j], t)
    ensures |TransactionsFor(t, transactions)| >= 2
  {
    AllSameKeyIffSameNumbers(transactions, t);
    GroupOfTwo(TransactionJoin().rightKey, Text(KeyOf(t)), transactions, i, j);
  }

  lemma SomeTraceHasNoBlock(blocks: seq<Item>) returns (t: Item)
    ensures HasNumbers()(t) && !HasBlock(t, blocks)
  {
    var values := seq(|blocks|, i requires 0 <= i < |blocks| => Get(blocks[i], "number"));
    var n := NewNumber(values);
    t := map["block_number" := Int(n), "transaction_index" := Null];
    forall b | b in blocks ensures !IsBlockOf(b, t) {
      var i :| 0 <= i < |blocks| && blocks[i] == b;
      assert values[i] == Get(b, "number");
    }
  }

  /** With these blocks and transactions, the length check accepts the lists of traces in which every
      trace has both, and no others. */
  ghost predicate TraceCheckIsExact(blocks: seq<Item>, transactions: seq<Item>) {
    forall traces: seq<Item> :: All(HasNumbers(), traces) ==> TraceCheckIsExactFor(blocks, traces, transactions)
  }

  ghost predicate TraceCheckIsExactFor(blocks: seq<Item>, traces: seq<Item>, transactions: seq<Item>) {
    |Reference(blocks, traces, transactions)| == |traces| <==>
      forall i :: 0 <= i < |traces| ==> HasBlock(traces[i], blocks) && HasTransaction(traces[i], transactions)
  }

  lemma TraceHasBothIffRows(blocks: seq<Item>, t: Item, transactions: seq<Item>)
    requires HasNumbers()(t) && Numbered(transactions)
    ensures HasBlock(t, blocks) && HasTransaction(t, transactions) <==> TraceRows(blocks, t, transactions) >= 1
  {
    RowsAreBlocksTimesTransactions(blocks, t, transactions);
    BlocksOfTrace(blocks, t);
    TransactionsOfTrace(transactions, t);
    Product(|BlocksFor(t, blocks)|, |TransactionsFor(t, transactions)|);
  }

  lemma TracesAreCounted(blocks: seq<Item>, traces: seq<Item>, transactions: seq<Item>)
    requires Numbered(transactions) && All(HasNumbers(), traces)
    ensures TraceCheckIsExactFor(blocks, traces, transactions)
       <==> CountIsExactFor(RowsPerTrace(blocks, transactions), traces)
  {
    TraceRowsAreCounted(blocks, traces, transactions);
    forall i | 0 <= i < |traces|
      ensures HasBlock(traces[i], blocks) && HasTransaction(traces[i], transactions)
              <==> RowsPerTrace(blocks, transactions)(traces[i]) >= 1
    {
      TraceHasBothIffRows(blocks, traces[i], transactions);
    }
  }

  lemma TraceCheckIsCount(blocks: seq<Item>, transactions: seq<Item>)
    requires Numbered(transactions)
    ensures TraceCheckIsExact(blocks, transactions) <==> CountIsExact(RowsPerTrace(blocks, transactions), HasNumbers())
  {
    forall traces: seq<Item> | All(HasNumbers(), traces)
      ensures TraceCheckIsExactFor(blocks, traces, transactions)
       <==> CountIsExactFor(RowsPerTrace(blocks, transactions), traces)
    {
      TracesAreCounted(blocks, traces, transactions);
    }
  }

  /** Exactly when the length check can be trusted: a transaction whose block is there is the only one
      with its numbers, and the block the only one with its number. Doubles that never meet do no
      harm. */
  lemma TraceCheckIsExactIffNoDoubles(blocks: seq<Item>, transactions: seq<Item>)
    requires Numbered(transactions)
    ensures TraceCheckIsExact(blocks, transactions) <==> NoDoubles(blocks, transactions)
  {
    var count, ok := RowsPerTrace(blocks, transactions), HasNumbers();
    var none := SomeTraceHasNoBlock(blocks);
    TraceHasBothIffRows(blocks, none, transactions);
    CountIsExactIffNoDoubles(count, ok, none);
    TraceCheckIsCount(blocks, transactions);
    if NoDoubles(blocks, transactions) {
      forall t: Item | ok(t) ensures count(t) <= 1 {
        AtMostOneRow(blocks, t, transactions);
      }
    } else {
      var t := SomeTraceDoubles(blocks, transactions);
      assert ok(t) && count(t) >= 2;
    }
  }
}
