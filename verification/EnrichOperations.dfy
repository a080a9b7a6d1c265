/** The five operations of cli/polygonetl/streaming/enrich.py that make one join. */
module EnrichOperations {
  import opened Common
  import opened HashJoin
  import opened Enrichment

  /* ---- Fields of a block ---- */

  /** The block of an item. */
  ghost predicate IsBlockOf(block: Item, item: Item) {
    "number" in block && "block_number" in item && block["number"] == item["block_number"]
  }

  /** The item's fields of these names, the time and the hash of the block, and nothing else. */
  ghost predicate IsWithBlock(row: Item, item: Item, block: Item, names: seq<string>) {
    && TakesAll(row, item, names)
    && Takes(row, "block_timestamp", block, "timestamp")
    && Takes(row, "block_hash", block, "hash")
    && HasOnly(row, names + ["block_timestamp", "block_hash"])
  }

  ghost predicate IsRowOfSome(row: Item, items: seq<Item>, blocks: seq<Item>, names: seq<string>) {
    exists l, b :: l in items && b in blocks && IsBlockOf(b, l) && IsWithBlock(row, l, b, names)
  }

  ghost predicate HasRow(item: Item, rows: seq<Item>, blocks: seq<Item>, names: seq<string>) {
    exists row, b :: row in rows && b in blocks && IsBlockOf(b, item) && IsWithBlock(row, item, b, names)
  }

  ghost predicate HasBlock(item: Item, blocks: seq<Item>) {
    exists b :: b in blocks && IsBlockOf(b, item)
  }

  ghost predicate DistinctNumbers(blocks: seq<Item>) {
    forall i, j :: 0 <= i < j < |blocks| ==>
      ("number" in blocks[i] && "number" in blocks[j] ==> blocks[i]["number"] != blocks[j]["number"])
  }

  /** What enriching items with their blocks does. */
  ghost predicate IsEnrichedWithBlocks(blocks: seq<Item>, items: seq<Item>, names: seq<string>,
                                       result: Result<seq<Item>, EnrichError>) {
    && (result == Failure(KeyError) <==> !AllHave(items, "block_number") || !AllHave(blocks, "number"))
    && (result.Success? ==> |result.value| == |items|)
    && (result.Success? ==> forall row :: row in result.value ==> IsRowOfSome(row, items, blocks, names))
    && (AllHave(items, "block_number") && AllHave(blocks, "number") && DistinctNumbers(blocks) ==>
          (result.Success? <==> forall l :: l in items ==> HasBlock(l, blocks)))
    && (result.Success? && DistinctNumbers(blocks) ==>
          forall l :: l in items ==> HasRow(l, result.value, blocks, names))
  }

  function BlockShape(names: seq<string>): Shape {
    Shape("block_number", "number", Same(names), BLOCK_FIELDS)
  }

  lemma BlockRow(names: seq<string>, l: Item, b: Item)
    requires "block_timestamp" !in names && "block_hash" !in names
    ensures IsWithBlock(Combine(BlockShape(names), l, b), l, b, names)
  {
    var rights := BLOCK_FIELDS;
    BlockShapeWellFormed(names);
    CombineTakes(BlockShape(names), names, l, b);
    assert rights[0].dst == "block_timestamp" && rights[1].dst == "block_hash";
  }

  lemma FitsIsBlock(names: seq<string>, l: Item, b: Item)
    requires "block_number" in l && "number" in b
    ensures Fits(BlockShape(names), l, b) <==> IsBlockOf(b, l)
  {
  }

  /** Every row comes from an item and its block. */
  lemma RowsComeFromItems(names: seq<string>, blocks: seq<Item>, items: seq<Item>, row: Item)
    requires "block_timestamp" !in names && "block_hash" !in names
    requires AllHave(items, "block_number") && AllHave(blocks, "number")
    requires row in NestedLoop(SpecOf(BlockShape(names)), items, blocks)
    ensures IsRowOfSome(row, items, blocks, names)
  {
    var s := SpecOf(BlockShape(names));
    NestedLoopMember(s, items, blocks, row);
    var l, b :| l in items && b in blocks && s.rightKey(b) == s.leftKey(l) && row == s.combine(l, b);
    BlockRow(names, l, b);
  }

  lemma PartnerIsBlock(names: seq<string>, l: Item, blocks: seq<Item>)
    requires "block_number" in l && AllHave(blocks, "number")
    ensures HasPartner(BlockShape(names), l, blocks) <==> HasBlock(l, blocks)
  {
    forall b | b in blocks ensures Fits(BlockShape(names), l, b) <==> IsBlockOf(b, l) {
      FitsIsBlock(names, l, b);
    }
  }

  /** With distinct blocks, every item has a row of its own. */
  lemma ItemsHaveRows(names: seq<string>, blocks: seq<Item>, items: seq<Item>, l: Item)
    requires "block_timestamp" !in names && "block_hash" !in names && l in items
    requires AllHave(items, "block_number") && AllHave(blocks, "number") && DistinctNumbers(blocks)
    requires |NestedLoop(SpecOf(BlockShape(names)), items, blocks)| == |items|
    ensures HasRow(l, NestedLoop(SpecOf(BlockShape(names)), items, blocks), blocks, names)
  {
    var s := SpecOf(BlockShape(names));
    var rows := NestedLoop(s, items, blocks);
    DistinctIsUnique(names, blocks);
    LengthCheckIsExact(s, items, blocks);
    var i :| 0 <= i < |items| && items[i] == l;
    assert IsMatch(s, l, blocks, rows[i]);
    var j :| 0 <= j < |blocks| && s.rightKey(blocks[j]) == s.leftKey(l) && rows[i] == s.combine(l, blocks[j]);
    BlockRow(names, l, blocks[j]);
    assert rows[i] in rows && blocks[j] in blocks && IsBlockOf(blocks[j], l);
  }

  lemma DistinctIsUnique(names: seq<string>, blocks: seq<Item>)
    requires AllHave(blocks, "number") && DistinctNumbers(blocks)
    ensures KeysAreDistinct(BlockShape(names), blocks) && UniqueRightKeys(SpecOf(BlockShape(names)), blocks)
  {
    forall i, j | 0 <= i < j < |blocks|
      ensures Get(blocks[i], "number") != Get(blocks[j], "number")
    {
      assert "number" in blocks[i] && "number" in blocks[j];
    }
  }

  lemma AllHaveBlocksIff(names: seq<string>, blocks: seq<Item>, items: seq<Item>)
    requires "block_timestamp" !in names && "block_hash" !in names
    requires AllHave(items, "block_number") && AllHave(blocks, "number") && DistinctNumbers(blocks)
    ensures |NestedLoop(SpecOf(BlockShape(names)), items, blocks)| == |items| <==>
              forall l :: l in items ==> HasBlock(l, blocks)
  {
    DistinctIsUnique(names, blocks);
    BlockShapeWellFormed(names);
    EnrichedIffAllMatch(BlockShape(names), items, blocks);
    forall i | 0 <= i < |items|
      ensures HasPartner(BlockShape(names), items[i], blocks) <==> HasBlock(items[i], blocks)
    {
      PartnerIsBlock(names, items[i], blocks);
    }
  }

  method EnrichWithBlocks(names: seq<string>, blocks: seq<Item>, items: seq<Item>)
    returns (result: Result<seq<Item>, EnrichError>)
    requires "block_timestamp" !in names && "block_hash" !in names
    ensures IsEnrichedWithBlocks(blocks, items, names, result)
  {
    result := Enrich(BlockShape(names), items, blocks);
    if result.Failure? {
      assert result.error.KeyError? || result.error.WrongNumber?;
    }
    ghost var rows := NestedLoop(SpecOf(BlockShape(names)), items, blocks);
    if AllHave(items, "block_number") && AllHave(blocks, "number") && DistinctNumbers(blocks) {
      AllHaveBlocksIff(names, blocks, items);
    }
    if result.Success? {
      SameSize(result.value, rows);
      SameMembers(result.value, rows);
      forall row | row in result.value ensures IsRowOfSome(row, items, blocks, names) {
        RowsComeFromItems(names, blocks, items, row);
      }
      if DistinctNumbers(blocks) {
        forall l | l in items ensures HasRow(l, result.value, blocks, names) {
          ItemsHaveRows(names, blocks, items, l);
        }
      }
    }
  }

  lemma SameMembers<T>(a: seq<T>, b: seq<T>)
    requires multiset(a) == multiset(b)
    ensures forall x :: x in a <==> x in b
  {
    assert forall x :: x in a <==> x in multiset(a);
    assert forall x :: x in b <==> x in multiset(b);
  }

  /* ---- The operations ---- */

  method EnrichLogs(blocks: seq<Item>, logs: seq<Item>) returns (result: Result<seq<Item>, EnrichError>)
    ensures IsEnrichedWithBlocks(blocks, logs,
              ["type", "log_index", "transaction_hash", "transaction_index", "address", "data", "topics",
               "block_number"], result)
  {
    result := EnrichWithBlocks(LOG_FIELDS, blocks, logs);
  }

  method EnrichTokenTransfers(blocks: seq<Item>, tokenTransfers: seq<Item>)
    returns (result: Result<seq<Item>, EnrichError>)
    ensures IsEnrichedWithBlocks(blocks, tokenTransfers,
              ["type", "token_address", "from_address", "to_address", "value", "transaction_hash", "log_index",
               "block_number"], result)
  {
    result := EnrichWithBlocks(TOKEN_TRANSFER_FIELDS, blocks, tokenTransfers);
  }

  method EnrichContracts(blocks: seq<Item>, contracts: seq<Item>) returns (result: Result<seq<Item>, EnrichError>)
    ensures IsEnrichedWithBlocks(blocks, contracts,
              ["type", "address", "bytecode", "function_sighashes", "is_erc20", "is_erc721", "block_number"], result)
  {
    result := EnrichWithBlocks(CONTRACT_FIELDS, blocks, contracts);
  }

  method EnrichTokens(blocks: seq<Item>, tokens: seq<Item>) returns (result: Result<seq<Item>, EnrichError>)
    ensures IsEnrichedWithBlocks(blocks, tokens,
              ["type", "address", "symbol", "name", "decimals", "total_supply", "block_number"], result)
  {
    result := EnrichWithBlocks(TOKEN_FIELDS, blocks, tokens);
  }

  /* ---- Transactions ---- */

  ghost predicate IsReceiptOf(receipt: Item, transaction: Item) {
    "transaction_hash" in receipt && "hash" in transaction && receipt["transaction_hash"] == transaction["hash"]
  }

  /** The transaction's own fields, six of its receipt, and nothing else. */
  ghost predicate IsWithReceipt(row: Item, transaction: Item, receipt: Item) {
    && TakesAll(row, transaction,
         ["type", "hash", "nonce", "transaction_index", "from_address", "to_address", "value", "gas", "gas_price",
          "input", "block_timestamp", "block_number", "block_hash", "max_fee_per_gas", "max_priority_fee_per_gas",
          "transaction_type"])
    && Takes(row, "receipt_cumulative_gas_used", receipt, "cumulative_gas_used")
    && Takes(row, "receipt_gas_used", receipt, "gas_used")
    && Takes(row, "receipt_contract_address", receipt, "contract_address")
    && Takes(row, "receipt_root", receipt, "root")
    && Takes(row, "receipt_status", receipt, "status")
    && Takes(row, "receipt_effective_gas_price", receipt, "effective_gas_price")
    && HasOnly(row,
         ["type", "hash", "nonce", "transaction_index", "from_address", "to_address", "value", "gas", "gas_price",
          "input", "block_timestamp", "block_number", "block_hash", "max_fee_per_gas", "max_priority_fee_per_gas",
          "transaction_type", "receipt_cumulative_gas_used", "receipt_gas_used", "receipt_contract_address",
          "receipt_root", "receipt_status", "receipt_effective_gas_price"])
  }

  ghost predicate IsRowOfTransaction(row: Item, transactions: seq<Item>, receipts: seq<Item>) {
    exists t, r :: t in transactions && r in receipts && IsReceiptOf(r, t) && IsWithReceipt(row, t, r)
  }

  ghost predicate HasTransactionRow(t: Item, rows: seq<Item>, receipts: seq<Item>) {
    exists row, r :: row in rows && r in receipts && IsReceiptOf(r, t) && IsWithReceipt(row, t, r)
  }

  ghost predicate HasReceipt(t: Item, receipts: seq<Item>) {
    exists r :: r in receipts && IsReceiptOf(r, t)
  }

  ghost predicate DistinctHashes(receipts: seq<Item>) {
    forall i, j :: 0 <= i < j < |receipts| ==>
      ("transaction_hash" in receipts[i] && "transaction_hash" in receipts[j] ==>
         receipts[i]["transaction_hash"] != receipts[j]["transaction_hash"])
  }

  lemma ReceiptRow(t: Item, r: Item)
    ensures IsWithReceipt(Combine(TRANSACTIONS, t, r), t, r)
  {
    var row, rights := Combine(TRANSACTIONS, t, r), TRANSACTIONS.rightFields;
    TransactionsWellFormed();
    CombineTakes(TRANSACTIONS, TRANSACTION_FIELDS, t, r);
    assert Takes(row, rights[0].dst, r, rights[0].src) && Takes(row, rights[1].dst, r, rights[1].src);
    assert Takes(row, rights[2].dst, r, rights[2].src) && Takes(row, rights[3].dst, r, rights[3].src);
    assert Takes(row, rights[4].dst, r, rights[4].src) && Takes(row, rights[5].dst, r, rights[5].src);
    ReceiptFieldNames();
  }

  const RECEIPT_FIELDS :=
    ["receipt_cumulative_gas_used", "receipt_gas_used", "receipt_contract_address", "receipt_root",
     "receipt_status", "receipt_effective_gas_price"]

  lemma ReceiptFieldNames()
    ensures forall d :: HasDestination(TRANSACTIONS.rightFields, d) <==> d in RECEIPT_FIELDS
  {
    var rights := TRANSACTIONS.rightFields;
    assert rights[0].dst == "receipt_cumulative_gas_used" && rights[1].dst == "receipt_gas_used";
    assert rights[2].dst == "receipt_contract_address" && rights[3].dst == "receipt_root";
    assert rights[4].dst == "receipt_status" && rights[5].dst == "receipt_effective_gas_price";
  }

  lemma ReceiptsAreUnique(receipts: seq<Item>)
    requires AllHave(receipts, "transaction_hash") && DistinctHashes(receipts)
    ensures KeysAreDistinct(TRANSACTIONS, receipts) && UniqueRightKeys(SpecOf(TRANSACTIONS), receipts)
  {
    forall i, j | 0 <= i < j < |receipts|
      ensures Get(receipts[i], "transaction_hash") != Get(receipts[j], "transaction_hash")
    {
      assert "transaction_hash" in receipts[i] && "transaction_hash" in receipts[j];
    }
  }

  lemma RowsComeFromTransactions(transactions: seq<Item>, receipts: seq<Item>, row: Item)
    requires AllHave(transactions, "hash") && AllHave(receipts, "transaction_hash")
    requires row in NestedLoop(SpecOf(TRANSACTIONS), transactions, receipts)
    ensures IsRowOfTransaction(row, transactions, receipts)
  {
    var s := SpecOf(TRANSACTIONS);
    NestedLoopMember(s, transactions, receipts, row);
    var t, r :| t in transactions && r in receipts && s.rightKey(r) == s.leftKey(t) && row == s.combine(t, r);
    ReceiptRow(t, r);
  }

  lemma TransactionsHaveRows(transactions: seq<Item>, receipts: seq<Item>, t: Item)
    requires AllHave(transactions, "hash") && AllHave(receipts, "transaction_hash") && DistinctHashes(receipts)
    requires t in transactions && |NestedLoop(SpecOf(TRANSACTIONS), transactions, receipts)| == |transactions|
    ensures HasTransactionRow(t, NestedLoop(SpecOf(TRANSACTIONS), transactions, receipts), receipts)
  {
    var s := SpecOf(TRANSACTIONS);
    var rows := NestedLoop(s, transactions, receipts);
    ReceiptsAreUnique(receipts);
    LengthCheckIsExact(s, transactions, receipts);
    var i :| 0 <= i < |transactions| && transactions[i] == t;
    assert IsMatch(s, t, receipts, rows[i]);
    var j :| 0 <= j < |receipts| && s.rightKey(receipts[j]) == s.leftKey(t) && rows[i] == s.combine(t, receipts[j]);
    ReceiptRow(t, receipts[j]);
    assert rows[i] in rows && receipts[j] in receipts && IsReceiptOf(receipts[j], t);
  }

  lemma AllHaveReceiptsIff(transactions: seq<Item>, receipts: seq<Item>)
    requires AllHave(transactions, "hash") && AllHave(receipts, "transaction_hash") && DistinctHashes(receipts)
    ensures |NestedLoop(SpecOf(TRANSACTIONS), transactions, receipts)| == |transactions| <==>
              forall t :: t in transactions ==> HasReceipt(t, receipts)
  {
    ReceiptsAreUnique(receipts);
    TransactionsWellFormed();
    EnrichedIffAllMatch(TRANSACTIONS, transactions, receipts);
    forall i | 0 <= i < |transactions|
      ensures HasPartner(TRANSACTIONS, transactions[i], receipts) <==> HasReceipt(transactions[i], receipts)
    {
      forall r | r in receipts ensures Fits(TRANSACTIONS, transactions[i], r) <==> IsReceiptOf(r, transactions[i]) {
      }
    }
  }

  method EnrichTransactions(transactions: seq<Item>, receipts: seq<Item>)
    returns (result: Result<seq<Item>, EnrichError>)
    ensures result == Failure(KeyError) <==> !AllHave(transactions, "hash") || !AllHave(receipts, "transaction_hash")
    ensures result.Success? ==> |result.value| == |transactions|
    ensures result.Success? ==>
              forall row :: row in result.value ==> IsRowOfTransaction(row, transactions, receipts)
    ensures AllHave(transactions, "hash") && AllHave(receipts, "transaction_hash") && DistinctHashes(receipts) ==>
              (result.Success? <==> forall t :: t in transactions ==> HasReceipt(t, receipts))
    ensures result.Success? && DistinctHashes(receipts) ==>
              forall t :: t in transactions ==> HasTransactionRow(t, result.value, receipts)
  {
    result := Enrich(TRANSACTIONS, transactions, receipts);
    if result.Failure? {
      assert result.error.KeyError? || result.error.WrongNumber?;
    }
    ghost var rows := NestedLoop(SpecOf(TRANSACTIONS), transactions, receipts);
    if AllHave(transactions, "hash") && AllHave(receipts, "transaction_hash") && DistinctHashes(receipts) {
      AllHaveReceiptsIff(transactions, receipts);
    }
    if result.Success? {
      SameSize(result.value, rows);
      SameMembers(result.value, rows);
      forall row | row in result.value ensures IsRowOfTransaction(row, transactions, receipts) {
        RowsComeFromTransactions(transactions, receipts, row);
      }
      if DistinctHashes(receipts) {
        forall t | t in transactions ensures HasTransactionRow(t, result.value, receipts) {
          TransactionsHaveRows(transactions, receipts, t);
        }
      }
    }
  }
}
