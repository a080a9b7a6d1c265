/** Enriching rows with the fields of other rows, cli/polygonetl/streaming/enrich.py. */
module Enrichment {
  import opened Common
  import opened HashJoin

  datatype Value = Null | Int(n: int) | Text(s: string)

  type Item = map<string, Value>

  datatype Field = Field(src: string, dst: string)

  /** The arguments of one join. */
  datatype Shape = Shape(leftKey: string, rightKey: string, leftFields: seq<Field>, rightFields: seq<Field>)

  datatype EnrichError = KeyError | WrongNumber

  /** `item.get(name)` */
  function Get(item: Item, name: string): Value {
    if name in item then item[name] else Null
  }

  /* ---- Projection ---- */

  function Same(names: seq<string>): seq<Field> {
    seq(|names|, i requires 0 <= i < |names| => Field(names[i], names[i]))
  }

  /** Sets a key of an ordered dictionary: an old key keeps its place. */
  function Upsert(dict: seq<Field>, f: Field): seq<Field> {
    if dict == [] then [f]
    else if dict[0].src == f.src then [f] + dict[1..]
    else [dict[0]] + Upsert(dict[1..], f)
  }

  /** field_list_to_dict: from source to destination, in insertion order. */
  function FieldDict(fields: seq<Field>): seq<Field> {
    if fields == [] then [] else Upsert(FieldDict(fields[..|fields| - 1]), fields[|fields| - 1])
  }

  ghost predicate DistinctSources(fields: seq<Field>) {
    forall i, j :: 0 <= i < j < |fields| ==> fields[i].src != fields[j].src
  }

  ghost predicate DistinctDestinations(fields: seq<Field>) {
    forall i, j :: 0 <= i < j < |fields| ==> fields[i].dst != fields[j].dst
  }

  ghost predicate HasDestination(fields: seq<Field>, d: string) {
    exists i :: 0 <= i < |fields| && fields[i].dst == d
  }

  /** Fields that keep their names. */
  ghost predicate Plain(fields: seq<Field>) {
    forall i :: 0 <= i < |fields| ==> fields[i].src == fields[i].dst
  }

  lemma {:induction false} UpsertOfNew(dict: seq<Field>, f: Field)
    requires forall i :: 0 <= i < |dict| ==> dict[i].src != f.src
    ensures Upsert(dict, f) == dict + [f]
  {
    if dict != [] {
      UpsertOfNew(dict[1..], f);
      assert dict == [dict[0]] + dict[1..];
    }
  }

  lemma {:induction false} FieldDictOfDistinct(fields: seq<Field>)
    requires DistinctSources(fields)
    ensures FieldDict(fields) == fields
  {
    if fields != [] {
      FieldDictOfDistinct(fields[..|fields| - 1]);
      UpsertOfNew(fields[..|fields| - 1], fields[|fields| - 1]);
    }
  }

  lemma {:induction false} UpsertOfPlain(dict: seq<Field>, f: Field)
    requires Plain(dict) && f.src == f.dst
    ensures Plain(Upsert(dict, f))
    ensures forall d :: HasDestination(Upsert(dict, f), d) <==> HasDestination(dict, d) || d == f.dst
  {
    if dict != [] && dict[0].src != f.src {
      UpsertOfPlain(dict[1..], f);
      assert dict == [dict[0]] + dict[1..];
      HasDestinationSplit(dict[0], dict[1..]);
      HasDestinationSplit(dict[0], Upsert(dict[1..], f));
    } else if dict != [] {
      HasDestinationSplit(dict[0], dict[1..]);
      HasDestinationSplit(f, dict[1..]);
      assert dict == [dict[0]] + dict[1..];
    } else {
      assert [f][0].dst == f.dst;
    }
  }

  lemma HasDestinationSplit(f: Field, fields: seq<Field>)
    ensures forall d :: HasDestination([f] + fields, d) <==> d == f.dst || HasDestination(fields, d)
  {
    forall d ensures HasDestination([f] + fields, d) <==> d == f.dst || HasDestination(fields, d) {
      if d == f.dst {
        assert ([f] + fields)[0].dst == d;
      } else if HasDestination(fields, d) {
        var i :| 0 <= i < |fields| && fields[i].dst == d;
        assert ([f] + fields)[i + 1].dst == d;
      }
    }
  }

  /** Naming a field twice changes nothing as long as it keeps its name. */
  lemma {:induction false} FieldDictOfPlain(fields: seq<Field>)
    requires Plain(fields)
    ensures Plain(FieldDict(fields))
    ensures forall d :: HasDestination(FieldDict(fields), d) <==> HasDestination(fields, d)
  {
    if fields != [] {
      var init, f := fields[..|fields| - 1], fields[|fields| - 1];
      FieldDictOfPlain(init);
      UpsertOfPlain(FieldDict(init), f);
      forall d ensures HasDestination(fields, d) <==> HasDestination(init, d) || d == f.dst {
        if HasDestination(init, d) {
          var i :| 0 <= i < |init| && init[i].dst == d;
          assert fields[i].dst == d;
        } else if d == f.dst {
          assert fields[|fields| - 1].dst == d;
        }
      }
    }
  }

  /** Copies the fields of `item` into `row`, one after the other. */
  function Write(fields: seq<Field>, item: Item, row: Item): Item {
    if fields == [] then row
    else Write(fields[..|fields| - 1], item, row)[fields[|fields| - 1].dst := Get(item, fields[|fields| - 1].src)]
  }

  function Combine(shape: Shape, l: Item, r: Item): Item {
    Write(FieldDict(shape.rightFields), r, Write(FieldDict(shape.leftFields), l, map[]))
  }

  function SpecOf(shape: Shape): Spec<Item, Item, Value, Item> {
    Spec((l: Item) => Get(l, shape.leftKey), (r: Item) => Get(r, shape.rightKey),
         (l: Item, r: Item) => Combine(shape, l, r))
  }

  lemma {:induction false} WritePlain(fields: seq<Field>, item: Item, row: Item, d: string)
    requires Plain(fields)
    ensures d in Write(fields, item, row) <==> d in row || HasDestination(fields, d)
    ensures Get(Write(fields, item, row), d) == if HasDestination(fields, d) then Get(item, d) else Get(row, d)
  {
    if fields != [] {
      var init, f := fields[..|fields| - 1], fields[|fields| - 1];
      WritePlain(init, item, row, d);
      if HasDestination(init, d) {
        var i :| 0 <= i < |init| && init[i].dst == d;
        assert fields[i].dst == d;
      } else if d == f.dst {
        assert fields[|fields| - 1].dst == d;
      }
    }
  }

  lemma {:induction false} WriteRenamed(fields: seq<Field>, item: Item, row: Item, d: string)
    requires DistinctDestinations(fields)
    ensures d in Write(fields, item, row) <==> d in row || HasDestination(fields, d)
    ensures !HasDestination(fields, d) ==> Get(Write(fields, item, row), d) == Get(row, d)
    ensures forall i :: 0 <= i < |fields| && fields[i].dst == d ==>
              Get(Write(fields, item, row), d) == Get(item, fields[i].src)
  {
    if fields != [] {
      var init, f := fields[..|fields| - 1], fields[|fields| - 1];
      WriteRenamed(init, item, row, d);
      if HasDestination(init, d) {
        var i :| 0 <= i < |init| && init[i].dst == d;
        assert fields[i].dst == d;
      } else if d == f.dst {
        assert fields[|fields| - 1].dst == d;
      }
      assert forall i :: 0 <= i < |init| ==> init[i] == fields[i];
    }
  }

  /** Left fields keep their names, right fields are renamed apart: every join of the source is
      like this. */
  ghost predicate WellFormed(shape: Shape) {
    && Plain(shape.leftFields)
    && DistinctSources(shape.rightFields)
    && DistinctDestinations(shape.rightFields)
    && (forall j :: 0 <= j < |shape.rightFields| ==> !HasDestination(shape.leftFields, shape.rightFields[j].dst))
  }

  /** Every listed field of both rows arrives under its new name, a missing one as None, and
      nothing else does. */
  lemma CombineKeepsFields(shape: Shape, l: Item, r: Item)
    requires WellFormed(shape)
    ensures forall d :: d in Combine(shape, l, r) <==>
              HasDestination(shape.leftFields, d) || HasDestination(shape.rightFields, d)
    ensures forall d :: HasDestination(shape.leftFields, d) ==> Get(Combine(shape, l, r), d) == Get(l, d)
    ensures forall j :: 0 <= j < |shape.rightFields| ==>
              Get(Combine(shape, l, r), shape.rightFields[j].dst) == Get(r, shape.rightFields[j].src)
  {
    var ls, rs := shape.leftFields, shape.rightFields;
    FieldDictOfPlain(ls);
    FieldDictOfDistinct(rs);
    var half := Write(FieldDict(ls), l, map[]);
    forall d
      ensures d in Combine(shape, l, r) <==> HasDestination(ls, d) || HasDestination(rs, d)
      ensures HasDestination(ls, d) ==> Get(Combine(shape, l, r), d) == Get(l, d)
    {
      WritePlain(FieldDict(ls), l, map[], d);
      WriteRenamed(rs, r, half, d);
    }
    forall j | 0 <= j < |rs| ensures Get(Combine(shape, l, r), rs[j].dst) == Get(r, rs[j].src) {
      WriteRenamed(rs, r, half, rs[j].dst);
    }
  }

  /* ---- One join and its length check ---- */

  ghost predicate AllHave(items: seq<Item>, name: string) {
    forall i :: 0 <= i < |items| ==> name in items[i]
  }

  method CheckKey(items: seq<Item>, name: string) returns (ok: bool)
    ensures ok <==> AllHave(items, name)
  {
    ok := true;
    for i := 0 to |items|
      invariant ok <==> AllHave(items[..i], name)
    {
      assert items[..i + 1] == items[..i] + [items[i]];
      assert AllHave(items[..i + 1], name) <==> AllHave(items[..i], name) && name in items[i] by {
        assert items[..i + 1][i] == items[i];
        assert forall j :: 0 <= j < i ==> items[..i + 1][j] == items[..i][j];
      }
      ok := ok && name in items[i];
    }
    assert items[..|items|] == items;
  }

  /** `list(join(...))`: grouping raises if a row has no join field. */
  method JoinItems(shape: Shape, left: seq<Item>, right: seq<Item>) returns (result: Result<seq<Item>, EnrichError>)
    ensures result.Success? <==> AllHave(left, shape.leftKey) && AllHave(right, shape.rightKey)
    ensures result.Success? ==> result.value == Joined(SpecOf(shape), left, right)
    ensures result.Success? ==> multiset(result.value) == multiset(NestedLoop(SpecOf(shape), left, right))
    ensures result.Failure? ==> result.error == KeyError
  {
    var leftOk := CheckKey(left, shape.leftKey);
    var rightOk := CheckKey(right, shape.rightKey);
    if !leftOk || !rightOk {
      return Failure(KeyError);
    }
    var rows := Join(SpecOf(shape), left, right);
    return Success(rows);
  }

  /** enrich_transactions, enrich_logs, enrich_token_transfers, enrich_contracts and enrich_tokens
      differ only in their shape. */
  method Enrich(shape: Shape, left: seq<Item>, right: seq<Item>) returns (result: Result<seq<Item>, EnrichError>)
    ensures result == Failure(KeyError) <==> !AllHave(left, shape.leftKey) || !AllHave(right, shape.rightKey)
    ensures result == Failure(WrongNumber) <==>
              AllHave(left, shape.leftKey) && AllHave(right, shape.rightKey)
              && |NestedLoop(SpecOf(shape), left, right)| != |left|
    ensures result.Success? ==> result.value == Joined(SpecOf(shape), left, right)
    ensures result.Success? ==> multiset(result.value) == multiset(NestedLoop(SpecOf(shape), left, right))
  {
    result := JoinItems(shape, left, right);
    if result.Success? {
      SameSize(result.value, NestedLoop(SpecOf(shape), left, right));
      if |result.value| != |left| {
        result := Failure(WrongNumber);
      }
    }
  }

  /** The row has, under name d, what the item has under name s; None if it has nothing. */
  ghost predicate Takes(row: Item, d: string, item: Item, s: string) {
    d in row && row[d] == if s in item then item[s] else Null
  }

  /** The row has these fields of the item under their own names. */
  ghost predicate TakesAll(row: Item, item: Item, names: seq<string>) {
    forall d :: d in names ==> Takes(row, d, item, d)
  }

  /** The row has fields of these names and no others. */
  ghost predicate HasOnly(row: Item, names: seq<string>) {
    forall d :: d in row <==> d in names
  }

  lemma SameHasDestination(names: seq<string>, d: string)
    ensures HasDestination(Same(names), d) <==> d in names
  {
    if d in names {
      var i :| 0 <= i < |names| && names[i] == d;
      assert Same(names)[i].dst == d;
    }
  }

  /** What a row of a join with unrenamed left fields consists of. */
  lemma CombineTakes(shape: Shape, names: seq<string>, l: Item, r: Item)
    requires WellFormed(shape) && shape.leftFields == Same(names)
    ensures var row := Combine(shape, l, r);
            && TakesAll(row, l, names)
            && (forall j :: 0 <= j < |shape.rightFields| ==>
                  Takes(row, shape.rightFields[j].dst, r, shape.rightFields[j].src))
            && (forall d :: d in row <==> d in names || HasDestination(shape.rightFields, d))
  {
    var row := Combine(shape, l, r);
    CombineKeepsFields(shape, l, r);
    forall d ensures HasDestination(shape.leftFields, d) <==> d in names {
      SameHasDestination(names, d);
    }
    forall j | 0 <= j < |shape.rightFields| ensures HasDestination(shape.rightFields, shape.rightFields[j].dst) {
    }
  }

  /** row has the left row's fields under their names and those of right row r under new ones. */
  ghost predicate IsEnriched(shape: Shape, row: Item, l: Item, r: Item) {
    && (forall d :: HasDestination(shape.leftFields, d) ==> Get(row, d) == Get(l, d))
    && (forall j :: 0 <= j < |shape.rightFields| ==>
          Get(row, shape.rightFields[j].dst) == Get(r, shape.rightFields[j].src))
  }

  ghost predicate Fits(shape: Shape, l: Item, r: Item) {
    Get(r, shape.rightKey) == Get(l, shape.leftKey)
  }

  ghost predicate HasPartner(shape: Shape, l: Item, right: seq<Item>) {
    exists r :: r in right && Fits(shape, l, r)
  }

  ghost predicate RowFor(shape: Shape, row: Item, l: Item, right: seq<Item>) {
    exists r :: r in right && Fits(shape, l, r) && IsEnriched(shape, row, l, r)
  }

  lemma PartnerIsMatch(shape: Shape, l: Item, right: seq<Item>)
    ensures HasMatch(SpecOf(shape), l, right) <==> HasPartner(shape, l, right)
  {
    if HasPartner(shape, l, right) {
      var r :| r in right && Fits(shape, l, r);
      var j :| 0 <= j < |right| && right[j] == r;
      assert SpecOf(shape).rightKey(right[j]) == SpecOf(shape).leftKey(l);
    }
    if HasMatch(SpecOf(shape), l, right) {
      var j :| 0 <= j < |right| && SpecOf(shape).rightKey(right[j]) == SpecOf(shape).leftKey(l);
      assert right[j] in right && Fits(shape, l, right[j]);
    }
  }

  lemma MatchIsRow(shape: Shape, l: Item, right: seq<Item>, row: Item)
    requires WellFormed(shape) && IsMatch(SpecOf(shape), l, right, row)
    ensures RowFor(shape, row, l, right)
  {
    var s := SpecOf(shape);
    var j :| 0 <= j < |right| && s.rightKey(right[j]) == s.leftKey(l) && row == s.combine(l, right[j]);
    CombineKeepsFields(shape, l, right[j]);
    assert right[j] in right && Fits(shape, l, right[j]);
  }

  ghost predicate KeysAreDistinct(shape: Shape, right: seq<Item>) {
    forall i, j :: 0 <= i < j < |right| ==> Get(right[i], shape.rightKey) != Get(right[j], shape.rightKey)
  }

  /** If no two right rows have the same key, the length check passes exactly if every left row has
      a right row, and then there is one row for every left row, with the fields of both. */
  lemma EnrichedIffAllMatch(shape: Shape, left: seq<Item>, right: seq<Item>)
    requires WellFormed(shape) && KeysAreDistinct(shape, right)
    ensures |NestedLoop(SpecOf(shape), left, right)| == |left| <==>
              forall i :: 0 <= i < |left| ==> HasPartner(shape, left[i], right)
    ensures |NestedLoop(SpecOf(shape), left, right)| == |left| ==>
              forall i :: 0 <= i < |left| ==> RowFor(shape, NestedLoop(SpecOf(shape), left, right)[i], left[i], right)
  {
    assert UniqueRightKeys(SpecOf(shape), right);
    LengthCheckIsExact(SpecOf(shape), left, right);
    forall i | 0 <= i < |left| ensures HasMatch(SpecOf(shape), left[i], right) <==> HasPartner(shape, left[i], right) {
      PartnerIsMatch(shape, left[i], right);
    }
    var rows := NestedLoop(SpecOf(shape), left, right);
    if |rows| == |left| {
      forall i | 0 <= i < |left| ensures RowFor(shape, rows[i], left[i], right) {
        MatchIsRow(shape, left[i], right, rows[i]);
      }
    }
  }

  /** With this right side, the length check accepts the left sides in which every row has a
      partner, and no others. (A left row without its join field raises before the check.) */
  ghost predicate CheckIsExact(shape: Shape, right: seq<Item>) {
    forall left: seq<Item> :: AllHave(left, shape.leftKey) ==> CheckIsExactFor(shape, left, right)
  }

  ghost predicate CheckIsExactFor(shape: Shape, left: seq<Item>, right: seq<Item>) {
    |NestedLoop(SpecOf(shape), left, right)| == |left| <==>
      forall i :: 0 <= i < |left| ==> HasPartner(shape, left[i], right)
  }

  /** A number that is not among the values. */
  lemma {:induction false} NewNumber(values: seq<Value>) returns (n: int)
    ensures forall i :: 0 <= i < |values| && values[i].Int? ==> values[i].n < n
  {
    if values == [] {
      n := 0;
    } else {
      var last := values[|values| - 1];
      n := NewNumber(values[..|values| - 1]);
      n := if last.Int? && last.n >= n then last.n + 1 else n;
    }
  }

  lemma SomeRowHasNoPartner(shape: Shape, right: seq<Item>) returns (l: Item)
    ensures shape.leftKey in l && !HasPartner(shape, l, right)
  {
    var values := seq(|right|, i requires 0 <= i < |right| => Get(right[i], shape.rightKey));
    var n := NewNumber(values);
    l := map[shape.leftKey := Int(n)];
    forall r | r in right ensures !Fits(shape, l, r) {
      var i :| 0 <= i < |right| && right[i] == r;
      assert values[i] == Get(r, shape.rightKey);
    }
  }

  lemma NoDoublesIffKeysDistinct(shape: Shape, right: seq<Item>)
    ensures (forall l: Item :: shape.leftKey in l ==> RowsOf(SpecOf(shape), right)(l) <= 1)
       <==> KeysAreDistinct(shape, right)
  {
    var s := SpecOf(shape);
    if KeysAreDistinct(shape, right) {
      assert UniqueRightKeys(s, right);
      forall l: Item ensures RowsOf(s, right)(l) <= 1 {
        MatchesOfUnique(s, l, right);
      }
    } else {
      var i, j :| 0 <= i < j < |right| && Get(right[i], shape.rightKey) == Get(right[j], shape.rightKey);
      var l: Item := map[shape.leftKey := Get(right[i], shape.rightKey)];
      GroupOfTwo(s.rightKey, s.leftKey(l), right, i, j);
      assert RowsOf(s, right)(l) >= 2;
    }
  }

  lemma PartnersAreCounted(shape: Shape, left: seq<Item>, right: seq<Item>)
    ensures CheckIsExactFor(shape, left, right) <==> CountIsExactFor(RowsOf(SpecOf(shape), right), left)
  {
    RowsAreCounted(SpecOf(shape), left, right);
    forall i | 0 <= i < |left|
      ensures HasPartner(shape, left[i], right) <==> RowsOf(SpecOf(shape), right)(left[i]) >= 1
    {
      PartnerIsMatch(shape, left[i], right);
      HasMatchIffRows(SpecOf(shape), left[i], right);
    }
  }

  lemma CheckIsCount(shape: Shape, right: seq<Item>)
    ensures CheckIsExact(shape, right) <==> CountIsExact(RowsOf(SpecOf(shape), right), HasField(shape.leftKey))
  {
    forall left: seq<Item>
      ensures CheckIsExactFor(shape, left, right) <==> CountIsExactFor(RowsOf(SpecOf(shape), right), left)
      ensures AllHave(left, shape.leftKey) <==> All(HasField(shape.leftKey), left)
    {
      PartnersAreCounted(shape, left, right);
    }
  }

  function HasField(name: string): Item -> bool { (l: Item) => name in l }

  /** Exactly when the length check can be trusted, for every shape. If two right rows have one key,
      some left side passes it although it has a row without a partner. */
  lemma CheckIsExactIffKeysDistinct(shape: Shape, right: seq<Item>)
    ensures CheckIsExact(shape, right) <==> KeysAreDistinct(shape, right)
  {
    var s := SpecOf(shape);
    var none := SomeRowHasNoPartner(shape, right);
    PartnerIsMatch(shape, none, right);
    HasMatchIffRows(s, none, right);
    CountIsExactIffNoDoubles(RowsOf(s, right), HasField(shape.leftKey), none);
    NoDoublesIffKeysDistinct(shape, right);
    CheckIsCount(shape, right);
  }

  /* ---- The shapes of the source ---- */

  const TRANSACTION_FIELDS :=
    ["type", "hash", "nonce", "transaction_index", "from_address", "to_address", "value", "gas", "gas_price",
     "input", "block_timestamp", "block_number", "block_hash", "max_fee_per_gas", "max_priority_fee_per_gas",
     "transaction_type"]

  const TRANSACTIONS := Shape("hash", "transaction_hash", Same(TRANSACTION_FIELDS),
    [Field("cumulative_gas_used", "receipt_cumulative_gas_used"), Field("gas_used", "receipt_gas_used"),
     Field("contract_address", "receipt_contract_address"), Field("root", "receipt_root"),
     Field("status", "receipt_status"), Field("effective_gas_price", "receipt_effective_gas_price")])

  const BLOCK_FIELDS := [Field("timestamp", "block_timestamp"), Field("hash", "block_hash")]

  const LOG_FIELDS :=
    ["type", "log_index", "transaction_hash", "transaction_index", "address", "data", "topics", "block_number"]

  const TOKEN_TRANSFER_FIELDS :=
    ["type", "token_address", "from_address", "to_address", "value", "transaction_hash", "log_index", "block_number"]

  const CONTRACT_FIELDS :=
    ["type", "address", "bytecode", "function_sighashes", "is_erc20", "is_erc721", "block_number"]

  const TOKEN_FIELDS :=
    ["type", "address", "symbol", "name", "decimals", "total_supply", "block_number"]

  lemma BlockShapeWellFormed(names: seq<string>)
    requires "block_timestamp" !in names && "block_hash" !in names
    ensures WellFormed(Shape("block_number", "number", Same(names), BLOCK_FIELDS))
  {
    forall i | 0 <= i < |names| ensures names[i] != "block_timestamp" && names[i] != "block_hash" {
      assert names[i] in names;
    }
  }

  lemma TransactionsWellFormed()
    ensures WellFormed(TRANSACTIONS)
  {
    TransactionNames();
    ReceiptSources();
    ReceiptDestinations();
    ReceiptNames();
  }

  lemma TransactionNames()
    ensures forall i :: 0 <= i < |TRANSACTIONS.leftFields| ==>
              TRANSACTIONS.leftFields[i].dst != [] && TRANSACTIONS.leftFields[i].dst[0] != 'r'
  {
  }

  lemma ReceiptSources()
    ensures DistinctSources(TRANSACTIONS.rightFields)
  {
  }

  lemma ReceiptDestinations()
    ensures DistinctDestinations(TRANSACTIONS.rightFields)
  {
  }

  lemma ReceiptNames()
    ensures forall j :: 0 <= j < |TRANSACTIONS.rightFields| ==>
              TRANSACTIONS.rightFields[j].dst != [] && TRANSACTIONS.rightFields[j].dst[0] == 'r'
  {
  }
}
