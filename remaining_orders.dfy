/** The kitchen's remaining-orders page: the per-table order lists read from browser storage
    and the completion mark set on one table. */
module RemainingOrders {
  import opened Common
  import opened JsText

  /** An item as the ordering page stores it. */
  datatype StoredItem = StoredItem(menuId: int, name: string, quantity: int)

  /** An item as this page shows it. */
  datatype OrderItem = OrderItem(id: int, name: string, quantity: int)

  datatype TableOrder = TableOrder(tableId: int, tableName: string, items: seq<OrderItem>, completedAt: Option<string>)

  const KeyPrefix := "tableOrders_"
  const TableSuffix := "번 테이블"

  /** The storage key of table `i`. */
  function TableKey(i: nat): string {
    KeyPrefix + Decimal(i)
  }

  /** Different tables read different keys. */
  lemma TableKeysDistinct(i: nat, j: nat)
    ensures TableKey(i) == TableKey(j) ==> i == j
  {
    if TableKey(i) == TableKey(j) {
      assert Decimal(i) == TableKey(i)[|KeyPrefix|..];
      assert Decimal(j) == TableKey(j)[|KeyPrefix|..];
      DecimalValue(i);
      DecimalValue(j);
    }
  }

  /** The items the page shows for what was stored: menuId becomes id; name and quantity are kept. */
  function ShowItems(items: seq<StoredItem>): (r: seq<OrderItem>)
    ensures |r| == |items|
    ensures forall k :: 0 <= k < |items| ==>
      r[k] == OrderItem(items[k].menuId, items[k].name, items[k].quantity)
  {
    if items == [] then [] else [OrderItem(items[0].menuId, items[0].name, items[0].quantity)] + ShowItems(items[1..])
  }

  /** Table `i` has something to show: its text is stored, non-empty, and parses to a non-empty list. */
  predicate Listed(storage: map<string, string>, parse: string -> seq<StoredItem>, i: nat) {
    TableKey(i) in storage && storage[TableKey(i)] != "" && |parse(storage[TableKey(i)])| > 0
  }

  /** The entry table `i` contributes when it is listed. */
  function Entry(storage: map<string, string>, parse: string -> seq<StoredItem>, i: nat): (r: TableOrder)
    requires Listed(storage, parse, i)
    ensures r.tableId == i && r.tableName == Decimal(i) + TableSuffix && r.completedAt == None
    ensures |r.items| == |parse(storage[TableKey(i)])| > 0
  {
    TableOrder(i, Decimal(i) + TableSuffix, ShowItems(parse(storage[TableKey(i)])), None)
  }

  /** How many tables `for (let i = 1; i <= tableCount; i++)` visits. */
  function Visited(tableCount: JsNumber): (n: nat)
    ensures tableCount.Num? && tableCount.value >= 0 ==> n == tableCount.value
    ensures tableCount.NaN? || tableCount.value < 0 ==> n == 0
  {
    if tableCount.Num? && tableCount.value > 0 then tableCount.value else 0
  }

  /** The entries of tables 1 to `m`, in table order: one for each listed table. */
  function Loaded(storage: map<string, string>, parse: string -> seq<StoredItem>, m: nat): (r: seq<TableOrder>)
    ensures |r| <= m
  {
    if m == 0 then []
    else Loaded(storage, parse, m - 1) + if Listed(storage, parse, m) then [Entry(storage, parse, m)] else []
  }

  /** Loading tables 1 to `m` adds at most one entry per table, each for one of those tables. */
  lemma {:induction false} LoadedBounds(storage: map<string, string>, parse: string -> seq<StoredItem>, m: nat)
    ensures |Loaded(storage, parse, m)| <= m
    ensures forall k :: 0 <= k < |Loaded(storage, parse, m)| ==> 1 <= Loaded(storage, parse, m)[k].tableId <= m
  {
    if m > 0 {
      LoadedBounds(storage, parse, m - 1);
    }
  }

  /** Every loaded entry belongs to a listed table and is built from that table's stored text. */
  lemma {:induction false} LoadedAreEntries(storage: map<string, string>, parse: string -> seq<StoredItem>, m: nat)
    ensures forall k :: 0 <= k < |Loaded(storage, parse, m)| ==>
      var o := Loaded(storage, parse, m)[k];
      o.tableId >= 1 && Listed(storage, parse, o.tableId) && o == Entry(storage, parse, o.tableId)
  {
    if m > 0 {
      LoadedAreEntries(storage, parse, m - 1);
    }
  }

  /** The loaded entries come in strictly increasing table order, so no table appears twice. */
  lemma {:induction false} LoadedSorted(storage: map<string, string>, parse: string -> seq<StoredItem>, m: nat)
    ensures forall k, l :: 0 <= k < l < |Loaded(storage, parse, m)| ==>
      Loaded(storage, parse, m)[k].tableId < Loaded(storage, parse, m)[l].tableId
  {
    if m > 0 {
      var prev := Loaded(storage, parse, m - 1);
      LoadedSorted(storage, parse, m - 1);
      LoadedBounds(storage, parse, m - 1);
      var r := Loaded(storage, parse, m);
      assert forall k :: 0 <= k < |prev| ==> r[k] == prev[k];
    }
  }

  /** A listed table among 1 to `m` has a loaded entry; `k` is its position. */
  lemma {:induction false} LoadedIndexOf(storage: map<string, string>, parse: string -> seq<StoredItem>, m: nat, i: nat)
    returns (k: nat)
    requires 1 <= i <= m && Listed(storage, parse, i)
    ensures k < |Loaded(storage, parse, m)| && Loaded(storage, parse, m)[k].tableId == i
  {
    var prev := Loaded(storage, parse, m - 1);
    if i == m {
      k := |prev|;
      assert Loaded(storage, parse, m) == prev + [Entry(storage, parse, m)];
    } else {
      k := LoadedIndexOf(storage, parse, m - 1, i);
      assert Loaded(storage, parse, m)[k] == prev[k];
    }
  }

  /** A table among 1 to `m` has a loaded entry exactly when it is listed. */
  lemma LoadedComplete(storage: map<string, string>, parse: string -> seq<StoredItem>, m: nat, i: nat)
    requires 1 <= i <= m
    ensures Listed(storage, parse, i) <==>
      exists k :: 0 <= k < |Loaded(storage, parse, m)| && Loaded(storage, parse, m)[k].tableId == i
  {
    if Listed(storage, parse, i) {
      var k := LoadedIndexOf(storage, parse, m, i);
    }
    LoadedAreEntries(storage, parse, m);
  }

  /** A freshly loaded list carries no completion mark: every entry has completedAt None. */
  lemma LoadedNoCompletionMark(storage: map<string, string>, parse: string -> seq<StoredItem>, m: nat)
    ensures forall k :: 0 <= k < |Loaded(storage, parse, m)| ==> Loaded(storage, parse, m)[k].completedAt == None
  {
    LoadedAreEntries(storage, parse, m);
  }

  /** loadTableOrders: tables 1 to `tableCount` are visited in order, and each listed table adds
      one entry. A count of NaN visits no table. `parse` stands for JSON.parse. */
  method LoadTableOrders(storage: map<string, string>, parse: string -> seq<StoredItem>, tableCount: JsNumber)
    returns (orders: seq<TableOrder>)
    ensures orders == Loaded(storage, parse, Visited(tableCount))
  {
    var n := if tableCount.Num? then tableCount.value else 0;
    orders := [];
    var i := 1;
    while i <= n
      invariant 1 <= i <= Visited(tableCount) + 1
      invariant orders == Loaded(storage, parse, i - 1)
      decreases n - i
    {
      var key := KeyPrefix + Decimal(i);
      if key in storage && storage[key] != "" {
        var items := parse(storage[key]);
        if |items| > 0 {
          orders := orders + [TableOrder(i, Decimal(i) + TableSuffix, ShowItems(items), None)];
        }
      }
      i := i + 1;
    }
  }

  /** handleComplete: the entries of table `tableId` get the completion time; all else stays. */
  function Complete(orders: seq<TableOrder>, tableId: int, time: string): (r: seq<TableOrder>)
    ensures |r| == |orders|
    ensures forall k :: 0 <= k < |orders| ==>
      r[k] == if orders[k].tableId == tableId then orders[k].(completedAt := Some(time)) else orders[k]
  {
    if orders == [] then []
    else
      var o := orders[0];
      [if o.tableId == tableId then o.(completedAt := Some(time)) else o] + Complete(orders[1..], tableId, time)
  }

  /** Completing a table keeps the list in table order: ids, names and items are untouched. */
  lemma CompleteKeepsTables(orders: seq<TableOrder>, tableId: int, time: string)
    ensures var r := Complete(orders, tableId, time);
      forall k :: 0 <= k < |orders| ==>
        r[k].tableId == orders[k].tableId && r[k].tableName == orders[k].tableName && r[k].items == orders[k].items
  {
  }

  /** Completing the same table twice is the same as completing it once at the later time. */
  lemma CompleteTwice(orders: seq<TableOrder>, tableId: int, first: string, second: string)
    ensures Complete(Complete(orders, tableId, first), tableId, second) == Complete(orders, tableId, second)
  {
    var a := Complete(Complete(orders, tableId, first), tableId, second);
    var b := Complete(orders, tableId, second);
    assert forall k :: 0 <= k < |a| ==> a[k] == b[k];
  }
}
