/**
 * The read-only queries over Inventory, Products, Orders and Logistics:
 * the low-stock alert, a SKU's holdings by location, the order listing
 * and the summary report.
 */
module Reports {
  import opened Wrappers
  import opened Collections
  import opened Text
  import opened Schema
  import opened Ledger

  // ---------------------------------------------------------------------
  // Low stock
  // ---------------------------------------------------------------------

  /** A row of `get_low_stock`: sku, product name, location, quantity, threshold. */
  datatype LowStockRow = LowStockRow(sku: string, name: string, location: string, quantity: int, threshold: int)

  /** The join condition and filter of `get_low_stock`. */
  predicate IsLow(row: StockRow, product: Product) {
    row.sku == product.sku && row.quantity < product.threshold && !IsRetailHub(row.location)
  }

  function Joined(row: StockRow, product: Product): LowStockRow {
    LowStockRow(row.sku, product.name, row.location, row.quantity, product.threshold)
  }

  /** The products `row` joins with under `IsLow`, as result rows. */
  function LowMatches(row: StockRow, products: seq<Product>): (r: seq<LowStockRow>)
    ensures forall p | p in products && IsLow(row, p) :: Joined(row, p) in r
    ensures forall x | x in r :: exists p | p in products :: IsLow(row, p) && x == Joined(row, p)
  {
    if products == [] then []
    else (if IsLow(row, products[0]) then [Joined(row, products[0])] else []) + LowMatches(row, products[1..])
  }

  /**
   * `get_low_stock`: every Inventory-Products pair on the same SKU whose
   * quantity is below the product's threshold, at a location that is not a
   * retail hub.
   */
  function LowStock(inventory: seq<StockRow>, products: seq<Product>): (r: seq<LowStockRow>)
    ensures forall row, p | row in inventory && p in products && IsLow(row, p) :: Joined(row, p) in r
    ensures forall x | x in r :: exists row, p | row in inventory && p in products :: IsLow(row, p) && x == Joined(row, p)
  {
    if inventory == [] then []
    else LowMatches(inventory[0], products) + LowStock(inventory[1..], products)
  }

  /** Every reported row really is low and outside the retail hubs. */
  lemma LowStockRowsAreLow(inventory: seq<StockRow>, products: seq<Product>)
    ensures forall x | x in LowStock(inventory, products) :: x.quantity < x.threshold && !IsRetailHub(x.location)
  {
  }

  /** The distinct SKUs among the low-stock rows (the `SELECT DISTINCT i.sku` of the summary report). */
  function LowStockSkus(inventory: seq<StockRow>, products: seq<Product>): (r: seq<string>)
    ensures NoDuplicates(r)
    ensures |r| <= |LowStock(inventory, products)|
    ensures forall sku :: sku in r <==> exists x | x in LowStock(inventory, products) :: x.sku == sku
  {
    var low := LowStock(inventory, products);
    var skus := seq(|low|, i requires 0 <= i < |low| => low[i].sku);
    assert forall sku :: sku in skus <==> exists x | x in low :: x.sku == sku by {
      forall sku ensures sku in skus <==> exists x | x in low :: x.sku == sku {
        if sku in skus {
          var i :| 0 <= i < |skus| && skus[i] == sku;
          assert low[i] in low;
        }
        if exists x | x in low :: x.sku == sku {
          var x :| x in low && x.sku == sku;
          var i :| 0 <= i < |low| && low[i] == x;
          assert skus[i] == sku;
        }
      }
    }
    Distinct(skus)
  }

  // ---------------------------------------------------------------------
  // Holdings of one SKU
  // ---------------------------------------------------------------------

  /** A `(location, quantity)` row of `get_inventory_for_sku`. */
  datatype Holding = Holding(location: string, quantity: int)

  predicate Descending(hs: seq<Holding>) {
    forall i, j | 0 <= i < j < |hs| :: hs[i].quantity >= hs[j].quantity
  }

  /** A holding no smaller than every element of a descending list can go in front of it. */
  lemma ConsDescending(h: Holding, hs: seq<Holding>)
    requires Descending(hs)
    requires forall x | x in hs :: x.quantity <= h.quantity
    ensures Descending([h] + hs)
  {
    var r := [h] + hs;
    forall i, j | 0 <= i < j < |r| ensures r[i].quantity >= r[j].quantity {
      if i == 0 {
        assert r[j] == hs[j - 1];
      }
    }
  }

  /** The head of a descending list is its largest element, and its tail is descending. */
  lemma DescendingHead(hs: seq<Holding>)
    requires Descending(hs) && hs != []
    ensures Descending(hs[1..])
    ensures forall x | x in hs :: x.quantity <= hs[0].quantity
  {
    forall x | x in hs ensures x.quantity <= hs[0].quantity {
      var j :| 0 <= j < |hs| && hs[j] == x;
    }
  }

  /** Inserts `h` into a descending list, keeping it descending. */
  function InsertDescending(h: Holding, hs: seq<Holding>): (r: seq<Holding>)
    requires Descending(hs)
    ensures Descending(r)
    ensures forall x :: x in r <==> x == h || x in hs
  {
    if hs == [] then [h]
    else if h.quantity >= hs[0].quantity then
      DescendingHead(hs);
      ConsDescending(h, hs);
      [h] + hs
    else
      DescendingHead(hs);
      var tail := InsertDescending(h, hs[1..]);
      assert forall x | x in tail :: x.quantity <= hs[0].quantity;
      ConsDescending(hs[0], tail);
      assert forall x :: x in hs <==> x == hs[0] || x in hs[1..];
      [hs[0]] + tail
  }

  /** Insertion adds exactly one copy of `h` and loses nothing. */
  lemma {:induction false} InsertPermutes(h: Holding, hs: seq<Holding>)
    requires Descending(hs)
    ensures multiset(InsertDescending(h, hs)) == multiset(hs) + multiset{h}
  {
    if hs != [] && h.quantity < hs[0].quantity {
      DescendingHead(hs);
      InsertPermutes(h, hs[1..]);
      assert hs == [hs[0]] + hs[1..];
    }
  }

  /** `ORDER BY quantity DESC`: insertion sort into descending order. */
  function SortDescending(hs: seq<Holding>): (r: seq<Holding>)
    ensures Descending(r)
  {
    if hs == [] then [] else InsertDescending(hs[0], SortDescending(hs[1..]))
  }

  /** Sorting keeps every holding, each as often as it occurs. */
  lemma {:induction false} SortPermutes(hs: seq<Holding>)
    ensures multiset(SortDescending(hs)) == multiset(hs)
  {
    if hs != [] {
      SortPermutes(hs[1..]);
      InsertPermutes(hs[0], SortDescending(hs[1..]));
      assert hs == [hs[0]] + hs[1..];
    }
  }

  /** The `WHERE sku = .. AND quantity > 0` rows, projected to `(location, quantity)`. */
  function Holdings(inventory: seq<StockRow>, sku: string): (r: seq<Holding>)
    ensures forall h :: h in r <==> exists row | row in inventory ::
      row.sku == sku && row.quantity > 0 && h == Holding(row.location, row.quantity)
  {
    if inventory == [] then []
    else
      var row := inventory[0];
      (if row.sku == sku && row.quantity > 0 then [Holding(row.location, row.quantity)] else [])
        + Holdings(inventory[1..], sku)
  }

  /**
   * `get_inventory_for_sku`: where `sku` is held in positive quantity, largest
   * holdings first; each matching row appears once.
   */
  function InventoryForSku(inventory: seq<StockRow>, sku: string): (r: seq<Holding>)
    ensures Descending(r)
    ensures multiset(r) == multiset(Holdings(inventory, sku))
    ensures forall h | h in r :: h.quantity > 0
  {
    var hs := Holdings(inventory, sku);
    var r := SortDescending(hs);
    SortPermutes(hs);
    forall h | h in r ensures h.quantity > 0 {
      assert h in multiset(r);
      assert h in hs;
    }
    r
  }

  /**
   * With no negative stock, the positive holdings of a SKU (the rows
   * `get_inventory_for_sku` lists, before sorting) add up to its total across
   * locations (`get_inventory_for_forecast`).
   */
  lemma {:induction false} HoldingsSumToTotal(inventory: seq<StockRow>, sku: string)
    requires NonNegative(inventory)
    ensures HoldingSum(Holdings(inventory, sku)) == TotalQuantity(inventory, sku)
  {
    if inventory != [] {
      var row := inventory[0];
      var rest := inventory[1..];
      HoldingsSumToTotal(rest, sku);
      var head := if row.sku == sku && row.quantity > 0 then [Holding(row.location, row.quantity)] else [];
      HoldingSumAppend(head, Holdings(rest, sku));
      TotalFront(inventory, sku);
    }
  }

  function HoldingSum(hs: seq<Holding>): int {
    if hs == [] then 0 else hs[0].quantity + HoldingSum(hs[1..])
  }

  lemma {:induction false} HoldingSumAppend(a: seq<Holding>, b: seq<Holding>)
    ensures HoldingSum(a + b) == HoldingSum(a) + HoldingSum(b)
  {
    if a != [] {
      assert (a + b)[0] == a[0];
      assert (a + b)[1..] == a[1..] + b;
      HoldingSumAppend(a[1..], b);
    } else {
      assert a + b == b;
    }
  }

  // ---------------------------------------------------------------------
  // Orders
  // ---------------------------------------------------------------------

  /** Ids strictly increase along the table, as AUTO_INCREMENT assigns them. */
  predicate IdsAscending(orders: seq<Order>) {
    forall i, j | 0 <= i < j < |orders| :: orders[i].id < orders[j].id
  }

  predicate IdsDescending(orders: seq<Order>) {
    forall i, j | 0 <= i < j < |orders| :: orders[i].id > orders[j].id
  }

  /**
   * The `WHERE` of `get_orders`: a "User" sees the orders placed under its own
   * name (none when no name is given, since `customer_name = NULL` matches no
   * row); every other role sees all orders.
   */
  predicate VisibleTo(order: Order, username: Option<string>, role: string) {
    role != UserRole || username == Some(order.customerName)
  }

  /**
   * `get_orders`: the visible orders, newest first. `ORDER BY order_id DESC`
   * is modelled as the table read backwards, which `GetOrdersNewestFirst`
   * shows is descending by id whenever ids ascend along the table.
   */
  function GetOrders(orders: seq<Order>, username: Option<string>, role: string): (r: seq<Order>)
    ensures forall o :: o in r <==> o in orders && VisibleTo(o, username, role)
    ensures |r| <= |orders|
  {
    if orders == [] then []
    else
      var last := orders[|orders| - 1];
      var prefix := orders[..|orders| - 1];
      assert orders == prefix + [last];
      var rest := GetOrders(prefix, username, role);
      assert forall o :: o in orders <==> o in prefix || o == last;
      (if VisibleTo(last, username, role) then [last] else []) + rest
  }

  /** With ids ascending along the table, `get_orders` lists the newest (largest id) first. */
  lemma {:induction false} GetOrdersNewestFirst(orders: seq<Order>, username: Option<string>, role: string)
    requires IdsAscending(orders)
    ensures IdsDescending(GetOrders(orders, username, role))
  {
    if orders != [] {
      var last := orders[|orders| - 1];
      var prefix := orders[..|orders| - 1];
      var rest := GetOrders(prefix, username, role);
      assert IdsAscending(prefix);
      GetOrdersNewestFirst(prefix, username, role);
      if VisibleTo(last, username, role) {
        var r := GetOrders(orders, username, role);
        assert r == [last] + rest;
        forall i, j | 0 <= i < j < |r| ensures r[i].id > r[j].id {
          if i == 0 {
            assert r[j] in prefix;
          } else {
            assert r[i] == rest[i - 1] && r[j] == rest[j - 1];
          }
        }
      }
    }
  }

  // ---------------------------------------------------------------------
  // Summary report
  // ---------------------------------------------------------------------

  /** The four figures of `generate_summary_report`. */
  datatype Summary = Summary(totalOrders: nat, processedOrders: nat, lowStockItems: nat, totalLogisticsCost: real)

  /**
   * `SELECT COUNT(*) FROM Orders WHERE status = 'Processed'`: the number of
   * orders whose status is 'Processed'.
   */
  function ProcessedCount(orders: seq<Order>): (n: nat)
    ensures n == |Filter(orders, (o: Order) => o.status == ProcessedStatus)|
    ensures n <= |orders|
  {
    if orders == [] then 0
    else (if orders[0].status == ProcessedStatus then 1 else 0) + ProcessedCount(orders[1..])
  }

  /**
   * Replacing one order changes the processed count by what the replaced
   * and the new order contribute.
   */
  lemma {:induction false} ProcessedCountUpdate(orders: seq<Order>, k: nat, o: Order)
    requires k < |orders|
    ensures ProcessedCount(orders[k := o]) == ProcessedCount(orders)
      - (if orders[k].status == ProcessedStatus then 1 else 0) + (if o.status == ProcessedStatus then 1 else 0)
  {
    if k == 0 {
      assert orders[k := o][1..] == orders[1..];
    } else {
      assert orders[k := o][1..] == orders[1..][k - 1 := o];
      ProcessedCountUpdate(orders[1..], k - 1, o);
    }
  }

  /** Every recorded transport cost is at least zero. */
  predicate CostsNonNegative(logistics: seq<LogisticsRecord>) {
    forall i | 0 <= i < |logistics| :: logistics[i].transportCost >= 0.0
  }

  /**
   * `SELECT SUM(transport_cost) FROM Logistics`, with `or 0` for the empty
   * table: never negative when no recorded cost is.
   */
  function LogisticsCost(logistics: seq<LogisticsRecord>): (c: real)
    ensures CostsNonNegative(logistics) ==> c >= 0.0
  {
    if logistics == [] then 0.0
    else LogisticsCost(logistics[..|logistics| - 1]) + logistics[|logistics| - 1].transportCost
  }

  /** Recording a transfer raises the total logistics cost by exactly its transport cost. */
  lemma LogisticsCostAppend(logistics: seq<LogisticsRecord>, record: LogisticsRecord)
    ensures LogisticsCost(logistics + [record]) == LogisticsCost(logistics) + record.transportCost
  {
    assert (logistics + [record])[..|logistics|] == logistics;
  }

  /**
   * `generate_summary_report`: the number of orders, the number of processed
   * orders, the number of distinct SKUs with a low-stock row, and the summed
   * logistics cost.
   */
  function SummaryReport(orders: seq<Order>, inventory: seq<StockRow>, products: seq<Product>, logistics: seq<LogisticsRecord>)
    : (s: Summary)
    ensures s.totalOrders == |orders|
    ensures s.processedOrders == ProcessedCount(orders) <= s.totalOrders
    ensures s.lowStockItems == |LowStockSkus(inventory, products)| <= |LowStock(inventory, products)|
    ensures s.lowStockItems == 0 <==> LowStock(inventory, products) == []
    ensures s.totalLogisticsCost == LogisticsCost(logistics)
  {
    var skus := LowStockSkus(inventory, products);
    var low := LowStock(inventory, products);
    assert low != [] ==> low[0].sku in skus;
    Summary(|orders|, ProcessedCount(orders), |skus|, LogisticsCost(logistics))
  }
}
