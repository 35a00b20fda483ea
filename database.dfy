/**
 * The state-changing half of the query layer: the seven tables it writes,
 * held as sequences of rows by one `Database` object, and one method per
 * mutating query function. Each method states the whole new state in terms
 * of the pure functions of `Ledger`, `Routing` and `Reports`, and what it
 * promises about stock, products and orders.
 */
module Queries {
  import opened Wrappers
  import opened Text
  import opened Schema
  import opened Ledger
  import opened Routing
  import opened Reports

  // ---------------------------------------------------------------------
  // Products as a keyed table
  // ---------------------------------------------------------------------

  /** `sku` is the primary key of Products. */
  predicate UniqueSkus(products: seq<Product>) {
    forall i, j | 0 <= i < j < |products| :: products[i].sku != products[j].sku
  }

  predicate HasSku(products: seq<Product>, sku: string) {
    exists p | p in products :: p.sku == sku
  }

  /**
   * `UPDATE Products SET name = .., description = .., threshold = .. WHERE sku = ..`:
   * every row for `sku` now carries the new fields; no row is inserted or
   * removed and no row changes its SKU.
   */
  function WithProduct(products: seq<Product>, sku: string, name: string, description: string, threshold: int)
    : (r: seq<Product>)
    ensures |r| == |products|
    ensures forall j | 0 <= j < |products| :: r[j].sku == products[j].sku
    ensures forall j | 0 <= j < |products| && products[j].sku == sku :: r[j] == Product(sku, name, description, threshold)
    ensures forall j | 0 <= j < |products| && products[j].sku != sku :: r[j] == products[j]
  {
    seq(|products|, j requires 0 <= j < |products| =>
      if products[j].sku == sku then Product(sku, name, description, threshold) else products[j])
  }

  /**
   * After an update the table still has one row per SKU; looking the SKU up
   * finds the new fields exactly when the product existed, and every other
   * product is found as before.
   */
  lemma UpdatedProductIsFound(products: seq<Product>, sku: string, name: string, description: string, threshold: int)
    requires UniqueSkus(products)
    ensures var r := WithProduct(products, sku, name, description, threshold);
      && UniqueSkus(r)
      && (HasSku(r, sku) <==> HasSku(products, sku))
      && (HasSku(products, sku) ==> Product(sku, name, description, threshold) in r)
      && forall p: Product | p.sku != sku :: p in r <==> p in products
  {
    var r := WithProduct(products, sku, name, description, threshold);
    if HasSku(products, sku) {
      var p :| p in products && p.sku == sku;
      var j :| 0 <= j < |products| && products[j] == p;
      assert r[j] == Product(sku, name, description, threshold);
    }
    if HasSku(r, sku) {
      var p :| p in r && p.sku == sku;
      var j :| 0 <= j < |r| && r[j] == p;
      assert products[j].sku == sku;
    }
    forall p: Product | p.sku != sku ensures p in r <==> p in products {
      if p in r {
        var j :| 0 <= j < |r| && r[j] == p;
        assert products[j] == p;
      }
      if p in products {
        var j :| 0 <= j < |products| && products[j] == p;
        assert r[j] == p;
      }
    }
  }

  /** The rest of a table with unique SKUs has unique SKUs, none of them the first product's. */
  lemma {:induction false} TailSkusDiffer(products: seq<Product>)
    requires UniqueSkus(products) && products != []
    ensures UniqueSkus(products[1..])
    ensures forall q | q in products[1..] :: q.sku != products[0].sku
  {
    forall q | q in products[1..] ensures q.sku != products[0].sku {
      var j :| 0 <= j < |products[1..]| && products[1..][j] == q;
      assert products[j + 1] == q;
    }
  }

  /** A product whose SKU is new to a table with unique SKUs can go in front of it. */
  lemma ConsUniqueSkus(p: Product, products: seq<Product>)
    requires UniqueSkus(products)
    requires forall q | q in products :: q.sku != p.sku
    ensures UniqueSkus([p] + products)
  {
    var r := [p] + products;
    forall i, j | 0 <= i < j < |r| ensures r[i].sku != r[j].sku {
      if i == 0 {
        assert r[j] == products[j - 1];
      }
    }
  }

  /** `DELETE FROM Products WHERE sku = ..`. */
  function WithoutProduct(products: seq<Product>, sku: string): (r: seq<Product>)
    ensures forall p :: p in r <==> p in products && p.sku != sku
    ensures UniqueSkus(products) ==> UniqueSkus(r)
  {
    if products == [] then []
    else
      var rest := WithoutProduct(products[1..], sku);
      assert forall q | q in products :: q == products[0] || q in products[1..];
      if products[0].sku == sku then
        (if UniqueSkus(products) then TailSkusDiffer(products); rest else rest)
      else
        if UniqueSkus(products) then
          TailSkusDiffer(products);
          ConsUniqueSkus(products[0], rest);
          [products[0]] + rest
        else [products[0]] + rest
  }

  // ---------------------------------------------------------------------
  // Orders as a table keyed by AUTO_INCREMENT ids
  // ---------------------------------------------------------------------

  /** `UPDATE Orders SET status = .. WHERE order_id = ..`. */
  function WithStatus(orders: seq<Order>, id: nat, status: string): (r: seq<Order>)
    ensures |r| == |orders|
    ensures forall j | 0 <= j < |orders| ::
      r[j] == if orders[j].id == id then orders[j].(status := status) else orders[j]
    ensures IdsAscending(orders) ==> IdsAscending(r)
  {
    seq(|orders|, j requires 0 <= j < |orders| => if orders[j].id == id then orders[j].(status := status) else orders[j])
  }

  /**
   * With ids ascending, a status update reaches exactly the order carrying
   * that id, changes only its status, and leaves every other order as it was.
   */
  lemma StatusUpdateTouchesOneOrder(orders: seq<Order>, id: nat, status: string, k: nat)
    requires IdsAscending(orders)
    requires k < |orders| && orders[k].id == id
    ensures WithStatus(orders, id, status)[k] == orders[k].(status := status)
    ensures forall j | 0 <= j < |orders| && j != k :: WithStatus(orders, id, status)[j] == orders[j]
  {
    forall j | 0 <= j < |orders| && j != k ensures orders[j].id != id {
      if j < k { assert orders[j].id < orders[k].id; } else { assert orders[k].id < orders[j].id; }
    }
  }

  /** The first order of an ascending table has the smallest id. */
  lemma {:induction false} FirstIdIsSmallest(orders: seq<Order>)
    requires IdsAscending(orders) && orders != []
    ensures IdsAscending(orders[1..])
    ensures forall o | o in orders[1..] :: orders[0].id < o.id
  {
    forall o | o in orders[1..] ensures orders[0].id < o.id {
      var j :| 0 <= j < |orders[1..]| && orders[1..][j] == o;
      assert orders[j + 1] == o;
    }
  }

  /** `DELETE FROM Orders WHERE order_id = ..`, whatever the order's status. */
  function WithoutOrder(orders: seq<Order>, id: nat): (r: seq<Order>)
    ensures forall o :: o in r <==> o in orders && o.id != id
    ensures IdsAscending(orders) ==> IdsAscending(r)
  {
    if orders == [] then []
    else
      var rest := WithoutOrder(orders[1..], id);
      assert orders == [orders[0]] + orders[1..];
      if orders[0].id == id then rest
      else
        if IdsAscending(orders) then
          FirstIdIsSmallest(orders);
          [orders[0]] + rest
        else [orders[0]] + rest
  }

  /**
   * Marking an order 'Processed' raises the processed count of the summary
   * report by one if it was not processed yet, and by nothing otherwise; the
   * number of orders is unchanged.
   */
  lemma MarkProcessedCounts(orders: seq<Order>, id: nat, k: nat)
    requires IdsAscending(orders)
    requires k < |orders| && orders[k].id == id
    ensures |WithStatus(orders, id, ProcessedStatus)| == |orders|
    ensures ProcessedCount(WithStatus(orders, id, ProcessedStatus))
         == ProcessedCount(orders) + (if orders[k].status == ProcessedStatus then 0 else 1)
  {
    var updated := WithStatus(orders, id, ProcessedStatus);
    StatusUpdateTouchesOneOrder(orders, id, ProcessedStatus, k);
    assert updated == orders[k := orders[k].(status := ProcessedStatus)];
    ProcessedCountUpdate(orders, k, orders[k].(status := ProcessedStatus));
  }

  // ---------------------------------------------------------------------
  // The effect of `move_product`
  // ---------------------------------------------------------------------

  /**
   * `move_product` normalises the SKU (stripped, upper-cased) and strips both
   * locations, then runs `Transfer` on Inventory. On failure neither table
   * changes (the source rolls back, or raises before committing); on success
   * Inventory becomes the transfer's result and one Logistics row records the
   * transfer under the normalised names and the given cost. So a move adds
   * one Logistics row when it passes and none when it fails, and it fails
   * only for lack of stock or on unread duplicate rows.
   */
  predicate Moved(inventory0: seq<StockRow>, logistics0: seq<LogisticsRecord>,
                  inventory1: seq<StockRow>, logistics1: seq<LogisticsRecord>,
                  sku: string, origin: string, destination: string, quantity: int, cost: real,
                  r: Outcome<Error>): (b: bool)
    ensures b ==> |logistics1| == |logistics0| + (if r.Pass? then 1 else 0)
    ensures b && r.Fail? ==> r.error == InsufficientStock || r.error == UnreadResult
  {
    var s, o, d := NormalizeSku(sku), Strip(origin), Strip(destination);
    var t := Transfer(inventory0, s, o, d, quantity);
    && (t.Failure? ==> r == Fail(t.error) && inventory1 == inventory0 && logistics1 == logistics0)
    && (t.Success? ==> r == Pass && inventory1 == t.value && logistics1 == logistics0 + [LogisticsRecord(s, o, d, cost)])
  }

  /**
   * What a move promises for the normalised SKU and locations: every SKU's
   * total is kept; the origin loses and the destination gains exactly
   * `quantity` when it passes, and nothing changes when it fails; a
   * non-negative request keeps stock non-negative; and on a ledger with
   * unique keys, keys stay unique and the move is rejected, always for lack
   * of stock, exactly when the origin holds too little.
   */
  ghost predicate StockConserved(inventory0: seq<StockRow>, inventory1: seq<StockRow>,
                                 sku: string, origin: string, destination: string, quantity: int, r: Outcome<Error>)
  {
    && (forall s :: TotalQuantity(inventory1, s) == TotalQuantity(inventory0, s))
    && (forall s, l :: QuantityAt(inventory1, s, l) == QuantityAt(inventory0, s, l)
          - (if r.Pass? && s == sku && l == origin then quantity else 0)
          + (if r.Pass? && s == sku && l == destination then quantity else 0))
    && (NonNegative(inventory0) && quantity >= 0 ==> NonNegative(inventory1))
    && (UniqueKeys(inventory0) ==>
          && UniqueKeys(inventory1)
          && (r.Fail? <==> RowCount(inventory0, sku, origin) == 0 || QuantityAt(inventory0, sku, origin) < quantity)
          && (r.Fail? ==> r.error == InsufficientStock))
  }

  /**
   * Every move conserves stock in the sense of `StockConserved`, for the
   * normalised SKU and locations, and raises the total logistics cost by
   * exactly the recorded cost when it succeeds.
   */
  lemma MoveConservesStock(inventory0: seq<StockRow>, logistics0: seq<LogisticsRecord>,
                           inventory1: seq<StockRow>, logistics1: seq<LogisticsRecord>,
                           sku: string, origin: string, destination: string, quantity: int, cost: real,
                           r: Outcome<Error>)
    requires Moved(inventory0, logistics0, inventory1, logistics1, sku, origin, destination, quantity, cost, r)
    ensures StockConserved(inventory0, inventory1, NormalizeSku(sku), Strip(origin), Strip(destination), quantity, r)
    ensures LogisticsCost(logistics1) == LogisticsCost(logistics0) + (if r.Pass? then cost else 0.0)
  {
    var s, o, d := NormalizeSku(sku), Strip(origin), Strip(destination);
    if UniqueKeys(inventory0) {
      TransferRejectsIff(inventory0, s, o, d, quantity);
    }
    if Transfer(inventory0, s, o, d, quantity).Success? {
      TransferMovesStock(inventory0, s, o, d, quantity);
      TransferConservesTotals(inventory0, s, o, d, quantity);
      if UniqueKeys(inventory0) {
        TransferKeepsUniqueKeys(inventory0, s, o, d, quantity);
      }
      if NonNegative(inventory0) && quantity >= 0 {
        TransferKeepsNonNegative(inventory0, s, o, d, quantity);
      }
      LogisticsCostAppend(logistics0, LogisticsRecord(s, o, d, cost));
    }
  }

  /**
   * The transport cost `move_order_to_customer` records: the per-unit route
   * cost times the quantity; never negative for a non-negative cost and
   * quantity, and the per-unit cost itself for one unit.
   */
  function OrderTransportCost(costPerUnit: real, quantity: int): (c: real)
    ensures costPerUnit >= 0.0 && quantity >= 0 ==> c >= 0.0
    ensures quantity == 1 ==> c == costPerUnit
  {
    costPerUnit * quantity as real
  }

  /** Each further unit shipped adds exactly the per-unit route cost. */
  lemma OrderTransportCostPerUnit(costPerUnit: real, quantity: int)
    ensures OrderTransportCost(costPerUnit, quantity + 1) == OrderTransportCost(costPerUnit, quantity) + costPerUnit
  {
  }

  // ---------------------------------------------------------------------
  // The database
  // ---------------------------------------------------------------------

  /**
   * The tables the query functions write. Users, Logs, DemandForecast and
   * Reports are not part of this model.
   */
  class Database {
    var products: seq<Product>
    var inventory: seq<StockRow>
    var routes: seq<Route>
    var logistics: seq<LogisticsRecord>
    var orders: seq<Order>
    /** The AUTO_INCREMENT counter of Orders: the id the next order receives. */
    var nextOrderId: nat

    /** SKUs are a primary key; order ids are handed out in increasing order and stay below the counter. */
    ghost predicate Valid()
      reads this`products, this`orders, this`nextOrderId
    {
      && UniqueSkus(products)
      && IdsAscending(orders)
      && (forall o | o in orders :: o.id < nextOrderId)
    }

    /** A database just after `reset_simulation`. */
    constructor Seeded()
      ensures Valid()
      ensures products == SeedProducts() && inventory == SeedInventory() && routes == SeedRoutes()
      ensures logistics == [] && orders == [] && nextOrderId == 1
    {
      products := SeedProducts();
      inventory := SeedInventory();
      routes := SeedRoutes();
      logistics := [];
      orders := [];
      nextOrderId := 1;
    }

    /**
     * `reset_simulation`: empty every table, restart the order ids at 1 and
     * reload the seed products, inventory and routes.
     */
    method ResetSimulation()
      modifies this
      ensures Valid()
      ensures products == SeedProducts() && inventory == SeedInventory() && routes == SeedRoutes()
      ensures logistics == [] && orders == [] && nextOrderId == 1
    {
      products := SeedProducts();
      inventory := SeedInventory();
      routes := SeedRoutes();
      logistics := [];
      orders := [];
      nextOrderId := 1;
    }

    // -------------------------------------------------------------------
    // Products
    // -------------------------------------------------------------------

    /**
     * `add_product`: insert the product; a second product with the same SKU
     * violates the primary key and nothing is inserted.
     */
    method AddProduct(sku: string, name: string, description: string, threshold: int) returns (r: Outcome<Error>)
      requires Valid()
      modifies this
      ensures Valid()
      ensures HasSku(old(products), sku) ==> r == Fail(DuplicateSku) && products == old(products)
      ensures !HasSku(old(products), sku) ==> r == Pass && products == old(products) + [Product(sku, name, description, threshold)]
      ensures inventory == old(inventory) && routes == old(routes) && logistics == old(logistics)
      ensures orders == old(orders) && nextOrderId == old(nextOrderId)
    {
      if exists p | p in products :: p.sku == sku {
        return Fail(DuplicateSku);
      }
      products := products + [Product(sku, name, description, threshold)];
      r := Pass;
    }

    /** `update_product`: rewrite the fields of the product with that SKU, if there is one. */
    method UpdateProduct(sku: string, name: string, description: string, threshold: int)
      requires Valid()
      modifies this
      ensures Valid()
      ensures products == WithProduct(old(products), sku, name, description, threshold)
      ensures HasSku(products, sku) <==> old(HasSku(products, sku))
      ensures inventory == old(inventory) && routes == old(routes) && logistics == old(logistics)
      ensures orders == old(orders) && nextOrderId == old(nextOrderId)
    {
      UpdatedProductIsFound(products, sku, name, description, threshold);
      products := WithProduct(products, sku, name, description, threshold);
    }

    /**
     * `delete_product`: delete the SKU's inventory rows, then the product.
     * Orders and Logistics rows naming the SKU stay. Afterwards the SKU has no
     * stock anywhere and every other SKU's stock is as it was.
     */
    method DeleteProduct(sku: string)
      requires Valid()
      modifies this
      ensures Valid()
      ensures inventory == WithoutSku(old(inventory), sku)
      ensures products == WithoutProduct(old(products), sku)
      ensures forall s :: TotalQuantity(inventory, s) == if s == sku then 0 else old(TotalQuantity(inventory, s))
      ensures routes == old(routes) && logistics == old(logistics)
      ensures orders == old(orders) && nextOrderId == old(nextOrderId)
    {
      ghost var before := inventory;
      inventory := WithoutSku(inventory, sku);
      products := WithoutProduct(products, sku);
      forall s ensures TotalQuantity(inventory, s) == if s == sku then 0 else TotalQuantity(before, s) {
        WithoutSkuTotals(before, sku, s);
      }
    }

    // -------------------------------------------------------------------
    // Inventory
    // -------------------------------------------------------------------

    /**
     * `add_inventory`: insert a row, without looking for an existing row for
     * the same (sku, location). The key's quantity and the SKU's total grow by
     * `quantity`; keys stay unique only when the key had no row before.
     */
    method AddInventory(sku: string, location: string, quantity: int)
      requires Valid()
      modifies this
      ensures Valid()
      ensures inventory == old(inventory) + [StockRow(sku, location, quantity)]
      ensures QuantityAt(inventory, sku, location) == old(QuantityAt(inventory, sku, location)) + quantity
      ensures TotalQuantity(inventory, sku) == old(TotalQuantity(inventory, sku)) + quantity
      ensures UniqueKeys(old(inventory)) ==> (UniqueKeys(inventory) <==> old(FirstQuantity(inventory, sku, location)).None?)
      ensures products == old(products) && routes == old(routes) && logistics == old(logistics)
      ensures orders == old(orders) && nextOrderId == old(nextOrderId)
    {
      ghost var before := inventory;
      var row := StockRow(sku, location, quantity);
      inventory := inventory + [row];
      AppendRow(before, row, sku, location);
      if FirstQuantity(before, sku, location).Some? {
        var k := FirstIndex(before, sku, location);
        assert inventory[k] == before[k] && Keyed(inventory[|before|], sku, location);
      }
    }

    /**
     * `update_inventory`: set the quantity of the (sku, location) rows; when
     * there is no such row nothing is inserted. Under unique keys the key then
     * holds `quantity` (or still nothing) and every other key is unchanged.
     */
    method UpdateInventory(sku: string, location: string, quantity: int)
      requires Valid()
      modifies this
      ensures Valid()
      ensures inventory == Assigned(old(inventory), sku, location, quantity)
      ensures UniqueKeys(old(inventory)) ==>
        && UniqueKeys(inventory)
        && QuantityAt(inventory, sku, location) == (if old(RowCount(inventory, sku, location)) == 0 then 0 else quantity)
        && forall s, l | s != sku || l != location :: QuantityAt(inventory, s, l) == old(QuantityAt(inventory, s, l))
      ensures products == old(products) && routes == old(routes) && logistics == old(logistics)
      ensures orders == old(orders) && nextOrderId == old(nextOrderId)
    {
      ghost var before := inventory;
      inventory := Assigned(inventory, sku, location, quantity);
      if UniqueKeys(before) {
        AssignedEffect(before, sku, location, quantity);
      }
    }

    /** `delete_inventory_for_sku`: delete every row of the SKU; other SKUs keep their stock. */
    method DeleteInventoryForSku(sku: string)
      requires Valid()
      modifies this
      ensures Valid()
      ensures inventory == WithoutSku(old(inventory), sku)
      ensures forall s :: TotalQuantity(inventory, s) == if s == sku then 0 else old(TotalQuantity(inventory, s))
      ensures products == old(products) && routes == old(routes) && logistics == old(logistics)
      ensures orders == old(orders) && nextOrderId == old(nextOrderId)
    {
      ghost var before := inventory;
      inventory := WithoutSku(inventory, sku);
      forall s ensures TotalQuantity(inventory, s) == if s == sku then 0 else TotalQuantity(before, s) {
        WithoutSkuTotals(before, sku, s);
      }
    }

    // -------------------------------------------------------------------
    // Transfers
    // -------------------------------------------------------------------

    /**
     * `move_product`: normalise the names, then run the Inventory statements
     * in order: the origin check, which rolls back on short stock; the debit,
     * which raises on unread duplicate origin rows; the destination lookup,
     * which leaves duplicate rows unread; and the credit (`Credited`, an
     * update or an insert). On success record the transfer in Logistics. The
     * new state is the one `Moved` describes; what that promises is
     * `MoveConservesStock`.
     */
    method MoveProduct(sku: string, origin: string, destination: string, quantity: int, transportCost: real)
      returns (r: Outcome<Error>)
      requires Valid()
      modifies this
      ensures Valid()
      ensures Moved(old(inventory), old(logistics), inventory, logistics, sku, origin, destination, quantity, transportCost, r)
      ensures products == old(products) && routes == old(routes)
      ensures orders == old(orders) && nextOrderId == old(nextOrderId)
    {
      var s := NormalizeSku(sku);
      var o := Strip(origin);
      var d := Strip(destination);
      ghost var t := Transfer(inventory, s, o, d, quantity);
      var held := FirstQuantity(inventory, s, o);
      if held.None? || held.value < quantity {
        assert t == Failure(InsufficientStock);
        return Fail(InsufficientStock);
      }
      if RowCount(inventory, s, o) > 1 {
        assert t == Failure(UnreadResult);
        return Fail(UnreadResult);
      }
      assert t == DebitCredit(inventory, s, o, d, quantity);
      var rows := Adjusted(inventory, s, o, -quantity);
      if RowCount(rows, s, d) > 1 {
        assert t == Failure(UnreadResult);
        return Fail(UnreadResult);
      }
      rows := Credited(rows, s, d, quantity);
      assert t == Success(rows);
      inventory := rows;
      logistics := logistics + [LogisticsRecord(s, o, d, transportCost)];
      r := Pass;
    }

    /**
     * `move_order_to_customer`: look up the route from `origin` to
     * `destination` as given (unstripped). When the lookup raises on
     * duplicate route rows, or finds no route (`NoRouteFound`), nothing
     * changes; otherwise the stock moves at a transport cost of the per-unit
     * route cost times `quantity`. The order row itself is not touched.
     */
    method MoveOrderToCustomer(orderId: nat, sku: string, quantity: int, origin: string, destination: string)
      returns (r: Outcome<Error>)
      requires Valid()
      modifies this
      ensures Valid()
      ensures RouteCost(old(routes), origin, destination).Failure? ==>
        r == Fail(UnreadResult) && inventory == old(inventory) && logistics == old(logistics)
      ensures RouteCost(old(routes), origin, destination) == Success(None) ==>
        r == Fail(NoRouteFound) && inventory == old(inventory) && logistics == old(logistics)
      ensures RouteCost(old(routes), origin, destination).Success? && RouteCost(old(routes), origin, destination).value.Some? ==>
        Moved(old(inventory), old(logistics), inventory, logistics, sku, origin, destination, quantity,
              OrderTransportCost(RouteCost(old(routes), origin, destination).value.value, quantity), r)
      ensures products == old(products) && routes == old(routes)
      ensures orders == old(orders) && nextOrderId == old(nextOrderId)
    {
      var costPerUnit := RouteCost(routes, origin, destination);
      if costPerUnit.Failure? {
        return Fail(costPerUnit.error);
      }
      if costPerUnit.value.None? {
        return Fail(NoRouteFound);
      }
      r := MoveProduct(sku, origin, destination, quantity, OrderTransportCost(costPerUnit.value.value, quantity));
    }

    // -------------------------------------------------------------------
    // Orders
    // -------------------------------------------------------------------

    /**
     * `place_order`: append a 'Pending' order under the next id; the id is
     * fresh, so ids stay unique and ascending.
     */
    method PlaceOrder(sku: string, quantity: int, customerName: string, customerLocation: string)
      requires Valid()
      modifies this
      ensures Valid()
      ensures orders == old(orders) + [Order(old(nextOrderId), sku, quantity, customerName, customerLocation, PendingStatus)]
      ensures forall o | o in old(orders) :: o.id != old(nextOrderId)
      ensures nextOrderId == old(nextOrderId) + 1
      ensures products == old(products) && inventory == old(inventory) && routes == old(routes)
      ensures logistics == old(logistics)
    {
      orders := orders + [Order(nextOrderId, sku, quantity, customerName, customerLocation, PendingStatus)];
      nextOrderId := nextOrderId + 1;
    }

    /** `update_order_status`: set the status of the order with that id, if any. */
    method UpdateOrderStatus(orderId: nat, status: string)
      requires Valid()
      modifies this
      ensures Valid()
      ensures orders == WithStatus(old(orders), orderId, status)
      ensures products == old(products) && inventory == old(inventory) && routes == old(routes)
      ensures logistics == old(logistics) && nextOrderId == old(nextOrderId)
    {
      orders := WithStatus(orders, orderId, status);
    }

    /** `delete_order`: delete the order with that id, whatever its status; ids are not reused. */
    method DeleteOrder(orderId: nat)
      requires Valid()
      modifies this
      ensures Valid()
      ensures orders == WithoutOrder(old(orders), orderId)
      ensures products == old(products) && inventory == old(inventory) && routes == old(routes)
      ensures logistics == old(logistics) && nextOrderId == old(nextOrderId)
    {
      orders := WithoutOrder(orders, orderId);
    }
  }
}
