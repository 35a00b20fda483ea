/**
 * The rows of the five tables the query layer reads and writes, the errors
 * it raises, and the data `reset_simulation` loads.
 *
 * Costs and distances are SQL DECIMAL columns, modelled as `real`.
 */
module Schema {

  /** A row of Products: the SKU, its display text and its reorder threshold. */
  datatype Product = Product(sku: string, name: string, description: string, threshold: int)

  /** A row of Inventory: `quantity` units of `sku` held at `location`. */
  datatype StockRow = StockRow(sku: string, location: string, quantity: int)

  /** A row of Routes: the per-unit transport cost and distance from `origin` to `destination`. */
  datatype Route = Route(origin: string, destination: string, cost: real, distanceKm: real)

  /** A row of Logistics: one completed transfer and the transport cost it incurred. */
  datatype LogisticsRecord = LogisticsRecord(sku: string, origin: string, destination: string, transportCost: real)

  /**
   * A row of Orders. `id` is the table's AUTO_INCREMENT key; `status` is the
   * free text the source stores ('Pending' on insert, whatever
   * `update_order_status` is given afterwards).
   */
  datatype Order = Order(id: nat, sku: string, quantity: int, customerName: string, customerLocation: string, status: string)

  const PendingStatus: string := "Pending"
  const ProcessedStatus: string := "Processed"

  /** The role whose order listing is restricted to its own orders. */
  const UserRole: string := "User"

  /**
   * The `ValueError`s the query layer raises ("Insufficient stock at origin",
   * "No route found"), the primary-key violation of inserting a SKU twice,
   * and the driver's "Unread result found": the connection's cursor is
   * unbuffered, so when a `SELECT` matched two or more rows and only one was
   * fetched, the next statement on the cursor (or closing it) raises and
   * nothing is committed.
   */
  datatype Error = InsufficientStock | NoRouteFound | DuplicateSku | UnreadResult

  /** The products `reset_simulation` inserts. */
  function SeedProducts(): seq<Product> {
    [ Product("SKU001", "Laptop", "High-performance laptop", 5),
      Product("SKU002", "Smartphone", "Latest model smartphone", 10),
      Product("SKU003", "Router", "Dual-band WiFi router", 8) ]
  }

  /** The inventory `reset_simulation` inserts. */
  function SeedInventory(): seq<StockRow> {
    [ StockRow("SKU001", "Warehouse A", 20),
      StockRow("SKU002", "Warehouse B", 15),
      StockRow("SKU003", "Warehouse A", 5) ]
  }

  /** The routes `reset_simulation` inserts. */
  function SeedRoutes(): seq<Route> {
    [ Route("Warehouse A", "Retail Hub 1", 150.0, 25.5),
      Route("Warehouse A", "Retail Hub 2", 120.0, 5.0),
      Route("Warehouse A", "Retail Hub 3", 90.0, 10.0),
      Route("Warehouse B", "Retail Hub 1", 70.0, 15.0),
      Route("Warehouse B", "Retail Hub 2", 100.0, 25.0),
      Route("Warehouse B", "Retail Hub 3", 175.0, 30.0),
      Route("Warehouse B", "Warehouse A", 80.0, 20.0),
      Route("Warehouse A", "Warehouse B", 100.0, 30.0) ]
  }
}
