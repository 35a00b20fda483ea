# Supply-chain query layer in Dafny

This project models the query layer of a small supply-chain dashboard
(`db/queries.py`): the functions that read and write five MySQL tables —
Products, Inventory, Routes, Logistics and Orders — on behalf of the UI.
Each table is a sequence of row values in table order. `SELECT ...
fetchone()` reads the first matching row. An `UPDATE` changes every
matching row. An `INSERT` appends. The connection uses mysql-connector's
default, unbuffered cursor: after a `fetchone()` on a `SELECT` that matched
two or more rows, the cursor still holds unread rows, and the next
`execute()` or `close()` raises "Unread result found" before anything is
committed. The model returns this as the error `UnreadResult`.

Modules, one per file:

- `Wrappers` (`wrappers.dfy`): `Option`, `Result` and `Outcome` (pass/fail).
- `Collections` (`collections.dfy`): `DISTINCT` and `WHERE` over sequences.
- `Text` (`text.dfy`): Python's `strip()` and ASCII `upper()`, the SKU
  normalisation of `move_product`, and the "Retail Hub" name prefix that
  classifies a location.
- `Schema` (`schema.dfy`): the row types, the error values and the seed data
  of `reset_simulation`.
- `Ledger` (`ledger.dfy`): Inventory as a stock ledger.
  - The statements `move_product` and the inventory functions run (`Adjusted`,
    `Assigned`, `Credited`, `DebitCredit`, `Transfer`).
  - The sums they affect: `RowCount`, `QuantityAt` per (sku, location), and
    `TotalQuantity` per SKU (this is `get_inventory_for_forecast`).
  - What a transfer does to those sums.
- `Routing` (`routing.dfy`): the route lookups, the cheapest-origin
  suggestion and the location lists. These are pure functions.
- `Reports` (`reports.dfy`): the low-stock alert, the holdings of one SKU,
  the order listing and the summary report. These are pure functions.
- `Queries` (`database.dfy`): class `Database` holding the tables, with one
  method per mutating query function.
  - Each method states its whole new state through the pure functions, and
    that the other tables are unchanged.
  - Class invariant `Valid`: SKUs are a primary key, and order ids ascend and
    stay below the AUTO_INCREMENT counter.

Inventory has no uniqueness constraint on (sku, location), and Routes none
on (origin, destination). The model therefore keeps duplicate rows possible.
A move whose origin key has several rows (and enough stock in its first
one), or whose destination key has several rows, fails with
`UnreadResult` and changes nothing; a route lookup on a pair with several
rows fails the same way. As a result stock conservation, the exact
movement of stock and non-negativity hold for every ledger, with no
uniqueness hypothesis. `Ledger.DuplicateOriginRowsRaise` shows a ledger with
two rows for one key on which the move raises.

Notable behaviours of the code:

- `get_route_cost` is not an `ORDER BY cost` lookup, but it returns a cost
  only when the pair has exactly one row, so whatever it returns is the
  cheapest cost (`Routing.RouteCostAgreesWithCheapest`).
- `move_product` does not check that `quantity` is positive. A negative
  quantity passes the stock check and moves stock backwards. The
  non-negativity result therefore assumes `quantity >= 0`.
- (sku, location) uniqueness is not enforced; duplicate keys make a move
  raise rather than corrupt stock (see above).
- `add_product` and `update_product` do not normalise the SKU; only
  `move_product` does.
- `move_order_to_customer` looks up the route with the names exactly as
  given, while `move_product` then strips them.
- `delete_order` deletes whatever the order's status.

## Model

| member | source | states |
|---|---|---|
| Text.Strip | db/queries.py:152-154 | the result is the slice of the input left after cutting whitespace from both ends; everything cut off is whitespace and the result neither starts nor ends with whitespace |
| Text.StripIdempotent | db/queries.py:153-154 | stripping an already stripped location changes nothing |
| Text.Upper | db/queries.py:152 | upper-casing keeps the length and maps every character through ASCII upper-casing |
| Text.UpperIdempotent | db/queries.py:152 | after upper-casing no lower-case letter is left, and upper-casing again changes nothing |
| Text.NormalizeSku | db/queries.py:152 | the normalised SKU is no longer than the input and has no lower-case letters |
| Text.UpperKeepsStripped | db/queries.py:152 | upper-casing a stripped string leaves it stripped |
| Text.NormalizeSkuIdempotent | db/queries.py:152 | normalising a normalised SKU gives the same SKU, so callers that normalise before `move_product` pass the same key |
| Collections.Distinct | db/queries.py:395-398 | `SELECT DISTINCT`: no duplicates, the same members as the input, no longer than the input |
| Collections.Filter | db/queries.py:396 | `WHERE`: exactly the elements satisfying the condition |
| Collections.FilterKeepsNoDuplicates | db/queries.py:395-396 | filtering a duplicate-free list keeps it duplicate-free |
| Ledger.FirstIndex | db/queries.py:156-160 | the first row for (sku, location), or the table length when there is none; no earlier row matches |
| Ledger.FirstQuantity | db/queries.py:156-160 | `fetchone()` finds nothing exactly when no row has the key |
| Ledger.QuantityAt | db/queries.py:156-171 | the quantity held at (sku, location) summed over its rows; 0 when the key has no row |
| Ledger.TotalQuantity | db/queries.py:404-412 | `get_inventory_for_forecast`: the SKU's stock summed over all locations, 0 (the `or 0` branch) when the SKU has no row |
| Ledger.Adjusted | db/queries.py:167-171 | `UPDATE ... quantity = quantity + delta`: every row with the key gains `delta`, every other row is unchanged, the length is kept |
| Ledger.Assigned | db/queries.py:89-101 | `UPDATE ... quantity = amount`: every row with the key holds `amount`, every other row is unchanged, the length is kept |
| Ledger.WithoutSku | db/queries.py:104-111 | exactly the rows of other SKUs remain |
| Ledger.Credited | db/queries.py:173-188 | crediting the destination by `UPDATE` or `INSERT`: at most one row is added, rows of other keys are unchanged, and the key has a row afterwards |
| Ledger.DebitCredit | db/queries.py:167-188 | once the origin check has passed on a single origin row: fails, always with `UnreadResult`, exactly when the destination key has two or more rows; on success at most one row is added and rows of other keys are unchanged |
| Ledger.Transfer | db/queries.py:147-188 | a rejection for lack of stock happens exactly when the origin's first row is missing or short; every other rejection is `UnreadResult`; on success at most one row is added and rows of other keys are unchanged |
| Ledger.TransferSucceedsIff | db/queries.py:156-188 | a move succeeds exactly when the origin's first row holds enough, the origin key has exactly one row and the destination key at most one (otherwise the unread rows make the next statement raise) |
| Ledger.AbsentKey | db/queries.py:156-165 | a key with no rows has row count 0 and holds 0 |
| Ledger.PresentKey | db/queries.py:156-165 | a key with a row has a row count of at least 1 |
| Ledger.UniqueRowCount | db/queries.py:156-165 | under unique keys every key has at most one row |
| Ledger.SoleRow | db/queries.py:156-171 | a key with exactly one row has no other row, and holds that row's quantity |
| Ledger.FirstQuantityIsQuantityAt | db/queries.py:156-165 | with at most one row for the key, `fetchone()` reads the whole quantity held at the key, and finds nothing exactly when the key has no row |
| Ledger.TotalOfAbsentSku | db/queries.py:404-412 | the stock of a SKU with no rows is 0 (the `or 0` branch of `get_inventory_for_forecast`) |
| Ledger.TotalOfNonNegative | db/queries.py:404-412 | without negative rows every SKU's total is non-negative |
| Ledger.TotalFront | db/queries.py:404-412 | the SKU total also unfolds from the first row |
| Ledger.WithoutSkuTotals | db/queries.py:104-111 | deleting a SKU's rows leaves it a total of 0 and every other SKU's total as it was |
| Ledger.AppendRow | db/queries.py:75-86 | an inserted row adds its quantity to its key's quantity and its SKU's total, and 1 to its key's row count |
| Ledger.AdjustedRowCount | db/queries.py:167-171 | an `UPDATE` of quantities keeps every key's row count |
| Ledger.ShiftIsProduct | db/queries.py:167-171 | adding `delta` once for every row of a key adds `delta` times the key's row count |
| Ledger.AdjustedOtherKey | db/queries.py:167-171 | an `UPDATE` of one key leaves every other key's quantity unchanged |
| Ledger.AdjustedSameKey | db/queries.py:167-171 | an `UPDATE` of one key moves its quantity by `delta` once per row of the key |
| Ledger.AdjustedQuantity | db/queries.py:167-171 | both cases together, for any key |
| Ledger.AdjustedTotal | db/queries.py:167-171 | an `UPDATE` of one key moves its SKU's total by `delta` once per row of the key, and no other SKU's total |
| Ledger.AdjustedKeepsUniqueKeys | db/queries.py:167-171 | an `UPDATE` of quantities keeps keys unique |
| Ledger.AdjustedSoleRow | db/queries.py:167-171 | with exactly one row for the key, the `UPDATE` moves that key and its SKU's total by exactly `delta` |
| Ledger.AssignedEffect | db/queries.py:89-101 | under unique keys `update_inventory` keeps keys unique; the key then holds the new quantity if it had a row and still 0 if it had none; every other key is unchanged |
| Ledger.AssignedIsAdjusted | db/queries.py:89-101 | with a single row for the key, setting its quantity is the same as adding the difference |
| Ledger.CreditedEffect | db/queries.py:173-188 | with at most one destination row, crediting by update or by insert adds exactly the amount to that key and to its SKU's total, changes no other key, and keeps unique keys unique |
| Ledger.TransferRejectsIff | db/queries.py:156-165 | under unique keys a move is rejected exactly when the origin has no row or holds less than the quantity |
| Ledger.TransferMovesStock | db/queries.py:156-188 | a successful move takes exactly `quantity` from the origin, adds exactly `quantity` to the destination, and leaves every other key as it was, for any ledger |
| Ledger.TransferConservesTotals | db/queries.py:156-188 | a successful move keeps every SKU's total stock, for any ledger |
| Ledger.TransferKeepsUniqueKeys | db/queries.py:167-188 | a successful move keeps keys unique |
| Ledger.TransferKeepsNonNegative | db/queries.py:161-188 | from a non-negative ledger, a successful move of a non-negative quantity leaves every quantity non-negative |
| Ledger.TransferCreatesDestination | db/queries.py:173-188 | when the destination had no row, exactly one row holding the quantity is appended |
| Ledger.DuplicateOriginRowsRaise | db/queries.py:156-171 | with two rows for the origin key and enough stock in the first, the move raises `UnreadResult` and changes nothing |
| Ledger.SeedTransferScenario | tests.py:108-114 | on the seed inventory moving 5 of SKU001 from Warehouse A to Retail Hub 1 leaves 15 at the origin and inserts a row of 5 at the destination; a move of 9999 is rejected for insufficient stock |
| Routing.FirstRoute | db/queries.py:209-213 | the first route row for the pair, or the table length; no earlier row matches |
| Routing.AbsentRoute | db/queries.py:209-216 | a pair with no route rows has a count of 0 |
| Routing.SoleRoute | db/queries.py:209-216 | a pair with a row has a count of at least 1; with a count of 1 no other row connects the pair |
| Routing.UniqueRouteCount | db/queries.py:209-216 | with unique route pairs every pair has at most one row |
| Routing.RouteCost | db/queries.py:205-216 | fails with `UnreadResult` exactly when two or more rows match; `None` exactly when no row matches; otherwise the cost of a matching row |
| Routing.Cheapest | db/queries.py:415-427 | `None` exactly when no route matches; otherwise a matching row whose cost is at most every matching row's cost |
| Routing.CheapestRouteDetails | db/queries.py:415-427 | `None` exactly when no route matches; otherwise the cost and distance of a matching row whose cost is at most every matching row's cost |
| Routing.RouteCostAgreesWithCheapest | db/queries.py:205-216 | the plain lookup reports no route exactly when the cheapest lookup finds none; any cost it returns is the cheapest cost; with unique route pairs it never raises |
| Routing.SeedRouteLookups | db/queries.py:566-580 | on the seed routes, Warehouse A to Retail Hub 1 costs 150.00 over 25.5 km by both lookups, and an unknown pair has no route |
| Routing.RowSuggestion | db/queries.py:463-478 | the cheapest candidate one inventory row offers: none exactly when that row supplies no route; otherwise a supplying route of least cost |
| Routing.SuggestCheapestOrigin | db/queries.py:463-478 | `None` exactly when the inventory-routes join has no candidate; otherwise a candidate origin and cost, with cost at most every candidate's |
| Routing.SuggestionIsUsable | db/queries.py:463-478 | the suggested origin stocks the SKU, is not a retail hub, has a route to the destination whose plain lookup returns the suggested cost unless it raises, and the suggested cost is that route's cheapest cost |
| Routing.Origins | db/queries.py:391-401 | exactly the origins of the routes |
| Routing.Destinations | db/queries.py:391-401 | exactly the destinations of the routes |
| Routing.Locations | db/queries.py:391-401 | duplicate-free origins that are not retail hubs, and duplicate-free destinations; each list exactly as the routes give them |
| Routing.CustomerLocations | db/queries.py:367-377 | duplicate-free; exactly the route destinations that are retail hubs |
| Routing.StockedOrigins | db/queries.py:351-364 | exactly the origins with a route to the destination that hold a positive quantity of the SKU |
| Routing.ValidOrigins | db/queries.py:351-364 | the same set without duplicates |
| Routing.SuggestionIsValidOrigin | db/queries.py:351-364 | the suggested cheapest origin is always among the valid origins |
| Reports.LowMatches | db/queries.py:114-127 | for one inventory row, exactly the joined rows of the products it is low against |
| Reports.LowStock | db/queries.py:114-127 | exactly the Inventory-Products join rows on the same SKU below the threshold, outside the retail hubs |
| Reports.LowStockRowsAreLow | db/queries.py:114-127 | every reported row is below its threshold and not at a retail hub |
| Reports.LowStockSkus | db/queries.py:441-447 | duplicate-free; exactly the SKUs of the low-stock rows, no more of them than rows |
| Reports.InsertDescending | db/queries.py:292-304 | inserting into a descending list keeps it descending, with exactly the old members and the new one |
| Reports.InsertPermutes | db/queries.py:292-304 | insertion adds exactly one copy of the new holding and loses nothing |
| Reports.SortDescending | db/queries.py:292-304 | `ORDER BY quantity DESC`: the result is descending |
| Reports.SortPermutes | db/queries.py:292-304 | sorting is a permutation of its input |
| Reports.Holdings | db/queries.py:292-304 | exactly the (location, quantity) pairs of the SKU's rows with positive quantity |
| Reports.InventoryForSku | db/queries.py:292-304 | descending by quantity, a permutation of the SKU's positive holdings, every quantity positive |
| Reports.HoldingsSumToTotal | db/queries.py:292-304 | without negative stock, the listed holdings add up to the SKU's total (`get_inventory_for_forecast`, db/queries.py:404-412) |
| Reports.HoldingSumAppend | db/queries.py:292-304 | the sum of holdings is additive over concatenation |
| Reports.GetOrders | db/queries.py:232-252 | exactly the orders visible to the caller (a "User" sees only its own name's orders, other roles see all), no more of them than the table holds |
| Reports.GetOrdersNewestFirst | db/queries.py:245-248 | with ids ascending along the table, the listing is descending by id (`ORDER BY order_id DESC`) |
| Reports.ProcessedCount | db/queries.py:438-439 | exactly the number of orders whose status is 'Processed', no more than the orders |
| Reports.ProcessedCountUpdate | db/queries.py:438-439 | replacing one order changes the count by what the old and the new order contribute |
| Reports.LogisticsCost | db/queries.py:449-450 | `SUM(transport_cost)` with `or 0`: never negative when no recorded cost is |
| Reports.LogisticsCostAppend | db/queries.py:449-450 | recording a transfer raises the summed logistics cost by exactly its transport cost |
| Reports.SummaryReport | db/queries.py:430-460 | total orders is the number of orders; processed orders is the processed count and never exceeds it; the low-stock count is the number of distinct low SKUs, no more than the low-stock rows and 0 exactly when there are none; the cost is the summed logistics cost |
| Queries.WithProduct | db/queries.py:32-43 | every row of the SKU carries the new fields; other rows are unchanged; no row changes its SKU; the length is kept |
| Queries.UpdatedProductIsFound | db/queries.py:32-43 | with unique SKUs: SKUs stay unique, the SKU exists afterwards exactly when it did before and then shows the new fields, and every other product is as before |
| Queries.TailSkusDiffer | db/queries.py:46-55 | the rest of a table with unique SKUs has unique SKUs, none equal to the first product's |
| Queries.ConsUniqueSkus | db/queries.py:18-29 | a product with a new SKU can join a table with unique SKUs |
| Queries.WithoutProduct | db/queries.py:46-55 | exactly the products of other SKUs remain, and SKUs stay unique |
| Queries.WithStatus | db/queries.py:255-262 | the order with the id gets the new status, every other order is unchanged, ids keep ascending |
| Queries.StatusUpdateTouchesOneOrder | db/queries.py:255-262 | with ascending ids, exactly one order changes, and only in its status |
| Queries.FirstIdIsSmallest | db/queries.py:307-314 | the first order of an ascending table has the smallest id |
| Queries.WithoutOrder | db/queries.py:307-314 | exactly the orders with other ids remain, and ids keep ascending |
| Queries.MarkProcessedCounts | db/queries.py:255-262 | marking an order 'Processed' raises the summary report's processed count by one when it was not processed, by nothing otherwise, and keeps the number of orders |
| Queries.Moved | db/queries.py:147-203 | a move adds one Logistics row when it passes and none when it fails, and fails only with `InsufficientStock` or `UnreadResult` |
| Queries.MoveConservesStock | db/queries.py:147-203 | every move, successful or not, keeps every SKU's total, moves exactly the quantity from origin to destination when it passes and changes no other key, keeps non-negative stock non-negative, and raises the logistics cost by exactly the recorded cost when it passes; on unique keys it also keeps keys unique and is rejected, always for lack of stock, exactly when the origin is short |
| Queries.OrderTransportCost | db/queries.py:331 | the recorded cost of an order shipment: never negative for a non-negative per-unit cost and quantity, and the per-unit cost for one unit |
| Queries.OrderTransportCostPerUnit | db/queries.py:331 | each further unit adds exactly the per-unit route cost |
| Queries.Database.Seeded | db/queries.py:511-583 | a database holding the seed products, inventory and routes, with no logistics or orders and the order counter at 1 |
| Queries.Database.ResetSimulation | db/queries.py:511-583 | every table replaced by the seed data or emptied, and the order counter back at 1 |
| Queries.Database.AddProduct | db/queries.py:18-29 | a SKU already present fails with the primary-key error and changes nothing; otherwise the product is appended; the other tables are unchanged |
| Queries.Database.UpdateProduct | db/queries.py:32-43 | Products becomes `WithProduct` of the old table; the SKU exists afterwards exactly when it did before; the other tables are unchanged |
| Queries.Database.DeleteProduct | db/queries.py:46-55 | the SKU's inventory rows and its product are deleted; the SKU has no stock left and every other SKU's stock is unchanged |
| Queries.Database.AddInventory | db/queries.py:75-86 | one row is appended; the key's quantity and the SKU's total grow by the quantity; unique keys stay unique exactly when the key had no row before |
| Queries.Database.UpdateInventory | db/queries.py:89-101 | Inventory becomes `Assigned` of the old table, with the effect `AssignedEffect` states when keys were unique |
| Queries.Database.DeleteInventoryForSku | db/queries.py:104-111 | the SKU's rows are deleted; the SKU has no stock left and every other SKU's stock is unchanged |
| Queries.Database.MoveProduct | db/queries.py:147-203 | the new Inventory and Logistics are those `Moved` describes for the normalised names (whose consequences are `MoveConservesStock`); a rejection changes nothing; Products, Routes and Orders are unchanged |
| Queries.Database.MoveOrderToCustomer | db/queries.py:325-337 | a route lookup that raises on duplicate route rows fails with `UnreadResult`, and one with no route fails with `NoRouteFound`, both changing nothing; otherwise it moves the stock at a recorded cost of the per-unit route cost times the quantity; the order itself is not touched |
| Queries.Database.PlaceOrder | db/queries.py:219-229 | one 'Pending' order is appended under the next id, which no earlier order carries; the counter advances by one |
| Queries.Database.UpdateOrderStatus | db/queries.py:255-262 | Orders becomes `WithStatus` of the old table; nothing else changes |
| Queries.Database.DeleteOrder | db/queries.py:307-314 | Orders becomes `WithoutOrder` of the old table, whatever the order's status; nothing else changes |

## Left out

- Logs and `write_log` (db/queries.py:316-323): the log text and its separate connection are not modelled.
- Transactions, `commit`/`rollback` and concurrent sessions: each query function is one atomic step on the tables. A rejected move changes nothing, matching the rollback before any write.
- Database connections (`db/connection.py`) and all I/O: the tables are fields of `Queries.Database`.
- Users, `validate_user` and `create_user`: authentication is not part of this model, and neither are the users `reset_simulation` reinserts.
- DemandForecast and Reports tables, `add_forecast` and `get_forecast`: forecast storage is plain insert and select, with no rules.
- The listing queries `get_all_products`, `get_inventory`, `get_products_by_warehouse`, `get_all_warehouse_locations`, `get_inventory_locations_for_sku`, `get_logistics_records` and `get_logs`: they return tables or simple projections unchanged, with no rules to prove.
- AUTO_INCREMENT counters other than the one of Orders: only order ids are visible to callers (`update_order_status`, `delete_order`).
- MySQL's case-insensitive, trailing-space-insensitive string collation: strings are compared exactly.
- Python's full Unicode `upper()`: only ASCII letters are upper-cased; `strip()` uses Python's whitespace set.
- Physical row order: a `SELECT` without `ORDER BY` is modelled as seeing rows in insertion order. MySQL does not fix the order of rows tied under `ORDER BY ... LIMIT`; the model chooses the earliest, and `Cheapest` and `SuggestCheapestOrigin` state the least cost whichever tied row is picked.
- `get_inventory_for_forecast` has no separate member: it is `Ledger.TotalQuantity`.
- DECIMAL costs are modelled as exact `real` numbers, with no rounding to two places.
- Queries.Database.MoveProduct: the transport cost is a number; the source also accepts `None` (as `get_route_cost` returns for a missing route, tests.py:332-333), commits the move with a NULL cost, and then raises TypeError while formatting the log message (db/queries.py:196-201). That path, and `SUM` skipping the NULL cost, are not modelled.
- Queries.Database.MoveProduct: its postcondition states the new state through `Moved`; stock conservation is proved separately in `Queries.MoveConservesStock` rather than restated in the method's contract.
- Queries.Database.MoveOrderToCustomer: the order id is used only in the log message, so it does not constrain the result.
- The exact exception raised on unread rows (mysql-connector's `InternalError`) is modelled as the single error value `UnreadResult`.
- Queries.Database.AddProduct: the primary-key violation is modelled as a `DuplicateSku` outcome rather than a raised database error.
