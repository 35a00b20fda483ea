/**
 * The read-only queries over Routes, and over Routes joined with Inventory:
 * route cost lookups, the cheapest route, the cheapest origin to supply a
 * destination, and the location lists the UI offers.
 */
module Routing {
  import opened Wrappers
  import opened Collections
  import opened Text
  import opened Schema

  predicate Connects(route: Route, origin: string, destination: string) {
    route.origin == origin && route.destination == destination
  }

  /** No two rows of Routes share an (origin, destination) pair. */
  predicate UniqueRoutes(routes: seq<Route>) {
    forall i, j | 0 <= i < j < |routes| :: routes[i].origin != routes[j].origin || routes[i].destination != routes[j].destination
  }

  /** The position of the first route from `origin` to `destination`, or `|routes|` if there is none. */
  function FirstRoute(routes: seq<Route>, origin: string, destination: string): (k: nat)
    ensures k <= |routes|
    ensures forall j | 0 <= j < k :: !Connects(routes[j], origin, destination)
    ensures k < |routes| ==> Connects(routes[k], origin, destination)
  {
    if routes == [] || Connects(routes[0], origin, destination) then 0
    else 1 + FirstRoute(routes[1..], origin, destination)
  }

  /** The number of route rows from `origin` to `destination`. */
  function RouteCount(routes: seq<Route>, origin: string, destination: string): nat {
    if routes == [] then 0
    else (if Connects(routes[0], origin, destination) then 1 else 0) + RouteCount(routes[1..], origin, destination)
  }

  /** A pair with no route rows has a count of 0. */
  lemma {:induction false} AbsentRoute(routes: seq<Route>, origin: string, destination: string)
    requires forall route | route in routes :: !Connects(route, origin, destination)
    ensures RouteCount(routes, origin, destination) == 0
  {
    if routes != [] {
      AbsentRoute(routes[1..], origin, destination);
    }
  }

  /**
   * A pair with exactly one route row, at `k`: no other row connects the
   * pair. A pair with a row at `k` has a count of at least 1.
   */
  lemma {:induction false} SoleRoute(routes: seq<Route>, origin: string, destination: string, k: nat)
    requires k < |routes| && Connects(routes[k], origin, destination)
    ensures RouteCount(routes, origin, destination) >= 1
    ensures RouteCount(routes, origin, destination) == 1 ==>
      forall j | 0 <= j < |routes| && Connects(routes[j], origin, destination) :: j == k
  {
    if k == 0 {
      if RouteCount(routes, origin, destination) == 1 {
        forall j | 1 <= j < |routes| ensures !Connects(routes[j], origin, destination) {
          if Connects(routes[j], origin, destination) {
            SoleRoute(routes[1..], origin, destination, j - 1);
          }
        }
      }
    } else {
      SoleRoute(routes[1..], origin, destination, k - 1);
    }
  }

  /** With unique route pairs every pair has at most one row. */
  lemma {:induction false} UniqueRouteCount(routes: seq<Route>, origin: string, destination: string)
    requires UniqueRoutes(routes)
    ensures RouteCount(routes, origin, destination) <= 1
  {
    if routes != [] {
      UniqueRouteCount(routes[1..], origin, destination);
      if Connects(routes[0], origin, destination) {
        assert forall route | route in routes[1..] :: !Connects(route, origin, destination) by {
          forall route | route in routes[1..] ensures !Connects(route, origin, destination) {
            var j :| 0 <= j < |routes[1..]| && routes[1..][j] == route;
            assert routes[j + 1] == route;
          }
        }
        AbsentRoute(routes[1..], origin, destination);
      }
    }
  }

  /**
   * `get_route_cost`: `SELECT cost ... WHERE origin = .. AND destination = ..`,
   * one `fetchone()`, then `cursor.close()`. `None` when no row matches;
   * the row's cost when exactly one does. When two or more rows match, the
   * unbuffered cursor still holds unread rows and closing it raises
   * `UnreadResult`.
   */
  function RouteCost(routes: seq<Route>, origin: string, destination: string): (c: Result<Option<real>, Error>)
    ensures c.Failure? <==> RouteCount(routes, origin, destination) > 1
    ensures c.Failure? ==> c.error == UnreadResult
    ensures c == Success(None) <==> forall route | route in routes :: !Connects(route, origin, destination)
    ensures c.Success? && c.value.Some? ==> exists route | route in routes ::
      Connects(route, origin, destination) && route.cost == c.value.value
  {
    var k := FirstRoute(routes, origin, destination);
    if k == |routes| then
      AbsentRoute(routes, origin, destination);
      Success(None)
    else
      SoleRoute(routes, origin, destination, k);
      if RouteCount(routes, origin, destination) > 1 then Failure(UnreadResult)
      else Success(Some(routes[k].cost))
  }

  /**
   * `... WHERE origin = .. AND destination = .. ORDER BY cost ASC LIMIT 1`:
   * a route of least cost between the two locations; among equally cheap
   * rows, the earliest.
   */
  function Cheapest(routes: seq<Route>, origin: string, destination: string): (r: Option<Route>)
    ensures r.None? <==> forall route | route in routes :: !Connects(route, origin, destination)
    ensures r.Some? ==> r.value in routes && Connects(r.value, origin, destination)
    ensures r.Some? ==> forall route | route in routes && Connects(route, origin, destination) :: r.value.cost <= route.cost
  {
    if routes == [] then None
    else
      var rest := Cheapest(routes[1..], origin, destination);
      if !Connects(routes[0], origin, destination) then rest
      else if rest.Some? && rest.value.cost < routes[0].cost then rest
      else Some(routes[0])
  }

  /** The `{"cost": .., "distance": ..}` dictionary of `get_cheapest_route_details`. */
  datatype RouteDetails = RouteDetails(cost: real, distance: real)

  /** `get_cheapest_route_details`: cost and distance of the cheapest route, or `None`. */
  function CheapestRouteDetails(routes: seq<Route>, origin: string, destination: string): (d: Option<RouteDetails>)
    ensures d.None? <==> forall route | route in routes :: !Connects(route, origin, destination)
    ensures d.Some? ==> exists route | route in routes ::
      Connects(route, origin, destination) && d.value == RouteDetails(route.cost, route.distanceKm)
    ensures d.Some? ==> forall route | route in routes && Connects(route, origin, destination) :: d.value.cost <= route.cost
  {
    match Cheapest(routes, origin, destination)
    case None => None
    case Some(route) => Some(RouteDetails(route.cost, route.distanceKm))
  }

  /**
   * The two lookups agree: the plain lookup reports "no route" exactly when
   * the cheapest one finds none, and whenever it returns a cost, that cost
   * is the cheapest one (the pair has only the one row). With unique route
   * pairs the plain lookup never raises (as the test at tests.py:96-97
   * expects of the seed routes).
   */
  lemma RouteCostAgreesWithCheapest(routes: seq<Route>, origin: string, destination: string)
    ensures RouteCost(routes, origin, destination) == Success(None) <==> CheapestRouteDetails(routes, origin, destination).None?
    ensures RouteCost(routes, origin, destination).Success? && RouteCost(routes, origin, destination).value.Some? ==>
      CheapestRouteDetails(routes, origin, destination).value.cost == RouteCost(routes, origin, destination).value.value
    ensures UniqueRoutes(routes) ==> RouteCost(routes, origin, destination).Success?
  {
    var k := FirstRoute(routes, origin, destination);
    if k < |routes| {
      assert routes[k] in routes;
      SoleRoute(routes, origin, destination, k);
      if RouteCount(routes, origin, destination) == 1 {
        var best := Cheapest(routes, origin, destination).value;
        var i :| 0 <= i < |routes| && routes[i] == best;
        assert i == k;
      }
    }
    if UniqueRoutes(routes) {
      UniqueRouteCount(routes, origin, destination);
    }
  }

  /**
   * The seed data: the cheapest route from Warehouse A to Retail Hub 1 costs
   * 150.00 over 25.5 km, the plain lookup gives the same cost, and a pair
   * with no route has none.
   */
  lemma SeedRouteLookups()
    ensures CheapestRouteDetails(SeedRoutes(), "Warehouse A", "Retail Hub 1") == Some(RouteDetails(150.0, 25.5))
    ensures RouteCost(SeedRoutes(), "Warehouse A", "Retail Hub 1") == Success(Some(150.0))
    ensures RouteCost(SeedRoutes(), "X", "Y") == Success(None)
  {
    var routes := SeedRoutes();
    assert "Retail Hub 2" != "Retail Hub 1" && "Retail Hub 3" != "Retail Hub 1" && "Warehouse B" != "Warehouse A" by {
      assert "Retail Hub 2"[11] != "Retail Hub 1"[11] && "Retail Hub 3"[11] != "Retail Hub 1"[11];
      assert "Warehouse B"[10] != "Warehouse A"[10];
    }
    assert Connects(routes[0], "Warehouse A", "Retail Hub 1");
    assert forall j | 1 <= j < |routes| :: !Connects(routes[j], "Warehouse A", "Retail Hub 1");
    assert forall j | 0 <= j < |routes| :: !Connects(routes[j], "X", "Y");
    AbsentRoute(routes[1..], "Warehouse A", "Retail Hub 1");
  }

  // ---------------------------------------------------------------------
  // The cheapest origin for a destination
  // ---------------------------------------------------------------------

  /**
   * An Inventory row and a Route row that together form a candidate of
   * `suggest_cheapest_origin`: the row holds some of `sku` at a location that
   * is not a retail hub, and the route leaves that location for `destination`.
   */
  predicate Supplies(row: StockRow, route: Route, sku: string, destination: string) {
    && row.sku == sku && row.quantity > 0 && !IsRetailHub(row.location)
    && route.origin == row.location && route.destination == destination
  }

  /** The `{"origin": .., "cost": ..}` dictionary of `suggest_cheapest_origin`. */
  datatype Suggestion = Suggestion(origin: string, cost: real)

  /**
   * The best candidate one Inventory row offers: when the row can supply, its
   * location with the cheapest route from there to `destination`.
   */
  function RowSuggestion(row: StockRow, routes: seq<Route>, sku: string, destination: string): (r: Option<Suggestion>)
    ensures r.None? <==> forall route | route in routes :: !Supplies(row, route, sku, destination)
    ensures r.Some? ==> exists route | route in routes ::
      Supplies(row, route, sku, destination) && r.value == Suggestion(row.location, route.cost)
    ensures r.Some? ==> forall route | route in routes && Supplies(row, route, sku, destination) :: r.value.cost <= route.cost
  {
    if !(row.sku == sku && row.quantity > 0 && !IsRetailHub(row.location)) then None
    else match Cheapest(routes, row.location, destination)
      case None => None
      case Some(route) => Some(Suggestion(row.location, route.cost))
  }

  /**
   * `suggest_cheapest_origin`: the Inventory-Routes join filtered as in
   * `Supplies`, ordered by route cost, first row. `None` when the join is empty.
   */
  function SuggestCheapestOrigin(inventory: seq<StockRow>, routes: seq<Route>, sku: string, destination: string)
    : (r: Option<Suggestion>)
    ensures r.None? <==>
      forall row, route | row in inventory && route in routes :: !Supplies(row, route, sku, destination)
    ensures r.Some? ==> exists row, route | row in inventory && route in routes ::
      Supplies(row, route, sku, destination) && r.value == Suggestion(row.location, route.cost)
    ensures r.Some? ==> forall row, route | row in inventory && route in routes && Supplies(row, route, sku, destination) ::
      r.value.cost <= route.cost
  {
    if inventory == [] then None
    else
      var rest := SuggestCheapestOrigin(inventory[1..], routes, sku, destination);
      var here := RowSuggestion(inventory[0], routes, sku, destination);
      assert forall row | row in inventory :: row == inventory[0] || row in inventory[1..];
      if here.None? then rest
      else if rest.Some? && rest.value.cost < here.value.cost then rest
      else here
  }

  /**
   * The suggested origin is one a transfer from it can use: it holds some of
   * the SKU, is not a retail hub, `get_route_cost` does not report "no route"
   * from it to the destination (and returns the suggested cost when it does
   * not raise), and the suggested cost is the cheapest route from it.
   */
  lemma SuggestionIsUsable(inventory: seq<StockRow>, routes: seq<Route>, sku: string, destination: string)
    requires SuggestCheapestOrigin(inventory, routes, sku, destination).Some?
    ensures var s := SuggestCheapestOrigin(inventory, routes, sku, destination).value;
      && !IsRetailHub(s.origin)
      && (exists row | row in inventory :: row.sku == sku && row.location == s.origin && row.quantity > 0)
      && RouteCost(routes, s.origin, destination) != Success(None)
      && (RouteCost(routes, s.origin, destination).Success? ==> RouteCost(routes, s.origin, destination).value == Some(s.cost))
      && CheapestRouteDetails(routes, s.origin, destination).value.cost == s.cost
  {
    var s := SuggestCheapestOrigin(inventory, routes, sku, destination).value;
    var row, route :| row in inventory && route in routes && Supplies(row, route, sku, destination) && s == Suggestion(row.location, route.cost);
    assert Connects(route, s.origin, destination);
    var best := Cheapest(routes, s.origin, destination).value;
    assert Supplies(row, best, sku, destination);
    RouteCostAgreesWithCheapest(routes, s.origin, destination);
  }

  // ---------------------------------------------------------------------
  // Location lists
  // ---------------------------------------------------------------------

  /** Every route's origin, in table order. */
  function Origins(routes: seq<Route>): (r: seq<string>)
    ensures forall o :: o in r <==> exists route | route in routes :: route.origin == o
  {
    if routes == [] then [] else [routes[0].origin] + Origins(routes[1..])
  }

  /** Every route's destination, in table order. */
  function Destinations(routes: seq<Route>): (r: seq<string>)
    ensures forall d :: d in r <==> exists route | route in routes :: route.destination == d
  {
    if routes == [] then [] else [routes[0].destination] + Destinations(routes[1..])
  }

  /** The pair of lists `get_locations` returns. */
  datatype LocationLists = LocationLists(origins: seq<string>, destinations: seq<string>)

  /**
   * `get_locations`: the distinct route origins that are not retail hubs,
   * and all distinct route destinations.
   */
  function Locations(routes: seq<Route>): (r: LocationLists)
    ensures NoDuplicates(r.origins) && NoDuplicates(r.destinations)
    ensures forall o :: o in r.origins <==> !IsRetailHub(o) && exists route | route in routes :: route.origin == o
    ensures forall d :: d in r.destinations <==> exists route | route in routes :: route.destination == d
  {
    var origins := Distinct(Origins(routes));
    FilterKeepsNoDuplicates(origins, o => !IsRetailHub(o));
    LocationLists(Filter(origins, o => !IsRetailHub(o)), Distinct(Destinations(routes)))
  }

  /** `get_customer_locations`: the distinct route destinations that are retail hubs. */
  function CustomerLocations(routes: seq<Route>): (r: seq<string>)
    ensures NoDuplicates(r)
    ensures forall d :: d in r <==> IsRetailHub(d) && exists route | route in routes :: route.destination == d
  {
    var destinations := Distinct(Destinations(routes));
    FilterKeepsNoDuplicates(destinations, IsRetailHub);
    Filter(destinations, IsRetailHub)
  }

  /** Some row holds a positive quantity of `sku` at `location`. */
  predicate Stocks(inventory: seq<StockRow>, sku: string, location: string) {
    exists row | row in inventory :: row.sku == sku && row.location == location && row.quantity > 0
  }

  /** The origins of the routes into `destination` whose origin stocks `sku`, with repeats. */
  function StockedOrigins(routes: seq<Route>, inventory: seq<StockRow>, destination: string, sku: string): (r: seq<string>)
    ensures forall o :: o in r <==>
      Stocks(inventory, sku, o) && exists route | route in routes :: route.origin == o && route.destination == destination
  {
    if routes == [] then []
    else
      var route := routes[0];
      (if route.destination == destination && Stocks(inventory, sku, route.origin) then [route.origin] else [])
        + StockedOrigins(routes[1..], inventory, destination, sku)
  }

  /**
   * `get_valid_origins_for_destination`: the distinct origins that have a
   * route to `destination` and hold a positive quantity of `sku`. Unlike
   * `suggest_cheapest_origin`, retail hubs are not excluded.
   */
  function ValidOrigins(routes: seq<Route>, inventory: seq<StockRow>, destination: string, sku: string): (r: seq<string>)
    ensures NoDuplicates(r)
    ensures forall o :: o in r <==>
      Stocks(inventory, sku, o) && exists route | route in routes :: route.origin == o && route.destination == destination
  {
    Distinct(StockedOrigins(routes, inventory, destination, sku))
  }

  /** Every suggested origin is among the valid origins for the same SKU and destination. */
  lemma SuggestionIsValidOrigin(inventory: seq<StockRow>, routes: seq<Route>, sku: string, destination: string)
    requires SuggestCheapestOrigin(inventory, routes, sku, destination).Some?
    ensures SuggestCheapestOrigin(inventory, routes, sku, destination).value.origin in ValidOrigins(routes, inventory, destination, sku)
  {
    var s := SuggestCheapestOrigin(inventory, routes, sku, destination).value;
    var row, route :| row in inventory && route in routes && Supplies(row, route, sku, destination) && s == Suggestion(row.location, route.cost);
    assert Stocks(inventory, sku, s.origin);
  }
}
