/**
 * The Inventory table as the stock ledger: the `SELECT ... fetchone()`,
 * `UPDATE` and `INSERT` statements `move_product` and the inventory
 * functions run, and what they do to the quantity held per
 * (sku, location) and per SKU.
 *
 * Inventory has no uniqueness constraint on (sku, location): a read with
 * `fetchone()` sees the first matching row while an `UPDATE` changes every
 * matching row. `QuantityAt` sums all matching rows; when the key has one
 * row that is the row's quantity. The connection's cursor is unbuffered, so
 * a `fetchone()` that leaves matching rows unread makes the cursor's next
 * statement raise (`UnreadResult`).
 */
module Ledger {
  import opened Wrappers
  import opened Schema

  predicate Keyed(row: StockRow, sku: string, location: string) {
    row.sku == sku && row.location == location
  }

  /** No two rows share a (sku, location) pair. */
  predicate UniqueKeys(rows: seq<StockRow>) {
    forall i, j | 0 <= i < j < |rows| :: rows[i].sku != rows[j].sku || rows[i].location != rows[j].location
  }

  /** Every quantity is at least zero. */
  predicate NonNegative(rows: seq<StockRow>) {
    forall i | 0 <= i < |rows| :: rows[i].quantity >= 0
  }

  /** The position of the first row for (sku, location), or `|rows|` if there is none. */
  function FirstIndex(rows: seq<StockRow>, sku: string, location: string): (k: nat)
    ensures k <= |rows|
    ensures forall j | 0 <= j < k :: !Keyed(rows[j], sku, location)
    ensures k < |rows| ==> Keyed(rows[k], sku, location)
  {
    if rows == [] || Keyed(rows[0], sku, location) then 0
    else 1 + FirstIndex(rows[1..], sku, location)
  }

  /** `SELECT quantity FROM Inventory WHERE sku = .. AND location = ..` followed by `fetchone()`. */
  function FirstQuantity(rows: seq<StockRow>, sku: string, location: string): (q: Option<int>)
    ensures q.None? <==> forall j | 0 <= j < |rows| :: !Keyed(rows[j], sku, location)
  {
    var k := FirstIndex(rows, sku, location);
    if k < |rows| then Some(rows[k].quantity) else None
  }

  /** The number of rows for (sku, location). */
  function RowCount(rows: seq<StockRow>, sku: string, location: string): nat {
    if rows == [] then 0
    else RowCount(rows[..|rows| - 1], sku, location) + (if Keyed(rows[|rows| - 1], sku, location) then 1 else 0)
  }

  /**
   * The quantity of `sku` held at `location`, summed over its rows; 0 when
   * the key has no row.
   */
  function QuantityAt(rows: seq<StockRow>, sku: string, location: string): (q: int)
    ensures RowCount(rows, sku, location) == 0 ==> q == 0
  {
    if rows == [] then 0
    else QuantityAt(rows[..|rows| - 1], sku, location) + (if Keyed(rows[|rows| - 1], sku, location) then rows[|rows| - 1].quantity else 0)
  }

  /** The number of rows for `sku`, at any location. */
  function SkuRowCount(rows: seq<StockRow>, sku: string): nat {
    if rows == [] then 0
    else SkuRowCount(rows[..|rows| - 1], sku) + (if rows[|rows| - 1].sku == sku then 1 else 0)
  }

  /**
   * `SELECT SUM(quantity) FROM Inventory WHERE sku = ..`, with the source's
   * `or 0` for the NULL an empty sum gives: the stock of `sku` across all
   * locations (`get_inventory_for_forecast`); 0 when the SKU has no row.
   */
  function TotalQuantity(rows: seq<StockRow>, sku: string): (t: int)
    ensures SkuRowCount(rows, sku) == 0 ==> t == 0
  {
    if rows == [] then 0
    else TotalQuantity(rows[..|rows| - 1], sku) + (if rows[|rows| - 1].sku == sku then rows[|rows| - 1].quantity else 0)
  }

  /** `UPDATE Inventory SET quantity = quantity + delta WHERE sku = .. AND location = ..`. */
  function Adjusted(rows: seq<StockRow>, sku: string, location: string, delta: int): (r: seq<StockRow>)
    ensures |r| == |rows|
    ensures forall j | 0 <= j < |rows| ::
      r[j] == if Keyed(rows[j], sku, location) then rows[j].(quantity := rows[j].quantity + delta) else rows[j]
  {
    if rows == [] then []
    else
      var last := rows[|rows| - 1];
      Adjusted(rows[..|rows| - 1], sku, location, delta)
        + [if Keyed(last, sku, location) then last.(quantity := last.quantity + delta) else last]
  }

  /** `UPDATE Inventory SET quantity = amount WHERE sku = .. AND location = ..` (`update_inventory`). */
  function Assigned(rows: seq<StockRow>, sku: string, location: string, amount: int): (r: seq<StockRow>)
    ensures |r| == |rows|
    ensures forall j | 0 <= j < |rows| ::
      r[j] == if Keyed(rows[j], sku, location) then rows[j].(quantity := amount) else rows[j]
  {
    if rows == [] then []
    else
      var last := rows[|rows| - 1];
      Assigned(rows[..|rows| - 1], sku, location, amount)
        + [if Keyed(last, sku, location) then last.(quantity := amount) else last]
  }

  /** `DELETE FROM Inventory WHERE sku = ..` (`delete_inventory_for_sku`, and the first half of `delete_product`). */
  function WithoutSku(rows: seq<StockRow>, sku: string): (r: seq<StockRow>)
    ensures forall row :: row in r <==> row in rows && row.sku != sku
  {
    if rows == [] then []
    else (if rows[0].sku == sku then [] else [rows[0]]) + WithoutSku(rows[1..], sku)
  }

  /**
   * The destination step of `move_product`: when a row for (sku, location)
   * exists, add `amount` to it (to every such row); otherwise insert a new
   * row holding `amount`. Either way the key has a row afterwards, at most
   * one row is added, and the rows of other keys stay where they were.
   */
  function Credited(rows: seq<StockRow>, sku: string, location: string, amount: int): (r: seq<StockRow>)
    ensures |rows| <= |r| <= |rows| + 1
    ensures forall j | 0 <= j < |rows| && !Keyed(rows[j], sku, location) :: r[j] == rows[j]
    ensures FirstQuantity(r, sku, location).Some?
  {
    if FirstIndex(rows, sku, location) < |rows| then Adjusted(rows, sku, location, amount)
    else
      var r := rows + [StockRow(sku, location, amount)];
      assert Keyed(r[|rows|], sku, location);
      r
  }

  /**
   * The writes of `move_product` once the origin's first row holds enough
   * and is the origin key's only row: the debit `UPDATE` of the origin, then
   * the destination `SELECT` and `fetchone()`. When that matched two or more
   * rows, the next statement raises `UnreadResult`; otherwise the
   * destination is credited, or created. The debit changes no key's row
   * count, so the destination's rows can be counted in the table as it was.
   */
  function DebitCredit(rows: seq<StockRow>, sku: string, origin: string, destination: string, quantity: int)
    : (r: Result<seq<StockRow>, Error>)
    ensures r.Success? <==> RowCount(rows, sku, destination) <= 1
    ensures r.Failure? ==> r.error == UnreadResult
    ensures r.Success? ==> |rows| <= |r.value| <= |rows| + 1
    ensures r.Success? ==> forall j | 0 <= j < |rows| && !Keyed(rows[j], sku, origin) && !Keyed(rows[j], sku, destination) ::
      r.value[j] == rows[j]
  {
    var debited := Adjusted(rows, sku, origin, -quantity);
    AdjustedRowCount(rows, sku, origin, -quantity, sku, destination);
    if RowCount(debited, sku, destination) > 1 then Failure(UnreadResult)
    else
      var after := Credited(debited, sku, destination, quantity);
      assert forall j | 0 <= j < |rows| && !Keyed(rows[j], sku, origin) && !Keyed(rows[j], sku, destination) ::
        after[j] == debited[j] == rows[j];
      Success(after)
  }

  /**
   * The inventory half of `move_product` for an already normalised SKU and
   * locations, statement by statement:
   *  - the origin `SELECT` and `fetchone()`: when its first row is missing or
   *    holds less than `quantity`, roll back and fail with `InsufficientStock`;
   *  - the debit `UPDATE`: when the origin `SELECT` matched further rows, they
   *    are still unread and the driver raises `UnreadResult`;
   *  - otherwise the debit and the credit of `DebitCredit`.
   * A failure commits nothing.
   */
  function Transfer(rows: seq<StockRow>, sku: string, origin: string, destination: string, quantity: int)
    : (r: Result<seq<StockRow>, Error>)
    ensures r == Failure(InsufficientStock) <==>
      FirstQuantity(rows, sku, origin).None? || FirstQuantity(rows, sku, origin).value < quantity
    ensures r.Failure? ==> r.error == InsufficientStock || r.error == UnreadResult
    ensures r.Success? ==> |rows| <= |r.value| <= |rows| + 1
    ensures r.Success? ==> forall j | 0 <= j < |rows| && !Keyed(rows[j], sku, origin) && !Keyed(rows[j], sku, destination) ::
      r.value[j] == rows[j]
  {
    var held := FirstQuantity(rows, sku, origin);
    if held.None? || held.value < quantity then Failure(InsufficientStock)
    else if RowCount(rows, sku, origin) > 1 then Failure(UnreadResult)
    else DebitCredit(rows, sku, origin, destination, quantity)
  }

  /**
   * A transfer succeeds exactly when the origin's first row holds enough and
   * neither the origin nor the destination key has a second row.
   */
  lemma TransferSucceedsIff(rows: seq<StockRow>, sku: string, origin: string, destination: string, quantity: int)
    ensures Transfer(rows, sku, origin, destination, quantity).Success? <==>
      && FirstQuantity(rows, sku, origin).Some? && FirstQuantity(rows, sku, origin).value >= quantity
      && RowCount(rows, sku, origin) == 1 && RowCount(rows, sku, destination) <= 1
  {
    if FirstQuantity(rows, sku, origin).Some? {
      PresentKey(rows, sku, origin, FirstIndex(rows, sku, origin));
    }
  }

  // ---------------------------------------------------------------------
  // Sums over the ledger
  // ---------------------------------------------------------------------

  /** A (sku, location) with no rows has a row count of 0. */
  lemma {:induction false} AbsentKey(rows: seq<StockRow>, sku: string, location: string)
    requires forall j | 0 <= j < |rows| :: !Keyed(rows[j], sku, location)
    ensures RowCount(rows, sku, location) == 0
  {
    if rows != [] {
      AbsentKey(rows[..|rows| - 1], sku, location);
    }
  }

  /** A (sku, location) with a row at `k` has a row count of at least 1. */
  lemma {:induction false} PresentKey(rows: seq<StockRow>, sku: string, location: string, k: nat)
    requires k < |rows| && Keyed(rows[k], sku, location)
    ensures RowCount(rows, sku, location) >= 1
  {
    if k < |rows| - 1 {
      PresentKey(rows[..|rows| - 1], sku, location, k);
    }
  }

  /** Under unique keys every (sku, location) has at most one row. */
  lemma {:induction false} UniqueRowCount(rows: seq<StockRow>, sku: string, location: string)
    requires UniqueKeys(rows)
    ensures RowCount(rows, sku, location) <= 1
  {
    if rows != [] {
      var n := |rows|;
      var prefix := rows[..n - 1];
      UniqueRowCount(prefix, sku, location);
      if Keyed(rows[n - 1], sku, location) {
        AbsentKey(prefix, sku, location);
      }
    }
  }

  /**
   * A (sku, location) with exactly one row, at `k`: no other row has the key,
   * and the key holds that row's quantity.
   */
  lemma {:induction false} SoleRow(rows: seq<StockRow>, sku: string, location: string, k: nat)
    requires RowCount(rows, sku, location) == 1
    requires k < |rows| && Keyed(rows[k], sku, location)
    ensures forall j | 0 <= j < |rows| && Keyed(rows[j], sku, location) :: j == k
    ensures QuantityAt(rows, sku, location) == rows[k].quantity
  {
    var n := |rows|;
    var prefix := rows[..n - 1];
    if k == n - 1 {
      forall j | 0 <= j < n - 1 ensures !Keyed(rows[j], sku, location) {
        if Keyed(rows[j], sku, location) {
          PresentKey(prefix, sku, location, j);
        }
      }
    } else {
      PresentKey(prefix, sku, location, k);
      SoleRow(prefix, sku, location, k);
    }
  }

  /** When a key has at most one row, `fetchone()` reads the whole quantity held at it. */
  lemma FirstQuantityIsQuantityAt(rows: seq<StockRow>, sku: string, location: string)
    requires RowCount(rows, sku, location) <= 1
    ensures FirstQuantity(rows, sku, location) ==
      if RowCount(rows, sku, location) == 0 then None else Some(QuantityAt(rows, sku, location))
  {
    var k := FirstIndex(rows, sku, location);
    if k < |rows| {
      PresentKey(rows, sku, location, k);
      SoleRow(rows, sku, location, k);
    } else {
      AbsentKey(rows, sku, location);
    }
  }

  /** A SKU that appears in no row has a total of 0 (the `or 0` branch). */
  lemma {:induction false} TotalOfAbsentSku(rows: seq<StockRow>, sku: string)
    requires forall j | 0 <= j < |rows| :: rows[j].sku != sku
    ensures TotalQuantity(rows, sku) == 0
  {
    if rows != [] {
      TotalOfAbsentSku(rows[..|rows| - 1], sku);
    }
  }

  /** A ledger without negative quantities has a non-negative total for every SKU. */
  lemma {:induction false} TotalOfNonNegative(rows: seq<StockRow>, sku: string)
    requires NonNegative(rows)
    ensures TotalQuantity(rows, sku) >= 0
  {
    if rows != [] {
      TotalOfNonNegative(rows[..|rows| - 1], sku);
    }
  }

  /** `TotalQuantity` unfolds from the front as well as from the back. */
  lemma {:induction false} TotalFront(rows: seq<StockRow>, sku: string)
    requires rows != []
    ensures TotalQuantity(rows, sku) == (if rows[0].sku == sku then rows[0].quantity else 0) + TotalQuantity(rows[1..], sku)
  {
    var n := |rows|;
    if n > 1 {
      TotalFront(rows[..n - 1], sku);
      assert rows[..n - 1][1..] == rows[1..][..n - 2];
    }
  }

  /**
   * Deleting a SKU's rows leaves it a total of 0 and every other SKU's
   * total as it was.
   */
  lemma {:induction false} WithoutSkuTotals(rows: seq<StockRow>, sku: string, s: string)
    ensures TotalQuantity(WithoutSku(rows, sku), s) == if s == sku then 0 else TotalQuantity(rows, s)
  {
    if rows != [] {
      var rest := WithoutSku(rows[1..], sku);
      WithoutSkuTotals(rows[1..], sku, s);
      TotalFront(rows, s);
      if rows[0].sku != sku {
        TotalFront([rows[0]] + rest, s);
        assert ([rows[0]] + rest)[1..] == rest;
      } else {
        assert WithoutSku(rows, sku) == rest;
      }
    }
  }

  /** Appending a row adds its quantity to the sums it belongs to. */
  lemma AppendRow(rows: seq<StockRow>, row: StockRow, sku: string, location: string)
    ensures RowCount(rows + [row], sku, location) == RowCount(rows, sku, location) + (if Keyed(row, sku, location) then 1 else 0)
    ensures QuantityAt(rows + [row], sku, location) == QuantityAt(rows, sku, location) + (if Keyed(row, sku, location) then row.quantity else 0)
    ensures TotalQuantity(rows + [row], sku) == TotalQuantity(rows, sku) + (if row.sku == sku then row.quantity else 0)
  {
    assert (rows + [row])[..|rows|] == rows;
  }

  /** An `UPDATE` of quantities leaves every row's key, hence every row count, as it was. */
  lemma {:induction false} AdjustedRowCount(rows: seq<StockRow>, sku: string, location: string, delta: int, s: string, l: string)
    ensures RowCount(Adjusted(rows, sku, location, delta), s, l) == RowCount(rows, s, l)
  {
    if rows != [] {
      var n := |rows|;
      var prefix := rows[..n - 1];
      AdjustedRowCount(prefix, sku, location, delta, s, l);
      assert Adjusted(rows, sku, location, delta)[..n - 1] == Adjusted(prefix, sku, location, delta);
    }
  }

  /** An `UPDATE` of one key's quantities leaves every other key's quantity as it was. */
  lemma {:induction false} AdjustedOtherKey(rows: seq<StockRow>, sku: string, location: string, delta: int, s: string, l: string)
    requires s != sku || l != location
    ensures QuantityAt(Adjusted(rows, sku, location, delta), s, l) == QuantityAt(rows, s, l)
  {
    if rows != [] {
      var n := |rows|;
      var prefix := rows[..n - 1];
      assert Adjusted(rows, sku, location, delta)[..n - 1] == Adjusted(prefix, sku, location, delta);
      AdjustedOtherKey(prefix, sku, location, delta, s, l);
    }
  }

  /**
   * `delta` once for every row of (sku, location), summed row by row; it is
   * `delta` times the key's row count (`ShiftIsProduct`).
   */
  function Shift(rows: seq<StockRow>, sku: string, location: string, delta: int): int {
    if rows == [] then 0
    else Shift(rows[..|rows| - 1], sku, location, delta) + (if Keyed(rows[|rows| - 1], sku, location) then delta else 0)
  }

  lemma {:induction false} ShiftIsProduct(rows: seq<StockRow>, sku: string, location: string, delta: int)
    ensures Shift(rows, sku, location, delta) == delta * RowCount(rows, sku, location)
  {
    if rows != [] {
      var prefix := rows[..|rows| - 1];
      ShiftIsProduct(prefix, sku, location, delta);
      if Keyed(rows[|rows| - 1], sku, location) {
        MulSucc(delta, RowCount(prefix, sku, location));
      }
    }
  }

  lemma MulSucc(d: int, c: int)
    ensures d * (c + 1) == d * c + d
  {
  }

  /**
   * An `UPDATE ... quantity = quantity + delta` moves the quantity of its
   * own key by `delta` once per matching row.
   */
  lemma {:induction false} AdjustedSameKey(rows: seq<StockRow>, sku: string, location: string, delta: int)
    ensures QuantityAt(Adjusted(rows, sku, location, delta), sku, location)
         == QuantityAt(rows, sku, location) + Shift(rows, sku, location, delta)
  {
    if rows != [] {
      var prefix := rows[..|rows| - 1];
      AdjustedSameKey(prefix, sku, location, delta);
      AdjustedLastRow(rows, sku, location, delta, sku);
    }
  }

  /** Both cases together. */
  lemma AdjustedQuantity(rows: seq<StockRow>, sku: string, location: string, delta: int, s: string, l: string)
    ensures QuantityAt(Adjusted(rows, sku, location, delta), s, l)
         == QuantityAt(rows, s, l) + (if s == sku && l == location then delta * RowCount(rows, sku, location) else 0)
  {
    if s == sku && l == location {
      AdjustedSameKey(rows, sku, location, delta);
      ShiftIsProduct(rows, sku, location, delta);
    } else {
      AdjustedOtherKey(rows, sku, location, delta, s, l);
    }
  }

  /** The same `UPDATE` moves the SKU's total by `delta` once per matching row. */
  lemma {:induction false} AdjustedTotal(rows: seq<StockRow>, sku: string, location: string, delta: int, s: string)
    ensures TotalQuantity(Adjusted(rows, sku, location, delta), s)
         == TotalQuantity(rows, s) + (if s == sku then Shift(rows, sku, location, delta) else 0)
  {
    if rows != [] {
      var prefix := rows[..|rows| - 1];
      AdjustedTotal(prefix, sku, location, delta, s);
      AdjustedLastRow(rows, sku, location, delta, s);
    }
  }

  /** The `UPDATE` of a non-empty table is the `UPDATE` of all but its last row, then that row. */
  lemma AdjustedLastRow(rows: seq<StockRow>, sku: string, location: string, delta: int, s: string)
    requires rows != []
    ensures var prefix, last := rows[..|rows| - 1], rows[|rows| - 1];
      && QuantityAt(Adjusted(rows, sku, location, delta), sku, location)
         == QuantityAt(Adjusted(prefix, sku, location, delta), sku, location) + (if Keyed(last, sku, location) then last.quantity + delta else 0)
      && TotalQuantity(Adjusted(rows, sku, location, delta), s)
         == TotalQuantity(Adjusted(prefix, sku, location, delta), s)
            + (if last.sku == s then last.quantity + (if Keyed(last, sku, location) then delta else 0) else 0)
  {
    var prefix, last := rows[..|rows| - 1], rows[|rows| - 1];
    var moved := if Keyed(last, sku, location) then last.(quantity := last.quantity + delta) else last;
    assert Adjusted(rows, sku, location, delta) == Adjusted(prefix, sku, location, delta) + [moved];
    AppendRow(Adjusted(prefix, sku, location, delta), moved, sku, location);
    AppendRow(Adjusted(prefix, sku, location, delta), moved, s, location);
  }

  /** An `UPDATE` of quantities changes no row's key, so unique keys stay unique. */
  lemma AdjustedKeepsUniqueKeys(rows: seq<StockRow>, sku: string, location: string, delta: int)
    requires UniqueKeys(rows)
    ensures UniqueKeys(Adjusted(rows, sku, location, delta))
  {
    var r := Adjusted(rows, sku, location, delta);
    forall i, j | 0 <= i < j < |r| ensures r[i].sku != r[j].sku || r[i].location != r[j].location {
      assert r[i].sku == rows[i].sku && r[i].location == rows[i].location;
      assert r[j].sku == rows[j].sku && r[j].location == rows[j].location;
    }
  }

  /** When a key has exactly one row, the `UPDATE` moves that key's quantity and its SKU's total by `delta`. */
  lemma AdjustedSoleRow(rows: seq<StockRow>, sku: string, location: string, delta: int)
    requires RowCount(rows, sku, location) == 1
    ensures forall s, l ::
      QuantityAt(Adjusted(rows, sku, location, delta), s, l) == QuantityAt(rows, s, l) + (if s == sku && l == location then delta else 0)
    ensures forall s ::
      TotalQuantity(Adjusted(rows, sku, location, delta), s) == TotalQuantity(rows, s) + (if s == sku then delta else 0)
  {
    assert Shift(rows, sku, location, delta) == delta by {
      ShiftIsProduct(rows, sku, location, delta);
      MulSucc(delta, 0);
    }
    forall s, l ensures QuantityAt(Adjusted(rows, sku, location, delta), s, l)
         == QuantityAt(rows, s, l) + (if s == sku && l == location then delta else 0) {
      AdjustedQuantity(rows, sku, location, delta, s, l);
    }
    forall s ensures TotalQuantity(Adjusted(rows, sku, location, delta), s)
         == TotalQuantity(rows, s) + (if s == sku then delta else 0) {
      AdjustedTotal(rows, sku, location, delta, s);
    }
  }

  /**
   * `update_inventory` overwrites an existing key's quantity and creates
   * nothing: under unique keys the key then holds `amount` if it had a row
   * and still nothing if it had none; other keys and uniqueness are kept.
   */
  lemma AssignedEffect(rows: seq<StockRow>, sku: string, location: string, amount: int)
    requires UniqueKeys(rows)
    ensures UniqueKeys(Assigned(rows, sku, location, amount))
    ensures QuantityAt(Assigned(rows, sku, location, amount), sku, location)
         == if RowCount(rows, sku, location) == 0 then 0 else amount
    ensures forall s, l | s != sku || l != location ::
      QuantityAt(Assigned(rows, sku, location, amount), s, l) == QuantityAt(rows, s, l)
  {
    var k := FirstIndex(rows, sku, location);
    var updated := Assigned(rows, sku, location, amount);
    if k < |rows| {
      var delta := amount - rows[k].quantity;
      assert RowCount(rows, sku, location) == 1 by {
        UniqueRowCount(rows, sku, location);
        PresentKey(rows, sku, location, k);
      }
      assert updated == Adjusted(rows, sku, location, delta) by {
        AssignedIsAdjusted(rows, sku, location, amount, k);
      }
      assert UniqueKeys(updated) by {
        AdjustedKeepsUniqueKeys(rows, sku, location, delta);
      }
      assert QuantityAt(updated, sku, location) == amount by {
        SoleRow(rows, sku, location, k);
        AdjustedSameKey(rows, sku, location, delta);
        ShiftIsProduct(rows, sku, location, delta);
        MulSucc(delta, 0);
      }
      forall s, l | s != sku || l != location ensures QuantityAt(updated, s, l) == QuantityAt(rows, s, l) {
        AdjustedOtherKey(rows, sku, location, delta, s, l);
      }
    } else {
      assert updated == rows;
      AbsentKey(rows, sku, location);
    }
  }

  /** With a single row for the key, setting its quantity is adding the difference to it. */
  lemma AssignedIsAdjusted(rows: seq<StockRow>, sku: string, location: string, amount: int, k: nat)
    requires RowCount(rows, sku, location) == 1
    requires k < |rows| && Keyed(rows[k], sku, location)
    ensures Assigned(rows, sku, location, amount) == Adjusted(rows, sku, location, amount - rows[k].quantity)
  {
    var delta := amount - rows[k].quantity;
    SoleRow(rows, sku, location, k);
    forall j | 0 <= j < |rows|
      ensures Assigned(rows, sku, location, amount)[j] == Adjusted(rows, sku, location, delta)[j]
    {
      if Keyed(rows[j], sku, location) {
        assert j == k;
      }
    }
  }

  /**
   * Crediting a key that has at most one row adds `amount` to that key and to
   * its SKU's total, changes no other key, and keeps unique keys unique.
   */
  lemma CreditedEffect(rows: seq<StockRow>, sku: string, location: string, amount: int)
    requires RowCount(rows, sku, location) <= 1
    ensures UniqueKeys(rows) ==> UniqueKeys(Credited(rows, sku, location, amount))
    ensures forall s, l ::
      QuantityAt(Credited(rows, sku, location, amount), s, l) == QuantityAt(rows, s, l) + (if s == sku && l == location then amount else 0)
    ensures forall s ::
      TotalQuantity(Credited(rows, sku, location, amount), s) == TotalQuantity(rows, s) + (if s == sku then amount else 0)
  {
    var k := FirstIndex(rows, sku, location);
    var row := StockRow(sku, location, amount);
    if k < |rows| {
      PresentKey(rows, sku, location, k);
      AdjustedSoleRow(rows, sku, location, amount);
      if UniqueKeys(rows) {
        AdjustedKeepsUniqueKeys(rows, sku, location, amount);
      }
    } else {
      var r := rows + [row];
      if UniqueKeys(rows) {
        forall i, j | 0 <= i < j < |r| ensures r[i].sku != r[j].sku || r[i].location != r[j].location {
          if j == |rows| {
            assert !Keyed(rows[i], sku, location);
          } else {
            assert r[i] == rows[i] && r[j] == rows[j];
          }
        }
      }
      forall s, l ensures QuantityAt(rows + [row], s, l) == QuantityAt(rows, s, l) + (if s == sku && l == location then amount else 0) {
        AppendRow(rows, row, s, l);
      }
      forall s ensures TotalQuantity(rows + [row], s) == TotalQuantity(rows, s) + (if s == sku then amount else 0) {
        AppendRow(rows, row, s, "");
      }
    }
  }

  // ---------------------------------------------------------------------
  // What a transfer promises
  // ---------------------------------------------------------------------

  /**
   * Under unique keys a transfer never meets unread rows: it is rejected
   * exactly when the origin has no row for the SKU or holds less than the
   * requested quantity, and then always with `InsufficientStock`.
   */
  lemma TransferRejectsIff(rows: seq<StockRow>, sku: string, origin: string, destination: string, quantity: int)
    requires UniqueKeys(rows)
    ensures Transfer(rows, sku, origin, destination, quantity).Failure?
        <==> RowCount(rows, sku, origin) == 0 || QuantityAt(rows, sku, origin) < quantity
    ensures Transfer(rows, sku, origin, destination, quantity).Failure? ==>
        Transfer(rows, sku, origin, destination, quantity).error == InsufficientStock
  {
    TransferSucceedsIff(rows, sku, origin, destination, quantity);
    UniqueRowCount(rows, sku, origin);
    UniqueRowCount(rows, sku, destination);
    FirstQuantityIsQuantityAt(rows, sku, origin);
  }

  /**
   * A successful transfer takes exactly `quantity` from (sku, origin), adds
   * exactly `quantity` to (sku, destination), and leaves every other
   * (sku, location) as it was.
   */
  lemma TransferMovesStock(rows: seq<StockRow>, sku: string, origin: string, destination: string, quantity: int)
    requires Transfer(rows, sku, origin, destination, quantity).Success?
    ensures var after := Transfer(rows, sku, origin, destination, quantity).value;
      forall s, l :: QuantityAt(after, s, l) == QuantityAt(rows, s, l)
        - (if s == sku && l == origin then quantity else 0)
        + (if s == sku && l == destination then quantity else 0)
  {
    var debited := Adjusted(rows, sku, origin, -quantity);
    var after := Credited(debited, sku, destination, quantity);
    assert RowCount(rows, sku, origin) == 1 && Transfer(rows, sku, origin, destination, quantity).value == after by {
      TransferSucceedsIff(rows, sku, origin, destination, quantity);
      assert Transfer(rows, sku, origin, destination, quantity) == DebitCredit(rows, sku, origin, destination, quantity);
      AdjustedRowCount(rows, sku, origin, -quantity, sku, destination);
    }
    assert forall s, l :: QuantityAt(debited, s, l) == QuantityAt(rows, s, l) + (if s == sku && l == origin then -quantity else 0) by {
      AdjustedSoleRow(rows, sku, origin, -quantity);
    }
    assert forall s, l :: QuantityAt(after, s, l) == QuantityAt(debited, s, l) + (if s == sku && l == destination then quantity else 0) by {
      TransferSucceedsIff(rows, sku, origin, destination, quantity);
      AdjustedRowCount(rows, sku, origin, -quantity, sku, destination);
      CreditedEffect(debited, sku, destination, quantity);
    }
  }

  /** A successful transfer keeps every SKU's total: stock is moved, never created or destroyed. */
  lemma TransferConservesTotals(rows: seq<StockRow>, sku: string, origin: string, destination: string, quantity: int)
    requires Transfer(rows, sku, origin, destination, quantity).Success?
    ensures forall s :: TotalQuantity(Transfer(rows, sku, origin, destination, quantity).value, s) == TotalQuantity(rows, s)
  {
    var debited := Adjusted(rows, sku, origin, -quantity);
    var after := Credited(debited, sku, destination, quantity);
    assert RowCount(rows, sku, origin) == 1 && Transfer(rows, sku, origin, destination, quantity).value == after by {
      TransferSucceedsIff(rows, sku, origin, destination, quantity);
      assert Transfer(rows, sku, origin, destination, quantity) == DebitCredit(rows, sku, origin, destination, quantity);
      AdjustedRowCount(rows, sku, origin, -quantity, sku, destination);
    }
    assert forall s :: TotalQuantity(debited, s) == TotalQuantity(rows, s) + (if s == sku then -quantity else 0) by {
      AdjustedSoleRow(rows, sku, origin, -quantity);
    }
    assert forall s :: TotalQuantity(after, s) == TotalQuantity(debited, s) + (if s == sku then quantity else 0) by {
      TransferSucceedsIff(rows, sku, origin, destination, quantity);
      AdjustedRowCount(rows, sku, origin, -quantity, sku, destination);
      CreditedEffect(debited, sku, destination, quantity);
    }
  }

  /** A successful transfer keeps keys unique. */
  lemma TransferKeepsUniqueKeys(rows: seq<StockRow>, sku: string, origin: string, destination: string, quantity: int)
    requires UniqueKeys(rows)
    requires Transfer(rows, sku, origin, destination, quantity).Success?
    ensures UniqueKeys(Transfer(rows, sku, origin, destination, quantity).value)
  {
    TransferSucceedsIff(rows, sku, origin, destination, quantity);
    AdjustedKeepsUniqueKeys(rows, sku, origin, -quantity);
    AdjustedRowCount(rows, sku, origin, -quantity, sku, destination);
    CreditedEffect(Adjusted(rows, sku, origin, -quantity), sku, destination, quantity);
  }

  /** A successful transfer of a non-negative quantity keeps a non-negative ledger non-negative. */
  lemma TransferKeepsNonNegative(rows: seq<StockRow>, sku: string, origin: string, destination: string, quantity: int)
    requires NonNegative(rows) && quantity >= 0
    requires Transfer(rows, sku, origin, destination, quantity).Success?
    ensures NonNegative(Transfer(rows, sku, origin, destination, quantity).value)
  {
    TransferSucceedsIff(rows, sku, origin, destination, quantity);
    var k := FirstIndex(rows, sku, origin);
    SoleRow(rows, sku, origin, k);
    var debited := Adjusted(rows, sku, origin, -quantity);
    assert forall j | 0 <= j < |rows| :: debited[j].quantity >= 0;
    var after := Credited(debited, sku, destination, quantity);
    if FirstIndex(debited, sku, destination) < |debited| {
      assert forall j | 0 <= j < |after| :: after[j].quantity >= debited[j].quantity;
    } else {
      assert after == debited + [StockRow(sku, destination, quantity)];
    }
  }

  /**
   * When the destination had no row for the SKU, a successful transfer
   * inserts one new row, at the end, holding exactly `quantity`.
   */
  lemma TransferCreatesDestination(rows: seq<StockRow>, sku: string, origin: string, destination: string, quantity: int)
    requires Transfer(rows, sku, origin, destination, quantity).Success?
    requires forall j | 0 <= j < |rows| :: !Keyed(rows[j], sku, destination)
    ensures var after := Transfer(rows, sku, origin, destination, quantity).value;
      |after| == |rows| + 1 && after[|rows|] == StockRow(sku, destination, quantity)
  {
    var debited := Adjusted(rows, sku, origin, -quantity);
    assert forall j | 0 <= j < |debited| :: !Keyed(debited[j], sku, destination);
  }

  /**
   * Two rows for the origin key, the first one sufficient: the debit
   * statement finds the second row unread and raises, so the ledger is
   * left as it was rather than debited twice.
   */
  lemma DuplicateOriginRowsRaise()
    ensures var rows := [StockRow("SKU001", "Warehouse A", 10), StockRow("SKU001", "Warehouse A", 0)];
      Transfer(rows, "SKU001", "Warehouse A", "Retail Hub 1", 5) == Failure(UnreadResult)
  {
    var rows := [StockRow("SKU001", "Warehouse A", 10), StockRow("SKU001", "Warehouse A", 0)];
    assert rows[..1] == [rows[0]];
    assert RowCount(rows, "SKU001", "Warehouse A") == 2;
  }

  /**
   * On the seed inventory, moving 5 of SKU001 from Warehouse A to Retail
   * Hub 1 leaves 15 at the warehouse and creates a row of 5 at the hub; a
   * second move of 9999 units is then rejected.
   */
  lemma SeedTransferScenario()
    ensures var after := [StockRow("SKU001", "Warehouse A", 15), StockRow("SKU002", "Warehouse B", 15),
                          StockRow("SKU003", "Warehouse A", 5), StockRow("SKU001", "Retail Hub 1", 5)];
      && Transfer(SeedInventory(), "SKU001", "Warehouse A", "Retail Hub 1", 5) == Success(after)
      && Transfer(after, "SKU001", "Warehouse A", "Retail Hub 1", 9999) == Failure(InsufficientStock)
  {
    var rows := SeedInventory();
    var after := [StockRow("SKU001", "Warehouse A", 15), StockRow("SKU002", "Warehouse B", 15),
                  StockRow("SKU003", "Warehouse A", 5), StockRow("SKU001", "Retail Hub 1", 5)];
    var debited := Adjusted(rows, "SKU001", "Warehouse A", -5);
    assert "SKU002" != "SKU001" && "SKU003" != "SKU001" && "Retail Hub 1" != "Warehouse A" by {
      assert "SKU002"[5] != "SKU001"[5] && "SKU003"[5] != "SKU001"[5] && "Retail Hub 1"[0] != "Warehouse A"[0];
    }
    assert Transfer(rows, "SKU001", "Warehouse A", "Retail Hub 1", 5) == DebitCredit(rows, "SKU001", "Warehouse A", "Retail Hub 1", 5) by {
      UniqueRowCount(rows, "SKU001", "Warehouse A");
      assert FirstQuantity(rows, "SKU001", "Warehouse A") == Some(20);
    }
    assert debited == [StockRow("SKU001", "Warehouse A", 15), rows[1], rows[2]];
    assert DebitCredit(rows, "SKU001", "Warehouse A", "Retail Hub 1", 5) == Success(Credited(debited, "SKU001", "Retail Hub 1", 5)) by {
      AbsentKey(debited, "SKU001", "Retail Hub 1");
      AdjustedRowCount(rows, "SKU001", "Warehouse A", -5, "SKU001", "Retail Hub 1");
    }
    assert Credited(debited, "SKU001", "Retail Hub 1", 5) == after by {
      assert FirstIndex(debited, "SKU001", "Retail Hub 1") == 3;
      assert debited + [StockRow("SKU001", "Retail Hub 1", 5)] == after;
    }
    assert FirstQuantity(after, "SKU001", "Warehouse A") == Some(15);
  }
}
