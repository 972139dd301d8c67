/** What a checkout computes from the user's cart joined with the items table: the
    shortfall list, the total, the order lines, and the stock after the purchase.
    Every definition folds the rows from first to last, the way the controller's loops
    walk them. */
module CheckoutSpec {
  import opened Seqs
  import opened Shop
  import opened CartSpec

  /** `SELECT ci.item_id, ci.quantity, i.name, i.price, i.stock FROM cart_items ci JOIN
      items i ON ci.item_id = i.id WHERE ci.user_id = ?`, in table order. */
  function JoinedCart(cart: seq<CartLine>, items: map<ItemId, Item>, user: UserId): (rows: seq<CartRow>)
    ensures |rows| <= |cart|
    ensures forall k :: 0 <= k < |rows| ==> IsCurrent(rows[k], items)
  {
    if cart == [] then []
    else
      var line := cart[0];
      var rest := JoinedCart(cart[1..], items, user);
      if line.user == user && line.item in items then
        var item := items[line.item];
        [CartRow(line.item, line.quantity, item.name, item.price, item.stock)] + rest
      else rest
  }

  /** The row carries the current name, price and stock of its item. */
  predicate IsCurrent(row: CartRow, items: map<ItemId, Item>)
  {
    && row.itemId in items
    && row.name == items[row.itemId].name
    && row.price == items[row.itemId].price
    && row.stock == items[row.itemId].stock
  }

  /** No item appears in two rows. */
  predicate DistinctItems(rows: seq<CartRow>)
  {
    forall i, j :: 0 <= i < j < |rows| ==> rows[i].itemId != rows[j].itemId
  }

  /** A line is available when the stock covers the quantity (`!(stock < quantity)`). */
  predicate IsAvailable(row: CartRow)
  {
    row.quantity <= row.stock
  }

  function ShortfallOf(row: CartRow): Shortfall
  {
    Shortfall(row.itemId, row.name, row.quantity, row.stock)
  }

  /** `unavailableItems`: one entry per unavailable row, in row order. */
  function Shortfalls(rows: seq<CartRow>): (r: seq<Shortfall>)
    ensures |r| <= |rows|
  {
    if rows == [] then []
    else
      var last := rows[|rows| - 1];
      Shortfalls(rows[..|rows| - 1]) + if IsAvailable(last) then [] else [ShortfallOf(last)]
  }

  /** `Σ price × quantity` over the rows. */
  function Total(rows: seq<CartRow>): Cents
  {
    if rows == [] then 0
    else
      var last := rows[|rows| - 1];
      Total(rows[..|rows| - 1]) + last.price * last.quantity
  }

  /** The `order_items` rows of order `orderId`: one per cart row, with its item,
      quantity and the price read at checkout, in row order. */
  function OrderLinesOf(orderId: nat, rows: seq<CartRow>): (lines: seq<OrderItem>)
    ensures |lines| == |rows|
    ensures forall k :: 0 <= k < |rows| ==>
              lines[k] == OrderItem(orderId, rows[k].itemId, rows[k].quantity, rows[k].price)
  {
    if rows == [] then []
    else
      var last := rows[|rows| - 1];
      OrderLinesOf(orderId, rows[..|rows| - 1]) + [OrderItem(orderId, last.itemId, last.quantity, last.price)]
  }

  /** The total is no less than the amount of any one row, and it is 0 for no rows. */
  lemma {:induction false} TotalCoversEachRow(rows: seq<CartRow>)
    ensures forall k :: 0 <= k < |rows| ==> rows[k].price * rows[k].quantity <= Total(rows)
    ensures rows == [] ==> Total(rows) == 0
  {
    if rows != [] {
      var init := rows[..|rows| - 1];
      TotalCoversEachRow(init);
      assert forall k :: 0 <= k < |init| ==> init[k] == rows[k];
    }
  }

  /** `Σ price × quantity` over order lines. */
  function LinesTotal(lines: seq<OrderItem>): Cents
  {
    if lines == [] then 0
    else
      var last := lines[|lines| - 1];
      LinesTotal(lines[..|lines| - 1]) + last.price * last.quantity
  }

  /** `UPDATE items SET stock = stock - ? WHERE id = ?` for one row. */
  function Decrement(items: map<ItemId, Item>, row: CartRow): map<ItemId, Item>
  {
    if row.itemId in items then
      items[row.itemId := items[row.itemId].(stock := items[row.itemId].stock - row.quantity)]
    else items
  }

  /** The items table after one decrement per row, first row first. */
  function ApplyDecrements(items: map<ItemId, Item>, rows: seq<CartRow>): (r: map<ItemId, Item>)
    ensures r.Keys == items.Keys
  {
    if rows == [] then items
    else Decrement(ApplyDecrements(items, rows[..|rows| - 1]), rows[|rows| - 1])
  }

  /** Decrementing stock changes neither the set of items nor any name or price. */
  lemma {:induction false} ApplyDecrementsKeepsNamesAndPrices(items: map<ItemId, Item>, rows: seq<CartRow>)
    ensures var r := ApplyDecrements(items, rows);
            && r.Keys == items.Keys
            && forall id <- items.Keys :: r[id].name == items[id].name && r[id].price == items[id].price
  {
    if rows != [] {
      ApplyDecrementsKeepsNamesAndPrices(items, rows[..|rows| - 1]);
    }
  }

  predicate InRows(rows: seq<CartRow>, id: ItemId)
  {
    exists k :: 0 <= k < |rows| && rows[k].itemId == id
  }

  /** The join holds one row per line of the user whose item exists, with that line's
      item and quantity: every row comes from such a line, and every such line gives a
      row. */
  lemma {:induction false} JoinedCartMatchesLines(cart: seq<CartLine>, items: map<ItemId, Item>, user: UserId)
    ensures var rows := JoinedCart(cart, items, user);
            && (forall row <- rows :: CartLine(user, row.itemId, row.quantity) in cart)
            && (forall line <- cart :: line.user == user && line.item in items ==>
                  exists row <- rows :: row.itemId == line.item && row.quantity == line.quantity)
  {
    if cart != [] {
      JoinedCartMatchesLines(cart[1..], items, user);
      var rows := JoinedCart(cart, items, user);
      var rest := JoinedCart(cart[1..], items, user);
      forall line <- cart | line.user == user && line.item in items
        ensures exists row <- rows :: row.itemId == line.item && row.quantity == line.quantity
      {
        if line != cart[0] {
          assert line in cart[1..];
          var row :| row in rest && row.itemId == line.item && row.quantity == line.quantity;
          assert row in rows;
        } else {
          assert rows[0].itemId == line.item && rows[0].quantity == line.quantity;
        }
      }
    }
  }

  /** The join is empty exactly when the user has no line for an existing item. */
  lemma {:induction false} JoinedCartEmptyIff(cart: seq<CartLine>, items: map<ItemId, Item>, user: UserId)
    ensures JoinedCart(cart, items, user) == [] <==>
              forall line <- cart :: !(line.user == user && line.item in items)
  {
    JoinedCartMatchesLines(cart, items, user);
    var rows := JoinedCart(cart, items, user);
    if rows != [] {
      assert rows[0] in rows && IsCurrent(rows[0], items);
      assert CartLine(user, rows[0].itemId, rows[0].quantity) in cart;
    }
  }

  /** With unique (user, item) lines the join names every item at most once. */
  lemma {:induction false} JoinedCartDistinct(cart: seq<CartLine>, items: map<ItemId, Item>, user: UserId)
    requires UniqueLines(cart)
    ensures DistinctItems(JoinedCart(cart, items, user))
  {
    if cart != [] {
      var tail := cart[1..];
      assert UniqueLines(tail) by {
        forall i, j | 0 <= i < j < |tail| ensures !IsLineOf(tail[j], tail[i].user, tail[i].item) {
          assert tail[i] == cart[i + 1] && tail[j] == cart[j + 1];
        }
      }
      JoinedCartDistinct(tail, items, user);
      var rest := JoinedCart(tail, items, user);
      var line := cart[0];
      if line.user == user && line.item in items {
        JoinedCartMatchesLines(tail, items, user);
        forall j | 0 <= j < |rest| ensures rest[j].itemId != line.item {
          assert rest[j] in rest;
          var l := CartLine(user, rest[j].itemId, rest[j].quantity);
          var m :| 0 <= m < |tail| && tail[m] == l;
          assert cart[m + 1] == l;
        }
      }
    }
  }

  /** A row is reported short exactly when it is unavailable, and with its own item,
      name, requested quantity and stock. */
  lemma {:induction false} ShortfallsAreTheUnavailableRows(rows: seq<CartRow>)
    ensures forall s :: s in Shortfalls(rows) <==>
              exists k :: 0 <= k < |rows| && !IsAvailable(rows[k]) && s == ShortfallOf(rows[k])
  {
    if rows != [] {
      var init := rows[..|rows| - 1];
      ShortfallsAreTheUnavailableRows(init);
      forall s ensures s in Shortfalls(rows) <==>
                 exists k :: 0 <= k < |rows| && !IsAvailable(rows[k]) && s == ShortfallOf(rows[k])
      {
        if s in Shortfalls(init) {
          var k :| 0 <= k < |init| && !IsAvailable(init[k]) && s == ShortfallOf(init[k]);
          assert rows[k] == init[k];
        }
        if exists k :: 0 <= k < |rows| && !IsAvailable(rows[k]) && s == ShortfallOf(rows[k]) {
          var k :| 0 <= k < |rows| && !IsAvailable(rows[k]) && s == ShortfallOf(rows[k]);
          if k < |init| {
            assert init[k] == rows[k];
          }
        }
      }
    }
  }

  /** The rows a checkout cannot serve, in row order. */
  function Unavailable(rows: seq<CartRow>): seq<CartRow>
  {
    Filter((row: CartRow) => !IsAvailable(row), rows)
  }

  /** The unavailable list holds one entry per unavailable row, in row order, and
      nothing else: duplicates are kept and nothing is reordered. */
  lemma {:induction false} ShortfallsFollowRows(rows: seq<CartRow>)
    ensures |Shortfalls(rows)| == |Unavailable(rows)|
    ensures forall k :: 0 <= k < |Shortfalls(rows)| ==> Shortfalls(rows)[k] == ShortfallOf(Unavailable(rows)[k])
  {
    if rows != [] {
      var init, last := rows[..|rows| - 1], rows[|rows| - 1];
      ShortfallsFollowRows(init);
      assert rows == init + [last];
      FilterAppend((row: CartRow) => !IsAvailable(row), init, last);
    }
  }

  /** Nothing is reported short exactly when every row is available. */
  lemma {:induction false} ShortfallsEmptyIffAllAvailable(rows: seq<CartRow>)
    ensures Shortfalls(rows) == [] <==> forall k :: 0 <= k < |rows| ==> IsAvailable(rows[k])
  {
    if rows != [] {
      var init := rows[..|rows| - 1];
      ShortfallsEmptyIffAllAvailable(init);
      assert forall k :: 0 <= k < |init| ==> init[k] == rows[k];
    }
  }

  /** With nothing short, the available rows are all the rows. */
  lemma {:induction false} NoShortfallKeepsEveryRow(rows: seq<CartRow>)
    requires Shortfalls(rows) == []
    ensures Filter(IsAvailable, rows) == rows
  {
    ShortfallsEmptyIffAllAvailable(rows);
    forall row <- rows ensures IsAvailable(row) {
      var k :| 0 <= k < |rows| && rows[k] == row;
    }
    FilterAllPass(IsAvailable, rows);
  }

  /** The total stored on the order is the sum of its order lines. */
  lemma {:induction false} TotalMatchesOrderLines(orderId: nat, rows: seq<CartRow>)
    ensures LinesTotal(OrderLinesOf(orderId, rows)) == Total(rows)
  {
    if rows != [] {
      var init := rows[..|rows| - 1];
      TotalMatchesOrderLines(orderId, init);
      var lines := OrderLinesOf(orderId, rows);
      assert lines[..|lines| - 1] == OrderLinesOf(orderId, init);
    }
  }

  /** With distinct items, each row's item loses exactly the row's quantity, its name and
      price stay, and every item no row names keeps its row unchanged. */
  lemma {:induction false} DecrementsEachCartItem(items: map<ItemId, Item>, rows: seq<CartRow>)
    requires DistinctItems(rows)
    requires forall k :: 0 <= k < |rows| ==> rows[k].itemId in items
    ensures var r := ApplyDecrements(items, rows);
            && (forall k :: 0 <= k < |rows| ==>
                  r[rows[k].itemId] == items[rows[k].itemId].(stock := items[rows[k].itemId].stock - rows[k].quantity))
            && (forall id :: id in items && !InRows(rows, id) ==> r[id] == items[id])
  {
    if rows != [] {
      var init := rows[..|rows| - 1];
      var last := rows[|rows| - 1];
      assert forall k :: 0 <= k < |init| ==> init[k] == rows[k];
      DecrementsEachCartItem(items, init);
      var before := ApplyDecrements(items, init);
      assert !InRows(init, last.itemId);
      forall id | id in items && !InRows(rows, id) ensures ApplyDecrements(items, rows)[id] == items[id] {
        assert last.itemId != id;
      }
    }
  }

  /** Stock never goes negative: if every stock was non-negative, the rows name distinct
      items, carry their current stock and are all available, then every stock after
      the decrements is non-negative. */
  lemma {:induction false} StockStaysNonNegative(items: map<ItemId, Item>, rows: seq<CartRow>)
    requires forall id :: id in items ==> items[id].stock >= 0
    requires DistinctItems(rows)
    requires forall k :: 0 <= k < |rows| ==> IsCurrent(rows[k], items) && IsAvailable(rows[k])
    ensures forall id :: id in ApplyDecrements(items, rows) ==> ApplyDecrements(items, rows)[id].stock >= 0
  {
    DecrementsEachCartItem(items, rows);
    var r := ApplyDecrements(items, rows);
    forall id | id in r ensures r[id].stock >= 0 {
      if InRows(rows, id) {
        var k :| 0 <= k < |rows| && rows[k].itemId == id;
      }
    }
  }

  /** The scenario of a cart holding 3 of an item with stock 5: nothing is short, the
      total is three times the price, and 2 remain. */
  lemma {:induction false} TeaScenario()
    ensures var items := map[1 := Item("Tea", 250, 5)];
            var rows := JoinedCart([CartLine(7, 1, 3)], items, 7);
            && Shortfalls(rows) == []
            && Total(rows) == 3 * 250
            && ApplyDecrements(items, rows)[1].stock == 2
  {
    var items := map[1 := Item("Tea", 250, 5)];
    var rows := JoinedCart([CartLine(7, 1, 3)], items, 7);
    assert rows == [CartRow(1, 3, "Tea", 250, 5)];
  }
}
