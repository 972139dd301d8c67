/** The shop's tables held in one object, with the cart controller's handlers
    (getCart, addToCart, updateCartItem, removeFromCart) and the order controller's
    (checkout, getOrderHistory, getOrderDetails) as its methods and functions. Each
    handler is one sequential request; the caller's user id comes from the verified
    token. */
module Store {
  import opened Wrappers
  import opened Seqs
  import opened Shop
  import opened CartSpec
  import opened CheckoutSpec

  const MsgAddRequestInvalid := "Item ID and valid quantity are required"
  const MsgQuantityRequired := "Valid quantity is required"
  const MsgItemNotFound := "Item not found"
  const MsgInsufficientStock := "Insufficient stock available"
  const MsgCartUpdated := "Cart updated successfully"
  const MsgItemAdded := "Item added to cart successfully"
  const MsgCartItemNotFound := "Cart item not found"
  const MsgCartItemUpdated := "Cart item updated successfully"
  const MsgItemRemoved := "Item removed from cart successfully"

  /** The HTTP status and the `message` of a cart handler's answer. */
  datatype Reply = Reply(status: nat, message: string)

  /** The three answers of `checkout`: 400 "Cart is empty", 400 with the shortfall
      list, or 201 with the new order. */
  datatype CheckoutOutcome =
    | EmptyCart
    | InsufficientStock(unavailable: seq<Shortfall>)
    | Placed(order: Order)

  /** An `order_items` row joined with the current name of its item. */
  datatype DetailLine = DetailLine(itemId: ItemId, quantity: nat, price: Cents, name: string)

  /** The answer of `getOrderDetails`: the order and its lines. */
  datatype OrderDetail = OrderDetail(order: Order, lines: seq<DetailLine>)

  /** `!itemId || !quantity || quantity < 1` fails: both present, a non-zero item id and
      a quantity of at least one. */
  predicate IsValidAddRequest(itemId: Option<int>, quantity: Option<int>)
  {
    itemId.Some? && itemId.value != 0 && quantity.Some? && quantity.value >= 1
  }

  /** `!quantity || quantity < 1` fails. */
  predicate IsValidQuantity(quantity: Option<int>)
  {
    quantity.Some? && quantity.value >= 1
  }

  /** The first loop of `checkout`: splits the rows into unavailable ones, reported as
      shortfalls, and available ones, whose `price * quantity` it adds up. */
  method CheckAvailability(rows: seq<CartRow>) returns (total: Cents, unavailable: seq<Shortfall>, available: seq<CartRow>)
    ensures unavailable == Shortfalls(rows)
    ensures available == Filter(IsAvailable, rows)
    ensures total == Total(available)
  {
    total, unavailable, available := 0, [], [];
    var i := 0;
    while i < |rows|
      invariant 0 <= i <= |rows|
      invariant unavailable == Shortfalls(rows[..i])
      invariant available == Filter(IsAvailable, rows[..i])
      invariant total == Total(available)
    {
      var row := rows[i];
      AvailabilityStep(rows, i);
      if !IsAvailable(row) {
        unavailable := unavailable + [ShortfallOf(row)];
      } else {
        total := total + row.price * row.quantity;
        available := available + [row];
      }
      i := i + 1;
    }
    assert rows[..i] == rows;
  }

  /** What one more row adds to the shortfalls, the available rows and their total. */
  lemma {:induction false} AvailabilityStep(rows: seq<CartRow>, i: nat)
    requires i < |rows|
    ensures var prefix, row := rows[..i], rows[i];
            && Shortfalls(rows[..i + 1]) == Shortfalls(prefix) + (if IsAvailable(row) then [] else [ShortfallOf(row)])
            && Filter(IsAvailable, rows[..i + 1]) == Filter(IsAvailable, prefix) + (if IsAvailable(row) then [row] else [])
            && Total(Filter(IsAvailable, prefix) + [row]) == Total(Filter(IsAvailable, prefix)) + row.price * row.quantity
  {
    var prefix, row := rows[..i], rows[i];
    assert rows[..i + 1] == prefix + [row];
    assert (prefix + [row])[..|prefix|] == prefix;
    FilterAppend(IsAvailable, prefix, row);
    var a := Filter(IsAvailable, prefix);
    assert (a + [row])[..|a|] == a;
  }

  /** The order of `orders` with this id and owner, if any
      (`SELECT ... FROM orders o WHERE o.id = ? AND o.user_id = ?`). */
  function FindOrder(orders: seq<Order>, orderId: int, user: UserId): (r: Option<Order>)
    ensures r.Some? ==> r.value in orders && r.value.id == orderId && r.value.user == user
    ensures r.None? ==> forall o <- orders :: !(o.id == orderId && o.user == user)
  {
    if orders == [] then None
    else if orders[0].id == orderId && orders[0].user == user then Some(orders[0])
    else FindOrder(orders[1..], orderId, user)
  }

  /** `SELECT oi.item_id, oi.quantity, oi.price, i.name FROM order_items oi JOIN items i
      ON oi.item_id = i.id WHERE oi.order_id = ?`, in table order. */
  function DetailLines(orderItems: seq<OrderItem>, items: map<ItemId, Item>, orderId: nat): (r: seq<DetailLine>)
    ensures forall line <- r :: OrderItem(orderId, line.itemId, line.quantity, line.price) in orderItems
    ensures forall line <- r :: line.itemId in items && line.name == items[line.itemId].name
  {
    if orderItems == [] then []
    else
      var oi := orderItems[0];
      var rest := DetailLines(orderItems[1..], items, orderId);
      if oi.orderId == orderId && oi.itemId in items then
        [DetailLine(oi.itemId, oi.quantity, oi.price, items[oi.itemId].name)] + rest
      else rest
  }

  /** The joined lines are exactly the order lines the join keeps, in table order, each
      with the item's current name; so every kept line shows up. */
  lemma {:induction false} DetailLinesAreShownLines(orderItems: seq<OrderItem>, items: map<ItemId, Item>, orderId: nat)
    ensures var r, shown := DetailLines(orderItems, items, orderId), ShownLines(orderItems, items, orderId);
            && |r| == |shown|
            && forall k :: 0 <= k < |r| ==> shown[k].itemId in items && r[k] == DetailOf(shown[k], items)
    ensures forall oi <- orderItems :: IsShownIn(oi, items, orderId) ==>
              DetailOf(oi, items) in DetailLines(orderItems, items, orderId)
  {
    DetailLinesFollowShownLines(orderItems, items, orderId);
    var r, shown := DetailLines(orderItems, items, orderId), ShownLines(orderItems, items, orderId);
    forall oi <- orderItems | IsShownIn(oi, items, orderId) ensures DetailOf(oi, items) in r {
      FilterMembership((oi: OrderItem) => IsShownIn(oi, items, orderId), orderItems, oi);
      var k :| 0 <= k < |shown| && shown[k] == oi;
      assert r[k] == DetailOf(oi, items);
    }
  }

  lemma {:induction false} DetailLinesFollowShownLines(orderItems: seq<OrderItem>, items: map<ItemId, Item>, orderId: nat)
    ensures var r, shown := DetailLines(orderItems, items, orderId), ShownLines(orderItems, items, orderId);
            && |r| == |shown|
            && forall k :: 0 <= k < |r| ==> shown[k].itemId in items && r[k] == DetailOf(shown[k], items)
  {
    if orderItems != [] {
      var oi := orderItems[0];
      DetailLinesFollowShownLines(orderItems[1..], items, orderId);
      var r, rest := DetailLines(orderItems, items, orderId), DetailLines(orderItems[1..], items, orderId);
      var shownRest := ShownLines(orderItems[1..], items, orderId);
      if IsShownIn(oi, items, orderId) {
        assert r == [DetailOf(oi, items)] + rest;
        assert ShownLines(orderItems, items, orderId) == [oi] + shownRest;
      } else {
        assert r == rest;
        assert ShownLines(orderItems, items, orderId) == shownRest;
      }
    }
  }

  /** The join keeps an order line when it belongs to the order and its item exists. */
  predicate IsShownIn(oi: OrderItem, items: map<ItemId, Item>, orderId: nat)
  {
    oi.orderId == orderId && oi.itemId in items
  }

  /** The order lines the join keeps, in table order. */
  function ShownLines(orderItems: seq<OrderItem>, items: map<ItemId, Item>, orderId: nat): seq<OrderItem>
  {
    Filter((oi: OrderItem) => IsShownIn(oi, items, orderId), orderItems)
  }

  /** One joined row: the order line with the item's current name. */
  function DetailOf(oi: OrderItem, items: map<ItemId, Item>): DetailLine
    requires oi.itemId in items
  {
    DetailLine(oi.itemId, oi.quantity, oi.price, items[oi.itemId].name)
  }

  lemma {:induction false} NoDetailLines(orderItems: seq<OrderItem>, items: map<ItemId, Item>, orderId: nat)
    requires forall oi <- orderItems :: oi.orderId != orderId
    ensures DetailLines(orderItems, items, orderId) == []
  {
    if orderItems != [] {
      NoDetailLines(orderItems[1..], items, orderId);
    }
  }

  /** The lines of an order whose items all exist are its order lines, in order, each
      with the item's current name. */
  lemma {:induction false} DetailLinesOfPlacedOrder(rows: seq<CartRow>, items: map<ItemId, Item>, orderId: nat)
    requires forall k :: 0 <= k < |rows| ==> rows[k].itemId in items
    ensures var lines := DetailLines(OrderLinesOf(orderId, rows), items, orderId);
            && |lines| == |rows|
            && forall k :: 0 <= k < |rows| ==>
                 lines[k] == DetailLine(rows[k].itemId, rows[k].quantity, rows[k].price, items[rows[k].itemId].name)
  {
    if rows != [] {
      var init := rows[..|rows| - 1];
      var last := rows[|rows| - 1];
      DetailLinesOfPlacedOrder(init, items, orderId);
      var one := [OrderItem(orderId, last.itemId, last.quantity, last.price)];
      assert OrderLinesOf(orderId, rows) == OrderLinesOf(orderId, init) + one;
      DetailLinesAppend(OrderLinesOf(orderId, init), one, items, orderId);
      var before := DetailLines(OrderLinesOf(orderId, init), items, orderId);
      assert DetailLines(one, items, orderId) == [DetailLine(last.itemId, last.quantity, last.price, items[last.itemId].name)] by {
        assert one[1..] == [];
      }
      var lines := DetailLines(OrderLinesOf(orderId, rows), items, orderId);
      forall k | 0 <= k < |rows|
        ensures lines[k] == DetailLine(rows[k].itemId, rows[k].quantity, rows[k].price, items[rows[k].itemId].name)
      {
        if k < |init| {
          assert lines[k] == before[k] && init[k] == rows[k];
        }
      }
    }
  }

  /** Lines of other orders, such as those a later checkout adds, do not change an
      order's details. */
  lemma {:induction false} DetailLinesIgnoreOtherOrders(a: seq<OrderItem>, b: seq<OrderItem>,
                                                       items: map<ItemId, Item>, orderId: nat)
    requires forall oi <- b :: oi.orderId != orderId
    ensures DetailLines(a + b, items, orderId) == DetailLines(a, items, orderId)
  {
    DetailLinesAppend(a, b, items, orderId);
    NoDetailLines(b, items, orderId);
    assert DetailLines(a, items, orderId) + [] == DetailLines(a, items, orderId);
  }

  lemma {:induction false} DetailLinesAppend(a: seq<OrderItem>, b: seq<OrderItem>, items: map<ItemId, Item>, orderId: nat)
    ensures DetailLines(a + b, items, orderId) == DetailLines(a, items, orderId) + DetailLines(b, items, orderId)
  {
    if a == [] {
      assert a + b == b;
    } else {
      assert (a + b)[1..] == a[1..] + b;
      DetailLinesAppend(a[1..], b, items, orderId);
    }
  }

  /** Stock is never negative; a user has at most one line per item and every line
      holds at least one unit; order ids count up from 1 in insertion order (the
      auto-increment key); every order line belongs to an existing order. */
  predicate ValidTables(items: map<ItemId, Item>, cart: seq<CartLine>, orders: seq<Order>, orderItems: seq<OrderItem>)
  {
    && (forall id :: id in items ==> items[id].stock >= 0)
    && UniqueLines(cart)
    && (forall line <- cart :: line.quantity >= 1)
    && (forall k :: 0 <= k < |orders| ==> orders[k].id == k + 1)
    && (forall oi <- orderItems :: 1 <= oi.orderId <= |orders|)
  }

  /** A checkout that goes through keeps the tables valid: the stock it takes is
      there, clearing the cart keeps the other lines unique, the new order takes the
      next id and its lines point at it. */
  lemma {:induction false} CheckoutKeepsTablesValid(items: map<ItemId, Item>, cart: seq<CartLine>, orders: seq<Order>,
                                                    orderItems: seq<OrderItem>, user: UserId, order: Order)
    requires ValidTables(items, cart, orders, orderItems)
    requires Shortfalls(JoinedCart(cart, items, user)) == []
    requires order.id == |orders| + 1
    ensures var rows := JoinedCart(cart, items, user);
            ValidTables(ApplyDecrements(items, rows), ClearCart(cart, user), orders + [order],
                        orderItems + OrderLinesOf(order.id, rows))
  {
    var rows := JoinedCart(cart, items, user);
    ShortfallsEmptyIffAllAvailable(rows);
    JoinedCartDistinct(cart, items, user);
    StockStaysNonNegative(items, rows);
    ClearCartEffect(cart, user);
  }

  class Store {
    var items: map<ItemId, Item>
    var cart: seq<CartLine>
    var orders: seq<Order>
    var orderItems: seq<OrderItem>

    /** The tables satisfy `ValidTables`. */
    predicate Valid()
      reads this
    {
      ValidTables(items, cart, orders, orderItems)
    }

    /** A shop with the given catalog, no carts and no orders. */
    constructor(catalog: map<ItemId, Item>)
      requires forall id :: id in catalog ==> catalog[id].stock >= 0
      ensures Valid()
      ensures items == catalog && cart == [] && orders == [] && orderItems == []
    {
      items, cart, orders, orderItems := catalog, [], [], [];
    }

    /** `getCart`: the user's lines joined with their items, newest first. */
    function GetCart(user: UserId): (r: seq<CartRow>)
      reads this
      ensures r == Reverse(JoinedCart(cart, items, user))
      ensures forall row <- r :: CartLine(user, row.itemId, row.quantity) in cart && IsCurrent(row, items)
      ensures forall line <- cart :: line.user == user && line.item in items ==>
                exists row <- r :: row.itemId == line.item && row.quantity == line.quantity
    {
      var joined := JoinedCart(cart, items, user);
      JoinedCartMatchesLines(cart, items, user);
      var r := Reverse(joined);
      assert forall row :: row in r <==> row in joined by {
        forall row ensures row in r <==> row in joined {
          if row in joined {
            var k :| 0 <= k < |joined| && joined[k] == row;
            assert r[|joined| - 1 - k] == row;
          }
        }
      }
      r
    }

    /** `addToCart`. An invalid request, an unknown item and a quantity the stock cannot
        cover are refused with the cart unchanged; otherwise the quantity is added to the
        user's line for the item, or a new line is appended, as long as the stock covers
        the resulting quantity. Only the cart changes. */
    method AddToCart(user: UserId, itemId: Option<int>, quantity: Option<int>) returns (r: Reply)
      requires Valid()
      modifies this
      ensures Valid()
      ensures items == old(items) && orders == old(orders) && orderItems == old(orderItems)
      ensures !IsValidAddRequest(itemId, quantity) ==> r == Reply(400, MsgAddRequestInvalid)
      ensures IsValidAddRequest(itemId, quantity) && itemId.value !in items ==> r == Reply(404, MsgItemNotFound)
      ensures IsValidAddRequest(itemId, quantity) && itemId.value in items ==>
                var id, q := itemId.value, quantity.value;
                var had := QuantityIn(old(cart), user, id);
                && (items[id].stock < had + q ==> r == Reply(400, MsgInsufficientStock))
                && (had + q <= items[id].stock && had > 0 ==> r == Reply(200, MsgCartUpdated))
                && (had + q <= items[id].stock && had == 0 ==> r == Reply(200, MsgItemAdded))
                && (r.status == 200 && had == 0 ==> cart == old(cart) + [CartLine(user, id, q)])
                && (r.status == 200 && had > 0 ==> cart == SetQuantity(old(cart), user, id, had + q))
                && (r.status == 200 ==>
                      && QuantityIn(cart, user, id) == had + q
                      && forall u, i :: !(u == user && i == id) ==> QuantityIn(cart, u, i) == QuantityIn(old(cart), u, i))
      ensures r.status != 200 ==> cart == old(cart)
      ensures r.status == 200 ==> 1 <= QuantityIn(cart, user, itemId.value) <= items[itemId.value].stock
    {
      if itemId.None? || itemId.value == 0 || quantity.None? || quantity.value < 1 {
        return Reply(400, MsgAddRequestInvalid);
      }
      var id, q := itemId.value, quantity.value;
      if id !in items {
        return Reply(404, MsgItemNotFound);
      }
      var item := items[id];
      if item.stock < q {
        return Reply(400, MsgInsufficientStock);
      }
      match LineIndex(cart, user, id)
      case Some(k) =>
        var newQuantity := cart[k].quantity + q;
        if item.stock < newQuantity {
          return Reply(400, MsgInsufficientStock);
        }
        SetQuantityEffect(cart, user, id, newQuantity);
        cart := cart[k := CartLine(user, id, newQuantity)];
        r := Reply(200, MsgCartUpdated);
      case None =>
        AppendLineEffect(cart, user, id, q);
        cart := cart + [CartLine(user, id, q)];
        r := Reply(200, MsgItemAdded);
    }

    /** `updateCartItem`. An invalid quantity, an unknown item, a quantity over the stock
        and a missing line are refused with the cart unchanged; otherwise the quantity of
        the user's line for the item is overwritten. Only the cart changes. */
    method UpdateCartItem(user: UserId, itemId: ItemId, quantity: Option<int>) returns (r: Reply)
      requires Valid()
      modifies this
      ensures Valid()
      ensures items == old(items) && orders == old(orders) && orderItems == old(orderItems)
      ensures !IsValidQuantity(quantity) ==> r == Reply(400, MsgQuantityRequired)
      ensures IsValidQuantity(quantity) && itemId !in items ==> r == Reply(404, MsgItemNotFound)
      ensures IsValidQuantity(quantity) && itemId in items && items[itemId].stock < quantity.value ==>
                r == Reply(400, MsgInsufficientStock)
      ensures IsValidQuantity(quantity) && itemId in items && quantity.value <= items[itemId].stock ==>
                if QuantityIn(old(cart), user, itemId) == 0 then r == Reply(404, MsgCartItemNotFound)
                else r == Reply(200, MsgCartItemUpdated)
      ensures r.status != 200 ==> cart == old(cart)
      ensures r.status == 200 ==>
                && cart == SetQuantity(old(cart), user, itemId, quantity.value)
                && QuantityIn(cart, user, itemId) == quantity.value
                && 1 <= quantity.value <= items[itemId].stock
                && forall u, i :: !(u == user && i == itemId) ==> QuantityIn(cart, u, i) == QuantityIn(old(cart), u, i)
    {
      if quantity.None? || quantity.value < 1 {
        return Reply(400, MsgQuantityRequired);
      }
      var q := quantity.value;
      if itemId !in items {
        return Reply(404, MsgItemNotFound);
      }
      if items[itemId].stock < q {
        return Reply(400, MsgInsufficientStock);
      }
      var affected := LineIndex(cart, user, itemId).Some?;
      SetQuantityEffect(cart, user, itemId, q);
      if !affected {
        return Reply(404, MsgCartItemNotFound);
      }
      cart := SetQuantity(cart, user, itemId, q);
      r := Reply(200, MsgCartItemUpdated);
    }

    /** `removeFromCart`. Deletes the user's line for the item and leaves every other
        line; 404 with the cart unchanged when there is no such line. */
    method RemoveFromCart(user: UserId, itemId: ItemId) returns (r: Reply)
      requires Valid()
      modifies this
      ensures Valid()
      ensures items == old(items) && orders == old(orders) && orderItems == old(orderItems)
      ensures QuantityIn(old(cart), user, itemId) == 0 ==> r == Reply(404, MsgCartItemNotFound) && cart == old(cart)
      ensures QuantityIn(old(cart), user, itemId) > 0 ==>
                && r == Reply(200, MsgItemRemoved)
                && cart == RemoveLines(old(cart), user, itemId)
                && |cart| == |old(cart)| - 1
                && (forall l :: l in cart <==> l in old(cart) && !IsLineOf(l, user, itemId))
    {
      RemoveLinesEffect(cart, user, itemId);
      if LineIndex(cart, user, itemId).None? {
        return Reply(404, MsgCartItemNotFound);
      }
      cart := RemoveLines(cart, user, itemId);
      r := Reply(200, MsgItemRemoved);
    }

    /** `checkout`, all or nothing. An empty cart and a cart with an unavailable line
        change nothing; the second reports exactly the unavailable lines. Otherwise one
        `Pending` order is appended with the total of the cart, one order line per cart
        line, every cart item's stock goes down by its quantity, and the user's cart is
        emptied. The tracking id is given by the caller. */
    method Checkout(user: UserId, trackingId: string) returns (outcome: CheckoutOutcome)
      requires Valid()
      modifies this
      ensures Valid()
      ensures var rows := JoinedCart(old(cart), old(items), user);
              var placed := Order(|old(orders)| + 1, user, Total(rows), Pending, trackingId);
              && (rows == [] ==> outcome == EmptyCart)
              && (rows != [] && Shortfalls(rows) != [] ==> outcome == InsufficientStock(Shortfalls(rows)))
              && (rows != [] && Shortfalls(rows) == [] ==> outcome == Placed(placed))
              && (outcome.Placed? ==>
                    && items == ApplyDecrements(old(items), rows)
                    && cart == ClearCart(old(cart), user)
                    && orders == old(orders) + [placed]
                    && orderItems == old(orderItems) + OrderLinesOf(placed.id, rows))
      ensures !outcome.Placed? ==>
                items == old(items) && cart == old(cart) && orders == old(orders) && orderItems == old(orderItems)
    {
      var rows := JoinedCart(cart, items, user);
      if |rows| == 0 {
        return EmptyCart;
      }
      var total, unavailable, available := CheckAvailability(rows);
      if |unavailable| > 0 {
        return InsufficientStock(unavailable);
      }
      NoShortfallKeepsEveryRow(rows);
      var order := PlaceOrder(user, trackingId, rows, total);
      return Placed(order);
    }

    /** The writes of `checkout`'s transaction once every row is available: a `Pending`
        order with the next id and the given total, its order lines and stock
        decrements, and the user's cart emptied. */
    /** One turn of the loop of `RecordOrderLines`: one more row means one more
        decrement and one more order line. */
    static lemma {:induction false} RecordStep(items0: map<ItemId, Item>, orderId: nat, rows: seq<CartRow>, j: nat)
      requires j < |rows|
      ensures ApplyDecrements(items0, rows[..j + 1]) == Decrement(ApplyDecrements(items0, rows[..j]), rows[j])
      ensures OrderLinesOf(orderId, rows[..j + 1]) ==
                OrderLinesOf(orderId, rows[..j]) + [OrderItem(orderId, rows[j].itemId, rows[j].quantity, rows[j].price)]
    {
      assert rows[..j + 1][..j] == rows[..j];
    }

    method PlaceOrder(user: UserId, trackingId: string, rows: seq<CartRow>, total: Cents) returns (order: Order)
      requires Valid()
      requires rows == JoinedCart(cart, items, user) && Shortfalls(rows) == []
      modifies this
      ensures Valid()
      ensures order == Order(|old(orders)| + 1, user, total, Pending, trackingId)
      ensures items == ApplyDecrements(old(items), rows)
      ensures cart == ClearCart(old(cart), user)
      ensures orders == old(orders) + [order]
      ensures orderItems == old(orderItems) + OrderLinesOf(order.id, rows)
    {
      order := Order(|orders| + 1, user, total, Pending, trackingId);
      orders := orders + [order];
      RecordOrderLines(order.id, rows);
      cart := ClearCart(cart, user);
      CheckoutKeepsTablesValid(old(items), old(cart), old(orders), old(orderItems), user, order);
    }

    /** The second loop of `checkout`: for each row, in order, an `order_items` row with
        the price read at checkout, and the item's stock decremented by the quantity. */
    method RecordOrderLines(orderId: nat, rows: seq<CartRow>)
      requires forall k :: 0 <= k < |rows| ==> rows[k].itemId in items
      modifies this
      ensures items == ApplyDecrements(old(items), rows)
      ensures orderItems == old(orderItems) + OrderLinesOf(orderId, rows)
      ensures cart == old(cart) && orders == old(orders)
    {
      var j := 0;
      while j < |rows|
        invariant 0 <= j <= |rows|
        invariant items == ApplyDecrements(old(items), rows[..j])
        invariant orderItems == old(orderItems) + OrderLinesOf(orderId, rows[..j])
        invariant cart == old(cart) && orders == old(orders)
      {
        var row := rows[j];
        RecordStep(old(items), orderId, rows, j);
        assert row.itemId in items;
        orderItems := orderItems + [OrderItem(orderId, row.itemId, row.quantity, row.price)];
        items := items[row.itemId := items[row.itemId].(stock := items[row.itemId].stock - row.quantity)];
        j := j + 1;
      }
      assert rows[..j] == rows;
    }

    /** `getOrderHistory`: the caller's orders and no one else's, newest first. */
    function OrderHistory(user: UserId): (r: seq<Order>)
      reads this
      ensures forall o :: o in r <==> o in orders && o.user == user
      ensures Valid() ==> forall i, j :: 0 <= i < j < |r| ==> r[i].id > r[j].id
    {
      var mine := (o: Order) => o.user == user;
      var byId := (o: Order) => o.id as int;
      var kept := Filter(mine, orders);
      assert forall o :: o in kept <==> o in orders && o.user == user by {
        forall o ensures o in kept <==> o in orders && o.user == user {
          FilterMembership(mine, orders, o);
        }
      }
      assert Valid() ==> IncreasingBy(byId, kept) by {
        if Valid() {
          FilterKeepsIncreasing(mine, byId, orders);
        }
      }
      var r := Reverse(kept);
      assert forall o :: o in r <==> o in kept by {
        forall o ensures o in r <==> o in kept {
          if o in kept {
            var k :| 0 <= k < |kept| && kept[k] == o;
            assert r[|kept| - 1 - k] == o;
          }
        }
      }
      r
    }

    /** `getOrderDetails`: "not found" unless the order exists and belongs to the caller;
        otherwise the order with its lines joined to the current item names. */
    function OrderDetails(user: UserId, orderId: int): (r: Option<OrderDetail>)
      reads this
      ensures r.Some? <==> exists o <- orders :: o.id == orderId && o.user == user
      ensures r.Some? ==> r.value.order in orders && r.value.order.id == orderId && r.value.order.user == user
      ensures r.Some? ==> forall line <- r.value.lines ::
                OrderItem(r.value.order.id, line.itemId, line.quantity, line.price) in orderItems
      ensures r.Some? ==> forall oi <- orderItems :: IsShownIn(oi, items, r.value.order.id) ==>
                DetailOf(oi, items) in r.value.lines
      ensures r.Some? ==>
                var shown := ShownLines(orderItems, items, r.value.order.id);
                && |r.value.lines| == |shown|
                && forall k :: 0 <= k < |shown| ==>
                     shown[k].itemId in items && r.value.lines[k] == DetailOf(shown[k], items)
    {
      match FindOrder(orders, orderId, user)
      case None => None
      case Some(order) =>
        DetailLinesAreShownLines(orderItems, items, order.id);
        Some(OrderDetail(order, DetailLines(orderItems, items, order.id)))
    }
  }

  /** A placed order is in its buyer's order history. */
  lemma {:induction false} PlacedOrderInHistory(s: Store, order: Order)
    requires order in s.orders
    ensures order in s.OrderHistory(order.user)
  {
    assert order in s.orders && order.user == order.user;
  }

  /** No user other than the buyer can see an order's details. */
  lemma {:induction false} OrderHiddenFromOthers(s: Store, order: Order, other: UserId)
    requires s.Valid()
    requires order in s.orders
    requires other != order.user
    ensures s.OrderDetails(other, order.id).None?
  {
    OrderIdIsUnique(s.orders, order);
  }

  /** After a successful checkout the buyer sees the new order with one line per cart
      row, carrying its item, the quantity, the price paid and the item's name. */
  lemma {:induction false} PlacedOrderDetails(s: Store, order: Order, before: seq<OrderItem>, rows: seq<CartRow>)
    requires s.Valid()
    requires order in s.orders
    requires s.orderItems == before + OrderLinesOf(order.id, rows)
    requires forall oi <- before :: oi.orderId != order.id
    requires forall k :: 0 <= k < |rows| ==> rows[k].itemId in s.items
    ensures s.OrderDetails(order.user, order.id).Some?
    ensures var d := s.OrderDetails(order.user, order.id).value;
            && d.order == order
            && |d.lines| == |rows|
            && forall k :: 0 <= k < |rows| ==>
                 d.lines[k] == DetailLine(rows[k].itemId, rows[k].quantity, rows[k].price, s.items[rows[k].itemId].name)
  {
    OrderIdIsUnique(s.orders, order);
    var lines := DetailLines(s.orderItems, s.items, order.id);
    DetailLinesAppend(before, OrderLinesOf(order.id, rows), s.items, order.id);
    NoDetailLines(before, s.items, order.id);
    DetailLinesOfPlacedOrder(rows, s.items, order.id);
    assert lines == DetailLines(OrderLinesOf(order.id, rows), s.items, order.id);
  }

  /** Order ids are positions plus one, so no two orders share an id. */
  lemma {:induction false} OrderIdIsUnique(orders: seq<Order>, order: Order)
    requires forall k :: 0 <= k < |orders| ==> orders[k].id == k + 1
    requires order in orders
    ensures forall o <- orders :: o.id == order.id ==> o == order
  {
    forall o <- orders | o.id == order.id ensures o == order {
      var k :| 0 <= k < |orders| && orders[k] == o;
      var m :| 0 <= m < |orders| && orders[m] == order;
    }
  }
}
