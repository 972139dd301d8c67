/** The rows of the shop's tables (items, cart_items, orders, order_items) and the
    records the cart and order controllers build from them. Prices are whole cents:
    the price columns are fixed-point decimals with two places. */
module Shop {
  type UserId = nat
  /** Item ids arrive from request bodies and URL parameters, so any integer can be asked for. */
  type ItemId = int
  type Cents = nat

  /** A row of `items`. The stock is an integer column; that it never goes below zero
      is an invariant of the store, not a fact of its type. */
  datatype Item = Item(name: string, price: Cents, stock: int)

  /** A row of `cart_items`. */
  datatype CartLine = CartLine(user: UserId, item: ItemId, quantity: nat)

  /** A cart line joined with the current name, price and stock of its item. */
  datatype CartRow = CartRow(itemId: ItemId, quantity: nat, name: string, price: Cents, stock: int)

  /** An entry of the `unavailableItems` list a refused checkout reports. */
  datatype Shortfall = Shortfall(itemId: ItemId, name: string, requested: nat, available: int)

  datatype Status = Pending | Delivered

  /** A row of `orders`. */
  datatype Order = Order(id: nat, user: UserId, total: Cents, status: Status, trackingId: string)

  /** A row of `order_items`: the quantity and the unit price at the time of purchase. */
  datatype OrderItem = OrderItem(orderId: nat, itemId: ItemId, quantity: nat, price: Cents)
}
