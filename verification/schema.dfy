/** The four tables `create_tables` declares, as immutable values. */
module Schema {
  import opened Binding

  /** A row of `products` without its id: name, description and price. */
  datatype Product = Product(name: string, description: string, price: real)

  /** A row of `orders` without its id. */
  datatype Order = Order(client: string, date: string, status: string, total: real)

  /** A row of `order_items`; the row's own `item_id` is its position in `items`. */
  datatype OrderItem = OrderItem(orderId: int, productId: int, quantity: int)

  /** The database file. `productSeq` and `orderSeq` are the `sqlite_sequence`
      entries of the two AUTOINCREMENT tables: the largest id ever handed out,
      which a delete does not lower. Foreign keys are declared but not enforced
      (the connection never turns them on), so nothing ties `items` to `products`. */
  datatype Db = Db(
    users: map<string, string>,
    products: map<int, Product>,
    productSeq: nat,
    orders: map<int, Order>,
    orderSeq: nat,
    items: seq<OrderItem>)

  /** A freshly created database file. */
  const Empty: Db := Db(map[], map[], 0, map[], 0, [])

  /** Every key is an id AUTOINCREMENT could have handed out: 1 up to the sequence. */
  ghost predicate IdsWithin<V>(m: map<int, V>, bound: nat) {
    forall id :: id in m ==> 1 <= id <= bound
  }

  /** Every item row belongs to an order row. */
  ghost predicate ItemsOwned(db: Db) {
    forall i :: 0 <= i < |db.items| ==> db.items[i].orderId in db.orders
  }

  /** What the operations keep true of every reachable database. An
      AUTOINCREMENT sequence never passes the largest INTEGER: the insert that
      would need a larger id fails instead. */
  ghost predicate Wf(db: Db) {
    && db.productSeq <= MaxInteger
    && db.orderSeq <= MaxInteger
    && IdsWithin(db.products, db.productSeq)
    && IdsWithin(db.orders, db.orderSeq)
    && ItemsOwned(db)
  }

  /** Only `users` may differ between the two states. */
  ghost predicate OnlyUsersDiffer(a: Db, b: Db) {
    a.products == b.products && a.productSeq == b.productSeq
    && a.orders == b.orders && a.orderSeq == b.orderSeq && a.items == b.items
  }

  /** Only `products` and its sequence may differ between the two states. */
  ghost predicate OnlyProductsDiffer(a: Db, b: Db) {
    a.users == b.users && a.orders == b.orders && a.orderSeq == b.orderSeq && a.items == b.items
  }

  /** Only `orders`, its sequence and `order_items` may differ between the two states. */
  ghost predicate OnlyOrdersDiffer(a: Db, b: Db) {
    a.users == b.users && a.products == b.products && a.productSeq == b.productSeq
  }
}
