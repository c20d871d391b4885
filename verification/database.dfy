/** `DatabaseManager`: every method is a pure transition from a database
    state to its result and the next state. The connection, cursor and SQL
    text are not modelled; a method that only reads returns no state. */
module Database {
  import opened Wrappers
  import opened Schema
  import opened Binding
  import Keys

  /** The status every new order starts with. */
  const Pending: string := "Pendente"

  /** `create_tables`: each table is created only if it is absent, so an
      existing database comes through untouched and a missing one starts empty. */
  function CreateTables(store: Option<Db>): (db: Db)
    ensures store.None? ==> Wf(db) && db.users == map[] && db.products == map[]
                            && db.orders == map[] && db.items == []
    ensures store.Some? ==> db == store.value
  {
    match store
    case None => Empty
    case Some(existing) => existing
  }

  /** Creating the tables a second time changes nothing. */
  lemma CreateTablesIdempotent(store: Option<Db>)
    ensures CreateTables(Some(CreateTables(store))) == CreateTables(store)
  {
  }

  // --- users ---

  /** `check_user_exists`: the `(username, password)` row, if there is one. */
  function CheckUserExists(db: Db, username: string): (row: Option<(string, string)>)
    ensures row.Some? <==> username in db.users
    ensures row.Some? ==> row.value == (username, db.users[username])
  {
    if username in db.users then Some((username, db.users[username])) else None
  }

  /** `add_user`: the username is the primary key, so inserting a present
      one raises an integrity error, which is reported as false. */
  function AddUser(db: Db, username: string, password: string): (r: (bool, Db))
    ensures r.0 <==> username !in db.users
    ensures !r.0 ==> r.1 == db
    ensures r.0 ==> r.1.users.Keys == db.users.Keys + {username} && r.1.users[username] == password
    ensures forall u :: u in db.users ==> u in r.1.users && r.1.users[u] == db.users[u]
    ensures OnlyUsersDiffer(db, r.1)
  {
    if username in db.users then (false, db)
    else (true, db.(users := db.users[username := password]))
  }

  /** After `add_user` succeeds, `check_user_exists` finds the new row and
      `verify_user` accepts exactly its password; after it fails, both answer
      as they did before. */
  lemma AddUserThenCheck(db: Db, username: string, password: string, attempt: string)
    ensures var (added, s) := AddUser(db, username, password);
      && (added ==> CheckUserExists(s, username) == Some((username, password)))
      && (added ==> (VerifyUser(s, username, attempt).Some? <==> attempt == password))
      && (!added ==> CheckUserExists(s, username) == CheckUserExists(db, username))
      && (!added ==> VerifyUser(s, username, attempt) == VerifyUser(db, username, attempt))
  {
  }

  /** `verify_user`: a row only for an exact username and password match. */
  function VerifyUser(db: Db, username: string, password: string): (row: Option<(string, string)>)
    ensures row.Some? <==> username in db.users && db.users[username] == password
    ensures row.Some? ==> row.value == (username, password)
  {
    if username in db.users && db.users[username] == password then Some((username, password)) else None
  }

  // --- products ---

  /** A row of `SELECT id, name, description, price FROM products`. */
  datatype ProductRow = ProductRow(id: int, name: string, description: string, price: real)

  /** `add_product`. `price` is the outcome of `float(price)`: None when it
      raised ValueError, which is caught and reported as false. On success the
      row gets the id after the largest one ever handed out; once that is the
      largest INTEGER, the INSERT fails with SQLITE_FULL, also reported as false. */
  function AddProduct(db: Db, name: string, description: string, price: Option<real>): (r: (bool, Db))
    ensures r.0 <==> price.Some? && db.productSeq < MaxInteger
    ensures !r.0 ==> r.1 == db
    ensures r.0 ==>
      var id := r.1.productSeq;
      && id == db.productSeq + 1
      && r.1.products.Keys == db.products.Keys + {id}
      && r.1.products[id] == Product(name, description, price.value)
      && (Wf(db) ==> forall k :: k in db.products ==> k < id)
    ensures forall k :: k in db.products && k != r.1.productSeq ==>
      k in r.1.products && r.1.products[k] == db.products[k]
    ensures OnlyProductsDiffer(db, r.1)
  {
    match price
    case None => (false, db)
    case Some(p) =>
      if db.productSeq >= MaxInteger then (false, db)
      else
      var id := db.productSeq + 1;
      (true, db.(products := db.products[id := Product(name, description, p)], productSeq := id))
  }

  /** The catalogue rows of the products with the given ids, in that order. */
  function RowsOf(products: map<int, Product>, ids: seq<int>): (rows: seq<ProductRow>)
    requires forall i :: 0 <= i < |ids| ==> ids[i] in products
    ensures |rows| == |ids|
    ensures forall i :: 0 <= i < |rows| ==>
      var p := products[ids[i]]; rows[i] == ProductRow(ids[i], p.name, p.description, p.price)
  {
    seq(|ids|, i requires 0 <= i < |ids| =>
      var p := products[ids[i]]; ProductRow(ids[i], p.name, p.description, p.price))
  }

  /** `get_all_products`: every product, in id order. The SELECT has no
      ORDER BY; a plain scan of the table returns rows by rowid, which is
      what is modelled. */
  function GetAllProducts(db: Db): (rows: seq<ProductRow>)
    ensures forall i :: 0 <= i < |rows| ==>
      && rows[i].id in db.products
      && var p := db.products[rows[i].id];
         rows[i] == ProductRow(rows[i].id, p.name, p.description, p.price)
    ensures forall i, j :: 0 <= i < j < |rows| ==> rows[i].id < rows[j].id
    ensures Wf(db) ==> forall id :: id in db.products ==> exists i :: 0 <= i < |rows| && rows[i].id == id
  {
    var ids := Keys.KeysUp(db.products, db.productSeq);
    var rows := RowsOf(db.products, ids);
    assert forall i :: 0 <= i < |rows| ==> rows[i].id == ids[i];
    rows
  }

  /** `get_product`: the name, description and price of product `id`, if
      any. An id that cannot be bound raises. */
  function GetProduct(db: Db, id: int): (row: Call<Option<Product>>)
    ensures row.Overflows? <==> !Bindable(id)
    ensures row.Returns? ==> (row.value.Some? <==> id in db.products)
    ensures row.Returns? && row.value.Some? ==> row.value.value == db.products[id]
  {
    if !Bindable(id) then Overflows
    else if id in db.products then Returns(Some(db.products[id]))
    else Returns(None)
  }

  /** `update_product`. `float(price)` runs before the id is bound, so an
      unparsable price is reported as false even for an id that cannot be
      bound. The UPDATE's row count is never read: with a parsed price and a
      bindable id the result is true whether or not product `id` exists, and
      all three fields of that product, if present, are rewritten. */
  function UpdateProduct(db: Db, id: int, name: string, description: string, price: Option<real>)
    : (r: (Call<bool>, Db))
    ensures r.0 == Returns(false) <==> price.None?
    ensures r.0 == Overflows <==> price.Some? && !Bindable(id)
    ensures r.1.products.Keys == db.products.Keys
    ensures r.1.productSeq == db.productSeq
    ensures r.0 == Returns(true) && id in db.products ==>
      r.1.products[id] == Product(name, description, price.value)
    ensures forall k :: k in db.products && k != id ==> r.1.products[k] == db.products[k]
    ensures r.0 != Returns(true) || id !in db.products ==> r.1 == db
    ensures OnlyProductsDiffer(db, r.1)
  {
    match price
    case None => (Returns(false), db)
    case Some(p) =>
      if !Bindable(id) then (Overflows, db)
      else if id in db.products then (Returns(true), db.(products := db.products[id := Product(name, description, p)]))
      else (Returns(true), db)
  }

  /** `delete_product`: true exactly when a row was removed. Order items
      that reference the product are neither checked nor removed, and the
      sequence keeps the id from being handed out again. An id that cannot be
      bound raises and deletes nothing. */
  function DeleteProduct(db: Db, id: int): (r: (Call<bool>, Db))
    ensures r.0 == Overflows <==> !Bindable(id)
    ensures r.0 == Returns(true) <==> Bindable(id) && id in db.products
    ensures r.0.Overflows? ==> r.1 == db
    ensures r.0.Returns? ==> r.1.products.Keys == db.products.Keys - {id}
    ensures forall k :: k in r.1.products ==> r.1.products[k] == db.products[k]
    ensures r.1.productSeq == db.productSeq
    ensures r.1.items == db.items
    ensures OnlyProductsDiffer(db, r.1)
  {
    if !Bindable(id) then (Overflows, db)
    else (Returns(id in db.products), db.(products := db.products - {id}))
  }

  /** `get_product` reads back what the writes left: the fields just added
      or rewritten, and nothing for a deleted id. Every id `add_product` hands
      out can be bound; a caller's id that cannot be bound makes the write and
      the read raise alike. */
  lemma GetProductAfterWrites(db: Db, id: int, name: string, description: string, price: real)
    ensures var (added, s) := AddProduct(db, name, description, Some(price));
      added ==> GetProduct(s, s.productSeq) == Returns(Some(Product(name, description, price)))
    ensures Bindable(id) && id in db.products ==>
      GetProduct(UpdateProduct(db, id, name, description, Some(price)).1, id)
        == Returns(Some(Product(name, description, price)))
    ensures Bindable(id) ==> GetProduct(DeleteProduct(db, id).1, id) == Returns(None)
    ensures !Bindable(id) ==>
      && UpdateProduct(db, id, name, description, Some(price)).0 == Overflows
      && DeleteProduct(db, id).0 == Overflows
      && GetProduct(db, id) == Overflows
  {
  }

  /** `get_all_products` right after a successful `add_product` lists the old
      catalogue followed by exactly one new row: the fresh id with the given
      name, description and price. */
  lemma AddProductThenList(db: Db, name: string, description: string, price: real)
    requires Wf(db)
    ensures var (added, s) := AddProduct(db, name, description, Some(price));
      && (added ==> GetAllProducts(s) == GetAllProducts(db) + [ProductRow(s.productSeq, name, description, price)])
      && (!added ==> GetAllProducts(s) == GetAllProducts(db))
  {
    var (added, s) := AddProduct(db, name, description, Some(price));
    if added {
      var id := s.productSeq;
      var ids := Keys.KeysUp(db.products, db.productSeq);
      Keys.KeysUpFrame(s.products, db.products, db.productSeq);
      assert Keys.KeysUp(s.products, id) == ids + [id];
      assert forall i :: 0 <= i < |ids + [id]| ==> (ids + [id])[i] in s.products;
      RowsOfExtend(db.products, s.products, ids, id);
    }
  }

  /** Listing one more id, of a table that only gained rows, appends that
      id's row to the listing. */
  lemma RowsOfExtend(before: map<int, Product>, after: map<int, Product>, ids: seq<int>, id: int)
    requires forall i :: 0 <= i < |ids| ==> ids[i] in before
    requires forall k :: k in before ==> k in after && after[k] == before[k]
    requires forall i :: 0 <= i < |ids + [id]| ==> (ids + [id])[i] in after
    requires id in after
    ensures var p := after[id];
      RowsOf(after, ids + [id]) == RowsOf(before, ids) + [ProductRow(id, p.name, p.description, p.price)]
  {
    var p := after[id];
    var l := RowsOf(after, ids + [id]);
    var r := RowsOf(before, ids) + [ProductRow(id, p.name, p.description, p.price)];
    assert |l| == |r|;
    forall i | 0 <= i < |l|
      ensures l[i] == r[i]
    {
      if i < |ids| {
        assert (ids + [id])[i] == ids[i];
      }
    }
  }

  // --- orders ---

  /** One entry of the item list `create_order` receives: it reads only the
      `id` and `quantity` keys of each entry. */
  datatype ItemRequest = ItemRequest(productId: int, quantity: int)

  /** The `order_items` rows the requests become under order `orderId`. */
  function ItemRows(orderId: int, reqs: seq<ItemRequest>): (rows: seq<OrderItem>)
    ensures |rows| == |reqs|
    ensures forall i :: 0 <= i < |rows| ==>
      rows[i] == OrderItem(orderId, reqs[i].productId, reqs[i].quantity)
  {
    seq(|reqs|, i requires 0 <= i < |reqs| => OrderItem(orderId, reqs[i].productId, reqs[i].quantity))
  }

  /** True when every request's product id and quantity can be bound. */
  predicate Storable(reqs: seq<ItemRequest>) {
    forall i :: 0 <= i < |reqs| ==> Bindable(reqs[i].productId) && Bindable(reqs[i].quantity)
  }

  /** True when the storage error `fault` names one of the n + 1 INSERTs
      `create_order` issues for n items: 0 is the order row, k is item k - 1.
      None, or an index past the last item, means every INSERT succeeds. */
  predicate Interrupted(fault: Option<nat>, n: nat) {
    fault.Some? && fault.value <= n
  }

  /** The connection's state after the order row and the first `n` item rows
      are inserted. */
  function InsertOrder(db: Db, client: string, date: string, total: real,
                       reqs: seq<ItemRequest>, n: nat): (s: Db)
    requires n <= |reqs|
    ensures s.orderSeq == db.orderSeq + 1
    ensures s.orders.Keys == db.orders.Keys + {s.orderSeq}
    ensures s.orders[s.orderSeq] == Order(client, date, Pending, total)
    ensures forall k :: k in db.orders && k != s.orderSeq ==> s.orders[k] == db.orders[k]
    ensures s.items == db.items + ItemRows(s.orderSeq, reqs[..n])
    ensures OnlyOrdersDiffer(db, s)
  {
    var id := db.orderSeq + 1;
    db.(orders := db.orders[id := Order(client, date, Pending, total)],
        orderSeq := id,
        items := db.items + ItemRows(id, reqs[..n]))
  }

  /** `create_order`, with the committed result all-or-nothing: if any of
      its INSERTs fails (a storage error, an exhausted id sequence, or an item
      whose product id or quantity cannot be bound) the result is None and no
      row of the order exists. The source commits once at the end and never
      rolls back, and lets the OverflowError of an unbindable item escape, so
      the INSERTs that ran before the failing one stay pending on the
      connection and the next commit makes them durable; `PartialWrite`
      models that hazard. `date` stands for `datetime.date.today()`. No
      product id is checked. */
  function CreateOrder(db: Db, client: string, date: string, total: real,
                       reqs: seq<ItemRequest>, fault: Option<nat>): (r: (Option<int>, Db))
    ensures r.0.None? <==> Interrupted(fault, |reqs|) || !Storable(reqs) || db.orderSeq >= MaxInteger
    ensures r.0.None? ==> r.1 == db
    ensures r.0.Some? ==>
      var id := r.0.value;
      && id == db.orderSeq + 1 == r.1.orderSeq
      && (Wf(db) ==> forall k :: k in db.orders ==> k < id)
      && r.1.orders.Keys == db.orders.Keys + {id}
      && r.1.orders[id] == Order(client, date, Pending, total)
      && r.1.items == db.items + ItemRows(id, reqs)
    ensures forall k :: k in db.orders && (r.0.None? || k != r.0.value) ==>
      k in r.1.orders && r.1.orders[k] == db.orders[k]
    ensures OnlyOrdersDiffer(db, r.1)
  {
    if Interrupted(fault, |reqs|) || !Storable(reqs) || db.orderSeq >= MaxInteger then (None, db)
    else
      var s := InsertOrder(db, client, date, total, reqs, |reqs|);
      assert reqs[..|reqs|] == reqs;
      (Some(s.orderSeq), s)
  }

  /** `get_order_status`: None for an id with no order; an id that cannot be
      bound raises. */
  function GetOrderStatus(db: Db, id: int): (status: Call<Option<string>>)
    ensures status.Overflows? <==> !Bindable(id)
    ensures status.Returns? ==> (status.value.Some? <==> id in db.orders)
    ensures status.Returns? && status.value.Some? ==> status.value.value == db.orders[id].status
  {
    if !Bindable(id) then Overflows
    else if id in db.orders then Returns(Some(db.orders[id].status))
    else Returns(None)
  }

  /** `update_order_status`: true exactly when a row was affected, and then
      only that order's status changes. Any text is accepted as a status. The
      method has no `try`, and an id that cannot be bound raises. */
  function UpdateOrderStatus(db: Db, id: int, status: string): (r: (Call<bool>, Db))
    ensures r.0 == Overflows <==> !Bindable(id)
    ensures r.0 == Returns(true) <==> Bindable(id) && id in db.orders
    ensures r.0 != Returns(true) ==> r.1 == db
    ensures r.1.orders.Keys == db.orders.Keys
    ensures r.0 == Returns(true) ==> r.1.orders[id] == db.orders[id].(status := status)
    ensures forall k :: k in db.orders && k != id ==> r.1.orders[k] == db.orders[k]
    ensures r.1.orderSeq == db.orderSeq && r.1.items == db.items
    ensures OnlyOrdersDiffer(db, r.1)
  {
    if !Bindable(id) then (Overflows, db)
    else if id in db.orders then (Returns(true), db.(orders := db.orders[id := db.orders[id].(status := status)]))
    else (Returns(false), db)
  }

  /** `get_order_status` reads back the status `update_order_status` wrote. */
  lemma StatusReadBack(db: Db, id: int, status: string)
    ensures var (updated, s) := UpdateOrderStatus(db, id, status);
      && (updated == Returns(true) ==> GetOrderStatus(s, id) == Returns(Some(status)))
      && (updated != Returns(true) ==> GetOrderStatus(s, id) == GetOrderStatus(db, id))
  {
  }
}
