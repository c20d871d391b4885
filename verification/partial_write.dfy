/** `create_order` exactly as written, on a connection. Python's sqlite3
    module opens a transaction before the first INSERT, and the method
    commits only after the last one. When an INSERT fails it never rolls back:
    a storage error is caught and reported as None, and the OverflowError of
    an item it cannot bind escapes. Either way the INSERTs that already ran
    stay pending. The connection's own later queries see them, and the next
    commit of any other method makes them durable. */
module PartialWrite {
  import opened Wrappers
  import opened Schema
  import opened Binding
  import opened Database
  import opened App

  /** A connection: the rows that are durable in the file, and the rows its
      own queries see, which include those of its open transaction. */
  datatype Conn = Conn(committed: Db, pending: Db)

  /** A freshly opened connection has nothing pending. */
  function Open(db: Db): Conn {
    Conn(db, db)
  }

  /** `close()`: the file keeps only what was committed. */
  function Close(c: Conn): Db {
    c.committed
  }

  /** The index of the first request whose product id or quantity cannot be
      bound, or `|reqs|` when every request can be. */
  function FirstUnbindable(reqs: seq<ItemRequest>): (k: nat)
    ensures k <= |reqs|
    ensures forall i :: 0 <= i < k ==> Bindable(reqs[i].productId) && Bindable(reqs[i].quantity)
    ensures k < |reqs| ==> !(Bindable(reqs[k].productId) && Bindable(reqs[k].quantity))
    ensures k == |reqs| <==> Storable(reqs)
  {
    if reqs == [] then 0
    else if !(Bindable(reqs[0].productId) && Bindable(reqs[0].quantity)) then 0
    else 1 + FirstUnbindable(reqs[1..])
  }

  /** True when the first of `create_order`'s INSERTs to fail is an item that
      cannot be bound. The order row itself binds only text and a float. An
      item is bound before it runs, so its OverflowError comes before a
      storage error on the same INSERT. */
  predicate FailsByOverflow(db: Db, reqs: seq<ItemRequest>, fault: Option<nat>) {
    var b := FirstUnbindable(reqs) + 1;
    db.orderSeq < MaxInteger && b <= |reqs| && (fault.None? || b <= fault.value)
  }

  /** The INSERT of `create_order` that fails first, or None when all of them
      succeed. The order row is INSERT 0 and item k - 1 is INSERT k. An
      exhausted order sequence fails the order row with SQLITE_FULL. */
  function FirstFailing(db: Db, reqs: seq<ItemRequest>, fault: Option<nat>): (k: Option<nat>)
    ensures k.None? <==> !Interrupted(fault, |reqs|) && Storable(reqs) && db.orderSeq < MaxInteger
    ensures k.Some? ==> k.value <= |reqs|
    ensures FailsByOverflow(db, reqs, fault) ==> k.Some? && k.value >= 1
  {
    if db.orderSeq >= MaxInteger then Some(0)
    else if FailsByOverflow(db, reqs, fault) then Some(FirstUnbindable(reqs) + 1)
    else if Interrupted(fault, |reqs|) then Some(fault.value)
    else None
  }

  /** `create_order` as written. When every INSERT succeeds it agrees with the
      all-or-nothing `CreateOrder` and commits. Otherwise nothing is
      committed, while the order row and the items before the failing INSERT
      stay pending. The result is None for a storage error, and the call
      raises for an item it cannot bind. */
  function CreateOrderAsWritten(c: Conn, client: string, date: string, total: real,
                                reqs: seq<ItemRequest>, fault: Option<nat>): (r: (Call<Option<int>>, Conn))
    ensures FirstFailing(c.pending, reqs, fault).None? ==>
      && r.0 == Returns(CreateOrder(c.pending, client, date, total, reqs, fault).0)
      && r.1 == Open(CreateOrder(c.pending, client, date, total, reqs, fault).1)
    ensures r.0 == Overflows <==> FailsByOverflow(c.pending, reqs, fault)
    ensures r.0 == Returns(None) <==>
      FirstFailing(c.pending, reqs, fault).Some? && !FailsByOverflow(c.pending, reqs, fault)
    ensures FirstFailing(c.pending, reqs, fault).Some? ==> r.1.committed == c.committed
    ensures FirstFailing(c.pending, reqs, fault) == Some(0) ==> r.1.pending == c.pending
    ensures var k := FirstFailing(c.pending, reqs, fault);
      k.Some? && k.value >= 1 ==>
        var id := c.pending.orderSeq + 1;
        && r.1.pending.orderSeq == id
        && r.1.pending.orders.Keys == c.pending.orders.Keys + {id}
        && r.1.pending.orders[id] == Order(client, date, Pending, total)
        && (forall o :: o in c.pending.orders && o != id ==> r.1.pending.orders[o] == c.pending.orders[o])
        && r.1.pending.items == c.pending.items + ItemRows(id, reqs[..k.value - 1])
        && OnlyOrdersDiffer(c.pending, r.1.pending)
  {
    match FirstFailing(c.pending, reqs, fault)
    case None =>
      var (created, s) := CreateOrder(c.pending, client, date, total, reqs, fault);
      (Returns(created), Open(s))
    case Some(k) =>
      var outcome := if FailsByOverflow(c.pending, reqs, fault) then Overflows else Returns(None);
      if k == 0 then (outcome, c)
      else (outcome, Conn(c.committed, InsertOrder(c.pending, client, date, total, reqs, k - 1)))
  }

  /** `add_user` on the connection: a successful INSERT is committed, together
      with whatever was already pending. A duplicate username fails the
      statement alone, and nothing is committed. */
  function AddUserAsWritten(c: Conn, username: string, password: string): (r: (bool, Conn))
    ensures r.0 <==> username !in c.pending.users
    ensures r.0 ==>
      && r.1.committed == r.1.pending
      && r.1.committed.users == c.pending.users[username := password]
      && OnlyUsersDiffer(c.pending, r.1.committed)
    ensures !r.0 ==> r.1 == c
  {
    var (added, s) := AddUser(c.pending, username, password);
    if added then (true, Open(s)) else (false, c)
  }

  /** `save_order` on `create_order` as written: the OverflowError of an item
      it cannot bind escapes the handler as well. */
  function SaveOrderAsWritten(c: Conn, client: string, cart: seq<CartItem>, date: string, fault: Option<nat>)
    : (r: (Call<Result<int, SaveOrderError>>, Conn))
    ensures client == "" ==> r == (Returns(Err(ClientRequired)), c)
    ensures client != "" && cart == [] ==> r == (Returns(Err(NoItems)), c)
    ensures r.0 == Overflows <==>
      client != "" && cart != [] && FailsByOverflow(c.pending, Requests(cart), fault)
    ensures r.0.Returns? && r.0.value.Ok? <==>
      client != "" && cart != [] && FirstFailing(c.pending, Requests(cart), fault).None?
    ensures r.0.Returns? && r.0.value.Ok? ==>
      && SaveOrder(c.pending, client, cart, date, fault).0 == r.0.value
      && r.1 == Open(SaveOrder(c.pending, client, cart, date, fault).1)
  {
    if client == "" then (Returns(Err(ClientRequired)), c)
    else if cart == [] then (Returns(Err(NoItems)), c)
    else
      match CreateOrderAsWritten(c, client, date, CartTotal(cart), Requests(cart), fault)
      case (Overflows, next) => (Overflows, next)
      case (Returns(Some(id)), next) => (Returns(Ok(id)), next)
      case (Returns(None), next) => (Returns(Err(NotSaved)), next)
  }

  /** The discrepancy. A quantity of 2^63 passes the popup, since it is
      positive and a float can hold it. Saving then inserts the order row,
      and binding the quantity raises. The order row stays pending, without
      its item. Closing the connection would discard it, but the next
      `add_user` commits it. The all-or-nothing `save_order` reports the
      order as not saved and leaves the database as it was. */
  lemma PartialOrderCommittedLater(db: Db, client: string, date: string, selection: string, choice: Choice,
                                   username: string, password: string)
    requires Wf(db)
    requires db.orderSeq < MaxInteger
    requires client != "" && selection != ""
    requires username !in db.users
    ensures
      var (accepted, cart) := AddItem([], map[selection := choice], selection, "9223372036854775808", Some(MaxInteger + 1));
      var (saved, conn) := SaveOrderAsWritten(Open(db), client, cart, date, None);
      var (added, later) := AddUserAsWritten(conn, username, password);
      var id := db.orderSeq + 1;
      && accepted.Ok?
      && saved == Overflows
      && Close(conn) == db
      && id in conn.pending.orders
      && added
      && id !in db.orders
      && id in later.committed.orders
      && later.committed.orders[id] == Order(client, date, Pending, CartTotal(cart))
      && (forall i :: 0 <= i < |later.committed.items| ==> later.committed.items[i].orderId != id)
      && SaveOrder(db, client, cart, date, None) == (Err(NotSaved), db)
  {
    var (accepted, cart) := AddItem([], map[selection := choice], selection, "9223372036854775808", Some(MaxInteger + 1));
    var choices := map[selection := choice];
    assert selection in choices;
    assert MaxInteger + 1 < FloatIntLimit;
    assert accepted.Ok?;
    assert |cart| == 1 && cart[0].quantity == MaxInteger + 1;
    var reqs := Requests(cart);
    assert !Bindable(reqs[0].quantity);
    assert FirstUnbindable(reqs) == 0;
    assert FailsByOverflow(db, reqs, None);
    var (saved, conn) := SaveOrderAsWritten(Open(db), client, cart, date, None);
    assert conn.pending.items == db.items + ItemRows(db.orderSeq + 1, reqs[..0]);
    assert conn.pending.items == db.items;
  }
}
