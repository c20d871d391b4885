/** The persistence layer as a state machine: the state-changing methods of
    `DatabaseManager` as operations, and what every run of them keeps true. */
module Machine {
  import opened Wrappers
  import opened Schema
  import opened Database
  import opened Status

  /** A call of a method that writes. */
  datatype Op =
    | AddUserOp(username: string, password: string)
    | AddProductOp(name: string, description: string, price: Option<real>)
    | UpdateProductOp(id: int, name: string, description: string, price: Option<real>)
    | DeleteProductOp(id: int)
    | CreateOrderOp(client: string, date: string, total: real, reqs: seq<ItemRequest>, fault: Option<nat>)
    | UpdateOrderStatusOp(id: int, status: string)

  /** The committed state after one operation. */
  function Apply(db: Db, op: Op): Db {
    match op
    case AddUserOp(u, p) => AddUser(db, u, p).1
    case AddProductOp(n, d, p) => AddProduct(db, n, d, p).1
    case UpdateProductOp(id, n, d, p) => UpdateProduct(db, id, n, d, p).1
    case DeleteProductOp(id) => DeleteProduct(db, id).1
    case CreateOrderOp(c, dt, t, reqs, f) => CreateOrder(db, c, dt, t, reqs, f).1
    case UpdateOrderStatusOp(id, s) => UpdateOrderStatus(db, id, s).1
  }

  /** The committed state after a sequence of operations, first to last. */
  function Run(db: Db, ops: seq<Op>): Db
    decreases |ops|
  {
    if ops == [] then db else Run(Apply(db, ops[0]), ops[1..])
  }

  /** Every operation keeps ids within their sequences and items owned by orders. */
  lemma ApplyPreservesWf(db: Db, op: Op)
    requires Wf(db)
    ensures Wf(Apply(db, op))
  {
  }

  /** A run of operations from a well-formed state stays well-formed. */
  lemma {:induction false} RunPreservesWf(db: Db, ops: seq<Op>)
    requires Wf(db)
    ensures Wf(Run(db, ops))
    decreases |ops|
  {
    if ops != [] {
      ApplyPreservesWf(db, ops[0]);
      RunPreservesWf(Apply(db, ops[0]), ops[1..]);
    }
  }

  /** Every database reachable from a fresh file is well-formed. */
  lemma ReachableWf(ops: seq<Op>)
    ensures Wf(Run(CreateTables(None), ops))
  {
    RunPreservesWf(CreateTables(None), ops);
  }

  /** The sequences never go down, so a deleted id is never handed out again;
      item rows are only ever appended. */
  lemma ApplyIsMonotone(db: Db, op: Op)
    ensures Apply(db, op).productSeq >= db.productSeq
    ensures Apply(db, op).orderSeq >= db.orderSeq
    ensures db.items <= Apply(db, op).items
  {
  }

  /** An order's client, date and total are fixed when it is created: no
      operation changes them, in particular not an edit of a product's price. */
  lemma ApplyKeepsOrderTotals(db: Db, op: Op)
    requires Wf(db)
    ensures forall id :: id in db.orders ==>
      && id in Apply(db, op).orders
      && Apply(db, op).orders[id].total == db.orders[id].total
      && Apply(db, op).orders[id].client == db.orders[id].client
      && Apply(db, op).orders[id].date == db.orders[id].date
  {
  }

  /** Statuses stay within the offered options as long as every status
      written is one of them. */
  lemma ApplyKeepsStatuses(db: Db, op: Op)
    requires StatusesValid(db)
    requires op.UpdateOrderStatusOp? ==> op.status in StatusOptions
    ensures StatusesValid(Apply(db, op))
  {
  }
}
