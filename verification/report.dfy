/** `get_full_report`: every order, most recent first, with its items
    joined to the product table as it is now. */
module Report {
  import opened Wrappers
  import opened Schema
  import opened Database
  import Keys

  /** One row of the item query: the product's current name and the quantity. */
  datatype ReportLine = ReportLine(productName: string, quantity: int)

  /** One order of the report: its id, its row, and its item lines. */
  datatype ReportEntry = ReportEntry(id: int, order: Order, lines: seq<ReportLine>)

  /** What one item row contributes to the lines of order `orderId`: the inner
      JOIN keeps it only when it belongs to that order and its product still exists. */
  function LineOf(item: OrderItem, products: map<int, Product>, orderId: int): seq<ReportLine> {
    if item.orderId == orderId && item.productId in products
    then [ReportLine(products[item.productId].name, item.quantity)]
    else []
  }

  /** The item query for order `orderId`, in item-row order (the query has no
      ORDER BY; a scan of `order_items` by rowid is what is modelled). */
  function Lines(items: seq<OrderItem>, products: map<int, Product>, orderId: int): (lines: seq<ReportLine>)
    ensures |lines| <= |items|
  {
    if items == [] then []
    else LineOf(items[0], products, orderId) + Lines(items[1..], products, orderId)
  }

  /** The report entries of the orders with the given ids, in that order. */
  function EntriesOf(db: Db, ids: seq<int>): (report: seq<ReportEntry>)
    requires forall i :: 0 <= i < |ids| ==> ids[i] in db.orders
    ensures |report| == |ids|
    ensures forall i :: 0 <= i < |ids| ==>
      report[i] == ReportEntry(ids[i], db.orders[ids[i]], Lines(db.items, db.products, ids[i]))
  {
    seq(|ids|, i requires 0 <= i < |ids| =>
      ReportEntry(ids[i], db.orders[ids[i]], Lines(db.items, db.products, ids[i])))
  }

  /** `get_full_report`: `ORDER BY id DESC`, then the item query per order. */
  function GetFullReport(db: Db): (report: seq<ReportEntry>)
    ensures forall i :: 0 <= i < |report| ==>
      && report[i].id in db.orders
      && report[i].order == db.orders[report[i].id]
      && report[i].lines == Lines(db.items, db.products, report[i].id)
    ensures forall i, j :: 0 <= i < j < |report| ==> report[i].id > report[j].id
    ensures Wf(db) ==> forall id :: id in db.orders ==> exists i :: 0 <= i < |report| && report[i].id == id
  {
    var ids := Keys.KeysDown(db.orders, db.orderSeq);
    var report := EntriesOf(db, ids);
    assert forall i :: 0 <= i < |report| ==> report[i].id == ids[i];
    report
  }

  /** The item rows that do not reference product `productId`. */
  function WithoutProduct(items: seq<OrderItem>, productId: int): (kept: seq<OrderItem>)
    ensures |kept| <= |items|
    ensures forall i :: 0 <= i < |kept| ==> kept[i].productId != productId
  {
    if items == [] then []
    else (if items[0].productId == productId then [] else [items[0]]) + WithoutProduct(items[1..], productId)
  }

  /** The lines of a concatenation are the lines of each part in turn. */
  lemma {:induction false} LinesAppend(a: seq<OrderItem>, b: seq<OrderItem>, products: map<int, Product>, orderId: int)
    ensures Lines(a + b, products, orderId) == Lines(a, products, orderId) + Lines(b, products, orderId)
  {
    if a == [] {
      assert a + b == b;
    } else {
      assert (a + b)[0] == a[0];
      assert (a + b)[1..] == a[1..] + b;
      LinesAppend(a[1..], b, products, orderId);
    }
  }

  /** Rows of other orders contribute no line. */
  lemma {:induction false} LinesOfOtherOrders(items: seq<OrderItem>, products: map<int, Product>, orderId: int)
    requires forall i :: 0 <= i < |items| ==> items[i].orderId != orderId
    ensures Lines(items, products, orderId) == []
  {
    if items != [] {
      LinesOfOtherOrders(items[1..], products, orderId);
    }
  }

  /** The rows a new order's requests become yield one line per request,
      named after its product, as long as every requested product exists. */
  lemma {:induction false} LinesOfRequests(orderId: int, reqs: seq<ItemRequest>, products: map<int, Product>)
    requires forall i :: 0 <= i < |reqs| ==> reqs[i].productId in products
    ensures var lines := Lines(ItemRows(orderId, reqs), products, orderId);
      && |lines| == |reqs|
      && forall i :: 0 <= i < |reqs| ==>
           lines[i] == ReportLine(products[reqs[i].productId].name, reqs[i].quantity)
  {
    if reqs != [] {
      assert ItemRows(orderId, reqs)[1..] == ItemRows(orderId, reqs[1..]);
      LinesOfRequests(orderId, reqs[1..], products);
    }
  }

  /** A request for a product that does not exist is still stored (foreign
      keys are not enforced) but yields no report line. */
  lemma {:induction false} LinesOfMissingProducts(orderId: int, reqs: seq<ItemRequest>, products: map<int, Product>)
    requires forall i :: 0 <= i < |reqs| ==> reqs[i].productId !in products
    ensures Lines(ItemRows(orderId, reqs), products, orderId) == []
  {
    if reqs != [] {
      assert ItemRows(orderId, reqs)[1..] == ItemRows(orderId, reqs[1..]);
      LinesOfMissingProducts(orderId, reqs[1..], products);
    }
  }

  /** After a successful `create_order` whose products all exist, the report
      lists the new order with one line per requested item, in request order. */
  lemma NewOrderInReport(db: Db, client: string, date: string, total: real,
                         reqs: seq<ItemRequest>, fault: Option<nat>)
    requires Wf(db)
    requires CreateOrder(db, client, date, total, reqs, fault).0.Some?
    requires forall i :: 0 <= i < |reqs| ==> reqs[i].productId in db.products
    ensures var (id, s) := CreateOrder(db, client, date, total, reqs, fault);
      && id.Some?
      && var lines := Lines(s.items, s.products, id.value);
      && |lines| == |reqs|
      && forall i :: 0 <= i < |reqs| ==>
           lines[i] == ReportLine(db.products[reqs[i].productId].name, reqs[i].quantity)
  {
    var (id, s) := CreateOrder(db, client, date, total, reqs, fault);
    LinesAppend(db.items, ItemRows(id.value, reqs), db.products, id.value);
    LinesOfOtherOrders(db.items, db.products, id.value);
    LinesOfRequests(id.value, reqs, db.products);
  }

  /** Deleting a product drops exactly the rows that reference it from every
      order's lines, although those rows stay in `order_items`. */
  lemma {:induction false} DeleteDropsLines(items: seq<OrderItem>, products: map<int, Product>,
                                            productId: int, orderId: int)
    ensures Lines(items, products - {productId}, orderId) == Lines(WithoutProduct(items, productId), products, orderId)
  {
    if items != [] {
      DeleteDropsLines(items[1..], products, productId, orderId);
      var rest := WithoutProduct(items[1..], productId);
      if items[0].productId == productId {
        assert WithoutProduct(items, productId) == rest;
      } else {
        assert WithoutProduct(items, productId) == [items[0]] + rest;
        assert ([items[0]] + rest)[1..] == rest;
      }
    }
  }

  /** `delete_product` removes the product's lines from the report while the
      orders themselves, their totals and their item rows are untouched. An id
      that cannot be bound deletes nothing, so the report stays as it was. */
  lemma DeleteProductReport(db: Db, productId: int, orderId: int)
    ensures var (deleted, s) := DeleteProduct(db, productId);
      && s.orders == db.orders
      && s.items == db.items
      && (deleted.Returns? ==>
            Lines(s.items, s.products, orderId) == Lines(WithoutProduct(db.items, productId), db.products, orderId))
      && (deleted.Overflows? ==> GetFullReport(s) == GetFullReport(db))
  {
    DeleteDropsLines(db.items, db.products, productId, orderId);
  }
}
