/** The validation and order arithmetic of `MarcenariaApp`, with the widgets
    stripped away: each handler takes the texts its fields hold and returns
    its outcome together with the next database (or cart) state. */
module App {
  import opened Wrappers
  import opened Schema
  import opened Binding
  import opened Database
  import opened Status

  // --- registration and login ---

  /** Why `register_user` refused, in the order it checks. */
  datatype RegisterError = EmptyCredentials | PasswordMismatch | UsernameTaken | NotRegistered

  /** `register_user`: both fields filled, the confirmation equal to the
      password, and the username not taken; only then is `add_user` called. */
  function RegisterUser(db: Db, username: string, password: string, confirm: string)
    : (r: (Result<(), RegisterError>, Db))
    ensures r.0.Ok? <==> username != "" && password != "" && password == confirm && username !in db.users
    ensures r.0.Err? ==> r.1 == db
    ensures username == "" || password == "" ==> r.0 == Err(EmptyCredentials)
    ensures username != "" && password != "" && password != confirm ==> r.0 == Err(PasswordMismatch)
    ensures username != "" && password != "" && password == confirm && username in db.users ==>
      r.0 == Err(UsernameTaken)
    ensures r.0.Ok? ==> r.1.users == db.users[username := password] && OnlyUsersDiffer(db, r.1)
  {
    if username == "" || password == "" then (Err(EmptyCredentials), db)
    else if password != confirm then (Err(PasswordMismatch), db)
    else if CheckUserExists(db, username).Some? then (Err(UsernameTaken), db)
    else
      var (added, next) := AddUser(db, username, password);
      if added then (Ok(()), next) else (Err(NotRegistered), db)
  }

  /** `login`: the user gets in exactly when `verify_user` finds a row. */
  function Login(db: Db, username: string, password: string): (ok: bool)
    ensures ok <==> username in db.users && db.users[username] == password
  {
    VerifyUser(db, username, password).Some?
  }

  /** A user who registered can log in with that password, and with no other. */
  lemma RegisterThenLogin(db: Db, username: string, password: string, other: string)
    requires RegisterUser(db, username, password, password).0.Ok?
    ensures var next := RegisterUser(db, username, password, password).1;
      && Login(next, username, password)
      && (other != password ==> !Login(next, username, other))
  {
  }

  // --- products ---

  /** Why the add-product form refused. */
  datatype ProductFormError = RequiredFields | NotAdded

  /** The add-product form's `save`: name and price text are required before
      `add_product` is called; `price` is the outcome of `float` on the price text. */
  function SaveProduct(db: Db, name: string, description: string, priceText: string, price: Option<real>)
    : (r: (Result<(), ProductFormError>, Db))
    ensures name == "" || priceText == "" ==> r == (Err(RequiredFields), db)
    ensures r.0.Ok? <==> name != "" && priceText != "" && price.Some? && db.productSeq < MaxInteger
    ensures r.0.Err? ==> r.1 == db
    ensures r.0.Ok? ==>
      var id := r.1.productSeq;
      && id == db.productSeq + 1
      && r.1.products.Keys == db.products.Keys + {id}
      && r.1.products[id] == Product(name, description, price.value)
  {
    if name == "" || priceText == "" then (Err(RequiredFields), db)
    else
      var (added, next) := AddProduct(db, name, description, price);
      if added then (Ok(()), next) else (Err(NotAdded), db)
  }

  /** A product saved from the form is the one new row of the catalogue
      listing, and `get_product` reads its fields back. */
  lemma SaveProductThenList(db: Db, name: string, description: string, priceText: string, price: Option<real>)
    requires Wf(db)
    ensures var (saved, next) := SaveProduct(db, name, description, priceText, price);
      && Wf(next)
      && (saved.Ok? ==>
            && GetAllProducts(next) == GetAllProducts(db) + [ProductRow(next.productSeq, name, description, price.value)]
            && GetProduct(next, next.productSeq) == Returns(Some(Product(name, description, price.value))))
      && (saved.Err? ==> GetAllProducts(next) == GetAllProducts(db))
  {
    if name != "" && priceText != "" && price.Some? {
      AddProductThenList(db, name, description, price.value);
    }
  }

  // --- building an order ---

  /** An entry of the current order's item list. */
  datatype CartItem = CartItem(id: int, name: string, price: real, quantity: int, subtotal: real)

  /** What the product popup offers for one catalogue row: its id, name and
      price, keyed by the row's display label. */
  datatype Choice = Choice(id: int, name: string, price: real)

  /** The popup's choices: one per catalogue row, keyed by the row's display
      label (`labelOf` stands for the f-string of id, name and price). As in a
      dict comprehension, a later row wins a repeated label. */
  function Choices(rows: seq<ProductRow>, labelOf: ProductRow -> string): (choices: map<string, Choice>)
    ensures choices == map[] <==> rows == []
    ensures forall i :: 0 <= i < |rows| ==> labelOf(rows[i]) in choices
    ensures forall s :: s in choices ==>
      exists i :: 0 <= i < |rows| && labelOf(rows[i]) == s
                  && choices[s] == Choice(rows[i].id, rows[i].name, rows[i].price)
    decreases |rows|
  {
    if rows == [] then map[]
    else
      var last := rows[|rows| - 1];
      var earlier := Choices(rows[..|rows| - 1], labelOf);
      var choices := earlier[labelOf(last) := Choice(last.id, last.name, last.price)];
      assert labelOf(last) in choices;
      choices
  }

  /** In a well-formed state the popup offers no choice exactly when the
      catalogue is empty, which is when `confirm_add`'s caller reports
      `NoProducts`. */
  lemma ChoicesOfCatalogue(db: Db, labelOf: ProductRow -> string)
    requires Wf(db)
    ensures Choices(GetAllProducts(db), labelOf) == map[] <==> db.products == map[]
  {
    var rows := GetAllProducts(db);
    if db.products != map[] {
      var id :| id in db.products;
      assert exists i :: 0 <= i < |rows| && rows[i].id == id;
    }
  }

  /** The smallest positive `int` that Python cannot convert to a float: it
      rounds to 2^1024, beyond the largest double. `price * quantity` raises
      OverflowError for such a quantity. */
  const FloatIntLimit: int := 0xffff_ffff_ffff_fc00_0000_0000_0000_0000_0000_0000_0000_0000_0000_0000_0000_0000_0000_0000_0000_0000_0000_0000_0000_0000_0000_0000_0000_0000_0000_0000_0000_0000_0000_0000_0000_0000_0000_0000_0000_0000_0000_0000_0000_0000_0000_0000_0000_0000_0000_0000_0000_0000_0000_0000_0000_0000_0000_0000_0000_0000_0000_0000_0000_0000

  /** Why the popup refused to add an item, in the order it checks.
      `SubtotalOverflow` is the OverflowError of `price * quantity`, which
      neither `except` clause catches: the callback ends and the list is
      unchanged. */
  datatype AddItemError =
    NoProducts | MissingInput | UnknownProduct | InvalidQuantity | NonPositiveQuantity | SubtotalOverflow

  /** Every entry's subtotal is its price times its positive quantity. */
  ghost predicate Priced(cart: seq<CartItem>) {
    forall i :: 0 <= i < |cart| ==>
      cart[i].quantity > 0 && cart[i].subtotal == cart[i].price * cart[i].quantity as real
  }

  /** `add_item_to_order_popup` and its `confirm_add`. `choices` is the
      popup's snapshot of the catalogue, `selection` and `qtyText` the field
      texts, `qty` the outcome of `int` on `qtyText`. A quantity too wide for
      SQLite is accepted here; only saving the order fails on it. */
  function AddItem(cart: seq<CartItem>, choices: map<string, Choice>, selection: string,
                   qtyText: string, qty: Option<int>): (r: (Result<(), AddItemError>, seq<CartItem>))
    ensures r.0.Ok? <==>
      choices != map[] && selection != "" && qtyText != "" && selection in choices
      && qty.Some? && 0 < qty.value < FloatIntLimit
    ensures r.0.Err? ==> r.1 == cart
    ensures qty.Some? && qty.value <= 0 ==> r.0.Err?
    ensures r.0 == Err(SubtotalOverflow) <==>
      choices != map[] && selection != "" && qtyText != "" && selection in choices
      && qty.Some? && qty.value >= FloatIntLimit
    ensures r.0.Ok? ==>
      var c := choices[selection];
      && |r.1| == |cart| + 1
      && r.1[..|cart|] == cart
      && r.1[|cart|] == CartItem(c.id, c.name, c.price, qty.value, c.price * qty.value as real)
    ensures r.0.Ok? && Priced(cart) ==> Priced(r.1)
  {
    if choices == map[] then (Err(NoProducts), cart)
    else if selection == "" || qtyText == "" then (Err(MissingInput), cart)
    else if selection !in choices then (Err(UnknownProduct), cart)
    else if qty.None? then (Err(InvalidQuantity), cart)
    else if qty.value <= 0 then (Err(NonPositiveQuantity), cart)
    else if qty.value >= FloatIntLimit then (Err(SubtotalOverflow), cart)
    else
      var c := choices[selection];
      (Ok(()), cart + [CartItem(c.id, c.name, c.price, qty.value, c.price * qty.value as real)])
  }

  /** `update_total` and the total `save_order` passes on: the sum of the subtotals. */
  function CartTotal(cart: seq<CartItem>): real {
    if cart == [] then 0.0 else cart[0].subtotal + CartTotal(cart[1..])
  }

  /** The sum of price times quantity over the entries. */
  function PriceTotal(cart: seq<CartItem>): real {
    if cart == [] then 0.0 else cart[0].price * cart[0].quantity as real + PriceTotal(cart[1..])
  }

  /** Appending an entry adds its subtotal to the total. */
  lemma {:induction false} CartTotalAppend(cart: seq<CartItem>, item: CartItem)
    ensures CartTotal(cart + [item]) == CartTotal(cart) + item.subtotal
  {
    if cart == [] {
      assert cart + [item] == [item];
    } else {
      assert (cart + [item])[1..] == cart[1..] + [item];
      CartTotalAppend(cart[1..], item);
    }
  }

  /** In a priced cart the shown total is the sum of price times quantity. */
  lemma {:induction false} CartTotalOfPriced(cart: seq<CartItem>)
    requires Priced(cart)
    ensures CartTotal(cart) == PriceTotal(cart)
  {
    if cart != [] {
      CartTotalOfPriced(cart[1..]);
    }
  }

  /** An accepted item raises the shown total by its price times its quantity. */
  lemma AddItemRaisesTotal(cart: seq<CartItem>, choices: map<string, Choice>, selection: string,
                           qtyText: string, qty: Option<int>)
    requires AddItem(cart, choices, selection, qtyText, qty).0.Ok?
    ensures CartTotal(AddItem(cart, choices, selection, qtyText, qty).1)
         == CartTotal(cart) + choices[selection].price * qty.value as real
  {
    var c := choices[selection];
    var item := CartItem(c.id, c.name, c.price, qty.value, c.price * qty.value as real);
    var next := AddItem(cart, choices, selection, qtyText, qty).1;
    assert next[..|cart|] == cart;
    assert next[|cart|] == item;
    assert next == next[..|cart|] + [next[|cart|]];
    assert next == cart + [item];
    CartTotalAppend(cart, item);
  }

  /** The entries as `create_order` reads them: id and quantity. */
  function Requests(cart: seq<CartItem>): (reqs: seq<ItemRequest>)
    ensures |reqs| == |cart|
    ensures forall i :: 0 <= i < |cart| ==> reqs[i] == ItemRequest(cart[i].id, cart[i].quantity)
  {
    seq(|cart|, i requires 0 <= i < |cart| => ItemRequest(cart[i].id, cart[i].quantity))
  }

  /** Why `save_order` did not create an order. */
  datatype SaveOrderError = ClientRequired | NoItems | NotSaved

  /** `save_order`: a client name and at least one item are required before
      `create_order` is called with the cart's total. This is `save_order` on
      the all-or-nothing `create_order`, which reports an item it cannot bind
      as a failure; `PartialWrite.SaveOrderAsWritten` is the code as written. */
  function SaveOrder(db: Db, client: string, cart: seq<CartItem>, date: string, fault: Option<nat>)
    : (r: (Result<int, SaveOrderError>, Db))
    ensures client == "" ==> r == (Err(ClientRequired), db)
    ensures client != "" && cart == [] ==> r == (Err(NoItems), db)
    ensures r.0.Ok? <==>
      client != "" && cart != [] && !Interrupted(fault, |cart|)
      && Storable(Requests(cart)) && db.orderSeq < MaxInteger
    ensures r.0.Err? ==> r.1 == db
    ensures r.0.Ok? ==> CreateOrder(db, client, date, CartTotal(cart), Requests(cart), fault) == (Some(r.0.value), r.1)
    ensures r.0.Ok? ==> r.0.value in r.1.orders && r.1.orders[r.0.value].total == CartTotal(cart)
    ensures r.0.Ok? ==> |r.1.items| == |db.items| + |cart|
  {
    if client == "" then (Err(ClientRequired), db)
    else if cart == [] then (Err(NoItems), db)
    else
      var (id, next) := CreateOrder(db, client, date, CartTotal(cart), Requests(cart), fault);
      if id.Some? then (Ok(id.value), next) else (Err(NotSaved), db)
  }

  /** An order saved from a priced cart records the sum of price times
      quantity over its items, one item row per cart entry. */
  lemma {:induction false} SavedTotalIsPriceSum(db: Db, client: string, cart: seq<CartItem>,
                                                 date: string, fault: Option<nat>)
    requires Priced(cart)
    requires SaveOrder(db, client, cart, date, fault).0.Ok?
    ensures var (id, next) := SaveOrder(db, client, cart, date, fault);
      && next.orders[id.value].total == PriceTotal(cart)
      && |next.items| == |db.items| + |cart|
  {
    CartTotalOfPriced(cart);
  }

  // --- order status ---

  /** Why the status form refused. `IdOverflow` is the OverflowError
      `update_order_status` raises for an id SQLite cannot bind; the handler
      catches only ValueError, so it ends the callback. */
  datatype StatusFormError = InvalidId | NoStatus | NotFound | IdOverflow

  /** `save_new_status`: `id` is the outcome of `int` on the id field and
      `status` the combobox text, which the user may also type freely. */
  function SaveNewStatus(db: Db, id: Option<int>, status: string): (r: (Result<(), StatusFormError>, Db))
    ensures r.0.Ok? <==> id.Some? && status != "" && Bindable(id.value) && id.value in db.orders
    ensures r.0 == Err(IdOverflow) <==> id.Some? && status != "" && !Bindable(id.value)
    ensures r.0.Err? ==> r.1 == db
    ensures r.0.Ok? ==> GetOrderStatus(r.1, id.value) == Returns(Some(status))
    ensures r.0.Ok? ==> forall k :: k in db.orders && k != id.value ==>
      GetOrderStatus(r.1, k) == GetOrderStatus(db, k)
  {
    if id.None? then (Err(InvalidId), db)
    else if status == "" then (Err(NoStatus), db)
    else
      match UpdateOrderStatus(db, id.value, status)
      case (Overflows, _) => (Err(IdOverflow), db)
      case (Returns(true), next) => (Ok(()), next)
      case (Returns(false), _) => (Err(NotFound), db)
  }

  /** A status picked from the options keeps every status among the options. */
  lemma OfferedStatusKeepsStatuses(db: Db, id: Option<int>, status: string)
    requires StatusesValid(db)
    requires status in StatusOptions
    ensures StatusesValid(SaveNewStatus(db, id, status).1)
  {
  }

  /** The combobox is editable, so a typed status outside the options is
      stored as it is. */
  lemma TypedStatusIsStored()
    ensures var db := Empty.(orders := map[1 := Order("Maria", "2024-05-01", Pending, 150.0)], orderSeq := 1);
      var (r, next) := SaveNewStatus(db, Some(1), "Enviado");
      && StatusesValid(db)
      && r.Ok?
      && !StatusesValid(next)
  {
  }
}
