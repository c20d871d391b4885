# Marcenaria Pica Pau: persistence layer and order validation

A Dafny model of the small desktop application a woodworking shop uses to
manage logins, its product catalogue, customer orders and their status.
There are two parts:

- `DatabaseManager` (`Marcenaria2/database.py`). Its four SQLite tables are
  one immutable `Db` value. `users` maps a username to its password.
  `products` maps an id to name, description and price. `orders` maps an id
  to client, date, status and total. `items` is the sequence of
  `order_items` rows. Two counters stand for the `sqlite_sequence` entries
  of the AUTOINCREMENT tables. Every method is a pure function: a method
  that writes returns `(result, next state)`, and a method that reads
  returns the rows.
- The checks and arithmetic inside `MarcenariaApp` (`Marcenaria2/app.py`),
  with no widgets. This covers registration and login, the add-product
  form, building an order's item list with its running total, saving the
  order, and the status form.

Modules: `Wrappers` (Option, Result), `Binding` (the 64-bit INTEGER range
Python's sqlite3 module can bind, and the OverflowError a wider `int`
raises), `Schema` (the tables and their invariant `Wf`), `Keys` (table scans in id order), `Database` (the
methods), `Report` (`get_full_report` and its join), `PartialWrite`
(a connection with committed and pending rows, and `create_order`
exactly as written), `Machine` (the methods that write, as
a state machine, with the invariants every run keeps), `Status` (the
offered statuses) and `App` (the handlers).

Behaviours of the code worth knowing:
- `update_product` returns true when no product has the id. It never reads
  the row count.
- No operation rejects a negative price. `float` is the only check.
- `delete_product` removes a product that order items still reference.
  Those items then drop out of the report, because the report uses an inner
  join.
- `create_order` is not atomic. This is recorded under "Findings". The rest
  of the model uses the all-or-nothing version.
- An `int` parameter outside SQLite's signed 64-bit INTEGER range cannot be
  bound, and the OverflowError it raises is caught by no `except` clause.
  `get_product`, `update_product`, `delete_product`, `get_order_status` and
  `update_order_status` raise for such an id. In `create_order` it is an item
  quantity that raises, after the order row was already inserted.
- An AUTOINCREMENT table whose sequence has reached the largest INTEGER
  refuses further inserts with SQLITE_FULL, which `add_product` and
  `create_order` catch and report as a failure.
- The status combobox can be edited. A status the user types is stored as
  typed (`App.TypedStatusIsStored`). Only a status picked from the five
  options keeps every order's status among them.

## Model

| member | source | states |
|---|---|---|
| Database.CreateTables | Marcenaria2/database.py:12-35 | A missing database starts empty and well-formed. An existing one is left exactly as it was (CREATE TABLE IF NOT EXISTS). |
| Database.CreateTablesIdempotent | Marcenaria2/database.py:12-35 | Creating the tables again changes nothing, so it is safe on every start. |
| Database.CheckUserExists | Marcenaria2/database.py:38-40 | Returns a row exactly when the username is registered. The row is that user's username and password. |
| Database.AddUser | Marcenaria2/database.py:42-49 | The username is the primary key. A username already present is refused with false, and nothing changes. Otherwise the pair is inserted, no other user changes, and no other table changes. |
| Database.AddUserThenCheck | Marcenaria2/database.py:38-53 | After a successful add_user, check_user_exists returns the new row and verify_user accepts exactly its password. After a refused one, both answer as before. |
| Database.VerifyUser | Marcenaria2/database.py:51-53 | Returns a row exactly when the username is registered with exactly that password. |
| Database.AddProduct | Marcenaria2/database.py:56-63 | A price that `float` rejects, or an id sequence at the largest INTEGER, gives false and leaves the state unchanged. Otherwise one product is inserted under the id after the sequence. That id is above every existing id in a well-formed state. The product stores the given name, description and price, and every other product is untouched. |
| Database.GetAllProducts | Marcenaria2/database.py:65-67 | Each row is a product's current fields. Rows come in strictly ascending id order. In a well-formed state every product appears. |
| Database.AddProductThenList | Marcenaria2/database.py:56-67 | In a well-formed state, get_all_products after a successful add_product is the old listing followed by exactly one new row: the fresh id with the given name, description and price. A refused add_product leaves the listing as it was. |
| Database.GetProduct | Marcenaria2/database.py:69-71 | An id that cannot be bound raises. Otherwise it returns the product's fields exactly when the id exists, and None otherwise. |
| Database.GetProductAfterWrites | Marcenaria2/database.py:56-89 | get_product returns the fields add_product or update_product just wrote, and returns None for an id delete_product just removed. For an id that cannot be bound, update, delete and get all raise. |
| Database.UpdateProduct | Marcenaria2/database.py:73-80 | An unparsable price gives false and changes nothing, even for an id that cannot be bound, because `float` runs first. Otherwise an unbindable id raises and changes nothing. With a bindable id it returns true whether or not the id exists. If the id exists, all three fields are rewritten. No other product changes, and an absent id leaves the state unchanged. |
| Database.DeleteProduct | Marcenaria2/database.py:82-89 | An id that cannot be bound raises and deletes nothing. Otherwise it returns true exactly when the product existed, and afterwards no product has the id. Other products, the id sequence and every order item are unchanged, and referencing items are not checked. |
| Database.CreateOrder | Marcenaria2/database.py:92-105 | All or nothing. A storage error, an exhausted id sequence or an item whose product id or quantity cannot be bound returns None with the state unchanged. Otherwise there is one new order with a fresh id above every existing one, status Pendente, the given client, date and total. One item row per request is appended, in request order, carrying that id. Product ids are not checked. |
| Database.GetOrderStatus | Marcenaria2/database.py:107-110 | An id that cannot be bound raises. Otherwise it returns the order's status, or None when no order has the id. |
| Database.UpdateOrderStatus | Marcenaria2/database.py:112-115 | An id that cannot be bound raises and changes nothing. Otherwise it returns true exactly when the order exists. Only that order's status changes, to any given text. A missing id leaves the state unchanged. |
| Database.StatusReadBack | Marcenaria2/database.py:107-115 | get_order_status returns the status update_order_status just wrote. When the update did not apply, it answers as before. |
| Keys.KeysUp | Marcenaria2/database.py:65-67 | The scan by rowid lists each key between 1 and the bound exactly once, in strictly ascending order. |
| Keys.KeysDown | Marcenaria2/database.py:118 | ORDER BY id DESC lists each key between 1 and the bound exactly once, in strictly descending order. |
| Report.Lines | Marcenaria2/database.py:123-129 | The joined item query returns at most one line per item row. |
| Report.GetFullReport | Marcenaria2/database.py:117-131 | Orders appear in strictly descending id order, each with its own row. Each order's lines are its joined item rows. In a well-formed state every order appears. |
| Report.LinesAppend | Marcenaria2/database.py:123-129 | The join of a concatenation of item rows is the join of each part, in order. |
| Report.LinesOfOtherOrders | Marcenaria2/database.py:127 | Item rows of other orders contribute no line (WHERE oi.order_id = ?). |
| Report.LinesOfRequests | Marcenaria2/database.py:98-100 | A new order's rows yield one line per request, with the product's name and the quantity, when every requested product exists. |
| Report.LinesOfMissingProducts | Marcenaria2/database.py:32-33 | A row whose product does not exist is stored, because foreign keys are not enforced, but the inner join gives it no line. |
| Report.NewOrderInReport | Marcenaria2/database.py:92-131 | After a successful create_order whose products exist, the report shows the new order with exactly its requested items, in request order. |
| Report.DeleteDropsLines | Marcenaria2/database.py:82-86 | Deleting a product removes from every order's lines exactly the rows that reference it. |
| Report.DeleteProductReport | Marcenaria2/database.py:82-131 | delete_product leaves orders, totals and item rows untouched, while the report loses the deleted product's lines. An id that cannot be bound leaves the report as it was. |
| PartialWrite.CreateOrderAsWritten | Marcenaria2/database.py:92-105 | As written, on a connection. When every INSERT succeeds it agrees with CreateOrder and commits. Otherwise nothing is committed. The order row, with its client, date, Pendente status and total, stays pending together with exactly the item rows before the failing INSERT. It returns None for a storage error and raises for an item it cannot bind. |
| PartialWrite.FirstUnbindable | Marcenaria2/database.py:98-100 | The first item whose product id or quantity cannot be bound: every earlier one can be. It is past the end exactly when every item can be bound. |
| PartialWrite.FirstFailing | Marcenaria2/database.py:95-100 | The first failing INSERT of create_order. There is none exactly when there is no storage error, every item can be bound and the id sequence is not exhausted. An item's bind failure is never the order row. |
| PartialWrite.AddUserAsWritten | Marcenaria2/database.py:42-49 | On a connection: a new username is inserted and committed together with everything already pending. A duplicate username changes nothing and commits nothing. |
| PartialWrite.SaveOrderAsWritten | Marcenaria2/app.py:336-348 | save_order on create_order as written. The handler raises exactly when an item cannot be bound before any other INSERT fails. On success it agrees with the all-or-nothing SaveOrder and commits. |
| PartialWrite.PartialOrderCommittedLater | Marcenaria2/database.py:95-105 | A quantity of 2^63 passes the popup. save_order then raises, with the order row pending and the file unchanged, so closing the connection would discard it. The next add_user commits the order row with none of its items. The all-or-nothing version reports the order as not saved and changes nothing. |
| Machine.ApplyPreservesWf | Marcenaria2/database.py:20-33 | Every write keeps ids within their AUTOINCREMENT sequences and every item owned by an existing order. |
| Machine.RunPreservesWf | Marcenaria2/database.py:20-33 | Any run of writes from a well-formed state stays well-formed. |
| Machine.ReachableWf | Marcenaria2/database.py:12-35 | Every state reachable from a freshly created database is well-formed. |
| Machine.ApplyIsMonotone | Marcenaria2/database.py:20-30 | The id sequences never decrease, so a deleted id is never reused. Item rows are only appended. |
| Machine.ApplyKeepsOrderTotals | Marcenaria2/database.py:73-77 | No write changes an existing order's client, date or total. A product price edit does not change historical totals. |
| Machine.ApplyKeepsStatuses | Marcenaria2/database.py:95-96 | Statuses stay among the offered options, as long as every status written is one of them. |
| App.RegisterUser | Marcenaria2/app.py:68-85 | Registration succeeds exactly when both fields are filled, the confirmation matches and the username is new. Each refusal leaves the users unchanged, and the first failing check decides the error. On success the user is added with that password. |
| App.Login | Marcenaria2/app.py:87-95 | Login succeeds exactly when the stored password for the username matches. |
| App.RegisterThenLogin | Marcenaria2/app.py:68-95 | A user who registered can log in with that password and with no other. |
| App.SaveProduct | Marcenaria2/app.py:158-167 | An empty name or price text is refused before add_product is called. Otherwise a product is added exactly when add_product succeeds, with the fresh id and the given fields. |
| App.SaveProductThenList | Marcenaria2/app.py:158-167 | A product saved from the form keeps the state well-formed. It is the one new row of get_all_products, and get_product reads its fields back. A refusal leaves the listing as it was. |
| App.Choices | Marcenaria2/app.py:288 | The popup offers one choice per catalogue row, keyed by its label. Each choice carries the id, name and price of a row with that label. There is no choice exactly when there is no row. |
| App.ChoicesOfCatalogue | Marcenaria2/app.py:282-288 | In a well-formed state the popup offers no choice exactly when no product exists. |
| App.AddItem | Marcenaria2/app.py:301-332 | An item is accepted exactly when products exist, both fields are filled, the selection is known and the quantity parses to a positive integer that a float can hold. A larger quantity makes `price * quantity` raise. A refusal leaves the list unchanged. An acceptance appends exactly one entry with subtotal = price × quantity and keeps the list priced. |
| App.CartTotalAppend | Marcenaria2/app.py:272-274 | Appending an entry raises the displayed total by its subtotal. |
| App.CartTotalOfPriced | Marcenaria2/app.py:320-342 | For a priced list, the sum of subtotals equals the sum of price × quantity. |
| App.AddItemRaisesTotal | Marcenaria2/app.py:320-326 | An accepted item raises the displayed total by its price times its quantity. |
| App.SaveOrder | Marcenaria2/app.py:336-348 | On the all-or-nothing create_order. An empty client or empty item list is refused before create_order is called. It succeeds exactly when create_order does, so never for a quantity SQLite cannot bind. The created order carries the sum of subtotals shown by update_total, and one item row per entry. Any refusal leaves the state unchanged. |
| App.SavedTotalIsPriceSum | Marcenaria2/app.py:342-343 | A saved order's total is the sum of price × quantity over its entries, with one item row per entry. |
| App.SaveNewStatus | Marcenaria2/app.py:376-388 | The status is saved exactly when the id parses and can be bound, a status is given and the order exists. An id that cannot be bound raises out of the handler. Afterwards get_order_status returns the new status, and no other order's status changes. |
| App.OfferedStatusKeepsStatuses | Marcenaria2/app.py:362-382 | Saving a status picked from the five options keeps every order's status among them. |
| App.TypedStatusIsStored | Marcenaria2/app.py:362-382 | A typed status outside the five options is accepted and stored. |

## Findings

| source | as written | input that shows it | evidently intended | confidence | as-written member | corrected member |
|---|---|---|---|---|---|---|
| Marcenaria2/database.py:92-105 | `create_order` commits once after the last INSERT and never rolls back. A storage error is caught and reported as None. The OverflowError of an item quantity outside 64 bits is not caught. Either way the INSERTs that already ran stay pending on the connection. | An order with one item of quantity 9223372036854775808 (2^63), which `confirm_add` accepts, then any `add_user`. `save_order` raises after the order row was inserted. The `add_user` commit makes that order row durable with no items. | The order row and all its items are committed together, or none of them are. | medium; not executed | PartialWrite.CreateOrderAsWritten, PartialWrite.PartialOrderCommittedLater | Database.CreateOrder |

## Left out

- The widgets, message boxes, text formatting and background image are left out. The product popup's label f-string is the `labelOf` parameter of `App.Choices`, and `App.AddItem` takes the resulting map.
- The cursor, the SQL text and the `print` calls in the except branches are left out. None of them affects a result.
- The connection appears only in `PartialWrite`, as committed and pending rows with `close()` keeping the committed ones. Elsewhere each method either commits or changes nothing, so one `Db` stands for both.
- `datetime.date.today()` is the `date` parameter.
- Prices and totals are Dafny `real`, not binary floats. Python's float rounding in `sum` is not modelled. Neither is a NaN price, which SQLite stores as NULL and so rejects under NOT NULL, nor a `price * quantity` that overflows to infinity. Only the OverflowError of converting a quantity too large for a float is modelled.
- `float(...)` and `int(...)` on field text are abstract. Callers pass their outcome as an `Option` (None for ValueError).
- Storage errors other than a failing INSERT in `create_order` and an exhausted AUTOINCREMENT sequence are not modelled: a locked or full database in the single-statement methods, or a failing commit. So `App.RegisterUser`'s `NotRegistered` branch cannot be reached in the model.
- The `order_items` sequence is not tracked, so its exhaustion, which would fail an item INSERT, is not modelled.
- PartialWrite.CreateOrderAsWritten: a storage error fails only its own statement. For errors such as SQLITE_FULL, SQLITE_IOERR or SQLITE_BUSY, SQLite may instead roll back the whole transaction. The model does not cover that case. An unbindable quantity never reaches SQLite, so it always leaves the earlier INSERTs pending.
- App.SaveOrder: is built on the all-or-nothing `create_order`, so a quantity of 2^63 or more gives `NotSaved`. As written, `save_order` raises instead and leaves the order row pending. `PartialWrite.SaveOrderAsWritten` models that behaviour.
- Database.CreateTables: treats the schema as all four tables present or none. A file holding only some of the tables is not modelled.
- Database.GetAllProducts: promises that every product appears only for well-formed states, where every id lies between 1 and the sequence. Every reachable state is well-formed (`Machine.ReachableWf`).
- Report.GetFullReport: promises that every order appears only for well-formed states, for the same reason.
- The product list and the item query have no ORDER BY. The model assumes SQLite's plain rowid scan: products in id order, item lines in insertion order.
- `refresh_product_list` only calls `get_all_products` and formats its rows. The edit-product and delete-product forms and `load_order_status` parse an id with `int` and forward it to `get_product`, `update_product`, `delete_product` or `get_order_status`, which are modelled. The edit form does not re-check an empty name. These handlers catch only ValueError, so an id that cannot be bound raises out of them.
- Plaintext passwords are stored and compared as they are, as in the source.
