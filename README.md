# Vyapar AI ledger and intent dispatcher, in Dafny

Vyapar AI is a WhatsApp bookkeeping assistant for small shops. It turns an
operator's message into one of three actions: record a sale, restock
inventory, or answer a ledger question. It then replies with a confirmation.
This project models two parts of it:

- **The ledger store** (`database.py`). It has an inventory table, keyed by
  item name, with a quantity and a price per row. It also has an append-only
  transaction log. The store offers three operations:
  - `add_inventory` is an upsert. It adds to the quantity, and it overwrites
    the price only when the new price is positive.
  - `create_transaction` deducts the sold quantities, then appends one
    transaction. It commits once, so the call is all-or-nothing.
  - `get_ledger_summary` reports total sales, the number of transactions and
    the stock levels.
- **The intent dispatcher** (the business-logic part of
  `handle_background_logic` in `main.py`). It reads the extractor's envelope
  `{intent, data, reply_text}`, calls the store for the intent, and composes
  the reply text.

## How the model is built

- `values.dfy` (module `Values`) holds the Python-level values the core
  handles:
  - `Field` is a JSON key that is missing, present as `null`, or present
    with a value. `dict.get(k)` and `dict.get(k, default)` treat these cases
    differently.
  - `Result` carries the exceptions the core raises (`KeyError`,
    `TypeError`).
  - It also has the f-string rendering of None (`StrOf`), `str.join`
    (`Join`) and decimal rendering of an int (`NatToString`).
- `database.dfy` (module `Database`) holds the store.
  - Class `Ledger` keeps the committed state as two fields that its methods
    reassign: `inventory: seq<Item>` and `transactions: seq<Txn>`.
  - `AddInventory` and `CreateTransaction` are imperative. They change a
    session copy and write it back only at the commit point.
  - `CreateTransaction` loops over the items. Its loop invariant ties the
    session copy to the specification function `DeductAll`.
  - `Upsert`, `DeductAll`, `TotalSales` and `SummaryText` are the
    specification functions. The lemmas state what they promise.
  - `Valid()` is the class invariant: no two rows share a name.
- `dispatcher.dfy` (module `Dispatcher`) holds `HandleIntent`. It is an
  imperative method over a `Ledger`.
  - The sale total is accumulated in a loop (`InvoiceTotal`), proved equal
    to `SaleTotal`.
  - The restock branch calls `Ledger.AddInventory` once per item, in order.
    Its loop invariant ties the committed inventory and the collected
    messages to `RestockAll`.
  - An exception that escapes the business logic is the outcome `Raised`.
    The background task catches it and sends no reply.

Behaviour of the code that the model keeps:

- **Lookup by name.** `filter(InventoryItem.name == name)` renders a None
  name as `IS NULL`. So an item without a name finds the row whose name is
  NULL, and `Find` compares `Option` values.
- **Null fields on insert.** SQLAlchemy leaves a None attribute out of the
  INSERT. A new row created with quantity None therefore stores the column
  default 0.0. A None price stays NULL.
- **`add_inventory` can raise.** On an existing row, a None quantity fails
  at `item.quantity += qty` and a None price fails at `price > 0`. Both are
  `TypeError`, and nothing is committed.
- **`create_transaction` can raise.**
  - A line with no `name` key raises `KeyError` at `i['name']`, whether or
    not a row would match.
  - A line with an explicit null quantity raises `TypeError`, but only when
    its name matches a row.
  - A missing quantity deducts 0.
  - Names without a row are skipped. A sale never creates a row and never
    changes a price.
  - A repeated name deducts again from the same row. The session's identity
    map returns the already-changed object.
- **The sale total.** It is `Σ (quantity or 0) × (price or 0)`, which never
  raises. It is computed in `main.py` and stored as given; the store does
  not recompute it.
- **The restock intent.** Each upsert commits on its own. If item k raises,
  items 0..k-1 stay committed, the later items are not processed, and no
  reply is sent.
- **A null `data` or `items`.** A null `data`, or a null `items`, makes the
  `create_invoice` and `add_inventory` branches raise. A missing `data`
  reads as `{}`, and missing `items` as `[]`.
- **Customer default.** The customer defaults to "Unknown" only when the
  key is missing; an explicit null is passed on as None.
- **Reply text default.** The reply text defaults to "AI response failed."
  only when the key is missing. For any other intent the reply is exactly
  that value, which may be None.

Places where a reader might expect other behaviour than the code has; the
model follows the code:

- **Price after a sale.** One might expect a sale at a new price to update
  the item's price: a restock of Rice (10 at 50) followed by a sale (4 at
  60) would then leave the price at 60. The code never touches a price on
  a sale, so the price stays 50. `RestockThenSell` proves 6 units at 50 and
  one transaction of 240.
- **Missing quantity or price.** One might expect a missing or null
  quantity or price to read as 0 everywhere. In the code that holds only in
  part:
  - The sale total reads a missing or a null quantity or price as 0.
  - A deduction reads a missing quantity as 0. A null quantity raises
    `TypeError`, but only when the line's name matches a row.
  - A restock reads a missing price as 0. It raises only on an existing
    row, when the quantity is missing or null or the price is null.
  - A new row created by a restock with a missing or null quantity stores
    the column default 0.0.
- **Customer default.** A sale without a customer is recorded under
  "Unknown", not under a generic "cash customer".
- **Summary prefix.** The summary starts with "Total Sales: Rs.", with the
  currency, not with a bare "Total Sales:".
- **Rows created by a sale.** A sale of an item that has no row does not
  create one; the line is skipped.

## Model

| member | source | states |
|---|---|---|
| `Database.Find` | database.py:50 | the lookup returns the first row whose name equals the key (None matches a NULL name); it returns nothing exactly when no row has that name |
| `Database.Upsert` | database.py:47-58 | on an existing row: the quantity becomes old + qty, the price is replaced iff the new price is > 0, no other row changes, the row count stays the same; on a missing name: exactly one row is appended, holding the given quantity (None reads as 0) and price, even a price of 0; it raises TypeError exactly when the row exists and the quantity or the price is None |
| `Database.UpsertKeepsNamesUnique` | database.py:50-56 | an upsert never creates a second row for a name that already has one |
| `Database.UpsertQuantityAt` | database.py:50-56 | an upsert adds its quantity under its own name and leaves the quantity under every other name unchanged |
| `Database.UpsertQuantity` | database.py:50-56 | a restock with a quantity and a price always succeeds, adds exactly that quantity, and adds a row only for a new name |
| `Database.RestockTwiceAsOnce` | database.py:50-56 | restocking q1 then q2 gives the same quantity and the same number of rows as one restock of q1 + q2 |
| `Database.RestockReplyShowsRow` | database.py:52-58 | the reply to a restock of an existing row, "Updated {name}: Qty {quantity}, Price {price}", reports the row after the upsert: the old quantity plus the restocked one, and the new price only when it is positive, else the old one |
| `Database.Ledger.constructor` | database.py:42-43 | a fresh store has no inventory rows and no transactions |
| `Database.Ledger.AddInventory` | database.py:47-60 | the committed inventory becomes `Upsert`'s result and the reply is "Updated {name}: Qty {quantity}, Price {price}" for the row; on an exception the inventory is unchanged; transactions never change; names stay unique |
| `Database.Deduct` | database.py:68-70 | one iteration of the deduction loop raises exactly when the line has no `name` key (`KeyError`), or its name matches a row and its quantity is null (`TypeError`); when it does not raise, no row is added or removed |
| `Database.DeductStep` | database.py:68-70 | one line of a sale raises exactly when it has no name key, or it matches a row and its quantity is null; otherwise only the first row with its name loses its quantity |
| `Database.DeductAll` | database.py:67-70 | the deduction loop over a sale's lines in order never adds or removes a row, and a sale with no lines leaves the inventory as it was |
| `Database.DeductAllQuantity` | database.py:67-70 | after the deduction loop no row is added or removed and no name or price changes; each row loses the sum of the quantities of the lines with its name (repeated names deduct repeatedly; a missing quantity deducts 0) |
| `Database.DeductAllUntouched` | database.py:67-70 | a row whose name no line mentions comes out unchanged |
| `Database.DeductAllSucceedsIff` | database.py:67-70 | the deduction loop raises exactly when some line cannot be deducted from the inventory as it was before the sale |
| `Database.Ledger.CreateTransaction` | database.py:62-83 | on success the inventory is the deduction loop's result and exactly one transaction is appended, holding the customer, the items and the `total` argument as given, and the reply is the fixed confirmation; on an exception it is the one the deduction loop raises (`KeyError` or `TypeError`), and neither the inventory nor the log changes |
| `Database.TotalSalesConcat` | database.py:88-89 | total sales is additive over the log, so each appended transaction adds its own amount |
| `Database.SummaryListsEveryRow` | database.py:91-94 | the summary (`SummaryText`, which `Ledger.Summary` reads from the committed state) contains every inventory row's "- {name}: {quantity}" line |
| `Values.JoinHasParts` | database.py:92 | every part is a piece of the string `"\n".join` builds from the parts |
| `Database.SummaryAfterSale` | database.py:88-94 | once a sale is recorded, the summary (`SummaryText`, "Total Sales: Rs. {total} ({count} txns)." then the stock section) reports the old total plus the sale's amount and one more transaction, with the same stock section |
| `Database.StockSectionEmptyIff` | database.py:91-92 | the summary says "No inventory recorded." exactly when the inventory is empty |
| `Values.NatToString` | database.py:94 | the transaction count is rendered as decimal digits without a leading zero |
| `Values.NatToStringRoundTrip` | database.py:94 | the rendered count reads back as the count |
| `Dispatcher.ReplyMsg` | main.py:35 | the reply text is "AI response failed." when the key is missing, None exactly when it is null, and the given text otherwise |
| `Dispatcher.ItemsOf` | main.py:34-45 | the items are None (the branch raises) exactly when `data` or `items` is null; `[]` when `data` or `items` is missing; the given list otherwise |
| `Dispatcher.CustomerOf` | main.py:52 | the customer is "Unknown" when `data` or the key is missing, None exactly when the key is null, and the given name otherwise |
| `Dispatcher.SaleTotalNonNegative` | main.py:44-48 | a sale whose quantities and prices are non-negative or missing has a non-negative total |
| `Dispatcher.InvoiceTotal` | main.py:44-48 | the accumulated total equals the sale total over the items in order |
| `Dispatcher.SaleTotalConcat` | main.py:44-48 | the sale total is the sum of the totals of any split of the items |
| `Dispatcher.SaleTotalSkipsNulls` | main.py:46-48 | a line with a missing or null quantity or price contributes 0 wherever it stands |
| `Dispatcher.UpsertLine` | main.py:63 | one restock call raises exactly when the name has a row and the quantity is missing or null, or the price is an explicit null; a missing price keeps an existing row's price; a new row stores the quantity (0 when missing or null) and the price (0 when missing, NULL when null) |
| `Dispatcher.RestockAll` | main.py:61-64 | a restock loop that does not raise yields one message per item; one that raises yields fewer |
| `Dispatcher.RestockAllStopsAtFailure` | main.py:62-64 | after an upsert raises, the later items change nothing |
| `Dispatcher.RestockAllFailure` | main.py:62-64 | a failed restock loop has committed exactly the upserts before the item that raised |
| `Dispatcher.RestockAllKeepsNamesUnique` | main.py:62-64 | a sequence of restocks never creates a second row for a name |
| `Dispatcher.RestockAllQuantity` | main.py:62-64 | after restocks that do not raise, the quantity under each name is the old one plus the sum of the quantities the items gave under that name |
| `Dispatcher.HandleIntent` | main.py:33-70 | `create_invoice`: one store call with the computed total, the customer defaulting to "Unknown", and the reply "{reply}\n{db_msg}\nInvoice saved at: {path}", or nothing changed and no reply; `add_inventory`: one upsert per item in order with the price defaulting to 0, and the reply "{reply}\n" plus the messages joined by "\n"; `query_ledger`: nothing changed, and the reply "{reply}\n{summary}"; any other intent: nothing changed, and the reply is `reply_text` or "AI response failed."; a missing `data` or `items` means no items; every stored total equals the total of its own items |
| `Dispatcher.RestockThenSell` | main.py:40-65 | a restock of 10 Rice at 50 followed by a sale of 4 Rice at 60 leaves 6 Rice at price 50 and one transaction of 240 |

## Left out

- Intent extraction (media download, upload to the language-model backend,
  its polling loop, the model call and JSON parsing) is not part of this
  model. The dispatcher takes the parsed envelope as its input.
- PDF rendering and file writing are not part of this model. The receipt
  path is a string parameter of `HandleIntent`, and its line-total
  arithmetic repeats `main.py`'s. If the generator itself fails on a null
  `data` or `items`, that is the same `Raised` outcome the model gives.
- The web layer is not modelled: the FastAPI webhook, the health check,
  background-task scheduling, the Twilio send, the timing output and the
  top-level exception handler. `Raised` stands for an exception that
  handler swallows.
- Engine and session setup, URL rewriting and directory creation are not
  modelled. The store is held in memory.
- The in-memory store never fails on its own. A connection or commit error
  of the real database would also end in `Raised` with nothing committed by
  that call, and the model does not produce it.
- Concurrent background tasks are not modelled. They can lose updates
  through unlocked read-modify-write, and a sequential model cannot show
  that.
- Python floats are exact `real`s here, so the model has no rounding.
- Number formatting in replies (`Qty 10.0` and the float sum) is a
  parameter `show: real -> string`. Only the transaction count is rendered
  concretely. One `show` cannot tell Python's int `0` from `sum([])` on an
  empty log apart from a float sum of `0.0`, so the model gives both the
  same summary text.
- The stock listing takes the rows in insertion order. The source's query
  has no `ORDER BY`, so the database may return them in another order.
- Row ids, the `date` timestamp and the JSON serialisation of `items_json`
  are not kept. A transaction stores the items sequence itself.
- `get_ledger_summary`'s `period` argument is never read, so it is not
  modelled.
- Extractor values of the wrong type are not modelled: an item that is not
  an object, or a quantity that is a string. Items are records, and
  quantities and prices are numbers or null.
- The Twilio call with a None body (`reply_text: null` with an intent that
  does no store work) is not modelled. The model stops at handing the
  body to the transport.
