/** The business-logic step of the background task: it takes the extractor's
    envelope `{intent, data, reply_text}`, runs the ledger operations the
    intent calls for, and composes the reply text. An exception that escapes
    this step is caught by the background task and no reply is sent; it is `Raised`
    here. */
module Dispatcher {
  import opened Values
  import opened Database

  /** The `data` object of the envelope (`query_text` is never read). */
  datatype Data = Data(customerName: Field<string>, items: Field<seq<LineItem>>)

  /** The extractor's parsed result. */
  datatype Envelope = Envelope(intent: Field<string>, data: Field<Data>, replyText: Field<string>)

  /** What the step ends with: an exception, or the body handed to the
      outbound transport (`final_reply`, which is None when the extractor
      sent `reply_text: null` for an intent without store work). */
  datatype Outcome = Raised | Replied(body: Option<string>)

  const CreateInvoiceIntent := "create_invoice"
  const AddInventoryIntent := "add_inventory"
  const QueryLedgerIntent := "query_ledger"

  predicate IsIntent(env: Envelope, name: string)
  {
    env.intent == Given(name)
  }

  /** `ai_response.get("reply_text", "AI response failed.")`: the fallback
      only for a missing key; an explicit null is passed on as None. */
  function ReplyMsg(env: Envelope): (r: Option<string>)
    ensures env.replyText.Absent? ==> r == Some("AI response failed.")
    ensures r.None? <==> env.replyText.Null?
    ensures env.replyText.Given? ==> r == Some(env.replyText.value)
  {
    env.replyText.OrDefault("AI response failed.")
  }

  /** `data.get("items", [])` where `data = ai_response.get("data", {})`; None
      when `data` or `items` is null, where the call or the loop over it
      raises. */
  function ItemsOf(env: Envelope): (r: Option<seq<LineItem>>)
    ensures r.None? <==> env.data.Null? || (env.data.Given? && env.data.value.items.Null?)
    ensures env.data.Absent? || (env.data.Given? && env.data.value.items.Absent?) ==> r == Some([])
    ensures env.data.Given? && env.data.value.items.Given? ==> r == Some(env.data.value.items.value)
  {
    match env.data
    case Absent => Some([])
    case Null => None
    case Given(d) => d.items.OrDefault([])
  }

  /** `data.get("customer_name", "Unknown")`: the default only for a missing
      key; an explicit null is passed on as None. */
  function CustomerOf(env: Envelope): (r: Option<string>)
    requires !env.data.Null?
    ensures env.data.Absent? || env.data.value.customerName.Absent? ==> r == Some("Unknown")
    ensures r.None? <==> env.data.Given? && env.data.value.customerName.Null?
    ensures env.data.Given? && env.data.value.customerName.Given? ==> r == Some(env.data.value.customerName.value)
  {
    if env.data.Given? then env.data.value.customerName.OrDefault("Unknown") else Some("Unknown")
  }

  // ---------------------------------------------------------------------
  // create_invoice: the sale total

  /** `(item.get("quantity") or 0) * (item.get("price") or 0)`. */
  function LineTotal(it: LineItem): real
  {
    OrZero(it.quantity.OrNone()) * OrZero(it.price.OrNone())
  }

  /** The sale total over the items in order. */
  function SaleTotal(items: seq<LineItem>): real
    decreases |items|
  {
    if |items| == 0 then 0.0 else SaleTotal(items[..|items| - 1]) + LineTotal(items[|items| - 1])
  }

  /** The loop of the `create_invoice` branch that accumulates `total`. */
  method InvoiceTotal(items: seq<LineItem>) returns (total: real)
    ensures total == SaleTotal(items)
  {
    total := 0.0;
    for i := 0 to |items|
      invariant total == SaleTotal(items[..i])
    {
      assert items[..i + 1][..i] == items[..i];
      var qty := OrZero(items[i].quantity.OrNone());
      var price := OrZero(items[i].price.OrNone());
      total := total + qty * price;
    }
    assert items[..|items|] == items;
  }

  /** The total of a sale is the sum of the totals of any split of its items. */
  lemma {:induction false} SaleTotalConcat(a: seq<LineItem>, b: seq<LineItem>)
    ensures SaleTotal(a + b) == SaleTotal(a) + SaleTotal(b)
    decreases |b|
  {
    if |b| == 0 {
      assert a + b == a;
    } else {
      assert (a + b)[..|a + b| - 1] == a + b[..|b| - 1];
      assert (a + b)[|a + b| - 1] == b[|b| - 1];
      SaleTotalConcat(a, b[..|b| - 1]);
    }
  }

  /** A line whose quantity or price is missing or null adds nothing to the
      total, wherever it stands, and raises nothing. */
  lemma SaleTotalSkipsNulls(a: seq<LineItem>, x: LineItem, b: seq<LineItem>)
    requires !x.quantity.Given? || !x.price.Given?
    ensures SaleTotal(a + [x] + b) == SaleTotal(a + b)
  {
    SaleTotalConcat(a + [x], b);
    SaleTotalConcat(a, [x]);
    SaleTotalConcat(a, b);
    assert [x][..0] == [];
  }

  /** A sale whose quantities and prices are all non-negative (or missing)
      has a non-negative total. */
  lemma {:induction false} SaleTotalNonNegative(items: seq<LineItem>)
    requires forall i :: 0 <= i < |items| ==> OrZero(items[i].quantity.OrNone()) >= 0.0
    requires forall i :: 0 <= i < |items| ==> OrZero(items[i].price.OrNone()) >= 0.0
    ensures SaleTotal(items) >= 0.0
    decreases |items|
  {
    if |items| > 0 {
      var last := items[|items| - 1];
      SaleTotalNonNegative(items[..|items| - 1]);
      assert OrZero(last.quantity.OrNone()) * OrZero(last.price.OrNone()) >= 0.0;
    }
  }

  /** Every transaction records the total of its own items. */
  ghost predicate TotalsMatchItems(txns: seq<Txn>)
  {
    forall t :: 0 <= t < |txns| ==> txns[t].totalAmount == SaleTotal(txns[t].items)
  }

  // ---------------------------------------------------------------------
  // add_inventory: one upsert per item

  /** `database.add_inventory(item.get("name"), item.get("quantity"),
      item.get("price", 0))`. It raises exactly when the name has a row and
      the quantity is missing or null, or the price is an explicit null; a
      missing price reads as 0, which keeps the old price of an existing row
      and is stored as 0 on a new one. */
  function UpsertLine(inv: seq<Item>, it: LineItem): (r: Result<Upserted>)
    ensures r.Failure? <==> Find(inv, it.name.OrNone()).Some? && (!it.quantity.Given? || it.price.Null?)
    ensures r.Success? && it.price.Absent? && Find(inv, it.name.OrNone()).Some? ==>
      r.value.row.price == inv[Find(inv, it.name.OrNone()).value].price
    ensures r.Success? && Find(inv, it.name.OrNone()).None? ==>
      r.value.row.quantity == (if it.quantity.Given? then it.quantity.value else 0.0) &&
      r.value.row.price == (match it.price case Absent => Some(0.0) case Null => None case Given(p) => Some(p))
  {
    Upsert(inv, it.name.OrNone(), it.quantity.OrNone(), it.price.OrDefault(0.0))
  }

  /** The committed inventory and the messages after the restock loop has run
      over `items` in order; `failed` when an upsert raised, which ends the
      loop with the earlier upserts already committed. */
  datatype Restock = Restock(inv: seq<Item>, msgs: seq<string>, failed: bool)

  function RestockAll(inv: seq<Item>, items: seq<LineItem>, show: real -> string): (r: Restock)
    ensures !r.failed ==> |r.msgs| == |items|
    ensures r.failed ==> |r.msgs| < |items|
    decreases |items|
  {
    if |items| == 0 then Restock(inv, [], false)
    else
      var prev := RestockAll(inv, items[..|items| - 1], show);
      if prev.failed then prev
      else
        var it := items[|items| - 1];
        match UpsertLine(prev.inv, it)
        case Failure(_) => prev.(failed := true)
        case Success(u) => Restock(u.inv, prev.msgs + [UpdatedMessage(it.name.OrNone(), u.row, show)], false)
  }

  /** Once an upsert has raised, the later items change nothing. */
  lemma {:induction false} RestockAllStopsAtFailure(inv: seq<Item>, items: seq<LineItem>, i: nat, show: real -> string)
    requires i <= |items| && RestockAll(inv, items[..i], show).failed
    ensures RestockAll(inv, items, show) == RestockAll(inv, items[..i], show)
    decreases |items|
  {
    if i < |items| {
      var p := items[..|items| - 1];
      assert p[..i] == items[..i];
      RestockAllStopsAtFailure(inv, p, i, show);
    } else {
      assert items[..i] == items;
    }
  }

  /** The upsert of item k raised after the upserts of the items before it
      had all succeeded. */
  predicate RaisedAt(inv: seq<Item>, items: seq<LineItem>, show: real -> string, k: int)
  {
    0 <= k < |items| &&
    !RestockAll(inv, items[..k], show).failed &&
    UpsertLine(RestockAll(inv, items[..k], show).inv, items[k]).Failure?
  }

  /** A failed restock loop has committed exactly the upserts of the items
      before the one that raised. */
  lemma {:induction false} RestockAllFailure(inv: seq<Item>, items: seq<LineItem>, show: real -> string)
    requires RestockAll(inv, items, show).failed
    ensures exists k :: RaisedAt(inv, items, show, k) &&
                        RestockAll(inv, items, show).inv == RestockAll(inv, items[..k], show).inv
    decreases |items|
  {
    var p := items[..|items| - 1];
    if RestockAll(inv, p, show).failed {
      RestockAllFailure(inv, p, show);
      var k :| RaisedAt(inv, p, show, k) && RestockAll(inv, p, show).inv == RestockAll(inv, p[..k], show).inv;
      assert p[..k] == items[..k];
      assert RaisedAt(inv, items, show, k);
    } else {
      assert RaisedAt(inv, items, show, |items| - 1);
    }
  }

  /** The restock loop never adds a second row for a name. */
  lemma {:induction false} RestockAllKeepsNamesUnique(inv: seq<Item>, items: seq<LineItem>, show: real -> string)
    requires NamesUnique(inv)
    ensures NamesUnique(RestockAll(inv, items, show).inv)
    decreases |items|
  {
    if |items| > 0 {
      var p := items[..|items| - 1];
      RestockAllKeepsNamesUnique(inv, p, show);
      var prev := RestockAll(inv, p, show);
      var it := items[|items| - 1];
      if !prev.failed && UpsertLine(prev.inv, it).Success? {
        UpsertKeepsNamesUnique(prev.inv, it.name.OrNone(), it.quantity.OrNone(), it.price.OrDefault(0.0));
      }
    }
  }

  /** What the restock items add under a name (`item.get("name")`). */
  function Restocked(items: seq<LineItem>, key: Option<string>): real
    decreases |items|
  {
    if |items| == 0 then 0.0
    else
      var it := items[|items| - 1];
      Restocked(items[..|items| - 1], key) + (if it.name.OrNone() == key then OrZero(it.quantity.OrNone()) else 0.0)
  }

  /** After a restock loop that did not raise, the quantity under every name
      is the old one plus everything the items added under it: restocks add
      up, in any number and in any grouping. */
  lemma {:induction false} RestockAllQuantity(inv: seq<Item>, items: seq<LineItem>, show: real -> string, key: Option<string>)
    requires !RestockAll(inv, items, show).failed
    ensures QuantityAt(RestockAll(inv, items, show).inv, key) == QuantityAt(inv, key) + Restocked(items, key)
    decreases |items|
  {
    if |items| > 0 {
      var p := items[..|items| - 1];
      var it := items[|items| - 1];
      RestockAllQuantity(inv, p, show, key);
      var prev := RestockAll(inv, p, show);
      UpsertQuantityAt(prev.inv, it.name.OrNone(), it.quantity.OrNone(), it.price.OrDefault(0.0), key);
    }
  }

  // ---------------------------------------------------------------------
  // The dispatch itself

  /** `handle_background_logic` from the parsed envelope to the reply: the
      store work of each intent and the reply it composes. The receipt path
      comes from the PDF generator and the number rendering from Python's
      `str`; both are parameters. */
  method HandleIntent(ledger: Ledger, env: Envelope, pdfPath: string, show: real -> string) returns (out: Outcome)
    requires ledger.Valid()
    modifies ledger
    ensures ledger.Valid()
    ensures TotalsMatchItems(old(ledger.transactions)) ==> TotalsMatchItems(ledger.transactions)
    ensures IsIntent(env, CreateInvoiceIntent) ==>
      if ItemsOf(env).None? || DeductAll(old(ledger.inventory), ItemsOf(env).value).Failure? then
        out == Raised &&
        ledger.inventory == old(ledger.inventory) && ledger.transactions == old(ledger.transactions)
      else
        var items := ItemsOf(env).value;
        ledger.inventory == DeductAll(old(ledger.inventory), items).value &&
        ledger.transactions == old(ledger.transactions) + [Txn(CustomerOf(env), items, SaleTotal(items), pdfPath)] &&
        out == Replied(Some(StrOf(ReplyMsg(env)) + "\n" + "Transaction recorded. Invoice generated." +
                            "\nInvoice saved at: " + pdfPath))
    ensures IsIntent(env, AddInventoryIntent) ==>
      ledger.transactions == old(ledger.transactions) &&
      if ItemsOf(env).None? then
        out == Raised && ledger.inventory == old(ledger.inventory)
      else
        var run := RestockAll(old(ledger.inventory), ItemsOf(env).value, show);
        ledger.inventory == run.inv &&
        out == if run.failed then Raised else Replied(Some(StrOf(ReplyMsg(env)) + "\n" + Join("\n", run.msgs)))
    ensures IsIntent(env, QueryLedgerIntent) ==>
      ledger.inventory == old(ledger.inventory) && ledger.transactions == old(ledger.transactions) &&
      out == Replied(Some(StrOf(ReplyMsg(env)) + "\n" + SummaryText(old(ledger.inventory), old(ledger.transactions), show)))
    ensures !IsIntent(env, CreateInvoiceIntent) && !IsIntent(env, AddInventoryIntent) &&
            !IsIntent(env, QueryLedgerIntent) ==>
      ledger.inventory == old(ledger.inventory) && ledger.transactions == old(ledger.transactions) &&
      out == Replied(ReplyMsg(env))
  {
    var replyMsg := ReplyMsg(env);
    out := Replied(replyMsg);
    if env.intent == Given(CreateInvoiceIntent) {
      // generate_invoice_pdf(data) and the total loop raise on a null data or items
      var items := ItemsOf(env);
      if items.None? {
        return Raised;
      }
      var total := InvoiceTotal(items.value);
      var dbMsg := ledger.CreateTransaction(CustomerOf(env), items.value, total, pdfPath);
      if dbMsg.Failure? {
        return Raised;
      }
      out := Replied(Some(StrOf(replyMsg) + "\n" + dbMsg.value + "\nInvoice saved at: " + pdfPath));
    } else if env.intent == Given(AddInventoryIntent) {
      var items := ItemsOf(env);
      if items.None? {
        return Raised;
      }
      var msgs: seq<string> := [];
      var i := 0;
      while i < |items.value|
        invariant 0 <= i <= |items.value|
        invariant ledger.Valid()
        invariant ledger.transactions == old(ledger.transactions)
        invariant RestockAll(old(ledger.inventory), items.value[..i], show) ==
                  Restock(ledger.inventory, msgs, false)
      {
        assert items.value[..i + 1][..i] == items.value[..i];
        var it := items.value[i];
        var r := ledger.AddInventory(it.name.OrNone(), it.quantity.OrNone(), it.price.OrDefault(0.0), show);
        if r.Failure? {
          // the upserts of the earlier items stay committed
          RestockAllStopsAtFailure(old(ledger.inventory), items.value, i + 1, show);
          return Raised;
        }
        msgs := msgs + [r.value];
        i := i + 1;
      }
      assert items.value[..i] == items.value;
      out := Replied(Some(StrOf(replyMsg) + "\n" + Join("\n", msgs)));
    } else if env.intent == Given(QueryLedgerIntent) {
      out := Replied(Some(StrOf(replyMsg) + "\n" + ledger.Summary(show)));
    }
  }

  /** A restock of Rice by 10 at 50 followed by a sale of 4 Rice at 60 leaves
      6 in stock at the price 50 (a sale never changes a price) and records
      one transaction of 240. */
  method RestockThenSell() returns (quantity: real, price: Option<real>, total: real, count: nat)
    ensures quantity == 6.0 && price == Some(50.0) && total == 240.0 && count == 1
  {
    var ledger := new Ledger();
    var show := (x: real) => "";
    var restock := [LineItem(Given("Rice"), Given(10.0), Given(50.0))];
    var o1 := HandleIntent(ledger, Envelope(Given(AddInventoryIntent), Given(Data(Absent, Given(restock))), Given("")), "", show);
    assert restock[..0] == [];
    assert ledger.inventory == [Item(Some("Rice"), 10.0, Some(50.0))];
    var sale := [LineItem(Given("Rice"), Given(4.0), Given(60.0))];
    var o2 := HandleIntent(ledger, Envelope(Given(CreateInvoiceIntent), Given(Data(Absent, Given(sale))), Given("")), "", show);
    assert sale[..0] == [];
    assert ledger.inventory == [Item(Some("Rice"), 6.0, Some(50.0))];
    quantity, price := ledger.inventory[0].quantity, ledger.inventory[0].price;
    total, count := ledger.transactions[0].totalAmount, |ledger.transactions|;
  }
}
