/** The ledger store: the `inventory` table (one row per item name, with its
    stock quantity and last known unit price) and the append-only
    `transactions` table, with the three operations the dispatcher calls.
    Each operation runs in its own session and commits at most once, so an
    exception inside it leaves the committed state as it was. */
module Database {
  import opened Values

  /** One row of the inventory table. A NULL name is kept as None. The
      quantity is never NULL: a None quantity is left out of the INSERT and
      the column default 0.0 is stored instead. The price column has no
      default, so a None price stays NULL. */
  datatype Item = Item(name: Option<string>, quantity: real, price: Option<real>)

  /** One entry of `items` as the extractor lists it; a transaction keeps the
      list exactly as it was given. */
  datatype LineItem = LineItem(name: Field<string>, quantity: Field<real>, price: Field<real>)

  /** One row of the transactions table (its id and timestamp are not kept). */
  datatype Txn = Txn(customerName: Option<string>, items: seq<LineItem>, totalAmount: real, pdfPath: string)

  ghost predicate NamesUnique(inv: seq<Item>)
  {
    forall i, j :: 0 <= i < j < |inv| ==> inv[i].name != inv[j].name
  }

  ghost predicate SameNames(a: seq<Item>, b: seq<Item>)
  {
    |a| == |b| && forall j :: 0 <= j < |a| ==> a[j].name == b[j].name
  }

  /** `query(InventoryItem).filter(InventoryItem.name == key).first()`: the
      index of the first row with that name. Comparing with None renders as
      `IS NULL`, so a None key finds a row whose name is NULL. */
  function Find(inv: seq<Item>, key: Option<string>): (r: Option<nat>)
    ensures r.Some? ==> r.value < |inv| && inv[r.value].name == key
    ensures r.Some? ==> forall j :: 0 <= j < r.value ==> inv[j].name != key
    ensures r.None? <==> forall j :: 0 <= j < |inv| ==> inv[j].name != key
    decreases |inv|
  {
    if |inv| == 0 then None
    else if inv[0].name == key then Some(0)
    else match Find(inv[1..], key)
      case None => None
      case Some(k) => Some(k + 1)
  }

  /** The lookup sees only the names of the rows. */
  lemma {:induction false} FindSameNames(a: seq<Item>, b: seq<Item>, key: Option<string>)
    requires SameNames(a, b)
    ensures Find(a, key) == Find(b, key)
    decreases |a|
  {
    if |a| > 0 && a[0].name != key {
      FindSameNames(a[1..], b[1..], key);
    }
  }

  /** A row with the name and none before it is what the lookup returns. */
  lemma FindFirst(inv: seq<Item>, key: Option<string>, k: nat)
    requires k < |inv| && inv[k].name == key
    requires forall j :: 0 <= j < k ==> inv[j].name != key
    ensures Find(inv, key) == Some(k)
  {
  }

  /** The stock quantity recorded under a name; 0 when there is no row. */
  function QuantityAt(inv: seq<Item>, key: Option<string>): real
  {
    match Find(inv, key)
    case None => 0.0
    case Some(k) => inv[k].quantity
  }

  // ---------------------------------------------------------------------
  // add_inventory

  /** The inventory after an upsert, and the row the upsert left behind. */
  datatype Upserted = Upserted(inv: seq<Item>, row: Item)

  /** `add_inventory(name, qty, price)`. An existing row gains `qty` and takes
      the new price only when it is positive; a missing row is created with
      the given quantity and price, whatever the price. On an existing row a
      None quantity (`+=`) or a None price (`> 0`) raises TypeError. */
  function Upsert(inv: seq<Item>, name: Option<string>, qty: Option<real>, price: Option<real>): (r: Result<Upserted>)
    ensures r.Success? <==> Find(inv, name).None? || (qty.Some? && price.Some?)
    ensures r.Failure? ==> r.error == TypeError
    ensures r.Success? && Find(inv, name).Some? ==>
      var k := Find(inv, name).value;
      var u := r.value;
      |u.inv| == |inv| && u.row == u.inv[k] &&
      u.row.name == name &&
      u.row.quantity == inv[k].quantity + qty.value &&
      u.row.price == (if price.value > 0.0 then price else inv[k].price) &&
      (forall j :: 0 <= j < |inv| && j != k ==> u.inv[j] == inv[j])
    ensures r.Success? && Find(inv, name).None? ==>
      r.value.row == Item(name, OrZero(qty), price) && r.value.inv == inv + [r.value.row]
  {
    match Find(inv, name)
    case Some(k) =>
      if qty.None? || price.None? then Failure(TypeError)
      else
        var row := inv[k].(quantity := inv[k].quantity + qty.value,
                           price := if price.value > 0.0 then price else inv[k].price);
        Success(Upserted(inv[k := row], row))
    case None =>
      var row := Item(name, OrZero(qty), price);
      Success(Upserted(inv + [row], row))
  }

  /** An upsert never adds a second row for a name that already has one. */
  lemma UpsertKeepsNamesUnique(inv: seq<Item>, name: Option<string>, qty: Option<real>, price: Option<real>)
    requires NamesUnique(inv)
    requires Upsert(inv, name, qty, price).Success?
    ensures NamesUnique(Upsert(inv, name, qty, price).value.inv)
  {
    var u := Upsert(inv, name, qty, price).value.inv;
    if Find(inv, name).Some? {
      assert SameNames(inv, u);
    }
  }

  /** An upsert adds its quantity (None counting as 0 on a new row) under
      its own name and leaves the quantity under every other name alone. */
  lemma UpsertQuantityAt(inv: seq<Item>, name: Option<string>, qty: Option<real>, price: Option<real>, key: Option<string>)
    requires Upsert(inv, name, qty, price).Success?
    ensures QuantityAt(Upsert(inv, name, qty, price).value.inv, key) ==
            QuantityAt(inv, key) + (if name == key then OrZero(qty) else 0.0)
  {
    var u := Upsert(inv, name, qty, price).value.inv;
    match Find(inv, name)
    case Some(k) =>
      assert SameNames(inv, u);
      FindSameNames(inv, u, key);
    case None =>
      assert forall j :: 0 <= j < |inv| ==> u[j] == inv[j];
      if name == key {
        FindFirst(u, key, |inv|);
      } else {
        match Find(inv, key)
        case Some(j) =>
          FindFirst(u, key, j);
        case None =>
          assert forall j :: 0 <= j < |u| ==> u[j].name != key;
      }
  }

  /** A restock by q adds exactly q to the quantity under the name (a new
      row starts from nothing), and adds a row only when the name had none. */
  lemma UpsertQuantity(inv: seq<Item>, name: Option<string>, q: real, p: real)
    ensures Upsert(inv, name, Some(q), Some(p)).Success?
    ensures var u := Upsert(inv, name, Some(q), Some(p)).value.inv;
            Find(u, name).Some? &&
            QuantityAt(u, name) == QuantityAt(inv, name) + q &&
            |u| == |inv| + (if Find(inv, name).Some? then 0 else 1)
  {
    var u := Upsert(inv, name, Some(q), Some(p)).value.inv;
    if Find(inv, name).Some? {
      assert SameNames(inv, u);
      FindSameNames(inv, u, name);
    } else {
      assert u == inv + [Item(name, q, Some(p))];
      FindFirst(u, name, |inv|);
    }
  }

  /** Two restocks of one name by q1 and then q2 leave the same quantity, and
      the same number of rows, as one restock by q1 + q2. */
  lemma RestockTwiceAsOnce(inv: seq<Item>, name: Option<string>, q1: real, q2: real, p1: real, p2: real)
    ensures Upsert(inv, name, Some(q1), Some(p1)).Success?
    ensures var first := Upsert(inv, name, Some(q1), Some(p1)).value.inv;
            var twice := Upsert(first, name, Some(q2), Some(p2));
            var once := Upsert(inv, name, Some(q1 + q2), Some(p2)).value.inv;
            twice.Success? &&
            QuantityAt(twice.value.inv, name) == QuantityAt(once, name) &&
            |twice.value.inv| == |once|
  {
    UpsertQuantity(inv, name, q1, p1);
    var first := Upsert(inv, name, Some(q1), Some(p1)).value.inv;
    UpsertQuantity(first, name, q2, p2);
    UpsertQuantity(inv, name, q1 + q2, p2);
    var twice := Upsert(first, name, Some(q2), Some(p2)).value.inv;
    var once := Upsert(inv, name, Some(q1 + q2), Some(p2)).value.inv;
    var added := if Find(inv, name).Some? then 0 else 1;
    assert |twice| == |first| == |inv| + added == |once|;
    assert QuantityAt(twice, name) == QuantityAt(inv, name) + q1 + q2 == QuantityAt(once, name);
  }

  /** `f"Updated {name}: Qty {item.quantity}, Price {item.price}"`. */
  function UpdatedMessage(name: Option<string>, row: Item, show: real -> string): string
  {
    "Updated " + StrOf(name) + ": Qty " + show(row.quantity) + ", Price " + PriceText(row.price, show)
  }

  function PriceText(price: Option<real>, show: real -> string): string
  {
    if price.Some? then show(price.value) else "None"
  }

  /** The reply to a restock of an existing row reports the row as it stands
      after the upsert: the running quantity, and the old price when the new
      one is not positive. */
  lemma RestockReplyShowsRow(inv: seq<Item>, name: Option<string>, q: real, p: real, show: real -> string)
    requires Find(inv, name).Some?
    ensures Upsert(inv, name, Some(q), Some(p)).Success?
    ensures var k := Find(inv, name).value;
            UpdatedMessage(name, Upsert(inv, name, Some(q), Some(p)).value.row, show) ==
            "Updated " + StrOf(name) + ": Qty " + show(inv[k].quantity + q) +
            ", Price " + PriceText(if p > 0.0 then Some(p) else inv[k].price, show)
  {
  }

  // ---------------------------------------------------------------------
  // create_transaction

  /** `i.get('quantity', 0)`; None (a null quantity) is the TypeError case. */
  function LineQuantity(it: LineItem): real
  {
    OrZero(it.quantity.OrDefault(0.0))
  }

  /** The deduction of one line item does not raise: the line has a name
      (`i['name']`), and when a row matches, its quantity is not null. */
  predicate CanDeduct(inv: seq<Item>, it: LineItem)
  {
    !it.name.Absent? &&
    (Find(inv, it.name.OrNone()).Some? ==> !it.quantity.Null?)
  }

  /** What one line item takes from the row named `key`. */
  function DeductedBy(it: LineItem, key: Option<string>): real
  {
    if !it.name.Absent? && it.name.OrNone() == key then LineQuantity(it) else 0.0
  }

  /** One iteration of the deduction loop: the first row with the line's
      name loses the line's quantity; a name with no row is skipped. */
  function Deduct(inv: seq<Item>, it: LineItem): (r: Result<seq<Item>>)
    ensures r.Success? <==> CanDeduct(inv, it)
    ensures r.Failure? ==> (r.error == KeyError <==> it.name.Absent?)
    ensures r.Success? ==> |r.value| == |inv|
  {
    if it.name.Absent? then Failure(KeyError)
    else match Find(inv, it.name.OrNone())
      case None => Success(inv)
      case Some(k) =>
        match it.quantity.OrDefault(0.0)
        case None => Failure(TypeError)
        case Some(q) => Success(inv[k := inv[k].(quantity := inv[k].quantity - q)])
  }

  /** A line that does not raise changes only the first row with its name,
      and only in its quantity. */
  lemma DeductStep(inv: seq<Item>, it: LineItem)
    ensures Deduct(inv, it).Success? ==> forall j :: 0 <= j < |inv| ==>
      Deduct(inv, it).value[j] == inv[j].(quantity := inv[j].quantity -
        (if Find(inv, inv[j].name) == Some(j) then DeductedBy(it, inv[j].name) else 0.0))
  {
    if Deduct(inv, it).Success? {
      var r := Deduct(inv, it).value;
      var name := it.name.OrNone();
      match Find(inv, name)
      case None =>
        assert r == inv;
        forall j | 0 <= j < |inv| ensures DeductedBy(it, inv[j].name) == 0.0 {
          assert inv[j].name != name;
        }
      case Some(k) =>
        var q := LineQuantity(it);
        assert it.quantity.OrDefault(0.0) == Some(q);
        DeductHit(inv, it, k, q);
        forall j | 0 <= j < |inv| && j != k && Find(inv, inv[j].name) == Some(j)
          ensures DeductedBy(it, inv[j].name) == 0.0
        {
          assert inv[j].name != name;
        }
        assert DeductedBy(it, inv[k].name) == q;
    }
  }

  /** A line that matches row k takes its quantity from that row. */
  lemma DeductHit(inv: seq<Item>, it: LineItem, k: nat, q: real)
    requires !it.name.Absent? && Find(inv, it.name.OrNone()) == Some(k)
    requires it.quantity.OrDefault(0.0) == Some(q)
    ensures Deduct(inv, it) == Success(inv[k := inv[k].(quantity := inv[k].quantity - q)])
  {
  }

  /** The uncommitted inventory after the deduction loop has run over `items`
      in order, or the exception that stopped it. */
  function DeductAll(inv: seq<Item>, items: seq<LineItem>): (r: Result<seq<Item>>)
    ensures r.Success? ==> |r.value| == |inv|
    ensures |items| == 0 ==> r == Success(inv)
    decreases |items|
  {
    if |items| == 0 then Success(inv)
    else match DeductAll(inv, items[..|items| - 1])
      case Failure(e) => Failure(e)
      case Success(prev) => Deduct(prev, items[|items| - 1])
  }

  /** Everything the lines of a sale take from the row named `key`: repeated
      names deduct repeatedly. */
  function Deducted(items: seq<LineItem>, key: Option<string>): real
    decreases |items|
  {
    if |items| == 0 then 0.0
    else Deducted(items[..|items| - 1], key) + DeductedBy(items[|items| - 1], key)
  }

  /** After a successful deduction loop no row has been added or removed, no
      name or price has changed, and each row has lost exactly what the sale's
      lines with its name ask for (only the first row with a name is ever
      touched). */
  lemma {:induction false} DeductAllQuantity(inv: seq<Item>, items: seq<LineItem>)
    requires DeductAll(inv, items).Success?
    ensures |DeductAll(inv, items).value| == |inv|
    ensures forall j :: 0 <= j < |inv| ==>
      DeductAll(inv, items).value[j] == inv[j].(quantity := inv[j].quantity -
        (if Find(inv, inv[j].name) == Some(j) then Deducted(items, inv[j].name) else 0.0))
    decreases |items|
  {
    if |items| > 0 {
      var p := items[..|items| - 1];
      var last := items[|items| - 1];
      DeductAllQuantity(inv, p);
      var prev := DeductAll(inv, p).value;
      DeductStep(prev, last);
      var r := Deduct(prev, last).value;
      assert SameNames(inv, prev);
      forall j | 0 <= j < |inv|
        ensures r[j] == inv[j].(quantity := inv[j].quantity -
          (if Find(inv, inv[j].name) == Some(j) then Deducted(items, inv[j].name) else 0.0))
      {
        FindSameNames(inv, prev, inv[j].name);
      }
    }
  }

  /** A row whose name no line of the sale mentions comes out unchanged. */
  lemma DeductAllUntouched(inv: seq<Item>, items: seq<LineItem>, j: nat)
    requires DeductAll(inv, items).Success?
    requires j < |inv|
    requires forall k :: 0 <= k < |items| ==> DeductedBy(items[k], inv[j].name) == 0.0
    ensures j < |DeductAll(inv, items).value| && DeductAll(inv, items).value[j] == inv[j]
  {
    DeductAllQuantity(inv, items);
    DeductedZero(items, inv[j].name);
  }

  lemma {:induction false} DeductedZero(items: seq<LineItem>, key: Option<string>)
    requires forall k :: 0 <= k < |items| ==> DeductedBy(items[k], key) == 0.0
    ensures Deducted(items, key) == 0.0
    decreases |items|
  {
    if |items| > 0 {
      DeductedZero(items[..|items| - 1], key);
    }
  }

  /** The deduction loop keeps the number of rows and the name of every row. */
  lemma DeductAllSameNames(inv: seq<Item>, items: seq<LineItem>)
    requires DeductAll(inv, items).Success?
    ensures SameNames(inv, DeductAll(inv, items).value)
  {
    DeductAllQuantity(inv, items);
  }

  /** The deduction loop raises exactly when some line cannot be deducted
      from the inventory as it stood before the sale (the names never change,
      so earlier deductions do not affect which rows match). */
  lemma {:induction false} DeductAllSucceedsIff(inv: seq<Item>, items: seq<LineItem>)
    ensures DeductAll(inv, items).Success? <==>
            forall k :: 0 <= k < |items| ==> CanDeduct(inv, items[k])
    decreases |items|
  {
    if |items| > 0 {
      var p := items[..|items| - 1];
      var last := items[|items| - 1];
      DeductAllSucceedsIff(inv, p);
      assert forall k :: 0 <= k < |p| ==> items[k] == p[k];
      assert (forall k :: 0 <= k < |items| ==> CanDeduct(inv, items[k])) <==>
             (forall k :: 0 <= k < |p| ==> CanDeduct(inv, p[k])) && CanDeduct(inv, last);
      match DeductAll(inv, p)
      case Success(prev) =>
        DeductAllSameNames(inv, p);
        FindSameNames(inv, prev, last.name.OrNone());
        DeductStep(prev, last);
        assert CanDeduct(prev, last) == CanDeduct(inv, last);
      case Failure(_) =>
    }
  }

  /** Once a line has raised, the later lines change nothing. */
  lemma {:induction false} DeductAllStopsAtFailure(inv: seq<Item>, items: seq<LineItem>, i: nat)
    requires i <= |items| && DeductAll(inv, items[..i]).Failure?
    ensures DeductAll(inv, items) == DeductAll(inv, items[..i])
    decreases |items|
  {
    if i < |items| {
      var p := items[..|items| - 1];
      assert p[..i] == items[..i];
      DeductAllStopsAtFailure(inv, p, i);
    } else {
      assert items[..i] == items;
    }
  }

  /** The exception of line i, after the lines before it went through, is
      the exception of the whole loop. */
  lemma DeductAllFailsAt(inv: seq<Item>, items: seq<LineItem>, i: nat)
    requires i < |items| && DeductAll(inv, items[..i]).Success?
    requires Deduct(DeductAll(inv, items[..i]).value, items[i]).Failure?
    ensures DeductAll(inv, items) == Deduct(DeductAll(inv, items[..i]).value, items[i])
  {
    assert items[..i + 1][..i] == items[..i];
    DeductAllStopsAtFailure(inv, items, i + 1);
  }

  // ---------------------------------------------------------------------
  // get_ledger_summary

  /** `sum(t.total_amount for t in txns)`. */
  function TotalSales(txns: seq<Txn>): real
    decreases |txns|
  {
    if |txns| == 0 then 0.0 else TotalSales(txns[..|txns| - 1]) + txns[|txns| - 1].totalAmount
  }

  /** Total sales add up across any split of the transaction log. */
  lemma {:induction false} TotalSalesConcat(a: seq<Txn>, b: seq<Txn>)
    ensures TotalSales(a + b) == TotalSales(a) + TotalSales(b)
    decreases |b|
  {
    if |b| == 0 {
      assert a + b == a;
    } else {
      assert (a + b)[..|a + b| - 1] == a + b[..|b| - 1];
      assert (a + b)[|a + b| - 1] == b[|b| - 1];
      TotalSalesConcat(a, b[..|b| - 1]);
    }
  }

  /** `f"- {i.name}: {i.quantity}"`. */
  function StockLine(it: Item, show: real -> string): string
  {
    "- " + StrOf(it.name) + ": " + show(it.quantity)
  }

  function StockLines(inv: seq<Item>, show: real -> string): (lines: seq<string>)
    ensures |lines| == |inv|
    ensures forall i :: 0 <= i < |inv| ==> lines[i] == StockLine(inv[i], show)
  {
    seq(|inv|, i requires 0 <= i < |inv| => StockLine(inv[i], show))
  }

  /** The stock part of the summary: a header and one line per row in table
      order, or a fixed sentence when the table is empty. */
  function StockSection(inv: seq<Item>, show: real -> string): string
  {
    if |inv| > 0 then "\nStock Levels:\n" + Join("\n", StockLines(inv, show))
    else "\nNo inventory recorded."
  }

  /** The summary says "No inventory recorded." exactly when there is no row. */
  lemma StockSectionEmptyIff(inv: seq<Item>, show: real -> string)
    ensures StockSection(inv, show) == "\nNo inventory recorded." <==> |inv| == 0
  {
    if |inv| > 0 {
      assert StockSection(inv, show)[1] == 'S';
    }
  }

  /** The first line of the summary: the sales total and the number of
      transactions. */
  function SalesLine(total: real, count: nat, show: real -> string): string
  {
    "Total Sales: Rs. " + show(total) + " (" + NatToString(count) + " txns)."
  }

  /** `get_ledger_summary()`: the sales line over the whole log (the period is
      ignored), then the stock section. */
  function SummaryText(inv: seq<Item>, txns: seq<Txn>, show: real -> string): (r: string)
  {
    SalesLine(TotalSales(txns), |txns|, show) + StockSection(inv, show)
  }

  /** Recording a sale adds its amount to the reported total and one to the
      reported count; the stock section reads only the inventory. */
  lemma SummaryAfterSale(inv: seq<Item>, txns: seq<Txn>, t: Txn, total: real, show: real -> string)
    requires total == TotalSales(txns) + t.totalAmount
    ensures SummaryText(inv, txns + [t], show) == SalesLine(total, |txns| + 1, show) + StockSection(inv, show)
  {
    TotalSalesAppend(txns, t);
    assert TotalSales(txns + [t]) == total;
    assert |txns + [t]| == |txns| + 1;
    SummaryLayout(inv, txns + [t], total, |txns| + 1, show);
  }

  lemma TotalSalesAppend(txns: seq<Txn>, t: Txn)
    ensures TotalSales(txns + [t]) == TotalSales(txns) + t.totalAmount
  {
    assert (txns + [t])[..|txns|] == txns;
  }

  /** Proof step for SummaryAfterSale: unfolds the summary with its total and
      count already computed, which keeps that proof small. */
  lemma SummaryLayout(inv: seq<Item>, txns: seq<Txn>, total: real, count: nat, show: real -> string)
    requires TotalSales(txns) == total && |txns| == count
    ensures SummaryText(inv, txns, show) == SalesLine(total, count, show) + StockSection(inv, show)
  {
  }

  /** The summary lists every inventory row as its "- {name}: {quantity}"
      line. */
  lemma SummaryListsEveryRow(inv: seq<Item>, txns: seq<Txn>, show: real -> string, j: nat)
    requires j < |inv|
    ensures Occurs(StockLine(inv[j], show), SummaryText(inv, txns, show))
  {
    var lines := StockLines(inv, show);
    JoinHasParts("\n", lines, j);
    OccursAfter(lines[j], "\nStock Levels:\n", Join("\n", lines));
    var head := SalesLine(TotalSales(txns), |txns|, show);
    OccursAfter(lines[j], head, StockSection(inv, show));
    SummaryLayout(inv, txns, TotalSales(txns), |txns|, show);
  }

  // ---------------------------------------------------------------------

  /** The committed state of the store. */
  class Ledger {
    var inventory: seq<Item>
    var transactions: seq<Txn>

    /** Names are a business key: sequential upserts never add a second row
        for a name that already has one. */
    ghost predicate Valid()
      reads this
    {
      NamesUnique(inventory)
    }

    constructor ()
      ensures Valid() && inventory == [] && transactions == []
    {
      inventory := [];
      transactions := [];
    }

    /** `add_inventory`: one session, one commit; on an exception nothing is
        committed. */
    method AddInventory(name: Option<string>, qty: Option<real>, price: Option<real>, show: real -> string)
      returns (r: Result<string>)
      requires Valid()
      modifies this
      ensures Valid() && transactions == old(transactions)
      ensures match Upsert(old(inventory), name, qty, price)
        case Success(u) => inventory == u.inv && r == Success(UpdatedMessage(name, u.row, show))
        case Failure(e) => inventory == old(inventory) && r == Failure(e)
    {
      if Upsert(inventory, name, qty, price).Success? {
        UpsertKeepsNamesUnique(inventory, name, qty, price);
      }
      var k := Find(inventory, name);
      if k.Some? {
        var row := inventory[k.value];
        if qty.None? {
          return Failure(TypeError);
        }
        row := row.(quantity := row.quantity + qty.value);
        if price.None? {
          return Failure(TypeError);
        }
        if price.value > 0.0 {
          row := row.(price := price);
        }
        inventory := inventory[k.value := row];
        r := Success(UpdatedMessage(name, row, show));
      } else {
        var row := Item(name, OrZero(qty), price);
        inventory := inventory + [row];
        r := Success(UpdatedMessage(name, row, show));
      }
    }

    /** `create_transaction`: deduct every line from the session's copy of the
        inventory, then append the transaction with `total` as given and
        commit once. An exception in the loop commits nothing. */
    method CreateTransaction(customerName: Option<string>, items: seq<LineItem>, total: real, pdfPath: string)
      returns (r: Result<string>)
      requires Valid()
      modifies this
      ensures Valid()
      ensures r.Success? <==> DeductAll(old(inventory), items).Success?
      ensures r.Success? ==>
        r.value == "Transaction recorded. Invoice generated." &&
        inventory == DeductAll(old(inventory), items).value &&
        transactions == old(transactions) + [Txn(customerName, items, total, pdfPath)]
      ensures r.Failure? ==>
        r.error == DeductAll(old(inventory), items).error &&
        inventory == old(inventory) && transactions == old(transactions)
    {
      var session := inventory;
      var i := 0;
      while i < |items|
        invariant 0 <= i <= |items|
        invariant DeductAll(inventory, items[..i]) == Success(session)
      {
        assert items[..i + 1][..i] == items[..i];
        var it := items[i];
        if it.name.Absent? {
          DeductAllFailsAt(inventory, items, i);
          return Failure(KeyError);
        }
        var k := Find(session, it.name.OrNone());
        if k.Some? {
          var q := it.quantity.OrDefault(0.0);
          if q.None? {
            DeductAllFailsAt(inventory, items, i);
            return Failure(TypeError);
          }
          session := session[k.value := session[k.value].(quantity := session[k.value].quantity - q.value)];
        }
        i := i + 1;
      }
      assert items[..i] == items;
      DeductAllSameNames(inventory, items);
      inventory := session;
      transactions := transactions + [Txn(customerName, items, total, pdfPath)];
      r := Success("Transaction recorded. Invoice generated.");
    }

    /** `get_ledger_summary()`, read from the committed state. */
    function Summary(show: real -> string): string
      reads this
    {
      SummaryText(inventory, transactions, show)
    }
  }
}
