/**
 The phase-3 ledger: the orders, suppliers, deliveries and products tables,
 the inserts the order form drives, the submit flow that chains them, and the
 two read views (order listing and supplier deliveries).

 Every table is an append-only sequence; a row's AUTOINCREMENT id is its
 position plus one.
 */
module Ledger {
  import opened Wrappers
  import opened OrderCodes
  import opened Orders

  datatype Supplier = Supplier(name: string, contact: string)

  /**
   `supplierId` is the linked supplier's id, taken to be stored as an integer;
   `materialReceived` is the stored integer flag; `receivedDate` is None for NULL.
   */
  datatype Delivery = Delivery(orderId: string, supplierId: int, materialReceived: int, receivedDate: Option<string>)

  datatype Product = Product(orderId: string, productType: string, details: string)

  datatype Db = Db(orders: seq<Order>, suppliers: seq<Supplier>, deliveries: seq<Delivery>, products: seq<Product>)

  const EmptyDb := Db([], [], [], [])

  /** The selector's only option when no supplier is registered ("there are no suppliers"). */
  const NoSuppliers: string := "(\U{0394}\U{03B5}\U{03BD} \U{03C5}\U{03C0}\U{03AC}\U{03C1}\U{03C7}\U{03BF}\U{03C5}\U{03BD} \U{03C0}\U{03C1}\U{03BF}\U{03BC}\U{03B7}\U{03B8}\U{03B5}\U{03C5}\U{03C4}\U{03AD}\U{03C2})"

  // ---------------------------------------------------------------------
  // Suppliers

  predicate HasSupplier(suppliers: seq<Supplier>, name: string) {
    exists i :: 0 <= i < |suppliers| && suppliers[i].name == name
  }

  /** The UNIQUE constraint on `suppliers.name`. */
  predicate NamesUnique(suppliers: seq<Supplier>) {
    forall i, j :: 0 <= i < j < |suppliers| ==> suppliers[i].name != suppliers[j].name
  }

  /**
   `add_supplier`: a fresh name appends exactly one row; a name already
   present violates UNIQUE, the error is swallowed and the ledger is
   unchanged. The other tables are never touched.
   */
  function AddSupplier(db: Db, name: string, contact: string): (r: Db)
    ensures r.orders == db.orders && r.deliveries == db.deliveries && r.products == db.products
    ensures HasSupplier(db.suppliers, name) ==> r == db
    ensures !HasSupplier(db.suppliers, name) ==> r.suppliers == db.suppliers + [Supplier(name, contact)]
    ensures HasSupplier(r.suppliers, name)
  {
    if HasSupplier(db.suppliers, name) then db
    else
      var r := db.(suppliers := db.suppliers + [Supplier(name, contact)]);
      assert r.suppliers[|db.suppliers|].name == name;
      r
  }

  /** The id of the first supplier with this name: `df[df.name == n].id.values[0]`. */
  function SupplierIdOf(suppliers: seq<Supplier>, name: string): (id: nat)
    requires HasSupplier(suppliers, name)
    ensures 1 <= id <= |suppliers| && suppliers[id - 1].name == name
    ensures forall i :: 0 <= i < id - 1 ==> suppliers[i].name != name
  {
    if suppliers[0].name == name then 1
    else
      assert HasSupplier(suppliers[1..], name) by {
        var i :| 0 <= i < |suppliers| && suppliers[i].name == name;
        assert suppliers[1..][i - 1].name == name;
      }
      1 + SupplierIdOf(suppliers[1..], name)
  }

  function Names(suppliers: seq<Supplier>): (names: seq<string>)
    ensures |names| == |suppliers|
    ensures forall i :: 0 <= i < |names| ==> names[i] == suppliers[i].name
  {
    if |suppliers| == 0 then [] else [suppliers[0].name] + Names(suppliers[1..])
  }

  /** The choices of the supplier selector: every name, or the placeholder alone. */
  function SupplierOptions(suppliers: seq<Supplier>): seq<string> {
    if |suppliers| == 0 then [NoSuppliers] else Names(suppliers)
  }

  /** Adding a supplier keeps the names unique. */
  lemma AddSupplierKeepsNamesUnique(db: Db, name: string, contact: string)
    requires NamesUnique(db.suppliers)
    ensures NamesUnique(AddSupplier(db, name, contact).suppliers)
  {
  }

  /**
   First write wins: registering a name twice leaves exactly the ledger the
   first registration produced, so the contact is the first one given (or
   the one already on file).
   */
  lemma FirstWriteWins(db: Db, name: string, c1: string, c2: string)
    ensures AddSupplier(AddSupplier(db, name, c1), name, c2) == AddSupplier(db, name, c1)
    ensures !HasSupplier(db.suppliers, name) ==>
      var s := AddSupplier(AddSupplier(db, name, c1), name, c2).suppliers;
      s[SupplierIdOf(s, name) - 1].contact == c1
  {
    var once := AddSupplier(db, name, c1);
    if !HasSupplier(db.suppliers, name) {
      var id := SupplierIdOf(once.suppliers, name);
      assert forall i :: 0 <= i < |db.suppliers| ==> once.suppliers[i].name != name;
      assert id - 1 == |db.suppliers|;
    }
  }

  // ---------------------------------------------------------------------
  // Orders, deliveries and products

  /** `insert_order` on the ledger: the orders table grows, nothing else changes. */
  function LedgerInsertOrder(db: Db, code: string, prefix: string, details: OrderDetails, now: string): (r: Db)
    ensures r.suppliers == db.suppliers && r.deliveries == db.deliveries && r.products == db.products
    ensures r.orders == InsertOrder(db.orders, code, prefix, details, now)
  {
    db.(orders := InsertOrder(db.orders, code, prefix, details, now))
  }

  /**
   `link_order_to_supplier`: appends exactly one pending delivery (flag 0,
   date NULL). Neither the order code nor the supplier id is checked (SQLite
   leaves foreign keys unenforced unless asked), and the other tables are
   untouched.
   */
  function LinkOrderToSupplier(db: Db, orderId: string, supplierId: int): (r: Db)
    ensures r.orders == db.orders && r.suppliers == db.suppliers && r.products == db.products
    ensures |r.deliveries| == |db.deliveries| + 1 && r.deliveries[..|db.deliveries|] == db.deliveries
    ensures r.deliveries[|db.deliveries|] == Delivery(orderId, supplierId, 0, None)
  {
    var r := db.(deliveries := db.deliveries + [Delivery(orderId, supplierId, 0, None)]);
    assert r.deliveries[..|db.deliveries|] == db.deliveries;
    r
  }

  /** `insert_product`: appends exactly one product line; nothing else changes. */
  function InsertProduct(db: Db, orderId: string, productType: string, details: string): (r: Db)
    ensures r.orders == db.orders && r.suppliers == db.suppliers && r.deliveries == db.deliveries
    ensures |r.products| == |db.products| + 1 && r.products[..|db.products|] == db.products
    ensures r.products[|db.products|] == Product(orderId, productType, details)
  {
    var r := db.(products := db.products + [Product(orderId, productType, details)]);
    assert r.products[..|db.products|] == db.products;
    r
  }

  // ---------------------------------------------------------------------
  // The submit flow

  /** One product slot of the form: the chosen type and its rendered details. */
  datatype ProductEntry = ProductEntry(productType: string, details: string)

  /** `if ptype and det`: both strings non-empty. */
  predicate Filled(e: ProductEntry) {
    e.productType != "" && e.details != ""
  }

  /** `a` is `b` with some elements left out, the rest in their original order. */
  predicate SubseqOf<T(==)>(a: seq<T>, b: seq<T>)
    decreases |b|
  {
    if |a| == 0 then true
    else if |b| == 0 then false
    else if a[0] == b[0] then SubseqOf(a[1..], b[1..])
    else SubseqOf(a, b[1..])
  }

  /** The filled slots, in form order. */
  function Kept(entries: seq<ProductEntry>): seq<ProductEntry> {
    if |entries| == 0 then []
    else if Filled(entries[0]) then [entries[0]] + Kept(entries[1..])
    else Kept(entries[1..])
  }

  /**
   Exactly the filled slots are kept, each as often as the form holds it,
   and in form order.
   */
  lemma {:induction false} KeptSpec(entries: seq<ProductEntry>)
    ensures forall e :: e in Kept(entries) <==> e in entries && Filled(e)
    ensures forall e :: multiset(Kept(entries))[e] == (if Filled(e) then multiset(entries)[e] else 0)
    ensures SubseqOf(Kept(entries), entries)
    decreases |entries|
  {
    if |entries| > 0 {
      var rest := Kept(entries[1..]);
      KeptSpec(entries[1..]);
      assert entries == [entries[0]] + entries[1..];
      assert multiset(entries) == multiset{entries[0]} + multiset(entries[1..]);
      if Filled(entries[0]) {
        assert ([entries[0]] + rest)[1..] == rest;
        assert multiset([entries[0]] + rest) == multiset{entries[0]} + multiset(rest);
      } else {
        assert |rest| > 0 ==> rest[0] != entries[0] by {
          if |rest| > 0 {
            assert rest[0] in rest;
          }
        }
      }
    }
  }

  /** The product lines a list of kept entries becomes under one order code. */
  function Lines(code: string, kept: seq<ProductEntry>): (lines: seq<Product>)
    ensures |lines| == |kept|
    ensures forall j :: 0 <= j < |lines| ==> lines[j] == Product(code, kept[j].productType, kept[j].details)
  {
    if |kept| == 0 then [] else [Product(code, kept[0].productType, kept[0].details)] + Lines(code, kept[1..])
  }

  /** The loop over the product slots: each filled slot becomes one product line. */
  function StoreProducts(db: Db, code: string, entries: seq<ProductEntry>): (r: Db)
    ensures r.orders == db.orders && r.suppliers == db.suppliers && r.deliveries == db.deliveries
    ensures r.products == db.products + Lines(code, Kept(entries))
    decreases |entries|
  {
    if |entries| == 0 then db
    else
      var e := entries[0];
      var next := if Filled(e) then InsertProduct(db, code, e.productType, e.details) else db;
      var r := StoreProducts(next, code, entries[1..]);
      StoreStep(db, code, entries);
      r
  }

  /** One turn of the slot loop, in terms of the kept entries. */
  lemma StoreStep(db: Db, code: string, entries: seq<ProductEntry>)
    requires |entries| > 0
    ensures Filled(entries[0]) ==>
      db.products + [Product(code, entries[0].productType, entries[0].details)] + Lines(code, Kept(entries[1..]))
        == db.products + Lines(code, Kept(entries))
    ensures !Filled(entries[0]) ==> Kept(entries) == Kept(entries[1..])
  {
    var e := entries[0];
    if Filled(e) {
      var rest := Kept(entries[1..]);
      assert Kept(entries) == [e] + rest;
      assert Lines(code, [e] + rest) == [Product(code, e.productType, e.details)] + Lines(code, rest);
    }
  }

  /** What the order form submits. */
  datatype OrderForm = OrderForm(
    prefix: string,
    details: OrderDetails,
    selectedSupplier: string,
    products: seq<ProductEntry>)

  /** The widgets only offer a listed category and a listed supplier option. */
  predicate FormValid(db: Db, form: OrderForm) {
    && IsOrderPrefix(form.prefix)
    && form.selectedSupplier in SupplierOptions(db.suppliers)
  }

  datatype Submission = Submission(db: Db, code: string)

  /**
   The submit flow: generate a code, insert the order under it, link the
   selected supplier unless the placeholder is selected, then store the
   filled product slots. The code returned is the one shown to the user.
   The order row is appended under that code, the suppliers are untouched
   and one product line per filled slot is appended, in slot order.
   */
  function Submit(db: Db, form: OrderForm, now: string): (r: Submission)
    requires FormValid(db, form)
    ensures r.code == GenerateOrderId(db.orders, form.prefix)
    ensures r.db.orders == db.orders + [Order(r.code, form.prefix, form.details, now)]
    ensures r.db.suppliers == db.suppliers
    ensures r.db.products == db.products + Lines(r.code, Kept(form.products))
  {
    var code := GenerateOrderId(db.orders, form.prefix);
    var withOrder := LedgerInsertOrder(db, code, form.prefix, form.details, now);
    var linked :=
      if form.selectedSupplier != NoSuppliers then
        LinkOrderToSupplier(withOrder, code, SelectedId(db, form))
      else withOrder;
    Submission(StoreProducts(linked, code, form.products), code)
  }

  /** The id the selector's choice resolves to: a listed name other than the placeholder is registered. */
  function SelectedId(db: Db, form: OrderForm): (id: nat)
    requires FormValid(db, form) && form.selectedSupplier != NoSuppliers
    ensures 1 <= id <= |db.suppliers| && db.suppliers[id - 1].name == form.selectedSupplier
  {
    assert HasSupplier(db.suppliers, form.selectedSupplier) by {
      var k :| 0 <= k < |Names(db.suppliers)| && Names(db.suppliers)[k] == form.selectedSupplier;
    }
    SupplierIdOf(db.suppliers, form.selectedSupplier)
  }

  /**
   Choosing the placeholder links nothing; choosing a supplier appends one
   pending delivery linking the new code to that supplier's id.
   */
  lemma SubmitLinks(db: Db, form: OrderForm, now: string)
    requires FormValid(db, form)
    ensures var r := Submit(db, form, now);
            && (form.selectedSupplier == NoSuppliers ==> r.db.deliveries == db.deliveries)
            && (form.selectedSupplier != NoSuppliers ==>
                  && |r.db.deliveries| == |db.deliveries| + 1
                  && r.db.deliveries[..|db.deliveries|] == db.deliveries
                  && var d := r.db.deliveries[|db.deliveries|];
                     && d.orderId == r.code && d.materialReceived == 0 && d.receivedDate == None
                     && 1 <= d.supplierId <= |db.suppliers| && db.suppliers[d.supplierId - 1].name == form.selectedSupplier)
  {
    if form.selectedSupplier == NoSuppliers {
      PlaceholderLinksNothing(db, form, now);
    } else {
      SelectedSupplierLinked(db, form, now);
    }
  }

  /** The placeholder branch of the submit flow leaves the deliveries alone. */
  lemma PlaceholderLinksNothing(db: Db, form: OrderForm, now: string)
    requires FormValid(db, form) && form.selectedSupplier == NoSuppliers
    ensures Submit(db, form, now).db.deliveries == db.deliveries
  {
    var code := GenerateOrderId(db.orders, form.prefix);
    var withOrder := LedgerInsertOrder(db, code, form.prefix, form.details, now);
    assert Submit(db, form, now).db == StoreProducts(withOrder, code, form.products);
  }

  /** The supplier branch of the submit flow appends one pending delivery to the chosen supplier. */
  lemma SelectedSupplierLinked(db: Db, form: OrderForm, now: string)
    requires FormValid(db, form) && form.selectedSupplier != NoSuppliers
    ensures var r := Submit(db, form, now);
            && |r.db.deliveries| == |db.deliveries| + 1
            && r.db.deliveries[..|db.deliveries|] == db.deliveries
            && var d := r.db.deliveries[|db.deliveries|];
               && d.orderId == r.code && d.materialReceived == 0 && d.receivedDate == None
               && 1 <= d.supplierId <= |db.suppliers| && db.suppliers[d.supplierId - 1].name == form.selectedSupplier
  {
    var code := GenerateOrderId(db.orders, form.prefix);
    var withOrder := LedgerInsertOrder(db, code, form.prefix, form.details, now);
    var linked := LinkOrderToSupplier(withOrder, code, SelectedId(db, form));
    assert Submit(db, form, now).db == StoreProducts(linked, code, form.products);
  }

  /** A submission adds one order to its category's count and leaves every other category's count alone. */
  lemma SubmitCounts(db: Db, form: OrderForm, now: string)
    requires FormValid(db, form)
    ensures CountPrefix(Submit(db, form, now).db.orders, form.prefix) == CountPrefix(db.orders, form.prefix) + 1
    ensures forall q :: q != form.prefix ==> CountPrefix(Submit(db, form, now).db.orders, q) == CountPrefix(db.orders, q)
  {
    var r := Submit(db, form, now);
    assert r.db.orders == InsertOrder(db.orders, r.code, form.prefix, form.details, now);
    InsertOrderCounts(db.orders, r.code, form.prefix, form.details, now);
  }

  // ---------------------------------------------------------------------
  // Read views

  /**
   After a submission the order listing starts with the new order, under the
   next id and the shown code, followed by the listing from before.
   */
  lemma ListingAfterSubmit(db: Db, form: OrderForm, now: string)
    requires FormValid(db, form)
    ensures var r := Submit(db, form, now);
            && FetchOrders(r.db.orders)[0] == OrderRow(|db.orders| + 1, Order(r.code, form.prefix, form.details, now))
            && FetchOrders(r.db.orders)[1..] == FetchOrders(db.orders)
  {
    var r := Submit(db, form, now);
    assert r.db.orders[..|r.db.orders| - 1] == db.orders;
  }

  predicate OrderExists(orders: seq<Order>, code: string) {
    exists i :: 0 <= i < |orders| && orders[i].orderId == code
  }

  /** How many order rows carry this code. */
  function CountCode(orders: seq<Order>, code: string): nat {
    if |orders| == 0 then 0
    else CountCode(orders[1..], code) + (if orders[0].orderId == code then 1 else 0)
  }

  /** Some order row carries the code exactly when the count is positive. */
  lemma {:induction false} CountCodeExists(orders: seq<Order>, code: string)
    ensures CountCode(orders, code) > 0 <==> OrderExists(orders, code)
  {
    if |orders| > 0 {
      CountCodeExists(orders[1..], code);
      if OrderExists(orders, code) && orders[0].orderId != code {
        var i :| 0 <= i < |orders| && orders[i].orderId == code;
        assert orders[1..][i - 1].orderId == code;
      }
      if OrderExists(orders[1..], code) {
        var i :| 0 <= i < |orders[1..]| && orders[1..][i].orderId == code;
        assert orders[i + 1].orderId == code;
      }
    }
  }

  /** One row of the supplier-deliveries view. */
  datatype DeliveryRow = DeliveryRow(
    deliveryId: nat,
    orderId: string,
    supplierName: string,
    contact: string,
    materialReceived: int,
    receivedDate: Option<string>)

  predicate SupplierExists(db: Db, d: Delivery) {
    1 <= d.supplierId <= |db.suppliers|
  }

  /** The inner joins match: the delivery's supplier id and order code both exist. */
  predicate Joined(db: Db, i: nat)
    requires i < |db.deliveries|
  {
    SupplierExists(db, db.deliveries[i]) && OrderExists(db.orders, db.deliveries[i].orderId)
  }

  /** The view row of delivery `i`, carrying its supplier's name and contact. */
  function ViewOf(db: Db, i: nat): DeliveryRow
    requires i < |db.deliveries| && SupplierExists(db, db.deliveries[i])
  {
    var d := db.deliveries[i];
    var s := db.suppliers[d.supplierId - 1];
    DeliveryRow(i + 1, d.orderId, s.name, s.contact, d.materialReceived, d.receivedDate)
  }

  /** `n` copies of `x`. */
  function Repeat<T>(x: T, n: nat): (r: seq<T>)
    ensures |r| == n && forall j :: 0 <= j < n ==> r[j] == x
  {
    if n == 0 then [] else [x] + Repeat(x, n - 1)
  }

  /** `row` is the view row of a delivery whose supplier and order both exist. */
  predicate IsJoinedRow(db: Db, row: DeliveryRow) {
    && 1 <= row.deliveryId <= |db.deliveries|
    && Joined(db, row.deliveryId - 1)
    && row == ViewOf(db, row.deliveryId - 1)
  }

  /** Every row is the view row of a joined delivery. */
  predicate AllJoined(db: Db, rows: seq<DeliveryRow>) {
    forall j :: 0 <= j < |rows| ==> IsJoinedRow(db, rows[j])
  }

  /** Every row belongs to delivery `id`. */
  predicate AllOf(rows: seq<DeliveryRow>, id: nat) {
    forall j :: 0 <= j < |rows| ==> rows[j].deliveryId == id
  }

  /** Every row belongs to one of the first `k` deliveries. */
  predicate AllUpTo(rows: seq<DeliveryRow>, k: nat) {
    forall j :: 0 <= j < |rows| ==> rows[j].deliveryId <= k
  }

  /** Rows come in non-increasing delivery id order, each against the next. */
  predicate NewestFirst(rows: seq<DeliveryRow>)
    decreases |rows|
  {
    |rows| <= 1 || (rows[0].deliveryId >= rows[1].deliveryId && NewestFirst(rows[1..]))
  }

  /** Ordered against the next row means ordered against every later row. */
  lemma {:induction false} NewestFirstPairwise(rows: seq<DeliveryRow>)
    requires NewestFirst(rows)
    ensures forall a, b :: 0 <= a < b < |rows| ==> rows[a].deliveryId >= rows[b].deliveryId
    decreases |rows|
  {
    if |rows| > 1 {
      var tail := rows[1..];
      NewestFirstPairwise(tail);
      forall a, b | 0 <= a < b < |rows|
        ensures rows[a].deliveryId >= rows[b].deliveryId
      {
        assert rows[b] == tail[b - 1];
        if a > 0 {
          assert rows[a] == tail[a - 1];
        } else if b > 1 {
          assert rows[1] == tail[0];
        }
      }
    }
  }

  /** Some row of the view carries delivery id `id`. */
  predicate Shows(rows: seq<DeliveryRow>, id: nat) {
    exists j :: 0 <= j < |rows| && rows[j].deliveryId == id
  }

  /** Each joined delivery among the first `k` shows up in `rows`. */
  predicate ShowsJoined(db: Db, rows: seq<DeliveryRow>, k: nat)
    requires k <= |db.deliveries|
  {
    forall i :: 0 <= i < k && Joined(db, i) ==> Shows(rows, i + 1)
  }

  /**
   How many times the inner join with `orders` repeats each delivery: the
   number of order rows carrying its code.
   */
  function Multiplicities(db: Db): (m: seq<nat>)
    ensures |m| == |db.deliveries|
  {
    seq(|db.deliveries|, i requires 0 <= i < |db.deliveries| => CountCode(db.orders, db.deliveries[i].orderId))
  }

  /** `counts` repeats a delivery exactly when its order exists. */
  predicate CountsMatch(db: Db, counts: seq<nat>) {
    && |counts| == |db.deliveries|
    && forall i :: 0 <= i < |counts| ==> (counts[i] > 0 <==> OrderExists(db.orders, db.deliveries[i].orderId))
  }

  lemma MultiplicitiesMatch(db: Db)
    ensures CountsMatch(db, Multiplicities(db))
  {
    forall i | 0 <= i < |db.deliveries|
      ensures Multiplicities(db)[i] > 0 <==> OrderExists(db.orders, db.deliveries[i].orderId)
    {
      CountCodeExists(db.orders, db.deliveries[i].orderId);
    }
  }

  /** The joined rows for delivery `i`, repeated `c` times when its supplier exists. */
  function RowsFor(db: Db, i: nat, c: nat): seq<DeliveryRow>
    requires i < |db.deliveries|
  {
    if SupplierExists(db, db.deliveries[i]) then Repeat(ViewOf(db, i), c) else []
  }

  /**
   Delivery `i` contributes only its own view row, and contributes at least
   one row exactly when its supplier and order both exist.
   */
  lemma RowsForSpec(db: Db, i: nat, c: nat)
    requires i < |db.deliveries|
    requires c > 0 <==> OrderExists(db.orders, db.deliveries[i].orderId)
    ensures AllJoined(db, RowsFor(db, i, c))
    ensures Joined(db, i) <==> |RowsFor(db, i, c)| > 0
  {
  }

  /** The rows of delivery `i` all carry delivery id `i + 1`. */
  lemma RowsForIds(db: Db, i: nat, c: nat)
    requires i < |db.deliveries|
    ensures AllOf(RowsFor(db, i, c), i + 1)
  {
  }

  /**
   The join over the first `k` deliveries, newest first, each delivery
   repeated as `counts` says.
   */
  function JoinWith(db: Db, counts: seq<nat>, k: nat): seq<DeliveryRow>
    requires k <= |db.deliveries| && |counts| == |db.deliveries|
  {
    if k == 0 then [] else RowsFor(db, k - 1, counts[k - 1]) + JoinWith(db, counts, k - 1)
  }

  /**
   `fetch_supplier_deliveries` over the first `k` deliveries: the inner join
   with suppliers (by id) and orders (by code), ordered by delivery id
   descending.
   */
  function JoinNewest(db: Db, k: nat): seq<DeliveryRow>
    requires k <= |db.deliveries|
  {
    JoinWith(db, Multiplicities(db), k)
  }

  lemma AllJoinedConcat(db: Db, here: seq<DeliveryRow>, rest: seq<DeliveryRow>)
    requires AllJoined(db, here) && AllJoined(db, rest)
    ensures AllJoined(db, here + rest)
  {
    var rows := here + rest;
    forall j | 0 <= j < |rows|
      ensures IsJoinedRow(db, rows[j])
    {
      if j >= |here| {
        assert rows[j] == rest[j - |here|];
      }
    }
  }

  lemma AllUpToConcat(here: seq<DeliveryRow>, rest: seq<DeliveryRow>, k: nat)
    requires k > 0 && AllOf(here, k) && AllUpTo(rest, k - 1)
    ensures AllUpTo(here + rest, k)
  {
    var rows := here + rest;
    forall j | 0 <= j < |rows|
      ensures rows[j].deliveryId <= k
    {
      if j >= |here| {
        assert rows[j] == rest[j - |here|];
      }
    }
  }

  lemma {:induction false} NewestFirstConcat(here: seq<DeliveryRow>, rest: seq<DeliveryRow>, k: nat)
    requires k > 0 && AllOf(here, k) && AllUpTo(rest, k - 1) && NewestFirst(rest)
    ensures NewestFirst(here + rest)
    decreases |here|
  {
    if |here| == 0 {
      assert here + rest == rest;
    } else {
      var tail := here[1..];
      assert (here + rest)[1..] == tail + rest;
      NewestFirstConcat(tail, rest, k);
      if |tail| == 0 && |rest| > 0 {
        assert (here + rest)[1] == rest[0];
      } else if |tail| > 0 {
        assert (here + rest)[1] == tail[0];
      }
    }
  }

  lemma ShowsInConcat(here: seq<DeliveryRow>, rest: seq<DeliveryRow>, id: nat)
    requires Shows(here, id) || Shows(rest, id)
    ensures Shows(here + rest, id)
  {
    if Shows(here, id) {
      var j :| 0 <= j < |here| && here[j].deliveryId == id;
      assert (here + rest)[j] == here[j];
    } else {
      var j :| 0 <= j < |rest| && rest[j].deliveryId == id;
      assert (here + rest)[|here| + j] == rest[j];
    }
  }

  lemma ShowsJoinedStep(db: Db, k: nat, here: seq<DeliveryRow>, rest: seq<DeliveryRow>)
    requires 0 < k <= |db.deliveries| && ShowsJoined(db, rest, k - 1)
    requires Joined(db, k - 1) ==> Shows(here, k)
    ensures ShowsJoined(db, here + rest, k)
  {
    forall i | 0 <= i < k && Joined(db, i)
      ensures Shows(here + rest, i + 1)
    {
      ShowsInConcat(here, rest, i + 1);
    }
  }

  /** Every joined row is the view row of a delivery whose supplier and order both exist. */
  lemma {:induction false} JoinSound(db: Db, counts: seq<nat>, k: nat)
    requires k <= |db.deliveries| && CountsMatch(db, counts)
    ensures AllJoined(db, JoinWith(db, counts, k))
  {
    if k > 0 {
      JoinSound(db, counts, k - 1);
      RowsForSpec(db, k - 1, counts[k - 1]);
      AllJoinedConcat(db, RowsFor(db, k - 1, counts[k - 1]), JoinWith(db, counts, k - 1));
    }
  }

  /** Every joined row belongs to one of the first `k` deliveries. */
  lemma {:induction false} JoinBounded(db: Db, counts: seq<nat>, k: nat)
    requires k <= |db.deliveries| && |counts| == |db.deliveries|
    ensures AllUpTo(JoinWith(db, counts, k), k)
  {
    if k > 0 {
      JoinBounded(db, counts, k - 1);
      RowsForIds(db, k - 1, counts[k - 1]);
      AllUpToConcat(RowsFor(db, k - 1, counts[k - 1]), JoinWith(db, counts, k - 1), k);
    }
  }

  /** Every delivery among the first `k` whose supplier and order both exist shows up. */
  lemma {:induction false} JoinComplete(db: Db, counts: seq<nat>, k: nat)
    requires k <= |db.deliveries| && CountsMatch(db, counts)
    ensures ShowsJoined(db, JoinWith(db, counts, k), k)
  {
    if k > 0 {
      JoinComplete(db, counts, k - 1);
      var here := RowsFor(db, k - 1, counts[k - 1]);
      RowsForSpec(db, k - 1, counts[k - 1]);
      RowsForIds(db, k - 1, counts[k - 1]);
      if Joined(db, k - 1) {
        assert here[0].deliveryId == k;
      }
      ShowsJoinedStep(db, k, here, JoinWith(db, counts, k - 1));
    }
  }

  /** Rows come newest delivery first. */
  lemma {:induction false} JoinOrdered(db: Db, counts: seq<nat>, k: nat)
    requires k <= |db.deliveries| && |counts| == |db.deliveries|
    ensures NewestFirst(JoinWith(db, counts, k))
  {
    if k > 0 {
      JoinOrdered(db, counts, k - 1);
      JoinBounded(db, counts, k - 1);
      RowsForIds(db, k - 1, counts[k - 1]);
      NewestFirstConcat(RowsFor(db, k - 1, counts[k - 1]), JoinWith(db, counts, k - 1), k);
    }
  }

  /** How many rows carry delivery id `id`. */
  function CountId(rows: seq<DeliveryRow>, id: nat): nat {
    if |rows| == 0 then 0 else (if rows[0].deliveryId == id then 1 else 0) + CountId(rows[1..], id)
  }

  lemma {:induction false} CountIdConcat(a: seq<DeliveryRow>, b: seq<DeliveryRow>, id: nat)
    ensures CountId(a + b, id) == CountId(a, id) + CountId(b, id)
    decreases |a|
  {
    if |a| == 0 {
      assert a + b == b;
    } else {
      assert (a + b)[1..] == a[1..] + b;
      CountIdConcat(a[1..], b, id);
    }
  }

  lemma {:induction false} CountIdRepeat(x: DeliveryRow, c: nat, id: nat)
    ensures CountId(Repeat(x, c), id) == if x.deliveryId == id then c else 0
  {
    if c > 0 {
      assert Repeat(x, c)[1..] == Repeat(x, c - 1);
      CountIdRepeat(x, c - 1, id);
    }
  }

  /**
   Delivery `i` shows up in the join over the first `k` deliveries exactly
   `counts[i]` times when it is among them and its supplier exists, and not
   at all otherwise.
   */
  lemma {:induction false} JoinMultiplicity(db: Db, counts: seq<nat>, k: nat, i: nat)
    requires k <= |db.deliveries| && |counts| == |db.deliveries| && i < |db.deliveries|
    ensures CountId(JoinWith(db, counts, k), i + 1) ==
            if i < k && SupplierExists(db, db.deliveries[i]) then counts[i] else 0
  {
    if k > 0 {
      JoinMultiplicity(db, counts, k - 1, i);
      JoinMultiplicityStep(db, counts, k, i, CountId(JoinWith(db, counts, k - 1), i + 1));
    }
  }

  /** Delivery `k - 1` adds its rows to the count of delivery `i` only when `i` is `k - 1`. */
  lemma JoinMultiplicityStep(db: Db, counts: seq<nat>, k: nat, i: nat, before: nat)
    requires 0 < k <= |db.deliveries| && |counts| == |db.deliveries| && i < |db.deliveries|
    requires before == CountId(JoinWith(db, counts, k - 1), i + 1)
    ensures CountId(JoinWith(db, counts, k), i + 1) ==
            before + if i == k - 1 && SupplierExists(db, db.deliveries[i]) then counts[i] else 0
  {
    var here := RowsFor(db, k - 1, counts[k - 1]);
    var rest := JoinWith(db, counts, k - 1);
    assert JoinWith(db, counts, k) == here + rest;
    CountIdConcat(here, rest, i + 1);
    CountIdRowsFor(db, k - 1, counts[k - 1], i + 1);
  }

  /** Delivery `j` contributes `c` rows carrying its own id when its supplier exists, and none otherwise. */
  lemma CountIdRowsFor(db: Db, j: nat, c: nat, id: nat)
    requires j < |db.deliveries|
    ensures CountId(RowsFor(db, j, c), id) == if SupplierExists(db, db.deliveries[j]) && id == j + 1 then c else 0
  {
    if SupplierExists(db, db.deliveries[j]) {
      CountIdRepeat(ViewOf(db, j), c, id);
    }
  }

  /** `fetch_supplier_deliveries`: the join over every delivery. */
  function FetchSupplierDeliveries(db: Db): seq<DeliveryRow> {
    JoinNewest(db, |db.deliveries|)
  }

  /**
   The deliveries view holds exactly the deliveries whose supplier and order
   both exist, each carrying its supplier's name and contact, newest first.
   */
  lemma FetchSupplierDeliveriesSpec(db: Db)
    ensures var rows := FetchSupplierDeliveries(db);
            && (forall j :: 0 <= j < |rows| ==> IsJoinedRow(db, rows[j]))
            && (forall i :: 0 <= i < |db.deliveries| && Joined(db, i) ==> Shows(rows, i + 1))
            && (forall a, b :: 0 <= a < b < |rows| ==> rows[a].deliveryId >= rows[b].deliveryId)
  {
    var n := |db.deliveries|;
    MultiplicitiesMatch(db);
    JoinSound(db, Multiplicities(db), n);
    JoinComplete(db, Multiplicities(db), n);
    JoinOrdered(db, Multiplicities(db), n);
    NewestFirstPairwise(FetchSupplierDeliveries(db));
  }

  /**
   The inner join with `orders` repeats a delivery once for every order row
   carrying its code, provided its supplier exists; otherwise the delivery
   does not show at all.
   */
  lemma FetchSupplierDeliveriesMultiplicity(db: Db, i: nat)
    requires i < |db.deliveries|
    ensures CountId(FetchSupplierDeliveries(db), i + 1) ==
            if SupplierExists(db, db.deliveries[i]) then CountCode(db.orders, db.deliveries[i].orderId) else 0
  {
    JoinMultiplicity(db, Multiplicities(db), |db.deliveries|, i);
  }

  // ---------------------------------------------------------------------
  // The delivery display rule

  /** The fourth column of a delivery row: a confirm button, or the received date. */
  datatype DeliveryControl = ConfirmButton(deliveryId: nat) | ReceivedOn(date: Option<string>)

  /** ✅ when the stored flag is truthy, ❌ otherwise. */
  function ReceivedMark(row: DeliveryRow): bool {
    row.materialReceived != 0
  }

  /** A pending row offers the confirm button; a received row shows its date. */
  function Control(row: DeliveryRow): (c: DeliveryControl)
    ensures c.ConfirmButton? <==> !ReceivedMark(row)
    ensures c.ConfirmButton? ==> c.deliveryId == row.deliveryId
    ensures c.ReceivedOn? ==> c.date == row.receivedDate
  {
    if row.materialReceived != 0 then ReceivedOn(row.receivedDate) else ConfirmButton(row.deliveryId)
  }
}
