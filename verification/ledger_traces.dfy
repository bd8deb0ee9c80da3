/**
 What every ledger built by the order form (and by `add_supplier`) looks
 like: codes generated from the table they were inserted into, unique
 supplier names, deliveries that are pending and whose supplier and order
 exist, and product lines that are filled in and belong to an order.
 */
module LedgerTraces {
  import opened Wrappers
  import opened OrderCodes
  import opened Orders
  import opened Ledger

  /**
   The two things that write to the ledger: the order form's submission, and
   `add_supplier`, which no form of the program calls and so stands for a
   registration made from outside it.
   */
  datatype Action =
    | SubmitOrder(form: OrderForm, now: string)
    | RegisterSupplier(name: string, contact: string)

  predicate Allowed(db: Db, a: Action) {
    match a
    case SubmitOrder(form, _) => FormValid(db, form)
    case RegisterSupplier(_, _) => true
  }

  function Apply(db: Db, a: Action): Db
    requires Allowed(db, a)
  {
    match a
    case SubmitOrder(form, now) => Submit(db, form, now).db
    case RegisterSupplier(name, contact) => AddSupplier(db, name, contact)
  }

  /** Every action in turn is one the order form (or a registration) allows in the state it meets. */
  predicate ValidTrace(db: Db, actions: seq<Action>)
    decreases |actions|
  {
    |actions| == 0 || (Allowed(db, actions[0]) && ValidTrace(Apply(db, actions[0]), actions[1..]))
  }

  function Replay(db: Db, actions: seq<Action>): Db
    requires ValidTrace(db, actions)
    decreases |actions|
  {
    if |actions| == 0 then db else Replay(Apply(db, actions[0]), actions[1..])
  }

  /** `material_received = 0` and `received_date` NULL. */
  predicate Pending(d: Delivery) {
    d.materialReceived == 0 && d.receivedDate == None
  }

  predicate PrefixesValid(orders: seq<Order>) {
    forall i :: 0 <= i < |orders| ==> IsOrderPrefix(orders[i].prefix)
  }

  predicate DeliveriesOk(db: Db) {
    forall i :: 0 <= i < |db.deliveries| ==> Pending(db.deliveries[i]) && Joined(db, i)
  }

  predicate ProductsOk(db: Db) {
    forall i :: 0 <= i < |db.products| ==>
      OrderExists(db.orders, db.products[i].orderId)
      && Filled(ProductEntry(db.products[i].productType, db.products[i].details))
  }

  ghost predicate Consistent(db: Db) {
    && PrefixesValid(db.orders)
    && WellCoded(db.orders)
    && NamesUnique(db.suppliers)
    && DeliveriesOk(db)
    && ProductsOk(db)
  }

  lemma EmptyConsistent()
    ensures Consistent(EmptyDb)
  {
    assert WellCoded(EmptyDb.orders);
  }

  lemma OrderExistsGrows(orders: seq<Order>, more: seq<Order>, code: string)
    requires OrderExists(orders, code)
    ensures OrderExists(orders + more, code)
  {
    var i :| 0 <= i < |orders| && orders[i].orderId == code;
    assert (orders + more)[i] == orders[i];
  }

  lemma PrefixesValidAppend(orders: seq<Order>, o: Order)
    requires PrefixesValid(orders) && IsOrderPrefix(o.prefix)
    ensures PrefixesValid(orders + [o])
  {
    var r := orders + [o];
    forall i | 0 <= i < |r|
      ensures IsOrderPrefix(r[i].prefix)
    {
      if i < |orders| {
        assert r[i] == orders[i];
      }
    }
  }

  lemma SubmitKeepsOrdersValid(db: Db, form: OrderForm, now: string)
    requires PrefixesValid(db.orders) && WellCoded(db.orders) && FormValid(db, form)
    ensures PrefixesValid(Submit(db, form, now).db.orders)
    ensures WellCoded(Submit(db, form, now).db.orders)
  {
    var r := Submit(db, form, now);
    SubmitKeepsWellCoded(db.orders, form.prefix, form.details, now);
    PrefixesValidAppend(db.orders, Order(r.code, form.prefix, form.details, now));
  }

  lemma SubmitKeepsDeliveriesOk(db: Db, form: OrderForm, now: string)
    requires DeliveriesOk(db) && FormValid(db, form)
    ensures DeliveriesOk(Submit(db, form, now).db)
  {
    var r := Submit(db, form, now);
    var added := Order(r.code, form.prefix, form.details, now);
    SubmitLinks(db, form, now);
    forall i | 0 <= i < |r.db.deliveries|
      ensures Pending(r.db.deliveries[i]) && Joined(r.db, i)
    {
      if i < |db.deliveries| {
        assert r.db.deliveries[i] == db.deliveries[i];
        assert Joined(db, i);
        OrderExistsGrows(db.orders, [added], db.deliveries[i].orderId);
      } else {
        assert r.db.orders[|db.orders|] == added;
      }
    }
  }

  lemma SubmitKeepsProductsOk(db: Db, form: OrderForm, now: string)
    requires ProductsOk(db) && FormValid(db, form)
    ensures ProductsOk(Submit(db, form, now).db)
  {
    var r := Submit(db, form, now);
    var added := Order(r.code, form.prefix, form.details, now);
    var lines := Lines(r.code, Kept(form.products));
    KeptSpec(form.products);
    assert r.db.orders[|db.orders|] == added;
    forall i | 0 <= i < |r.db.products|
      ensures OrderExists(r.db.orders, r.db.products[i].orderId)
      ensures Filled(ProductEntry(r.db.products[i].productType, r.db.products[i].details))
    {
      if i < |db.products| {
        assert r.db.products[i] == db.products[i];
        OrderExistsGrows(db.orders, [added], db.products[i].orderId);
      } else {
        var k := i - |db.products|;
        assert r.db.products[i] == lines[k];
        assert Kept(form.products)[k] in Kept(form.products);
      }
    }
  }

  /** A submission keeps the ledger consistent. */
  lemma SubmitKeepsConsistent(db: Db, form: OrderForm, now: string)
    requires Consistent(db) && FormValid(db, form)
    ensures Consistent(Submit(db, form, now).db)
  {
    SubmitKeepsOrdersValid(db, form, now);
    SubmitKeepsDeliveriesOk(db, form, now);
    SubmitKeepsProductsOk(db, form, now);
  }

  lemma AddSupplierKeepsConsistent(db: Db, name: string, contact: string)
    requires Consistent(db)
    ensures Consistent(AddSupplier(db, name, contact))
  {
    var r := AddSupplier(db, name, contact);
    forall i | 0 <= i < |r.deliveries|
      ensures Pending(r.deliveries[i]) && Joined(r, i)
    {
      assert Joined(db, i);
    }
  }

  lemma ApplyKeepsConsistent(db: Db, a: Action)
    requires Consistent(db) && Allowed(db, a)
    ensures Consistent(Apply(db, a))
  {
    match a
    case SubmitOrder(form, now) => SubmitKeepsConsistent(db, form, now);
    case RegisterSupplier(name, contact) => AddSupplierKeepsConsistent(db, name, contact);
  }

  /** Every run of submissions and registrations from a consistent ledger ends in a consistent ledger. */
  lemma {:induction false} ReplayConsistent(db: Db, actions: seq<Action>)
    requires Consistent(db) && ValidTrace(db, actions)
    ensures Consistent(Replay(db, actions))
    decreases |actions|
  {
    if |actions| > 0 {
      ApplyKeepsConsistent(db, actions[0]);
      ReplayConsistent(Apply(db, actions[0]), actions[1..]);
    }
  }

  lemma ReachableConsistent(actions: seq<Action>)
    requires ValidTrace(EmptyDb, actions)
    ensures Consistent(Replay(EmptyDb, actions))
  {
    EmptyConsistent();
    ReplayConsistent(EmptyDb, actions);
  }

  lemma ReachableDeliveriesOk(actions: seq<Action>)
    requires ValidTrace(EmptyDb, actions)
    ensures DeliveriesOk(Replay(EmptyDb, actions))
  {
    ReachableConsistent(actions);
  }

  /**
   In a ledger built from an empty database by submissions and registrations
   no two orders share a code, whatever the mix of categories.
   */
  lemma ReachableCodesUnique(actions: seq<Action>)
    requires ValidTrace(EmptyDb, actions)
    ensures var db := Replay(EmptyDb, actions);
            forall i, j :: 0 <= i < j < |db.orders| ==> db.orders[i].orderId != db.orders[j].orderId
  {
    ReachableConsistent(actions);
    var db := Replay(EmptyDb, actions);
    forall i | 0 <= i < |db.orders|
      ensures '-' !in db.orders[i].prefix
    {
      PrefixesHaveNoDash(db.orders[i].prefix);
    }
    WellCodedUnique(db.orders);
  }

  /** Only order-form submissions, as the program's own forms produce them. */
  predicate SubmissionsOnly(actions: seq<Action>) {
    forall k :: 0 <= k < |actions| ==> actions[k].SubmitOrder?
  }

  /**
   With the order form alone the suppliers table stays empty, so the
   selector offers only the placeholder and no delivery is ever linked.
   */
  lemma {:induction false} FormsAloneLinkNothing(db: Db, actions: seq<Action>)
    requires db.suppliers == [] && db.deliveries == []
    requires ValidTrace(db, actions) && SubmissionsOnly(actions)
    ensures Replay(db, actions).suppliers == [] && Replay(db, actions).deliveries == []
    decreases |actions|
  {
    if |actions| > 0 {
      var a := actions[0];
      assert a.SubmitOrder?;
      assert a.form.selectedSupplier == NoSuppliers;
      SubmitLinks(db, a.form, a.now);
      assert SubmissionsOnly(actions[1..]) by {
        forall k | 0 <= k < |actions[1..]|
          ensures actions[1..][k].SubmitOrder?
        {
          assert actions[1..][k] == actions[k + 1];
        }
      }
      FormsAloneLinkNothing(Apply(db, a), actions[1..]);
    }
  }

  /** With unique codes, an existing code is carried by exactly one order row. */
  lemma {:induction false} CountCodeOne(orders: seq<Order>, code: string)
    requires forall i, j :: 0 <= i < j < |orders| ==> orders[i].orderId != orders[j].orderId
    requires OrderExists(orders, code)
    ensures CountCode(orders, code) == 1
  {
    var rest := orders[1..];
    assert forall i :: 0 <= i < |rest| ==> rest[i] == orders[i + 1];
    if orders[0].orderId == code {
      assert !OrderExists(rest, code);
      CountCodeExists(rest, code);
    } else {
      var i :| 0 <= i < |orders| && orders[i].orderId == code;
      assert rest[i - 1].orderId == code;
      CountCodeOne(rest, code);
    }
  }

  /** Each of the first `k` deliveries joins and is repeated exactly once. */
  predicate JoinsOnce(db: Db, counts: seq<nat>, k: nat)
    requires k <= |db.deliveries| && |counts| == |db.deliveries|
  {
    forall i :: 0 <= i < k ==> Joined(db, i) && counts[i] == 1
  }

  /** `rows` are the view rows of the first `k` deliveries, newest first, one each. */
  predicate NewestOnce(db: Db, rows: seq<DeliveryRow>, k: nat)
    requires k <= |db.deliveries|
  {
    && |rows| == k
    && forall j :: 0 <= j < k ==> NewestAt(db, rows, k, j)
  }

  /** Row `j` of `rows` is the view row of delivery `k - 1 - j`, which joins. */
  predicate NewestAt(db: Db, rows: seq<DeliveryRow>, k: nat, j: nat)
    requires j < k <= |db.deliveries| && j < |rows|
  {
    Joined(db, k - 1 - j) && rows[j] == ViewOf(db, k - 1 - j)
  }

  /**
   When every delivery joins exactly once, the view is the deliveries
   themselves, newest first, one row each.
   */
  lemma {:induction false} JoinExact(db: Db, counts: seq<nat>, k: nat)
    requires k <= |db.deliveries| && |counts| == |db.deliveries| && JoinsOnce(db, counts, k)
    ensures NewestOnce(db, JoinWith(db, counts, k), k)
  {
    if k > 0 {
      JoinExact(db, counts, k - 1);
      assert RowsFor(db, k - 1, counts[k - 1]) == [ViewOf(db, k - 1)];
      NewestStep(db, k, JoinWith(db, counts, k - 1));
    }
  }

  /** Putting the view row of delivery `k - 1` in front of the rows of the first `k - 1` deliveries. */
  lemma NewestStep(db: Db, k: nat, rest: seq<DeliveryRow>)
    requires 0 < k <= |db.deliveries| && Joined(db, k - 1)
    requires NewestOnce(db, rest, k - 1)
    ensures NewestOnce(db, [ViewOf(db, k - 1)] + rest, k)
  {
    var rows := [ViewOf(db, k - 1)] + rest;
    forall j | 0 <= j < k
      ensures NewestAt(db, rows, k, j)
    {
      if j > 0 {
        assert NewestAt(db, rest, k - 1, j - 1);
        assert rows[j] == rest[j - 1];
      }
    }
  }

  /** Under unique codes every delivery of a ledger with joined deliveries joins exactly once. */
  lemma JoinedOnce(db: Db)
    requires DeliveriesOk(db)
    requires forall i, j :: 0 <= i < j < |db.orders| ==> db.orders[i].orderId != db.orders[j].orderId
    ensures JoinsOnce(db, Multiplicities(db), |db.deliveries|)
  {
    forall i | 0 <= i < |db.deliveries|
      ensures Joined(db, i) && Multiplicities(db)[i] == 1
    {
      assert Joined(db, i);
      CountCodeOne(db.orders, db.deliveries[i].orderId);
    }
  }

  /** Every row of the view offers the confirm button for its own delivery. */
  predicate AllConfirmable(rows: seq<DeliveryRow>) {
    forall j :: 0 <= j < |rows| ==> Control(rows[j]) == ConfirmButton(rows[j].deliveryId)
  }

  /**
   In a ledger with unique codes whose deliveries are all pending and
   joined, the deliveries view lists every delivery exactly once, newest
   first, and every row offers the confirm button.
   */
  lemma ConsistentDeliveriesView(db: Db)
    requires DeliveriesOk(db)
    requires forall i, j :: 0 <= i < j < |db.orders| ==> db.orders[i].orderId != db.orders[j].orderId
    ensures NewestOnce(db, FetchSupplierDeliveries(db), |db.deliveries|)
    ensures AllConfirmable(FetchSupplierDeliveries(db))
  {
    JoinedOnce(db);
    var n := |db.deliveries|;
    JoinExact(db, Multiplicities(db), n);
    var rows := JoinNewest(db, n);
    assert rows == FetchSupplierDeliveries(db);
    forall j | 0 <= j < n
      ensures Control(rows[j]) == ConfirmButton(rows[j].deliveryId)
    {
      assert Pending(db.deliveries[n - 1 - j]);
      assert NewestAt(db, rows, n, j);
    }
  }

  /**
   In a ledger built from an empty database by submissions and registrations
   the deliveries view lists every delivery exactly once, newest first, and
   every row offers the confirm button: no operation of the ledger ever marks
   material as received. This rests on the linked supplier id being stored as
   an integer that the join can match.
   */
  lemma ReachableDeliveriesView(actions: seq<Action>, db: Db)
    requires ValidTrace(EmptyDb, actions) && db == Replay(EmptyDb, actions)
    ensures NewestOnce(db, FetchSupplierDeliveries(db), |db.deliveries|)
    ensures AllConfirmable(FetchSupplierDeliveries(db))
  {
    ReachableCodesUnique(actions);
    ReachableDeliveriesOk(actions);
    ConsistentDeliveriesView(db);
  }
}
