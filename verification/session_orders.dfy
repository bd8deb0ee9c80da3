/**
 The first prototype: an in-session order table seeded with five orders
 numbered 1 to 5, to which the "Create New Order" form appends orders
 numbered by the current row count plus one.
 */
module SessionOrders {

  datatype Status = New | InProduction | Completed | Delivered

  /** The three product types the form's selector offers. */
  datatype GlassType = Tempered | Laminated | Float

  /** One row; dates are kept as opaque text. */
  datatype SessionOrder = SessionOrder(
    id: int,
    customer: string,
    productType: GlassType,
    dimensions: string,
    quantity: int,
    status: Status,
    deadline: string,
    orderDate: string)

  /** What the form submits; `today` stands for the moment of submission. */
  datatype NewOrder = NewOrder(
    customer: string,
    productType: GlassType,
    dimensions: string,
    quantity: int,
    deadline: string,
    today: string)

  /** Row `i` carries id `i + 1`: ids are unique and consecutive from 1. */
  predicate Numbered(table: seq<SessionOrder>) {
    forall i :: 0 <= i < |table| ==> table[i].id == i + 1
  }

  predicate QuantitiesPositive(table: seq<SessionOrder>) {
    forall i :: 0 <= i < |table| ==> table[i].quantity >= 1
  }

  /** The mock data the session starts from. */
  function Seed(): (table: seq<SessionOrder>)
    ensures |table| == 5 && Numbered(table) && QuantitiesPositive(table)
  {
    [ SessionOrder(1, "Alpha Glass", Tempered, "100x200", 10, Completed, "2025-05-20", "2025-05-01"),
      SessionOrder(2, "Beta Build", Laminated, "120x240", 20, InProduction, "2025-06-05", "2025-05-15"),
      SessionOrder(3, "ClearView Ltd", Tempered, "90x180", 15, New, "2025-06-10", "2025-05-25"),
      SessionOrder(4, "Zenith Glazing", Float, "100x100", 5, Delivered, "2025-05-28", "2025-05-10"),
      SessionOrder(5, "Vista Panels", Laminated, "150x250", 12, New, "2025-06-15", "2025-05-30") ]
  }

  /**
   Adding an order appends exactly one row, numbered one past the current
   row count, with status New and the form's fields; earlier rows and their
   order are kept. The quantity widget's lower bound of 1 is the precondition.
   */
  function AddOrder(table: seq<SessionOrder>, req: NewOrder): (r: seq<SessionOrder>)
    requires req.quantity >= 1
    ensures |r| == |table| + 1 && r[..|table|] == table
    ensures r[|table|].id == |table| + 1 && r[|table|].status == New
    ensures r[|table|].customer == req.customer && r[|table|].productType == req.productType
    ensures r[|table|].dimensions == req.dimensions && r[|table|].quantity == req.quantity
    ensures r[|table|].deadline == req.deadline && r[|table|].orderDate == req.today
  {
    var row := SessionOrder(|table| + 1, req.customer, req.productType, req.dimensions, req.quantity, New, req.deadline, req.today);
    assert (table + [row])[..|table|] == table;
    table + [row]
  }

  /** Adding keeps ids consecutive and quantities positive. */
  lemma AddKeepsNumbered(table: seq<SessionOrder>, req: NewOrder)
    requires req.quantity >= 1
    requires Numbered(table) && QuantitiesPositive(table)
    ensures Numbered(AddOrder(table, req)) && QuantitiesPositive(AddOrder(table, req))
  {
    var r := AddOrder(table, req);
    forall i | 0 <= i < |table|
      ensures r[i] == table[i]
    {
      assert r[..|table|][i] == table[i];
    }
  }

  predicate ValidRequests(reqs: seq<NewOrder>) {
    forall k :: 0 <= k < |reqs| ==> reqs[k].quantity >= 1
  }

  /** A run of form submissions, in order. */
  function AddAll(table: seq<SessionOrder>, reqs: seq<NewOrder>): (r: seq<SessionOrder>)
    requires ValidRequests(reqs)
    ensures |r| == |table| + |reqs|
    decreases |reqs|
  {
    if |reqs| == 0 then table else AddAll(AddOrder(table, reqs[0]), reqs[1..])
  }

  /** Any run of submissions from a numbered table with positive quantities keeps both. */
  lemma {:induction false} AddAllKeepsNumbered(table: seq<SessionOrder>, reqs: seq<NewOrder>)
    requires ValidRequests(reqs)
    requires Numbered(table) && QuantitiesPositive(table)
    ensures Numbered(AddAll(table, reqs)) && QuantitiesPositive(AddAll(table, reqs))
    decreases |reqs|
  {
    if |reqs| > 0 {
      AddKeepsNumbered(table, reqs[0]);
      AddAllKeepsNumbered(AddOrder(table, reqs[0]), reqs[1..]);
    }
  }

  /**
   Starting from the seed, any run of submissions keeps the seed rows in
   front, leaves row `i` with id `i + 1` (so ids stay unique and
   consecutive) and every quantity at least 1.
   */
  lemma SessionIdsFromSeed(reqs: seq<NewOrder>)
    requires ValidRequests(reqs)
    ensures var t := AddAll(Seed(), reqs);
            && |t| == 5 + |reqs|
            && t[..5] == Seed()
            && (forall i :: 0 <= i < |t| ==> t[i].id == i + 1)
            && (forall i, j :: 0 <= i < j < |t| ==> t[i].id != t[j].id)
            && (forall i :: 0 <= i < |t| ==> t[i].quantity >= 1)
  {
    AddAllKeepsNumbered(Seed(), reqs);
    AddAllPrefix(Seed(), reqs);
  }

  /** Every order the form adds starts with status New. */
  lemma {:induction false} AddedOrdersAreNew(table: seq<SessionOrder>, reqs: seq<NewOrder>)
    requires ValidRequests(reqs)
    ensures forall i :: |table| <= i < |AddAll(table, reqs)| ==> AddAll(table, reqs)[i].status == New
    decreases |reqs|
  {
    if |reqs| > 0 {
      var next := AddOrder(table, reqs[0]);
      AddAllPrefix(next, reqs[1..]);
      AddedOrdersAreNew(next, reqs[1..]);
    }
  }

  /** Submissions only append: the rows already there stay in front, in order. */
  lemma {:induction false} AddAllPrefix(table: seq<SessionOrder>, reqs: seq<NewOrder>)
    requires ValidRequests(reqs)
    ensures AddAll(table, reqs)[..|table|] == table
    decreases |reqs|
  {
    if |reqs| > 0 {
      var next := AddOrder(table, reqs[0]);
      AddAllPrefix(next, reqs[1..]);
      assert AddAll(table, reqs)[..|table|] == AddAll(next, reqs[1..])[..|next|][..|table|];
    }
  }
}
