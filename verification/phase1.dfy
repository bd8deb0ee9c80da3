/**
 The phase-1 application: the same `orders` table and code generator as the
 later ledger, and a form whose submission generates a code, inserts the
 order under it and shows that code to the user.
 */
module Phase1 {
  import opened Wrappers
  import opened OrderCodes
  import opened Orders

  /** The table after a submission and the code the success message shows. */
  datatype Submission = Submission(orders: seq<Order>, shown: string)

  /**
   A submission: the code shown is the code stored, the one new row carries
   the chosen category and fields, and the earlier rows are untouched.
   */
  function Submit(orders: seq<Order>, prefix: string, details: OrderDetails, now: string): (r: Submission)
    requires IsOrderPrefix(prefix)
    ensures |r.orders| == |orders| + 1 && r.orders[..|orders|] == orders
    ensures r.orders[|orders|] == Order(r.shown, prefix, details, now)
    ensures r.shown == GenerateOrderId(orders, prefix)
  {
    var code := GenerateOrderId(orders, prefix);
    Submission(InsertOrder(orders, code, prefix, details, now), code)
  }

  /** After a submission the listing starts with the new order under the shown code. */
  lemma ListingAfterSubmit(orders: seq<Order>, prefix: string, details: OrderDetails, now: string)
    requires IsOrderPrefix(prefix)
    ensures var r := Submit(orders, prefix, details, now);
            && FetchOrders(r.orders)[0] == OrderRow(|orders| + 1, Order(r.shown, prefix, details, now))
            && FetchOrders(r.orders)[1..] == FetchOrders(orders)
  {
    var r := Submit(orders, prefix, details, now);
    assert r.orders[..|r.orders| - 1] == orders;
  }

  /** One form filling: the user-entered fields and the moment of submission. */
  datatype Entry = Entry(details: OrderDetails, now: string)

  datatype Batch = Batch(orders: seq<Order>, shown: seq<string>)

  /** Several submissions of the same category, one after the other. */
  function SubmitAll(orders: seq<Order>, prefix: string, entries: seq<Entry>): (r: Batch)
    requires IsOrderPrefix(prefix)
    ensures |r.shown| == |entries| && |r.orders| == |orders| + |entries|
    decreases |entries|
  {
    if |entries| == 0 then Batch(orders, [])
    else
      var s := Submit(orders, prefix, entries[0].details, entries[0].now);
      var rest := SubmitAll(s.orders, prefix, entries[1..]);
      Batch(rest.orders, [s.shown] + rest.shown)
  }

  /** `shown` holds the codes of `prefix` numbered `first`, `first + 1`, ... */
  predicate NumberedFrom(shown: seq<string>, prefix: string, first: nat) {
    forall k :: 0 <= k < |shown| ==> shown[k] == FormatCode(prefix, first + k)
  }

  /** A submission of category `prefix` adds one to that category's count. */
  lemma SubmitCount(orders: seq<Order>, prefix: string, e: Entry)
    requires IsOrderPrefix(prefix)
    ensures CountPrefix(Submit(orders, prefix, e.details, e.now).orders, prefix) == CountPrefix(orders, prefix) + 1
  {
    var s := Submit(orders, prefix, e.details, e.now);
    assert s.orders == InsertOrder(orders, s.shown, prefix, e.details, e.now);
    InsertOrderCounts(orders, s.shown, prefix, e.details, e.now);
  }

  lemma NumberedCons(head: string, rest: seq<string>, prefix: string, first: nat)
    requires head == FormatCode(prefix, first) && NumberedFrom(rest, prefix, first + 1)
    ensures NumberedFrom([head] + rest, prefix, first)
  {
    var shown := [head] + rest;
    forall k | 0 <= k < |shown|
      ensures shown[k] == FormatCode(prefix, first + k)
    {
      if k > 0 {
        assert shown[k] == rest[k - 1];
      }
    }
  }

  /**
   Repeated submissions of one category show consecutive sequence numbers,
   continuing from the number of orders of that category already stored.
   */
  lemma {:induction false} SubmitAllCodes(orders: seq<Order>, prefix: string, entries: seq<Entry>)
    requires IsOrderPrefix(prefix)
    ensures NumberedFrom(SubmitAll(orders, prefix, entries).shown, prefix, CountPrefix(orders, prefix) + 1)
    decreases |entries|
  {
    if |entries| > 0 {
      var s := Submit(orders, prefix, entries[0].details, entries[0].now);
      SubmitCount(orders, prefix, entries[0]);
      SubmitAllCodes(s.orders, prefix, entries[1..]);
      NumberedCons(s.shown, SubmitAll(s.orders, prefix, entries[1..]).shown, prefix, CountPrefix(orders, prefix) + 1);
    }
  }

  /**
   From an empty table, submitting category M again and again numbers the
   codes 1, 2, 3, ... in submission order.
   */
  lemma FromEmptyTable(entries: seq<Entry>)
    ensures var r := SubmitAll([], "M", entries);
            && |r.shown| == |entries|
            && (forall k :: 0 <= k < |r.shown| ==> ParseOrderCode(r.shown[k]) == Some(("M", k + 1)))
  {
    assert IsOrderPrefix("M");
    SubmitAllCodes([], "M", entries);
    var r := SubmitAll([], "M", entries);
    forall k | 0 <= k < |r.shown|
      ensures ParseOrderCode(r.shown[k]) == Some(("M", k + 1))
    {
      assert r.shown[k] == FormatCode("M", 1 + k);
      ParseFormatRoundTrip("M", k + 1);
    }
  }

  /** The first three such submissions show M-0001, M-0002 and M-0003. */
  lemma FirstThreeFromEmpty(entries: seq<Entry>)
    requires |entries| >= 3
    ensures SubmitAll([], "M", entries).shown[..3] == ["M-0001", "M-0002", "M-0003"]
  {
    assert IsOrderPrefix("M");
    SubmitAllCodes([], "M", entries);
    FirstThree(SubmitAll([], "M", entries).shown, CountPrefix([], "M") + 1);
  }

  lemma FirstThree(shown: seq<string>, first: nat)
    requires first == 1 && |shown| >= 3 && NumberedFrom(shown, "M", first)
    ensures shown[..3] == ["M-0001", "M-0002", "M-0003"]
  {
    assert shown[0] == FormatCode("M", 1) && shown[1] == FormatCode("M", 2) && shown[2] == FormatCode("M", 3);
    FirstCodes();
    assert shown[..3] == [shown[0], shown[1], shown[2]];
  }
}
