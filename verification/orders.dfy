/**
 The `orders` table, shared by the SQLite phases: one row per submitted
 order in insertion order, the row id being its position plus one (the table
 is append-only, so AUTOINCREMENT ids are exactly 1, 2, 3, ...).
 */
module Orders {
  import opened Wrappers
  import opened Decimal
  import opened OrderCodes

  /** The user-entered columns of an order. `price` is kept as an opaque integer. */
  datatype OrderDetails = OrderDetails(
    customer: string,
    address: string,
    phone: string,
    description: string,
    price: int)

  datatype Order = Order(orderId: string, prefix: string, details: OrderDetails, createdAt: string)

  /** A row as `SELECT *` returns it: the AUTOINCREMENT id and the stored columns. */
  datatype OrderRow = OrderRow(id: nat, order: Order)

  /** `SELECT COUNT(*) FROM orders WHERE prefix = ?` */
  function CountPrefix(orders: seq<Order>, prefix: string): (n: nat)
    ensures n <= |orders|
  {
    if |orders| == 0 then 0
    else CountPrefix(orders[..|orders| - 1], prefix) + (if orders[|orders| - 1].prefix == prefix then 1 else 0)
  }

  /** The orders of one category, in insertion order. */
  function OfPrefix(orders: seq<Order>, prefix: string): (r: seq<Order>)
    ensures forall o :: o in r <==> o in orders && o.prefix == prefix
  {
    if |orders| == 0 then []
    else OfPrefix(orders[..|orders| - 1], prefix) + (if orders[|orders| - 1].prefix == prefix then [orders[|orders| - 1]] else [])
  }

  /**
   `generate_order_id`: the code for the next order of category `prefix`,
   numbered one past the orders of that category already stored.
   */
  function GenerateOrderId(orders: seq<Order>, prefix: string): string {
    FormatCode(prefix, CountPrefix(orders, prefix) + 1)
  }

  /**
   The generated code starts with the prefix and a dash, followed by at
   least four digits.
   */
  lemma GenerateOrderIdShape(orders: seq<Order>, prefix: string)
    ensures |GenerateOrderId(orders, prefix)| == |prefix| + 1 + Max(4, |NatToDecimal(CountPrefix(orders, prefix) + 1)|)
    ensures GenerateOrderId(orders, prefix)[..|prefix| + 1] == prefix + "-"
  {
    var code := GenerateOrderId(orders, prefix);
    var m := CountPrefix(orders, prefix);
    assert code == FormatCode(prefix, m + 1);
    FormatCodeShape(prefix, m + 1);
  }

  /**
   For a dash-free prefix the generated code reads back as the prefix and
   one more than the number of stored orders of that category.
   */
  lemma GenerateOrderIdParses(orders: seq<Order>, prefix: string)
    requires '-' !in prefix
    ensures ParseOrderCode(GenerateOrderId(orders, prefix)) == Some((prefix, CountPrefix(orders, prefix) + 1))
  {
    var code := GenerateOrderId(orders, prefix);
    var m := CountPrefix(orders, prefix);
    assert code == FormatCode(prefix, m + 1);
    ParseFormatRoundTrip(prefix, m + 1);
  }

  /**
   `insert_order`: appends exactly one row with the given code, category,
   columns and timestamp, keeping the earlier rows in place.
   */
  function InsertOrder(orders: seq<Order>, code: string, prefix: string, details: OrderDetails, now: string): (r: seq<Order>)
    ensures |r| == |orders| + 1 && r[..|orders|] == orders
    ensures r[|orders|] == Order(code, prefix, details, now)
  {
    var r := orders + [Order(code, prefix, details, now)];
    assert r[..|orders|] == orders;
    r
  }

  /** Inserting grows the category's count by one and leaves every other category's count alone. */
  lemma InsertOrderCounts(orders: seq<Order>, code: string, prefix: string, details: OrderDetails, now: string)
    ensures CountPrefix(InsertOrder(orders, code, prefix, details, now), prefix) == CountPrefix(orders, prefix) + 1
    ensures forall q :: q != prefix ==> CountPrefix(InsertOrder(orders, code, prefix, details, now), q) == CountPrefix(orders, q)
  {
    var r := InsertOrder(orders, code, prefix, details, now);
    assert r[..|r| - 1] == orders;
  }

  /** `SELECT * FROM orders ORDER BY id DESC`: every row, newest first. */
  function FetchOrders(orders: seq<Order>): (rows: seq<OrderRow>)
    ensures |rows| == |orders|
    ensures forall k :: 0 <= k < |rows| ==> rows[k] == OrderRow(|orders| - k, orders[|orders| - 1 - k])
  {
    if |orders| == 0 then []
    else [OrderRow(|orders|, orders[|orders| - 1])] + FetchOrders(orders[..|orders| - 1])
  }

  /** The listing shows ids strictly decreasing from the newest row down to 1. */
  lemma FetchOrdersNewestFirst(orders: seq<Order>)
    ensures forall a, b :: 0 <= a < b < |FetchOrders(orders)| ==> FetchOrders(orders)[a].id > FetchOrders(orders)[b].id
    ensures forall k :: 0 <= k < |FetchOrders(orders)| ==> 1 <= FetchOrders(orders)[k].id <= |orders|
  {
  }

  /**
   The sequence number of a new code depends only on the orders of the same
   category: dropping every other category's orders yields the same code.
   */
  lemma {:induction false} GenerateIgnoresOtherPrefixes(orders: seq<Order>, prefix: string)
    ensures CountPrefix(orders, prefix) == |OfPrefix(orders, prefix)|
    ensures GenerateOrderId(orders, prefix) == GenerateOrderId(OfPrefix(orders, prefix), prefix)
  {
    CountOfPrefix(orders, prefix);
  }

  lemma {:induction false} CountOfPrefix(orders: seq<Order>, prefix: string)
    ensures CountPrefix(orders, prefix) == |OfPrefix(orders, prefix)|
    ensures CountPrefix(OfPrefix(orders, prefix), prefix) == |OfPrefix(orders, prefix)|
  {
    if |orders| > 0 {
      CountOfPrefix(orders[..|orders| - 1], prefix);
      AllSamePrefixCount(OfPrefix(orders, prefix), prefix);
    }
  }

  lemma {:induction false} AllSamePrefixCount(orders: seq<Order>, prefix: string)
    requires forall i :: 0 <= i < |orders| ==> orders[i].prefix == prefix
    ensures CountPrefix(orders, prefix) == |orders|
  {
    if |orders| > 0 {
      AllSamePrefixCount(orders[..|orders| - 1], prefix);
    }
  }

  /** Counting over a longer stretch of the table never gives less. */
  lemma {:induction false} CountPrefixMonotone(orders: seq<Order>, prefix: string, i: nat, j: nat)
    requires i <= j <= |orders|
    ensures CountPrefix(orders[..i], prefix) <= CountPrefix(orders[..j], prefix)
    decreases j - i
  {
    if i < j {
      CountPrefixMonotone(orders, prefix, i, j - 1);
      assert orders[..j][..j - 1] == orders[..j - 1];
    }
  }

  /**
   Every row's code is the one `generate_order_id` produced from the rows
   before it, for that row's own category: the table was built by the
   generate-then-insert submit flow.
   */
  ghost predicate WellCoded(orders: seq<Order>) {
    forall i :: 0 <= i < |orders| ==> CodedAt(orders, i)
  }

  /** Row `i` carries the code generated from the rows before it. */
  predicate CodedAt(orders: seq<Order>, i: nat)
    requires i < |orders|
  {
    orders[i].orderId == GenerateOrderId(orders[..i], orders[i].prefix)
  }

  /** The number in a well-coded row's code: one past the earlier orders of its category. */
  function SequenceNumber(orders: seq<Order>, i: nat): nat
    requires i < |orders|
  {
    CountPrefix(orders[..i], orders[i].prefix) + 1
  }

  /** Generating a code and inserting it with the same category keeps the table well coded. */
  lemma SubmitKeepsWellCoded(orders: seq<Order>, prefix: string, details: OrderDetails, now: string)
    requires WellCoded(orders)
    ensures WellCoded(InsertOrder(orders, GenerateOrderId(orders, prefix), prefix, details, now))
  {
    var r := InsertOrder(orders, GenerateOrderId(orders, prefix), prefix, details, now);
    forall i | 0 <= i < |r|
      ensures CodedAt(r, i)
    {
      if i < |orders| {
        assert CodedAt(orders, i);
        assert r[..i] == orders[..i];
      } else {
        assert r[..i] == orders;
      }
    }
  }

  /**
   Within one category the sequence numbers of a well-coded table strictly
   increase with insertion order, and each is what the row's code reads back.
   */
  lemma CodesIncreaseWithinPrefix(orders: seq<Order>, i: nat, j: nat)
    requires WellCoded(orders)
    requires i < j < |orders| && orders[i].prefix == orders[j].prefix
    requires '-' !in orders[i].prefix
    ensures ParseOrderCode(orders[i].orderId) == Some((orders[i].prefix, SequenceNumber(orders, i)))
    ensures ParseOrderCode(orders[j].orderId) == Some((orders[j].prefix, SequenceNumber(orders, j)))
    ensures SequenceNumber(orders, i) < SequenceNumber(orders, j)
  {
    WellCodedAt(orders, i);
    WellCodedAt(orders, j);
    CountStep(orders, i);
    CountPrefixMonotone(orders, orders[i].prefix, i + 1, j);
  }

  /** What well-codedness says of one row. */
  lemma WellCodedAt(orders: seq<Order>, i: nat)
    requires WellCoded(orders) && i < |orders|
    requires '-' !in orders[i].prefix
    ensures ParseOrderCode(orders[i].orderId) == Some((orders[i].prefix, SequenceNumber(orders, i)))
  {
    assert CodedAt(orders, i);
    GenerateOrderIdParses(orders[..i], orders[i].prefix);
  }

  lemma CountStep(orders: seq<Order>, i: nat)
    requires i < |orders|
    ensures CountPrefix(orders[..i + 1], orders[i].prefix) == CountPrefix(orders[..i], orders[i].prefix) + 1
  {
    assert orders[..i + 1][..i] == orders[..i];
  }

  /**
   In a well-coded table whose categories are dash-free, no two rows share a
   code: across categories the prefixes differ, within one the numbers do.
   */
  lemma WellCodedUnique(orders: seq<Order>)
    requires WellCoded(orders)
    requires forall i :: 0 <= i < |orders| ==> '-' !in orders[i].prefix
    ensures forall i, j :: 0 <= i < j < |orders| ==> orders[i].orderId != orders[j].orderId
  {
    forall i, j | 0 <= i < j < |orders|
      ensures orders[i].orderId != orders[j].orderId
    {
      if orders[i].prefix == orders[j].prefix {
        CodesIncreaseWithinPrefix(orders, i, j);
      } else {
        assert CodedAt(orders, i) && CodedAt(orders, j);
        FormatCodeInjective(orders[i].prefix, SequenceNumber(orders, i), orders[j].prefix, SequenceNumber(orders, j));
      }
    }
  }
}
