# Glass-factory order management: a Dafny model

This project models the core of a small order-management system for a glass
factory. The system was built in three stages:

- **Session prototype** (`glass_factory_oms_app.py`). An order table held in the
  user's session. It is seeded with five mock orders, and new orders are
  numbered by the current row count plus one.
- **Phase 1** (`glass_factory_phase1_sqlite.py`). A SQLite `orders` table.
  `generate_order_id` numbers each order within its category: it gives a code
  such as `M-0001`, made of the category prefix, a dash, and the count of that
  category's stored orders plus one, zero-filled to four digits. The form
  generates the code, inserts the order under it and shows the code.
- **Phase 3** (`glass_factory_phase3_gr.py`). The same `orders` table plus
  `suppliers` (with a unique name), `deliveries` (an order linked to a
  supplier, with a received flag and date) and `products` (the filled product
  slots of an order). A single form submission:
  - generates the code;
  - inserts the order;
  - links the selected supplier, unless the selector shows its "no suppliers"
    placeholder;
  - stores every slot whose type and details are both filled.

  The deliveries tab shows the inner join of deliveries with suppliers (by
  id) and with orders (by code), newest first. A row whose material has not
  been received offers a confirm button. A received row shows its date.

Model design:

- Every table is an immutable sequence. A row's AUTOINCREMENT id is its
  position plus one, because none of the programs ever deletes a row.
- Python's `str(n)` and `str.zfill` are written out over characters in
  module `Decimal`, together with the digit parser that inverts them.
- The code format and its parser are in `OrderCodes`.
- The `orders` table operations shared by phase 1 and phase 3 are in
  `Orders`. The two files define `generate_order_id`, `insert_order` and
  `fetch_orders` identically.
- The phase-3 ledger and its views are in `Ledger`.
- `LedgerTraces` describes every ledger built from an empty database by
  order-form submissions and supplier registrations. In every such ledger:
  - the orders are well coded and carry unique codes;
  - every supplier name is unique;
  - every delivery is pending and joins;
  - every product line is filled in and belongs to an order.

  No form of the program calls `add_supplier`. A registration therefore stands
  for one made from outside the program. With the order form alone, the
  suppliers table stays empty, the selector offers only its placeholder, and
  no delivery is ever linked (`LedgerTraces.FormsAloneLinkNothing`).
- `Phase1` holds the phase-1 submit flow. `SessionOrders` holds the session
  prototype.

Inputs that the programs read from the outside world are parameters:

- the current time, as a string;
- the values the widgets return.

## Model

| member | source | states |
|---|---|---|
| Decimal.NatToDecimal | glass_factory_phase3_gr.py:83 | `str(count)` of a non-negative count is a non-empty string of digits with no leading zero, except for "0" itself |
| Decimal.ZFillSpec | glass_factory_phase3_gr.py:83 | `zfill(width)` never truncates: the result is `max(len, width)` long and is the input itself when the input is already long enough; otherwise the input ends the result and only '0's stand before it, after a leading sign when there is one |
| Decimal.DecimalRoundTrip | glass_factory_phase3_gr.py:83 | reading the digits of `str(n)` back gives `n` |
| Decimal.PaddedDecimalRoundTrip | glass_factory_phase3_gr.py:83 | the zero-filled decimal of `n` is all digits and still reads back as `n`, whatever the width |
| Decimal.FourWidePadding | glass_factory_phase3_gr.py:83 | the four-wide fill is exactly four characters below 10000; from 10000 on it is the full decimal, unpadded and untruncated |
| OrderCodes.PrefixesHaveNoDash | glass_factory_phase3_gr.py:9-15 | none of the five category prefixes contains a dash, so the first dash of a code ends its prefix |
| OrderCodes.ParseFormatRoundTrip | glass_factory_phase3_gr.py:83 | for a dash-free prefix, splitting a formatted code at its first dash gives back the prefix and the sequence number |
| OrderCodes.FormatCodeInjective | glass_factory_phase3_gr.py:83 | two codes with dash-free prefixes are equal if and only if both their prefixes and their numbers are equal |
| OrderCodes.FormatCodeShape | glass_factory_phase3_gr.py:83 | a code is the prefix, a dash and then max(4, number of digits) digits |
| OrderCodes.SingleDigitCode | glass_factory_phase3_gr.py:83 | a number from 1 to 9 is written as three zeros and the digit |
| OrderCodes.FirstCodes | glass_factory_phase1_sqlite.py:37-43 | the first three codes of category M are M-0001, M-0002 and M-0003 |
| OrderCodes.WideCode | glass_factory_phase3_gr.py:83 | past 9999 the number is written out in full: A-12345 |
| Orders.CountOfPrefix | glass_factory_phase3_gr.py:80-81 | the per-category COUNT equals the number of rows of that category; counting again within that sub-table gives the same number |
| Orders.GenerateOrderIdShape | glass_factory_phase3_gr.py:77-83 | the generated code starts with the prefix and a dash, and its length is fixed by the number of digits of count + 1 |
| Orders.GenerateOrderIdParses | glass_factory_phase3_gr.py:77-83 | the generated code parses back to the prefix and one more than the number of stored orders of that category |
| Orders.GenerateIgnoresOtherPrefixes | glass_factory_phase3_gr.py:80 | the generated code depends only on the category's own orders: dropping every other category gives the same code |
| Orders.InsertOrder | glass_factory_phase3_gr.py:85-93 | exactly one row is appended, with the given code, category, columns and timestamp; earlier rows keep their place (phase 1 has the same function, glass_factory_phase1_sqlite.py:45-53) |
| Orders.InsertOrderCounts | glass_factory_phase3_gr.py:85-93 | an insert raises its own category's count by one and leaves every other category's count unchanged |
| Orders.FetchOrders | glass_factory_phase3_gr.py:109-113 | the listing has one row per order; row `k` is the `k`-th newest order under id `n - k` (phase 1 has the same query, glass_factory_phase1_sqlite.py:55-59) |
| Orders.FetchOrdersNewestFirst | glass_factory_phase3_gr.py:111 | listed ids strictly decrease and stay within 1..n |
| Orders.SubmitKeepsWellCoded | glass_factory_phase3_gr.py:180-181 | generating a code and then inserting under it keeps every row's code equal to the one generated from the rows before it |
| Orders.WellCodedAt | glass_factory_phase3_gr.py:180-181 | in a well-coded table each row's code parses to its own prefix and to one past the earlier orders of its category |
| Orders.CodesIncreaseWithinPrefix | glass_factory_phase3_gr.py:180-181 | within one category, sequence numbers strictly increase in insertion order |
| Orders.WellCodedUnique | glass_factory_phase3_gr.py:77-83 | in a well-coded table with dash-free prefixes no two rows share a code |
| Phase1.Submit | glass_factory_phase1_sqlite.py:76-79 | the code shown is the code stored; the one new row carries the chosen category and fields; earlier rows are untouched |
| Phase1.ListingAfterSubmit | glass_factory_phase1_sqlite.py:55-59 | after a submission the listing starts with the new order under id n + 1 and the shown code, followed by the previous listing |
| Phase1.SubmitCount | glass_factory_phase1_sqlite.py:40-41 | one submission raises its category's count by one |
| Phase1.SubmitAllCodes | glass_factory_phase1_sqlite.py:76-79 | repeated submissions of one category show codes numbered consecutively, starting one past that category's stored count |
| Phase1.FromEmptyTable | glass_factory_phase1_sqlite.py:37-43 | starting from an empty table, the `k`-th submission of category M shows a code that parses to (M, k) |
| Phase1.FirstThreeFromEmpty | glass_factory_phase1_sqlite.py:76-79 | starting from an empty table, the first three submissions of category M show M-0001, M-0002, M-0003 |
| Ledger.AddSupplier | glass_factory_phase3_gr.py:67-75 | a new name appends one row; a name already present hits UNIQUE, the error is swallowed and the ledger is unchanged; the name is on file afterwards either way |
| Ledger.AddSupplierKeepsNamesUnique | glass_factory_phase3_gr.py:36 | supplier names stay unique |
| Ledger.FirstWriteWins | glass_factory_phase3_gr.py:67-75 | registering a name again changes nothing, so the first contact given is the one kept |
| Ledger.SupplierIdOf | glass_factory_phase3_gr.py:183 | the id looked up by name is that of the first supplier with the name |
| Ledger.Names | glass_factory_phase3_gr.py:144-145 | the selector lists the supplier names in table order |
| Ledger.SelectedId | glass_factory_phase3_gr.py:182-183 | a selected option other than the placeholder resolves to a registered supplier id carrying that name |
| Ledger.LedgerInsertOrder | glass_factory_phase3_gr.py:85-93 | inserting an order changes only the orders table |
| Ledger.LinkOrderToSupplier | glass_factory_phase3_gr.py:95-100 | exactly one pending delivery (flag 0, date NULL) is appended, with no check of code or supplier; the other tables are unchanged |
| Ledger.InsertProduct | glass_factory_phase3_gr.py:102-107 | exactly one product line is appended; the other tables are unchanged |
| Ledger.KeptSpec | glass_factory_phase3_gr.py:185-186 | the stored slots are exactly the filled ones, each as many times as the form holds it, in form order |
| Ledger.Lines | glass_factory_phase3_gr.py:185-187 | every kept slot becomes one product line under the order's code, in order |
| Ledger.StoreProducts | glass_factory_phase3_gr.py:185-187 | the slot loop appends one line per filled slot and touches no other table |
| Ledger.Submit | glass_factory_phase3_gr.py:179-188 | the shown code is the generated one; the order row is appended under it; suppliers are unchanged; product lines for the filled slots are appended |
| Ledger.SubmitLinks | glass_factory_phase3_gr.py:182-184 | the placeholder links nothing; any other choice appends one pending delivery, linking the new code to the chosen supplier's id |
| Ledger.PlaceholderLinksNothing | glass_factory_phase3_gr.py:182 | with the placeholder chosen, a submission leaves the deliveries unchanged |
| Ledger.SelectedSupplierLinked | glass_factory_phase3_gr.py:182-184 | with a supplier chosen, a submission keeps every earlier delivery and appends one unreceived delivery with no date, linking the new code to the id of the supplier with that name |
| Ledger.SubmitCounts | glass_factory_phase3_gr.py:180-181 | a submission raises its category's count by one and leaves every other category's count unchanged |
| Ledger.ListingAfterSubmit | glass_factory_phase3_gr.py:109-113 | after a submission the order listing starts with the new order, under the next id and the shown code, followed by the listing from before |
| Ledger.CountCodeExists | glass_factory_phase3_gr.py:121 | a delivery's code matches some order row if and only if it matches at least one |
| Ledger.MultiplicitiesMatch | glass_factory_phase3_gr.py:121 | the join with orders repeats a delivery at least once exactly when its order exists |
| Ledger.RowsForSpec | glass_factory_phase3_gr.py:118-121 | a delivery contributes only its own view row, carrying its supplier's name and contact; it contributes any row if and only if both its supplier and its order exist |
| Ledger.JoinSound | glass_factory_phase3_gr.py:118-121 | every row of the join is the view row of a delivery whose supplier and order both exist |
| Ledger.JoinBounded | glass_factory_phase3_gr.py:118-122 | the join over the first `k` deliveries shows only their ids |
| Ledger.JoinComplete | glass_factory_phase3_gr.py:119-121 | every delivery whose supplier and order both exist shows up in the join |
| Ledger.JoinOrdered | glass_factory_phase3_gr.py:122 | each row's delivery id is at least the next row's |
| Ledger.JoinMultiplicity | glass_factory_phase3_gr.py:118-122 | among the first `k` deliveries, delivery `i` appears exactly `counts[i]` times when its supplier exists, and not at all otherwise |
| Ledger.FetchSupplierDeliveriesMultiplicity | glass_factory_phase3_gr.py:117-123 | the view repeats a delivery once for every order row carrying its code when its supplier exists; otherwise the delivery does not appear |
| Ledger.FetchSupplierDeliveriesSpec | glass_factory_phase3_gr.py:115-125 | the deliveries view holds exactly the joined deliveries, each with its supplier's name and contact, in descending delivery id |
| Ledger.Control | glass_factory_phase3_gr.py:204-210 | the button is offered if and only if the received flag is falsy, and for that row's delivery id; a received row shows its stored date |
| LedgerTraces.EmptyConsistent | glass_factory_phase3_gr.py:17-59 | the freshly created, empty database satisfies the ledger invariant |
| LedgerTraces.SubmitKeepsOrdersValid | glass_factory_phase3_gr.py:180-181 | after a submission every stored category is still one of the five, and every code is still the one generated from the rows before it |
| LedgerTraces.SubmitKeepsDeliveriesOk | glass_factory_phase3_gr.py:182-184 | after a submission every delivery is still pending, and its supplier and order both exist |
| LedgerTraces.SubmitKeepsProductsOk | glass_factory_phase3_gr.py:185-187 | after a submission every product line still has both fields filled and belongs to a stored order |
| LedgerTraces.SubmitKeepsConsistent | glass_factory_phase3_gr.py:179-188 | a submission preserves the whole ledger invariant |
| LedgerTraces.AddSupplierKeepsConsistent | glass_factory_phase3_gr.py:67-75 | registering a supplier preserves the ledger invariant |
| LedgerTraces.ReplayConsistent | glass_factory_phase3_gr.py:179-188 | any run of submissions and registrations from a consistent ledger ends in a consistent ledger |
| LedgerTraces.ReachableConsistent | glass_factory_phase3_gr.py:179-188 | every ledger built from an empty database by submissions and registrations is consistent |
| LedgerTraces.ReachableDeliveriesOk | glass_factory_phase3_gr.py:182-184 | in every such ledger each delivery is pending, and its supplier and order exist |
| LedgerTraces.ReachableCodesUnique | glass_factory_phase3_gr.py:77-83 | in every such ledger no two orders share a code, across all categories |
| LedgerTraces.CountCodeOne | glass_factory_phase3_gr.py:121 | when codes are unique, an existing code matches exactly one order row |
| LedgerTraces.JoinedOnce | glass_factory_phase3_gr.py:118-121 | when codes are unique and every delivery joins, the join repeats each delivery exactly once |
| LedgerTraces.JoinExact | glass_factory_phase3_gr.py:117-122 | when every delivery joins exactly once, the view is the deliveries themselves, one row each, newest first |
| LedgerTraces.ConsistentDeliveriesView | glass_factory_phase3_gr.py:197-207 | with unique codes and pending, joined deliveries, the tab lists every delivery once, newest first, each row with a confirm button |
| LedgerTraces.FormsAloneLinkNothing | glass_factory_phase3_gr.py:144-146 | with order-form submissions alone, the suppliers table stays empty and no delivery is ever linked |
| LedgerTraces.ReachableDeliveriesView | glass_factory_phase3_gr.py:197-210 | in every ledger the model builds, the tab lists every delivery once, newest first, and every row offers the confirm button; no received date is ever shown (this assumes the linked supplier id is stored as an integer) |
| SessionOrders.Seed | glass_factory_oms_app.py:32-42 | the session starts with five orders numbered 1 to 5, all with a positive quantity |
| SessionOrders.AddOrder | glass_factory_oms_app.py:53-64 | adding appends exactly one row with status New, id `len + 1` and the form's fields; earlier rows stay in place |
| SessionOrders.AddKeepsNumbered | glass_factory_oms_app.py:55 | adding keeps ids consecutive from 1 and quantities positive |
| SessionOrders.AddAllKeepsNumbered | glass_factory_oms_app.py:53-64 | any run of additions keeps ids consecutive from 1 and quantities positive |
| SessionOrders.SessionIdsFromSeed | glass_factory_oms_app.py:32-64 | starting from the seed, any run of additions keeps the seed in front; row `i` has id `i + 1`, so ids are unique; every quantity is at least 1 |
| SessionOrders.AddedOrdersAreNew | glass_factory_oms_app.py:60 | every order the form adds has status New |
| SessionOrders.AddAllPrefix | glass_factory_oms_app.py:64 | additions only append: the rows already present stay in front, in order |

## What the code does not enforce

The model follows the code in each of these cases:

- `orders.order_id` has no UNIQUE constraint. Codes are unique only because of how they are generated. `LedgerTraces.ReachableCodesUnique` proves this for every ledger built from an empty database.
- Only `deliveries.supplier_id` declares a foreign key (glass_factory_phase3_gr.py:47). SQLite leaves foreign keys unenforced unless asked, so that key is not enforced either. `deliveries.order_id` and `products.order_id` are not constrained at all.
- `link_order_to_supplier` and `insert_product` check neither the order nor the supplier. The submit flow only ever passes the code it has just inserted (`LedgerTraces.SubmitKeepsProductsOk`, `LedgerTraces.SubmitKeepsDeliveriesOk`).
- Deliveries are read through an inner join. A delivery whose supplier or order is missing does not appear, and a delivery is repeated once for each order row carrying its code (`Ledger.FetchSupplierDeliveriesMultiplicity`).
- In the model's reachable ledgers every delivery appears exactly once (`LedgerTraces.ReachableDeliveriesView`). This holds only if the linked supplier id is stored as an integer; see `LedgerTraces.ReachableDeliveriesView` under "Left out".
- Each insert of a submission commits on its own. The model treats a submission as one step, because failures of the storage engine are outside it.
- The customer name and the other text fields are never checked. Any text is accepted, including the empty string, and the model does the same.

## Left out

- The Streamlit pages, tabs, widgets and `st.session_state` are not modelled. A widget's value is a parameter, and the set of values it can offer is a precondition:
  - `Ledger.Submit` and `LedgerTraces.Allowed` require a listed category and a listed supplier option (`FormValid`);
  - `Phase1.Submit` requires a listed category;
  - `SessionOrders.AddOrder` requires a quantity of at least 1.
- SQLite connections, commits and `init_db`'s `CREATE TABLE IF NOT EXISTS` are not modelled. Each function works on the tables as values, and the empty database stands for a freshly created file.
- The count-then-insert race is not modelled. Two sessions that submit the same category at once can both read the same count. Concurrency is outside the model.
- `add_supplier`'s bare `except` is modelled only for the UNIQUE violation on the name. Other database errors are I/O.
- `update_delivery_status` is called by the confirm button (glass_factory_phase3_gr.py:207) but is defined nowhere in the source. The button's effect is therefore not modelled. Without it, no operation ever marks material as received, which is what `LedgerTraces.ReachableDeliveriesView` states.
- `st.experimental_rerun` and the CSV downloads are output only and are not modelled.
- Price (a REAL) is kept as an opaque integer, because no operation computes with it.
- Product details are opaque strings. The form's float formatting of widths and heights is not modelled.
- `created_at` (`datetime.now().isoformat()`) and the session dates are strings passed in as parameters.
- In the session prototype, the login, the role checks (glass_factory_oms_app.py:7-26, 44, 70) and the plotly charts are not modelled. The model covers the order table itself.
- Ledger.SelectedId: returns the supplier's id as a plain integer. The source takes it from pandas as a `numpy.int64` (glass_factory_phase3_gr.py:183) and passes it to SQLite (line 98). How the driver binds that value is foreign-library behaviour and is not modelled.
- LedgerTraces.ReachableDeliveriesView: assumes the stored `deliveries.supplier_id` is the INTEGER the join at glass_factory_phase3_gr.py:120 compares with `suppliers.id`. Python's sqlite3 binds a value that is not an `int` but supports the buffer protocol, such as `numpy.int64`, as a BLOB. A BLOB never equals an INTEGER. If that happens, the join drops every linked delivery and the deliveries tab (lines 199-210) stays empty. The "exactly once" result then describes the program only once the id is converted to `int` before the insert.
- `Ledger.Submit`: the source skips linking whenever the selector's value equals the placeholder text. The model does the same, so a supplier literally registered under the placeholder text is never linked.
- The foreign key on `deliveries.supplier_id` is not enforced, as SQLite leaves foreign keys off unless asked. `Ledger.LinkOrderToSupplier` therefore checks nothing. The join alone drops deliveries that have no supplier.
- Row order of `SELECT * FROM suppliers` (no ORDER BY) is taken to be insertion order.
