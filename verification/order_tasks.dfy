/** The state changes of the post-payment tasks in `cart/tasks.py`. Each task
    runs in one transaction and logs any exception, so a task that raises
    leaves the state as it found it: the model returns the unchanged state. */
module OrderTasks {
  import opened Wrappers
  import opened Text
  import opened Orders
  import opened Calendar

  // ---------------------------------------------------------------------
  // update_order_status

  /** The order once paid: paid and in assembly, nothing else changed. */
  function MarkPaid(o: Order): (r: Order)
    ensures r.paid && r.status == InAssembly
    ensures r.(paid := o.paid, status := o.status) == o
  {
    o.(paid := true, status := InAssembly)
  }

  /** `update_order_status`: a missing order raises and changes nothing. */
  function UpdateOrderStatus(orders: map<nat, Order>, id: nat): (r: map<nat, Order>)
    ensures r.Keys == orders.Keys
    ensures id in orders ==> r[id].paid && StatusCode(r[id].status) == "in_assembly"
    ensures forall k :: k in orders && k != id ==> r[k] == orders[k]
  {
    if id in orders then orders[id := MarkPaid(orders[id])] else orders
  }

  /** Running the Celery task twice is the same as running it once, and it keeps
      the order within its constraints. */
  lemma UpdateOrderStatusIdempotent(orders: map<nat, Order>, id: nat)
    ensures UpdateOrderStatus(UpdateOrderStatus(orders, id), id) == UpdateOrderStatus(orders, id)
    ensures id in orders && ValidOrder(orders[id]) ==> ValidOrder(UpdateOrderStatus(orders, id)[id])
  {
  }

  // ---------------------------------------------------------------------
  // decrease_product_quantity

  /** `items_left` per product id; `None` where stock is not tracked. */
  type Stock = map<nat, Option<int>>

  /** Every item refers to a product the stock knows. */
  predicate Resolvable(stock: Stock, items: seq<OrderItem>) {
    forall i :: 0 <= i < |items| ==> items[i].product.Some? && items[i].product.value in stock
  }

  /** The loop over the items. Each item carries its own product instance,
      loaded before the loop, so the saved value is always the ORIGINAL
      `items_left` minus that item's quantity; `None` is the rollback of an
      item without a product. */
  function DecreaseFrom(orig: Stock, cur: Stock, items: seq<OrderItem>): (r: Option<Stock>)
    requires cur.Keys == orig.Keys
    ensures r.Some? <==> Resolvable(orig, items)
    ensures r.Some? ==> r.value.Keys == orig.Keys
  {
    if items == [] then Some(cur)
    else
      var it := items[0];
      if it.product.None? || it.product.value !in orig then None
      else
        var p := it.product.value;
        var next := if orig[p].Some? then cur[p := Some(orig[p].value - it.quantity)] else cur;
        var r := DecreaseFrom(orig, next, items[1..]);
        assert Resolvable(orig, items) <==> Resolvable(orig, items[1..]) by {
          assert forall i :: 1 <= i < |items| ==> items[i] == items[1..][i - 1];
        }
        r
  }

  /** `decrease_product_quantity`. `items` are in the order the query
      returns them: `OrderItem.Meta.ordering` is `-pk`, newest first. */
  function DecreaseStock(stock: Stock, items: seq<OrderItem>): (r: Option<Stock>)
    ensures r.Some? <==> Resolvable(stock, items)
    ensures r.Some? ==> r.value.Keys == stock.Keys
  {
    DecreaseFrom(stock, stock, items)
  }

  /** The quantity of the last item for product `p` in iteration order, if
      any; newest first, so this is the earliest-created such item. */
  function LastQty(items: seq<OrderItem>, p: nat): Option<int> {
    if items == [] then None
    else
      var rest := LastQty(items[1..], p);
      if rest.Some? then rest
      else if items[0].product == Some(p) then Some(items[0].quantity)
      else None
  }

  lemma {:induction false} DecreaseFromSpec(orig: Stock, cur: Stock, items: seq<OrderItem>, p: nat)
    requires cur.Keys == orig.Keys && p in orig && Resolvable(orig, items)
    ensures DecreaseFrom(orig, cur, items).value[p] ==
      if LastQty(items, p).Some? && orig[p].Some? then Some(orig[p].value - LastQty(items, p).value) else cur[p]
  {
    if items != [] {
      var it := items[0];
      var q := it.product.value;
      var next := if orig[q].Some? then cur[q := Some(orig[q].value - it.quantity)] else cur;
      assert Resolvable(orig, items[1..]) by {
        assert forall i :: 1 <= i < |items| ==> items[1..][i - 1] == items[i];
      }
      DecreaseFromSpec(orig, next, items[1..], p);
      assert DecreaseFrom(orig, cur, items) == DecreaseFrom(orig, next, items[1..]);
    }
  }

  /** Every tracked product's stock ends as its original value minus the
      quantity of the last item for it in iteration order, which is the
      earliest-created one (two items of one product do not add up);
      untracked stock and products without items keep their value. */
  lemma DecreaseStockSpec(stock: Stock, items: seq<OrderItem>, p: nat)
    requires Resolvable(stock, items) && p in stock
    ensures DecreaseStock(stock, items).value[p] ==
      if LastQty(items, p).Some? && stock[p].Some? then Some(stock[p].value - LastQty(items, p).value) else stock[p]
  {
    DecreaseFromSpec(stock, stock, items, p);
  }

  /** The products of distinct items differ. */
  predicate DistinctProducts(items: seq<OrderItem>) {
    forall i, j :: 0 <= i < j < |items| ==> items[i].product != items[j].product
  }

  lemma {:induction false} LastQtyDistinct(items: seq<OrderItem>, i: nat)
    requires i < |items| && items[i].product.Some? && DistinctProducts(items)
    ensures LastQty(items, items[i].product.value) == Some(items[i].quantity)
  {
    var p := items[i].product.value;
    var rest := items[1..];
    assert DistinctProducts(rest) by {
      assert forall a :: 0 <= a < |rest| ==> rest[a] == items[a + 1];
    }
    if i == 0 {
      LastQtyAbsent(rest, p);
    } else {
      assert rest[i - 1] == items[i];
      LastQtyDistinct(rest, i - 1);
    }
  }

  lemma {:induction false} LastQtyAbsent(items: seq<OrderItem>, p: nat)
    requires forall a :: 0 <= a < |items| ==> items[a].product != Some(p)
    ensures LastQty(items, p) == None
  {
    if items != [] {
      LastQtyAbsent(items[1..], p);
    }
  }

  /** When every product occurs once, as in orders built from a cart, each
      tracked product's stock drops by exactly its item's quantity. */
  lemma DecreaseDistinct(stock: Stock, items: seq<OrderItem>, i: nat)
    requires Resolvable(stock, items) && DistinctProducts(items) && i < |items|
    requires stock[items[i].product.value].Some?
    ensures DecreaseStock(stock, items).value[items[i].product.value] ==
      Some(stock[items[i].product.value].value - items[i].quantity)
  {
    LastQtyDistinct(items, i);
    DecreaseStockSpec(stock, items, items[i].product.value);
  }

  /** Two items of one product in stock 10, iterated with quantities 2
      then 3 (the second is the earlier-created item): the stock ends at 7,
      not 5. */
  lemma DecreaseDuplicateExample()
    ensures DecreaseStock(map[1 := Some(10)], [OrderItem(Some(1), 5.0, 2), OrderItem(Some(1), 5.0, 3)])
      == Some(map[1 := Some(7)])
  {
    var items := [OrderItem(Some(1), 5.0, 2), OrderItem(Some(1), 5.0, 3)];
    var s := map[1 := Some(10)];
    assert items[1..] == [OrderItem(Some(1), 5.0, 3)] && items[1..][1..] == [];
    assert LastQty(items[1..], 1) == Some(3);
    DecreaseStockSpec(s, items, 1);
    var r := DecreaseStock(s, items).value;
    assert r.Keys == {1} && r[1] == Some(7);
    assert r == map[1 := Some(7)];
  }

  // ---------------------------------------------------------------------
  // update_store_sales_report

  /** A sales counter: a missing key reads as 0 (`dict.get(k, 0)`). */
  function Get(m: map<string, int>, k: string): int {
    if k in m then m[k] else 0
  }

  function Bump(m: map<string, int>, k: string, q: int): (r: map<string, int>)
    ensures Get(r, k) == Get(m, k) + q
    ensures forall j :: j != k ==> Get(r, j) == Get(m, j)
  {
    m[k := Get(m, k) + q]
  }

  /** The per-product loop: `str(item.product.pk)` gains the item quantity;
      `None` where an item has no product. */
  function ProductCounts(m: map<string, int>, items: seq<OrderItem>): Option<map<string, int>>
    decreases |items|
  {
    if items == [] then Some(m)
    else if items[0].product.None? then None
    else ProductCounts(Bump(m, NatToString(items[0].product.value), items[0].quantity), items[1..])
  }

  /** The quantity ordered of the product whose id prints as `k`. */
  function ProductQty(items: seq<OrderItem>, k: string): int {
    if items == [] then 0
    else
      (if items[0].product.Some? && NatToString(items[0].product.value) == k then items[0].quantity else 0)
      + ProductQty(items[1..], k)
  }

  predicate AllHaveProducts(items: seq<OrderItem>) {
    forall i :: 0 <= i < |items| ==> items[i].product.Some?
  }

  lemma {:induction false} ProductCountsSpec(m: map<string, int>, items: seq<OrderItem>, k: string)
    ensures ProductCounts(m, items).Some? <==> AllHaveProducts(items)
    ensures ProductCounts(m, items).Some? ==> Get(ProductCounts(m, items).value, k) == Get(m, k) + ProductQty(items, k)
    decreases |items|
  {
    if items != [] {
      assert AllHaveProducts(items) <==> items[0].product.Some? && AllHaveProducts(items[1..]) by {
        assert forall i :: 1 <= i < |items| ==> items[i] == items[1..][i - 1];
      }
      if items[0].product.Some? {
        ProductCountsSpec(Bump(m, NatToString(items[0].product.value), items[0].quantity), items[1..], k);
      }
    }
  }

  /** The inner category loop: every slug gains `q`, once per occurrence. */
  function BumpAll(m: map<string, int>, slugs: seq<string>, q: int): map<string, int>
    decreases |slugs|
  {
    if slugs == [] then m else BumpAll(Bump(m, slugs[0], q), slugs[1..], q)
  }

  lemma {:induction false} BumpAllSpec(m: map<string, int>, slugs: seq<string>, q: int, k: string)
    ensures Get(BumpAll(m, slugs, q), k) == Get(m, k) + q * multiset(slugs)[k]
    decreases |slugs|
  {
    if slugs != [] {
      var rest := slugs[1..];
      BumpAllSpec(Bump(m, slugs[0], q), rest, q, k);
      var h := if slugs[0] == k then 1 else 0;
      CountHead(slugs, k);
      Spread(q, h, multiset(rest)[k]);
    }
  }

  /** The head of a sequence adds one to its own count only. */
  lemma CountHead(s: seq<string>, k: string)
    requires s != []
    ensures multiset(s)[k] == (if s[0] == k then 1 else 0) + multiset(s[1..])[k]
  {
    assert s == [s[0]] + s[1..];
  }

  lemma Spread(q: int, h: int, c: int)
    ensures q * h + q * c == q * (h + c)
  {
  }

  /** The per-category loop, with `cats(p)` the slugs of product `p`'s
      categories. */
  function CategoryCounts(m: map<string, int>, items: seq<OrderItem>, cats: nat -> seq<string>): Option<map<string, int>>
    decreases |items|
  {
    if items == [] then Some(m)
    else if items[0].product.None? then None
    else CategoryCounts(BumpAll(m, cats(items[0].product.value), items[0].quantity), items[1..], cats)
  }

  /** The quantity ordered in category `k`, an item counting once per
      category of its product. */
  function CategoryQty(items: seq<OrderItem>, cats: nat -> seq<string>, k: string): int {
    if items == [] then 0
    else
      (if items[0].product.Some? then items[0].quantity * multiset(cats(items[0].product.value))[k] else 0)
      + CategoryQty(items[1..], cats, k)
  }

  lemma {:induction false} CategoryCountsSpec(m: map<string, int>, items: seq<OrderItem>, cats: nat -> seq<string>, k: string)
    ensures CategoryCounts(m, items, cats).Some? <==> AllHaveProducts(items)
    ensures CategoryCounts(m, items, cats).Some? ==>
      Get(CategoryCounts(m, items, cats).value, k) == Get(m, k) + CategoryQty(items, cats, k)
    decreases |items|
  {
    if items != [] {
      assert AllHaveProducts(items) <==> items[0].product.Some? && AllHaveProducts(items[1..]) by {
        assert forall i :: 1 <= i < |items| ==> items[i] == items[1..][i - 1];
      }
      if items[0].product.Some? {
        var it := items[0];
        var m' := BumpAll(m, cats(it.product.value), it.quantity);
        BumpAllSpec(m, cats(it.product.value), it.quantity, k);
        CategoryCountsSpec(m', items[1..], cats, k);
      }
    }
  }

  /** `StoreSalesReport`; the counters are nullable JSON fields. */
  datatype Report = Report(
    shop: Option<nat>,
    period: Period,
    revenue: real,
    orders: set<nat>,
    productsPerf: Option<map<string, int>>,
    categoryPerf: Option<map<string, int>>)

  /** The report created when none covers today. */
  function FreshReport(shop: Option<nat>, p: Period): (r: Report)
    ensures r.revenue == 0.0 && r.orders == {} && r.productsPerf == Some(map[]) && r.categoryPerf == Some(map[])
    ensures r.shop == shop && r.period == p
  {
    Report(shop, p, 0.0, {}, Some(map[]), Some(map[]))
  }

  /** The position of the first report of `shop` covering `today`, or the
      number of reports when there is none (`.first()`). */
  function FirstCovering(reports: seq<Report>, shop: Option<nat>, today: Date): (i: nat)
    ensures i <= |reports|
    ensures i < |reports| ==> reports[i].shop == shop && Covers(reports[i].period, today)
    ensures forall j :: 0 <= j < i ==> !(reports[j].shop == shop && Covers(reports[j].period, today))
  {
    if reports == [] then 0
    else if reports[0].shop == shop && Covers(reports[0].period, today) then 0
    else 1 + FirstCovering(reports[1..], shop, today)
  }

  /** Adds one order to one report; `None` where a step raises. */
  function Record(rep: Report, o: Order, cats: nat -> seq<string>): Option<Report> {
    if rep.productsPerf.None? || rep.categoryPerf.None? then None
    else
      var pc := ProductCounts(rep.productsPerf.value, o.items);
      var cc := CategoryCounts(rep.categoryPerf.value, o.items, cats);
      if pc.None? || cc.None? then None
      else Some(rep.(revenue := rep.revenue + o.amount, orders := rep.orders + {o.id}, productsPerf := pc, categoryPerf := cc))
  }

  /** `update_store_sales_report` for order `o` on day `today`. */
  function UpdateSalesReport(reports: seq<Report>, o: Order, today: Date, cats: nat -> seq<string>): (r: seq<Report>)
    requires ValidDate(today)
    ensures |r| == |reports| || |r| == |reports| + 1
    ensures r[..|reports|] == reports || |r| == |reports|
  {
    var i := FirstCovering(reports, o.shop, today);
    var base := if i < |reports| then reports[i] else FreshReport(o.shop, MonthOf(today));
    match Record(base, o, cats)
    case None => reports
    case Some(rep) => if i < |reports| then reports[i := rep] else reports + [rep]
  }

  /** The Celery task succeeds exactly when the chosen report has both counters and
      every item has a product; otherwise nothing changes. */
  lemma RecordSucceeds(rep: Report, o: Order, cats: nat -> seq<string>)
    ensures Record(rep, o, cats).Some? <==> rep.productsPerf.Some? && rep.categoryPerf.Some? && AllHaveProducts(o.items)
  {
    if rep.productsPerf.Some? && rep.categoryPerf.Some? {
      ProductCountsSpec(rep.productsPerf.value, o.items, "");
      CategoryCountsSpec(rep.categoryPerf.value, o.items, cats, "");
    }
  }

  /** What recording an order does to a report: revenue grows by exactly the
      order amount, the order joins the report, and each counter grows by the
      quantity ordered under its key. */
  lemma RecordSpec(rep: Report, o: Order, cats: nat -> seq<string>, k: string)
    requires Record(rep, o, cats).Some?
    ensures Record(rep, o, cats).value.revenue == rep.revenue + o.amount
    ensures Record(rep, o, cats).value.orders == rep.orders + {o.id}
    ensures Record(rep, o, cats).value.shop == rep.shop && Record(rep, o, cats).value.period == rep.period
    ensures Get(Record(rep, o, cats).value.productsPerf.value, k) == Get(rep.productsPerf.value, k) + ProductQty(o.items, k)
    ensures Get(Record(rep, o, cats).value.categoryPerf.value, k) == Get(rep.categoryPerf.value, k) + CategoryQty(o.items, cats, k)
  {
    ProductCountsSpec(rep.productsPerf.value, o.items, k);
    CategoryCountsSpec(rep.categoryPerf.value, o.items, cats, k);
  }

  /** With a report of the order's shop covering today, that first report is
      the one updated and every other report is left alone. */
  lemma SalesReportExisting(reports: seq<Report>, o: Order, today: Date, cats: nat -> seq<string>)
    requires ValidDate(today)
    requires FirstCovering(reports, o.shop, today) < |reports|
    ensures var i := FirstCovering(reports, o.shop, today);
      var r := UpdateSalesReport(reports, o, today, cats);
      |r| == |reports| &&
      (forall j :: 0 <= j < |reports| && j != i ==> r[j] == reports[j]) &&
      (Record(reports[i], o, cats).Some? ==> r[i] == Record(reports[i], o, cats).value) &&
      (Record(reports[i], o, cats).None? ==> r == reports)
  {
  }

  /** With no covering report, a new one spanning the 1st to the last day of
      this month is added, starting from zero revenue and empty counters; if
      the order cannot be recorded the new report is rolled back too. */
  lemma SalesReportCreates(reports: seq<Report>, o: Order, today: Date, cats: nat -> seq<string>, k: string)
    requires ValidDate(today)
    requires FirstCovering(reports, o.shop, today) == |reports|
    ensures var r := UpdateSalesReport(reports, o, today, cats);
      (AllHaveProducts(o.items) ==>
        |r| == |reports| + 1 && r[..|reports|] == reports &&
        r[|reports|].shop == o.shop &&
        r[|reports|].period.start == Date(today.year, today.month, 1) &&
        r[|reports|].period.end == Date(today.year, today.month, DaysInMonth(today.year, today.month)) &&
        r[|reports|].revenue == o.amount && r[|reports|].orders == {o.id} &&
        Get(r[|reports|].productsPerf.value, k) == ProductQty(o.items, k) &&
        Get(r[|reports|].categoryPerf.value, k) == CategoryQty(o.items, cats, k)) &&
      (!AllHaveProducts(o.items) ==> r == reports)
  {
    var base := FreshReport(o.shop, MonthOf(today));
    RecordSucceeds(base, o, cats);
    if AllHaveProducts(o.items) {
      RecordSpec(base, o, cats, k);
      var r := UpdateSalesReport(reports, o, today, cats);
      assert r == reports + [Record(base, o, cats).value];
      assert r[..|reports|] == reports;
    }
  }

  // ---------------------------------------------------------------------
  // create_monthly_reports

  /** The shops that already have a report for period `p`. */
  function Covered(reports: seq<Report>, p: Period): set<nat> {
    set r | r in reports && r.period == p && r.shop.Some? :: r.shop.value
  }

  /** Some report for period `p` has no shop. Its NULL `shop_id` in the
      `NOT IN` subquery of `exclude(id__in=...)` makes the test unknown for
      every shop, so the query selects none. */
  predicate ShoplessFor(reports: seq<Report>, p: Period) {
    exists r :: r in reports && r.period == p && r.shop.None?
  }

  /** The shops of `shops` outside `done`, in order. */
  function Lacking(shops: seq<nat>, done: set<nat>): (r: seq<nat>)
    ensures forall i :: 0 <= i < |r| ==> r[i] in shops && r[i] !in done
    ensures forall s :: s in shops && s !in done ==> s in r
  {
    if shops == [] then []
    else (if shops[0] in done then [] else [shops[0]]) + Lacking(shops[1..], done)
  }

  lemma {:induction false} LackingNone(shops: seq<nat>, done: set<nat>)
    requires forall s :: s in shops ==> s in done
    ensures Lacking(shops, done) == []
  {
    if shops != [] {
      assert shops[0] in done;
      LackingNone(shops[1..], done);
    }
  }

  function FreshReports(shops: seq<nat>, p: Period): (r: seq<Report>)
    ensures |r| == |shops|
    ensures forall i :: 0 <= i < |r| ==> r[i] == FreshReport(Some(shops[i]), p)
  {
    seq(|shops|, i requires 0 <= i < |shops| => FreshReport(Some(shops[i]), p))
  }

  /** `create_monthly_reports`: a fresh report for next month for every shop
      without one; nothing in the last month of year 9999, where `date()`
      raises, and nothing when a report for next month has no shop. */
  function CreateMonthlyReports(reports: seq<Report>, shops: seq<nat>, today: Date): (r: seq<Report>)
    requires ValidDate(today)
    ensures |r| >= |reports| && r[..|reports|] == reports
    ensures NextPeriod(today).Some? && ShoplessFor(reports, NextPeriod(today).value) ==> r == reports
  {
    match NextPeriod(today)
    case None => reports
    case Some(p) =>
      if ShoplessFor(reports, p) then reports
      else reports + FreshReports(Lacking(shops, Covered(reports, p)), p)
  }

  /** Each added report is a fresh one for a shop that had none; and unless
      a shopless report for next month blocks the query, every shop has a
      report for next month afterwards. The tasks themselves only write
      shopless reports for the current month, never for the next. */
  lemma MonthlyReportsSpec(reports: seq<Report>, shops: seq<nat>, today: Date)
    requires ValidDate(today) && NextPeriod(today).Some?
    ensures var p := NextPeriod(today).value;
      var r := CreateMonthlyReports(reports, shops, today);
      (!ShoplessFor(reports, p) ==> forall s :: s in shops ==> s in Covered(r, p)) &&
      (forall i :: |reports| <= i < |r| ==>
        r[i].shop.Some? && r[i].shop.value in shops && r[i].shop.value !in Covered(reports, p) &&
        r[i] == FreshReport(r[i].shop, p))
  {
    var p := NextPeriod(today).value;
    if ShoplessFor(reports, p) {
      return;
    }
    var add := FreshReports(Lacking(shops, Covered(reports, p)), p);
    var r := reports + add;
    forall s | s in shops ensures s in Covered(r, p) {
      if s !in Covered(reports, p) {
        var ls := Lacking(shops, Covered(reports, p));
        assert s in ls;
        var i :| 0 <= i < |ls| && ls[i] == s;
        assert r[|reports| + i] == add[i];
        assert add[i] in r;
      } else {
        var rep :| rep in reports && rep.period == p && rep.shop == Some(s);
        assert rep in r;
      }
    }
    forall i | |reports| <= i < |r|
      ensures r[i].shop.Some? && r[i].shop.value in shops && r[i].shop.value !in Covered(reports, p)
      ensures r[i] == FreshReport(r[i].shop, p)
    {
      assert r[i] == add[i - |reports|];
    }
  }

  /** A single shopless report for next month leaves every shop without
      one: nothing is created, and no shop is covered. */
  lemma ShoplessReportBlocks(rep: Report, shops: seq<nat>, today: Date)
    requires ValidDate(today) && NextPeriod(today).Some?
    requires rep.period == NextPeriod(today).value && rep.shop.None?
    ensures CreateMonthlyReports([rep], shops, today) == [rep]
    ensures Covered(CreateMonthlyReports([rep], shops, today), NextPeriod(today).value) == {}
  {
    assert rep in [rep];
  }

  /** A second run on the same day adds nothing. */
  lemma MonthlyReportsIdempotent(reports: seq<Report>, shops: seq<nat>, today: Date)
    requires ValidDate(today)
    ensures CreateMonthlyReports(CreateMonthlyReports(reports, shops, today), shops, today)
      == CreateMonthlyReports(reports, shops, today)
  {
    var r := CreateMonthlyReports(reports, shops, today);
    if NextPeriod(today).Some? {
      var p := NextPeriod(today).value;
      MonthlyReportsSpec(reports, shops, today);
      if !ShoplessFor(reports, p) {
        assert !ShoplessFor(r, p) by {
          forall x | x in r && x.period == p ensures x.shop.Some? {
            var i :| 0 <= i < |r| && r[i] == x;
            if i >= |reports| {
              assert x.shop.Some?;
            } else {
              assert x == reports[i];
            }
          }
        }
        LackingNone(shops, Covered(r, p));
        assert FreshReports([], p) == [];
        assert r + [] == r;
      }
    }
  }
}
