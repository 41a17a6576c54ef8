# airsoftplace marketplace core in Dafny

This project models the bookkeeping and decision logic at the centre of the
airsoftplace Django marketplace. It takes the pieces that sit under the ORM,
templates and payment plumbing and states each one as a pure function over
small immutable datatypes. The pieces are:

- the session cart;
- the checkout arithmetic of the cart views: the quantity clamp, grouping by
  shop, the per-shop order page, and the multi-warehouse shipping quote;
- the tariff resolver that the shipping quote consumes;
- the order records and their defaults and constraints;
- the payment webhook's decision table and the follow-up tasks it queues;
- the post-payment tasks: mark paid, decrease stock, the sales-report
  counters and the monthly report roll-over with its calendar arithmetic;
- browsing state: the recently viewed list and its context processor, and
  the review gate;
- the recommender's set logic: the interaction set, the candidate pool with
  its fallback, the stable ranking and the top ten;
- the recommendations context processor's cache and dispatch decision;
- the string builders: product text, the shop's legal line, the client IP,
  and the status-change redirect URL;
- the seller dashboard's pagination, filters, status change and product
  search.

Money and weights are exact `real`s. The two-decimal quantisation is
`quantize` in the default decimal context: the nearest kopeck, with a tie
going to the even kopeck (`ROUND_HALF_EVEN`). The cache is a map from key to value and timeout. Celery
tasks are recorded as values in the result, never run. Things the code gets
from outside become parameters:

- the tariff tables;
- the similarity score;
- `slugify`;
- the random picks;
- the provider's IP check;
- the current date and time.

Modules follow the program: `SessionCart` (`cart/cart.py`), `Checkout` and
`Tariff` (`cart/views.py` and the resolver), `Orders` (`cart/models.py`),
`OrderTasks` and `Calendar` (`cart/tasks.py`), `Webhook` (`cart/webhooks.py`),
`Browsing` (`products/views.py`), `RecentlyViewed`, `Recommend`,
`RecommendationsData`, `ProductText` (`products/utils.py`), `Catalog`
(`products/models.py`), `Dashboard` (`users/views.py`). Shared pieces are in
`Text` (strip, lower, `str(int)`, the Unicode digit tables behind
`isdigit()` and `int()`, join and split), `Money`, `Grouping` (the
first-seen grouping both the cart page and the warehouse split use), `Ranking`
(a stable descending sort and its top `n`), `Seqs`, `Cache` and `Wrappers`.

Where the code's behaviour is easy to misread, the model follows the code:

- In `yookassa_webhook`, `json.loads` runs before the `try`. A body that is
  not JSON therefore raises out of the view, which is a server error (500),
  not a 400.
- The webhook's succeeded branch and the stock task use
  `Order.objects.get(payment_id=...)` and one product instance per item.
  So two payments with the same id are refused like an unknown one. Two
  items of one product decrease its stock by one item's quantity only: the
  item iterated last (`OrderTasks.DecreaseStockSpec`). `OrderItem` is
  ordered by `-pk`, so that is the EARLIEST-created of the two.
- `order_view` fetches each of the shop's cart entries with
  `Product.objects.get`, which nothing catches. A cart that still holds a
  product deleted since it was added therefore gets a server error on that
  shop's order page, while the cart page lists the entry without complaint
  (`Checkout.OrderView`).
- Django's paginator treats "0", a negative page and a page past the end
  alike (`EmptyPage`), so all of them show the last page. Text that is not
  an integer shows page 1.
- `get_object_or_404(Order, pk=..., shop=request.user.shop)` with a user who
  has no shop matches orders that have no shop either
  (`Dashboard.ShoplessUserReachesShoplessOrders`). It is recorded as
  behaviour, not as a finding, since the view is only reached from a shop's
  list.
- A GET to `update_order_status` returns nothing, which Django reports as a
  server error; the model returns `NoResponse`.
- The product search's number test runs when `keyword.isdigit()` holds,
  which admits digits of every script and superscripts. `int()` then reads
  any decimal digits ("٣" finds product 3). For a digit that is not a
  decimal one ("²"), `int()` raises while the query is built, which is a
  server error (`Dashboard.SuperscriptTwoFails`).
- `create_monthly_reports` selects shops with `exclude(id__in=...)`, a SQL
  `NOT IN` over the next month's reports' `shop_id`. That column is
  nullable, and one NULL makes `NOT IN` unknown for every shop, so a
  shopless report for next month means no report is created
  (`OrderTasks.ShoplessReportBlocks`). The tasks only write shopless
  reports for the current month.

## Model

| member | source | states |
|---|---|---|
| SessionCart.Open | proj/cart/cart.py:8-17 | A stored non-empty cart is reused unchanged; a missing or empty one is replaced by an empty cart, which the session then holds. |
| SessionCart.ToMap | proj/cart/cart.py:17 | The dictionary view of the entries has exactly the entries' keys. |
| SessionCart.AddSpec | proj/cart/cart.py:35-44 | Adding a new id stores `{qty, price, shop_slug}` under `str(id)` and nothing else changes; length grows by qty and total by price × qty. Adding an id already present leaves the cart identical (no increment). Keys stay unique. |
| SessionCart.DeleteSpec | proj/cart/cart.py:46-50 | Delete removes exactly the key `str(product)` from the dictionary, is the identity when the key is absent, keeps keys unique, and lowers length and total by that entry's qty and price × qty. |
| SessionCart.DeleteKeyMap | proj/cart/cart.py:46-50 | The dictionary after deleting a key is the old dictionary minus that key. |
| SessionCart.DeleteKeys | proj/cart/cart.py:46-50 | Deleting a key removes that key from the key set and nothing more, and never lengthens the cart. |
| SessionCart.DeleteValid | proj/cart/cart.py:46-50 | Deleting keeps every key unique. |
| SessionCart.DeleteAbsent | proj/cart/cart.py:48 | Deleting an absent key changes nothing. |
| SessionCart.DeleteKeyLen | proj/cart/cart.py:19-20 | The sum of quantities drops by exactly the deleted entry's quantity (zero if absent). |
| SessionCart.DeleteKeyTotal | proj/cart/cart.py:58-59 | The total drops by exactly the deleted entry's price × qty (zero if absent). |
| SessionCart.DeleteKeyTotalStep | proj/cart/cart.py:58-59 | The total-after-delete law carries over from the cart without its last entry to the whole cart. |
| SessionCart.LastShare | proj/cart/cart.py:58-59 | The last entry's quantity and line cost under a key are what the whole dictionary holds minus what its prefix holds. |
| SessionCart.UpdateSpec | proj/cart/cart.py:52-56 | Update overwrites qty under an existing key only. The key set is unchanged, so nothing is inserted. Price, shop and every other entry are unchanged. Length and total move by the quantity change. |
| SessionCart.UpdateKeySpec | proj/cart/cart.py:52-56 | The dictionary, the quantity sum and the total after an update, each in terms of the old dictionary. |
| SessionCart.UpdateKeyMap | proj/cart/cart.py:54-55 | Updating a present key writes the new qty into its item; an absent key leaves the dictionary alone. |
| SessionCart.UpdateKeyKeys | proj/cart/cart.py:54-55 | An update keeps every entry's key and position. |
| SessionCart.UpdateValid | proj/cart/cart.py:52-56 | An update keeps every key unique. |
| SessionCart.UpdateKeyLen | proj/cart/cart.py:19-20 | After an update the quantity sum changes by the new quantity minus the old one. |
| SessionCart.UpdateKeyTotal | proj/cart/cart.py:58-59 | After an update the total changes by price × (new − old quantity). |
| SessionCart.DeltaStep | proj/cart/cart.py:58-59 | The last entry's share of the update's change in total. |
| SessionCart.Updated | proj/cart/cart.py:55 | The rewritten entry keeps its key, price and shop slug. |
| SessionCart.UpdateKeySnoc | proj/cart/cart.py:52-56 | An update applies entry by entry: updating a cart is updating its prefix, then its last entry. |
| SessionCart.AddUpdateDeleteScenario | proj/tests/cart/test_cart_views.py:153-186 | Add 2 at 10 gives length 2. Updating to 3 gives length 3 and total 30. Deleting gives the empty cart, with length 0 and total 0. |
| Checkout.ClampQty | proj/cart/views.py:90-100 | A request of 1 or less stores 1. A larger request stores itself or the stock (10000 when unset), whichever the guard picks, and never more than either. |
| Checkout.ClampRange | proj/cart/views.py:90-100 | With stock at least 1 the stored quantity lies in 1..stock and clamping again changes nothing. A sold-out product clamps any request above 1 to its stock. Unset stock passes any request in 1..10000 unchanged. |
| Checkout.CartView | proj/cart/views.py:21-46 | The loop yields one group per listed shop, in the order the shops first appear in the cart; each group holds that shop's items in cart order and their price × qty sum. |
| Checkout.CartViewPartition | proj/cart/views.py:26-41 | The listed shops are distinct and all exist. Every item of an existing shop sits in its shop's group, and items of missing shops are dropped. When every shop exists, the group totals add up to the cart total. |
| Checkout.ViewStep | proj/cart/views.py:26-41 | One more item: a missing shop changes no group; a new existing shop opens a group at the end holding just that item; a listed shop's group gains the item and its cost, and no other group changes. |
| Checkout.ViewStepKnown | proj/cart/views.py:40-41 | An item of a shop already seen changes its own group only, or nothing when the shop is missing. |
| Checkout.ViewStepListed | proj/cart/views.py:40-41 | An item of the j-th listed shop extends group j only. |
| Checkout.ViewStepUnlisted | proj/cart/views.py:32-33 | An item of a shop that is not listed changes no group. |
| Checkout.ViewStepNew | proj/cart/views.py:29-41 | The first item of an existing shop opens its group behind the others. |
| Checkout.ViewStepOpened | proj/cart/views.py:34-41 | The opened group holds that one item and its cost, and the earlier groups are unchanged. |
| Checkout.OpenedGroup | proj/cart/views.py:34-41 | A shop's first item makes its group exactly that item, costed from 0.00. |
| Checkout.GroupOfOther | proj/cart/views.py:40-41 | An item of another shop leaves a group unchanged. |
| Checkout.GroupOfSame | proj/cart/views.py:40-41 | An item joins the group of its own shop and adds its cost. |
| Checkout.KeepAll | proj/cart/views.py:29-33 | When every shop exists, the listed shops are exactly the distinct shops of the cart in first-seen order. |
| Checkout.KeepAllStep | proj/cart/views.py:29-33 | The previous fact extends from a cart to the cart plus one item. |
| Checkout.SumIsTotal | proj/cart/views.py:41 | Summing price × qty over the cart is `get_total_price()`. |
| Checkout.OrderView | proj/cart/views.py:112-135 | Redirects exactly when the shop does not exist or none of its items is in the cart. Fails with a server error exactly when the shop exists and one of its entries names a deleted product. Otherwise it lists exactly that shop's entries in cart order, all of existing products, with their price × qty total. |
| Checkout.FindStale | proj/cart/views.py:122-124 | The lookups fail exactly when some entry of the shop names a product that does not exist. |
| Checkout.ShopLines | proj/cart/views.py:120-132 | The loop collects exactly the shop's entries in cart order and their price × qty sum, started at 0.00. |
| Checkout.OrderMatchesCartView | proj/cart/views.py:112-135 | The cart page lists exactly the shops whose order page does not redirect, and that page's lines (when no entry is stale) are the shop's group there, with the same total. |
| Checkout.Billable | proj/cart/views.py:159-161 | A product's billable weight is the larger of its volumetric weight w·l·h/5000 and its actual weight. |
| Checkout.Quotes | proj/cart/views.py:154-169 | One resolver quote per warehouse, in warehouse order, each for that warehouse's parcel weight and its stripped, lower-cased city; every quote is in whole kopecks. |
| Checkout.AddQuote | proj/cart/views.py:169-171 | `total_shipping += cost` gives the sum when both sides exist; a missing quote makes the request fail. |
| Checkout.AddAll | proj/cart/views.py:143-171 | The running total, started at 0.00, is in whole kopecks whenever it exists. |
| Checkout.AddAllSpec | proj/cart/views.py:143-171 | All or nothing: the running total exists exactly when every quote exists, and is then their sum. |
| Checkout.QuoteAll | proj/cart/views.py:154-171 | The total over the warehouses is in whole kopecks whenever it exists. |
| Checkout.ShippingQuote | proj/cart/views.py:137-175 | An empty city (after strip/lower) or an empty method gives 400 with no cost. |
| Checkout.ShippingAllOrNothing | proj/cart/views.py:137-175 | The answer is a quote exactly when city and method are given and every warehouse parcel can be quoted; the quoted amount is then the sum of the parcel quotes. |
| Checkout.ShippingQuoteSome | proj/cart/views.py:140-171 | The answer is a quote exactly when city and method are given and the running total exists. |
| Checkout.ParcelsPartition | proj/cart/views.py:146-161 | Grouping by warehouse puts every product in exactly one parcel: the parcel weights add up to the products' weights, and each warehouse appears once. |
| Checkout.ShippingQuoteRoundTrip | proj/cart/views.py:173-175 | From well-formed tables a quote is non-negative, printed with exactly two decimals, and reads back as the summed amount. |
| Checkout.AddAllNonNegative | proj/cart/views.py:143-169 | Summing non-negative quotes gives a non-negative total. |
| Checkout.QuoteAllNonNegative | proj/cart/views.py:143-169 | From well-formed tables the shipping total is never negative. |
| Checkout.ShippingCityPadded | proj/cart/views.py:138 | Whitespace around the typed city never changes the answer. |
| Checkout.SingleWarehouse | proj/cart/views.py:146-169 | A shop shipping everything from one warehouse gets one parcel, quoted for the products' whole billable weight. |
| Checkout.SingleKey | proj/cart/views.py:146-152 | Products that share one warehouse form one group holding all of them. |
| Tariff.ParseMethod | proj/tests/cart/test_cart_services.py:44-53 | "Курьером" is the courier row and "Пункт выдачи" the pickup row; any other text has no row. |
| Tariff.CityZone | proj/tests/cart/test_cart_services.py:17-24 | A city has a zone exactly when its stripped, lower-cased name is in the city table, and then it is that entry. |
| Tariff.CityZoneNormalized | proj/tests/cart/test_cart_services.py:17-24 | Surrounding whitespace and repeated normalisation never change a city's zone. |
| Tariff.TariffClass | proj/tests/cart/test_cart_services.py:27-41 | A zone pair has a class exactly when the matrix has an entry for it. |
| Tariff.TariffClassEntries | proj/tests/cart/test_cart_services.py:27-41 | A flat entry is returned as is. A conditional entry yields its first class when the origin city is in its special set, and its second otherwise. |
| Tariff.ShippingCost | proj/tests/cart/test_cart_services.py:44-56 | A price exists exactly for a (class, method) row of the table; it is the raw cost rounded to the nearest kopeck, half to even. |
| Tariff.ShippingCostCases | proj/tests/cart/test_cart_services.py:44-56 | Up to 1 kg the cost is the base price exactly. Above 1 kg it is base + (w − 1)·perKg, rounded to the nearest kopeck, half to even. |
| Tariff.ShippingCostMonotone | proj/tests/cart/test_cart_services.py:44-56 | A heavier parcel never costs less, and no price is negative. |
| Tariff.RawCostMonotone | proj/tests/cart/test_cart_services.py:44-56 | With a non-negative surcharge, the raw cost is at least the base and grows with weight. |
| Tariff.Estimate | proj/tests/cart/test_cart_services.py:66-91 | A quote exists only for a known method, and is then whole kopecks. |
| Tariff.SameCityQuote | proj/tests/cart/test_cart_services.py:66-72 | The same city at both ends, after normalisation, is priced at class 0 whatever the zones. |
| Tariff.UnquotableLanes | proj/tests/cart/test_cart_services.py:75-91 | An unknown method, or two different cities one of which has no zone, gives no quote. |
| Tariff.InterZoneQuote | proj/tests/cart/test_cart_services.py:80-85 | Between two zoned, different cities the quote is the matrix's class for the pair, priced for the method. |
| Tariff.EstimateNonNegative | proj/tests/cart/test_cart_services.py:66-91 | From well-formed tables every quote is non-negative. |
| Tariff.SampleZones | proj/tests/cart/test_cart_services.py:17-24 | With the test's city table, "Москва" is zone 1, "  Балашиха  " zone 2, and "Неизвестный город" has none. |
| Tariff.MoscowZone | proj/tests/cart/test_cart_services.py:18 | "Москва" resolves to zone 1. |
| Tariff.NoBreakSpaceZone | proj/tests/cart/test_cart_services.py:18 | "Москва" followed by a no-break space still resolves to zone 1, since `strip()` removes every Unicode space. |
| Tariff.BalashikhaZone | proj/tests/cart/test_cart_services.py:20 | "  Балашиха  ", padded, resolves to zone 2. |
| Tariff.UnknownCity | proj/tests/cart/test_cart_services.py:21 | "Неизвестный город" is in no zone. |
| Tariff.SameCityScenario | proj/tests/cart/test_cart_services.py:66-72 | москва to москва by courier at 2.5 kg costs base0 + 1.5·perKg0, quantised. |
| Money.Round2 | proj/tests/cart/test_cart_services.py:56 | `quantize(Decimal("1.00"))` gives the nearest whole number of kopecks, the even one on a tie, and leaves an amount already in kopecks alone. |
| Money.Round2Ties | proj/tests/cart/test_cart_services.py:56 | Ties go to the even kopeck: 0.125 gives 0.12 and 0.135 gives 0.14. |
| Money.Round2Monotone | proj/tests/cart/test_cart_services.py:44-56 | Quantising preserves order. |
| Money.CentsSum | proj/cart/views.py:169 | Sums of kopeck amounts are kopeck amounts. |
| Money.FormatParse | proj/cart/views.py:173-175 | `f"{x:.2f}"` of a non-negative kopeck amount has one point and two decimals, and reads back as x. |
| Money.FormatKopecksParse | proj/cart/views.py:173-175 | The printed amount splits on '.' into the whole part and two digits, and reads back as k/100. |
| Orders.ParseStatus | proj/cart/models.py:39-47 | A code names a status exactly when it is one of the seven listed codes. |
| Orders.StatusRoundTrip | proj/cart/models.py:39-47 | Status codes and statuses correspond one to one. |
| Orders.NewOrder | proj/cart/models.py:64-84 | A new order is awaiting payment, unpaid, and for pick-up point, with the given fields. |
| Orders.NewOrderValid | proj/cart/models.py:93-130 | A new order meets the check constraints exactly when amount ≥ 0 and every item quantity > 0. Its stored codes are "awaiting_payment" and "pick-up_point". |
| Orders.TotalConcat | proj/cart/models.py:101-102 | The pre-discount total over two batches of items is the sum of their totals. |
| Orders.TotalNonNegative | proj/cart/models.py:127-140 | Items with positive quantities and non-negative prices total at least zero, and each costs at least its unit price. |
| OrderTasks.MarkPaid | proj/cart/tasks.py:25-27 | The order becomes paid and in assembly; no other field changes. |
| OrderTasks.UpdateOrderStatus | proj/cart/tasks.py:20-30 | The order is paid with status "in_assembly", every other order is unchanged, and a missing id changes nothing. |
| OrderTasks.UpdateOrderStatusIdempotent | proj/cart/tasks.py:20-30 | Running the Celery task twice equals running it once, and it keeps the order's constraints. |
| OrderTasks.DecreaseStock | proj/cart/tasks.py:33-46 | The Celery task succeeds exactly when every item's product exists, and keeps the set of products. |
| OrderTasks.DecreaseFrom | proj/cart/tasks.py:39-43 | The item loop fails exactly when an item's product is missing, and never adds or drops a product. |
| OrderTasks.DecreaseFromSpec | proj/cart/tasks.py:39-43 | After the loop, a tracked product's stock is its original value minus the quantity of its item iterated last (newest first, so the earliest-created item); other stock keeps its value. |
| OrderTasks.DecreaseStockSpec | proj/cart/tasks.py:39-43 | The same, for the whole task: untracked stock and products without items are unchanged. |
| OrderTasks.DecreaseDistinct | proj/cart/tasks.py:39-43 | When each product occurs once, each tracked stock drops by exactly its item's quantity. |
| OrderTasks.DecreaseDuplicateExample | proj/cart/tasks.py:39-43 | Two items of one product at stock 10, iterated with quantities 2 then 3, leave 7, not 5. |
| OrderTasks.Bump | proj/cart/tasks.py:91 | `perf[k] = perf.get(k, 0) + q` raises k's counter by q and leaves every other counter alone. |
| OrderTasks.ProductCountsSpec | proj/cart/tasks.py:88-92 | The product loop fails exactly when an item has no product; otherwise each counter `str(pid)` grows by the total quantity ordered of that product. |
| OrderTasks.BumpAllSpec | proj/cart/tasks.py:97-99 | The inner category loop adds q to a slug's counter once per occurrence of the slug. |
| OrderTasks.CategoryCountsSpec | proj/cart/tasks.py:95-100 | The category loop fails exactly when an item has no product; otherwise each slug's counter grows by the quantity of every item in that category. |
| OrderTasks.FreshReport | proj/cart/tasks.py:71-78 | A created report belongs to the order's shop and the period, with zero revenue, no orders and empty counters. |
| OrderTasks.FirstCovering | proj/cart/tasks.py:59-63 | `.first()` picks the earliest report of the shop whose period covers today, or none. |
| OrderTasks.UpdateSalesReport | proj/cart/tasks.py:49-106 | The Celery task updates one report in place or appends one new report, and touches nothing else. |
| OrderTasks.RecordSucceeds | proj/cart/tasks.py:81-106 | Recording succeeds exactly when the report has both counters and every item has a product; on failure the transaction leaves everything as it was. |
| OrderTasks.RecordSpec | proj/cart/tasks.py:81-100 | Revenue grows by exactly the order amount. The order joins the report. Shop and period are kept. Each product and category counter grows by its ordered quantity. |
| OrderTasks.SalesReportExisting | proj/cart/tasks.py:59-102 | With a covering report, that first report alone is updated; if recording fails, nothing changes. |
| OrderTasks.SalesReportCreates | proj/cart/tasks.py:64-102 | Without a covering report, one is added spanning the 1st to the last day of this month, holding exactly this order's revenue and counts. If recording fails, nothing is added. |
| OrderTasks.Lacking | proj/cart/tasks.py:194-199 | The shops still lacking a report are exactly those outside the covered set. |
| OrderTasks.LackingNone | proj/cart/tasks.py:194-199 | When every shop is covered, none is lacking. |
| OrderTasks.FreshReports | proj/cart/tasks.py:202-211 | One fresh report per lacking shop, in order. |
| OrderTasks.CreateMonthlyReports | proj/cart/tasks.py:172-220 | Existing reports are kept as they are and only new ones are appended. Nothing is added in December of year 9999, where `date()` raises. Nothing is added when a report for next month has no shop, since its NULL makes the `NOT IN` test unknown. |
| OrderTasks.MonthlyReportsSpec | proj/cart/tasks.py:193-214 | Every added report is a fresh one, for a shop that had none. Unless a shopless report for next month blocks the query, every shop has a report for next month afterwards. |
| OrderTasks.ShoplessReportBlocks | proj/cart/tasks.py:193-199 | One shopless report for next month means nothing is created and no shop is covered. |
| OrderTasks.MonthlyReportsIdempotent | proj/cart/tasks.py:193-214 | A second run on the same day adds nothing. |
| Calendar.DaysInMonth | proj/cart/tasks.py:190 | Months have 28 to 31 days: 30 for April, June, September and November, and 29 for February exactly in leap years. |
| Calendar.MonthOf | proj/cart/tasks.py:67-69 | This month's period runs from day 1 to the month's last day, in this year and month. |
| Calendar.MonthCovers | proj/cart/tasks.py:59-69 | A month's period covers exactly the dates of that month, today included. |
| Calendar.NextMonth | proj/cart/tasks.py:180-185 | December rolls over to January of the next year; any other month goes to the next month. |
| Calendar.NextPeriod | proj/cart/tasks.py:180-191 | Next month's period exists except in December 9999. It runs from the 1st of the month after today (January of the next year after December) to that month's last day, as `calendar.monthrange` gives it. |
| Calendar.NextPeriodAdjacent | proj/cart/tasks.py:180-191 | Next month's period begins right after this month's ends. |
| Calendar.LeapFebruary | proj/cart/tasks.py:190-191 | February has 29 days exactly in leap years: 2024 and 2000 yes, 1900 and 2023 no. |
| Webhook.ClientIp | proj/cart/webhooks.py:15-21 | The IP is the text before the first ',' of a non-empty X-Forwarded-For header, and otherwise REMOTE_ADDR. |
| Webhook.ClientIpOfChain | proj/cart/webhooks.py:15-21 | "client,proxy" gives the client; a single address gives itself; an empty header falls back to REMOTE_ADDR. |
| Webhook.Matching | proj/cart/webhooks.py:40 | The orders carrying a payment id are exactly those in the table with that id. |
| Webhook.FindOrder | proj/cart/webhooks.py:40 | `get(payment_id=...)` finds the one order carrying the id, and fails when none or several do. |
| Webhook.PaidTasks | proj/cart/webhooks.py:50-58 | A confirmed payment queues five tasks for the order, none of them a deletion. |
| Webhook.Handle | proj/cart/webhooks.py:24-89 | The status is 200, 400 or 500, and nothing is queued unless it is 200. |
| Webhook.UntrustedRefused | proj/cart/webhooks.py:25-27 | An untrusted address gets 400 and nothing is queued. |
| Webhook.SucceededDispatch | proj/cart/webhooks.py:35-58 | A confirmed payment of the right amount gets 200 and exactly the five tasks for that order. |
| Webhook.AmountMismatchRefused | proj/cart/webhooks.py:43-47 | A confirmed payment with a different or unreadable amount gets 400 with no tasks. |
| Webhook.UnknownOrderRefused | proj/cart/webhooks.py:60-76 | A succeeded or canceled payment whose id no order carries gets 400. |
| Webhook.CanceledDispatch | proj/cart/webhooks.py:68-73 | A canceled payment of a known order gets 200 and only the deletion task. |
| Webhook.OtherRefused | proj/cart/webhooks.py:30-87 | Any other event, and a notification the factory rejects, get 400; a body that is not JSON gets 500. |
| Webhook.AcceptedIff | proj/cart/webhooks.py:24-89 | 200 is answered exactly when all of these hold: a trusted sender, a readable succeeded or canceled event, a single matching order, and (for succeeded) an equal amount. Tasks are queued exactly then. |
| Browsing.RemoveFirst | proj/products/views.py:157-158 | `list.remove` drops one occurrence of a present id and leaves an absent one's list unchanged. |
| Browsing.Without | proj/products/views.py:157-160 | The reference "list without p": p is gone and every other id is kept. |
| Browsing.RecordView | proj/products/views.py:154-162 | After viewing p the list starts with p and holds at most ten ids, with the length it should have. |
| Browsing.ProductDetail | proj/products/views.py:150-166 | A session without a list, or with an empty one, ends with just [p]. |
| Browsing.RemoveFirstNoDup | proj/products/views.py:157-158 | On a duplicate-free list, removing the first occurrence removes every occurrence. |
| Browsing.RecordViewNoDup | proj/products/views.py:157-162 | A duplicate-free list stays duplicate-free and holds p once. The result is [p] then the old list without p, cut to ten, so the other ids keep their order. |
| Browsing.RecordViewIdempotent | proj/products/views.py:157-162 | Viewing the same product twice in a row is the same as viewing it once. |
| Browsing.ReviewGate | proj/products/views.py:178-212 | `can_review` (Browsing.CanReview) holds only for a logged-in user with more ordered items than reviews. `add_review`'s refusal (Browsing.AddReviewRefused) applies to exactly the logged-in users `can_review` excludes. |
| RecentlyViewed.Listed | proj/core/context_processors/recently_viewed.py:11-14 | The filter keeps ids of one list that occur in the other, in the first list's order, never more of them than the first list holds. |
| RecentlyViewed.ListedMembers | proj/core/context_processors/recently_viewed.py:11-14 | It keeps exactly the ids in both lists. |
| RecentlyViewed.RecentlyViewedProducts | proj/core/context_processors/recently_viewed.py:5-19 | An empty or missing list gives `{}`; otherwise exactly the existing products whose id is in the list. |
| RecentlyViewed.OrderedByList | proj/core/context_processors/recently_viewed.py:15-18 | The products come out in the order of their ids' first positions in the list. |
| RecentlyViewed.MatchesList | proj/core/context_processors/recently_viewed.py:11-18 | For a duplicate-free list the result is the list with ids that have no product dropped, in list order. |
| RecentlyViewed.SortedIsList | proj/core/context_processors/recently_viewed.py:15-18 | Sorting the queried products by list position gives the list filtered to existing products. |
| RecentlyViewed.SortedStrict | proj/core/context_processors/recently_viewed.py:15-18 | Distinct products never tie on the sort key. |
| RecentlyViewed.ListStrict | proj/core/context_processors/recently_viewed.py:15-18 | The filtered list is strictly ordered by list position. |
| RecentlyViewed.ListedInOrder | proj/core/context_processors/recently_viewed.py:11-18 | Filtering keeps the order of the source list. |
| RecentlyViewed.ListedNoDup | proj/core/context_processors/recently_viewed.py:11-14 | Filtering a duplicate-free list gives a duplicate-free list. |
| RecentlyViewed.EmptyListExamples | proj/core/context_processors/recently_viewed.py:6-8 | A missing and an empty list both give `{}`. |
| RecentlyViewed.RecentlyViewedExample | proj/core/context_processors/recently_viewed.py:11-18 | List [2, 5, 1] with only products 1 and 2 gives [2, 1]. |
| Ranking.Insert | proj/products/tasks.py:86 | Insertion adds exactly one element. |
| Ranking.SortDesc | proj/products/tasks.py:86 | The sort is a permutation of its input. |
| Ranking.SortDescSpec | proj/products/tasks.py:86 | `sorted(..., reverse=True)` gives descending scores, and elements of equal score keep their input order (stability). |
| Ranking.InsertSorted | proj/products/tasks.py:86 | Inserting into a sorted list keeps it sorted. |
| Ranking.InsertClass | proj/products/tasks.py:86 | Insertion keeps each score class in order, the new element last in its class. |
| Ranking.Top | proj/products/tasks.py:89 | `[:n]` is the first min(n, length) elements. |
| Ranking.TopSortedSpec | proj/products/tasks.py:86-89 | The top n are members of the input, in descending order, and nothing left out scores above anything kept. |
| Ranking.TopDominates | proj/products/tasks.py:86-89 | Every kept element scores at least as high as every element past the cut. |
| Ranking.StrictUnique | proj/core/context_processors/recently_viewed.py:15-18 | Two strictly descending lists with the same members are equal. |
| Recommend.Rows | proj/products/tasks.py:30-35 | An order contributes its items' products, and an order without items contributes one `None` row. |
| Recommend.Purchased | proj/products/tasks.py:30-35 | The purchased ids are exactly the rows of the user's orders created in the last 90 days. |
| Recommend.Viewed | proj/products/tasks.py:38-42 | The viewed ids form the set of the list's ids, and a missing list is empty. |
| Recommend.ViewedAsSet | proj/products/tasks.py:38-42 | Repeated views count once, and a missing list is the same as an empty one. |
| Recommend.Interacted | proj/products/tasks.py:45 | The interaction set is the purchases and the views together. |
| Recommend.Known | proj/products/tasks.py:49-53 | The `id__in` lookup sees exactly the non-`None` ids. |
| Recommend.Offerable | proj/products/tasks.py:50-53 | Exactly the verified, shown, in-stock products outside the excluded ids, in catalogue order. |
| Recommend.Candidates | proj/products/tasks.py:50-54 | The eligible products the user has not touched, or every eligible product when there is none. |
| Recommend.CandidatesNonEmpty | proj/products/tasks.py:50-54 | Some eligible product leaves the pool non-empty. |
| Recommend.CacheKey | proj/products/tasks.py:89 | The entry is keyed `recommended_products_cache_user_<pk>`. |
| Recommend.CacheKeyInjective | proj/products/tasks.py:89 | Different users get different entries. |
| Recommend.Ids | proj/products/tasks.py:89 | The cached list names the kept products in order. |
| Recommend.Best | proj/products/tasks.py:86-89 | Ten products are kept, or all of them when there are fewer than ten. |
| Recommend.BestSpec | proj/products/tasks.py:86-89 | The kept products are candidates in descending score order, and no candidate left out scores above one kept. |
| Recommend.TiesKeepOrder | proj/products/tasks.py:86 | Candidates of equal score keep catalogue order, and the kept list is a prefix of the ranking. |
| Recommend.Recommended | proj/products/tasks.py:47-90 | A list is written only for a non-empty interaction set, and holds 1 to 10 products. |
| Recommend.FindRecommended | proj/products/tasks.py:47-90 | The Celery task writes the user's entry and no other. |
| Recommend.WritesIff | proj/products/tasks.py:47-90 | No recent purchase and no view means the cache is untouched. Otherwise, once any eligible product exists, the user's entry is written with a 3600 s timeout. |
| Recommend.RecommendedSpec | proj/products/tasks.py:47-90 | The written list is the top ten of the candidates, all eligible and untouched (unless everything eligible was touched), in descending score with nothing better left out. |
| Recommend.BoughtAndViewedExample | proj/tests/products/test_products_context_and_tasks.py:107-129 | Bought p1 and viewed p2, of three eligible products: the cached list is exactly [p3], whatever the score. |
| Recommend.ExampleInteracted | proj/products/tasks.py:30-45 | The test's purchase and view give the interaction set {1, 2}. |
| Recommend.ExampleOfferable | proj/products/tasks.py:50-53 | Excluding ids 1 and 2 from products 1, 2, 3 leaves product 3. |
| Recommend.SingleBest | proj/products/tasks.py:86-89 | A single candidate is the whole list. |
| RecommendationsData.LocalText | proj/core/context_processors/recommendations_data.py:7-15 | The module's own `get_product_text`, which it never calls: the text starts with the product name and a space. |
| RecommendationsData.LocalTextSplits | proj/core/context_processors/recommendations_data.py:7-15 | With space-free fields the text splits back into name, category titles and description. A missing description, like an empty category list, leaves one empty field. |
| RecommendationsData.PopularOf | proj/core/context_processors/recommendations_data.py:31-37 | Exactly the verified, shown products with an average rating of at least 4. |
| RecommendationsData.Fallback | proj/core/context_processors/recommendations_data.py:31-37 | At most ten products. |
| RecommendationsData.FallbackSpec | proj/core/context_processors/recommendations_data.py:31-37 | Only popular products, most ordered first, and no popular product left out was ordered more often than one kept. |
| RecommendationsData.StatIds | proj/core/context_processors/recommendations_data.py:31-37 | The cached list names the fallback's products in order. |
| RecommendationsData.FallbackKeyDistinct | proj/core/context_processors/recommendations_data.py:22-31 | The shared entry never collides with a user's entry. |
| RecommendationsData.Data | proj/core/context_processors/recommendations_data.py:18-38 | At most one task is queued per request. |
| RecommendationsData.HitServed | proj/core/context_processors/recommendations_data.py:21-23 | A signed-in user with a non-empty entry gets it, queues nothing, and leaves the cache alone. |
| RecommendationsData.MissDispatches | proj/core/context_processors/recommendations_data.py:22-37 | A signed-in user without an entry queues exactly one task with their pk and the session list (or []). They get the shared list, which is stored for 600 s if it was absent. |
| RecommendationsData.AnonymousFallback | proj/core/context_processors/recommendations_data.py:21-38 | An anonymous visitor queues nothing and gets the shared list. |
| RecommendationsData.DispatchIff | proj/core/context_processors/recommendations_data.py:21-38 | A task is queued exactly for a signed-in user whose entry is missing or empty, and the user's entry is never written here. |
| RecommendationsData.DispatchExample | proj/tests/products/test_products_context_and_tasks.py:87-104 | Session list [1, 2, 3] is passed on to the Celery task unchanged. |
| ProductText.OrEmpty | proj/products/utils.py:19-24 | `value or ""`: a missing value reads as "". |
| ProductText.Attributes | proj/products/utils.py:19-26 | Six characteristics close the text. |
| ProductText.ProductText | proj/products/utils.py:13-26 | The text starts with the product name and a space. |
| ProductText.ProductTextSplits | proj/products/utils.py:13-26 | With space-free fields the text splits back into the name, the titles (or one empty field) and the six characteristics. Empty fields keep their place. |
| ProductText.CategoriesSplit | proj/products/utils.py:18 | Joined category titles split back into the titles, or into one empty field when there are none. |
| ProductText.NonEmpty | proj/products/utils.py:34 | `filter(None, ...)` keeps exactly the non-empty strings. |
| ProductText.Fio | proj/products/utils.py:33-36 | No owner gives "". |
| ProductText.FioSplits | proj/products/utils.py:34 | With space-free name parts, the full name splits into exactly the non-empty parts: none is lost and no double space appears. |
| ProductText.FioFull | proj/products/utils.py:34 | With all three parts present, the full name is last, first and patronymic joined by spaces. |
| ProductText.Extra | proj/products/utils.py:38-42 | At most two notes, and none exactly when the shop has neither ИНН nor ОГРНИП. |
| ProductText.Notes | proj/products/utils.py:37-44 | The suffix names exactly the registration numbers present, ИНН before ОГРНИП, each after ", ", and is empty when both are absent. |
| ProductText.ShopInfo | proj/products/utils.py:29-51 | An entrepreneur's line is the label, the full name and the notes. A shop type outside the three listed gives the bare title. |
| ProductText.ShopInfoLines | proj/products/utils.py:45-51 | Self-employed gives "самозанятый " plus the full name (plus "" with no owner). A legal person gives "юрлицо <title>, ОГРН: <ОГРН>", printing a missing ОГРН as "None". Any other type gives the title. |
| ProductText.ShopInfoKey | proj/products/utils.py:43 | The shop line is keyed `shop_<slug>_info_cache`. |
| ProductText.ShopInfoKeyInjective | proj/products/utils.py:43 | Different slugs get different keys. |
| ProductText.SetShopInfoCache | proj/products/utils.py:43-51 | The shop's line is stored under its key for 86400 s, and every other entry is unchanged. |
| ProductText.GetCachedItems | proj/products/utils.py:6-10 | A read-through lookup: an absent key is filled for 600 s and returned; a present one is returned unchanged. |
| Cache.Set | proj/products/utils.py:43-44 | `cache.set` writes one key with its timeout and leaves every other key unchanged. |
| Cache.GetOrSet | proj/products/utils.py:9-10 | `get_or_set` returns a present entry without writing, and otherwise stores the value and returns it. |
| Cache.GetOrSetIdempotent | proj/products/utils.py:9-10 | A second `get_or_set` on the same key returns the first's value and writes nothing, whatever value it is offered. |
| Catalog.ParseShopType | proj/products/models.py:12-19 | A stored code is one of the three listed types, or an unlisted code kept verbatim. |
| Catalog.ShopTypeRoundTrip | proj/products/models.py:12-19 | Codes and shop types correspond one to one, and the default is "self-employed". |
| Catalog.RandSlug | proj/products/models.py:52-54 | `_rand_slug` gives three characters from a-z0-9. |
| Catalog.RandSlugCovers | proj/products/models.py:52-54 | Every three-character string over a-z0-9 can come out. |
| Catalog.SaveSlugStable | proj/products/models.py:56-59 | A non-empty slug is kept, and saving again never regenerates a slug. |
| Catalog.CategoriesLabelSplits | proj/products/models.py:161 | `categories()` joins the titles with ","; the label splits back into them when no title holds a comma. |
| Catalog.RatingRange | proj/products/models.py:169-177 | A rating is valid exactly in 1..5, and the default 5 is valid. |
| Dashboard.NumPages | proj/users/views.py:70 | At 24 per page there is at least one page, the pages hold every entry, and the last page is not empty (unless the list is). |
| Dashboard.ParseInt | proj/users/views.py:69-76 | `int()` reads stripped ASCII digits as their value, and never accepts blank text. |
| Dashboard.ParseIntSpec | proj/users/views.py:69-76 | `int()` reads stripped decimal digits of any script, alone or after one `+` or `-` sign, as their (signed) value, and accepts nothing else. |
| Dashboard.ParseIntOfString | proj/users/views.py:69-76 | `int(str(n)) == n`. |
| Dashboard.ParseIntOfNegative | proj/users/views.py:69-76 | `int("-" + str(n)) == -n`. |
| Dashboard.ParseIntRejects | proj/users/views.py:73-74 | Text starting with anything other than whitespace, a sign or a decimal digit is not an integer. |
| Dashboard.PageNumber | proj/users/views.py:69-76 | The page shown always exists. |
| Dashboard.PageNumberRules | proj/users/views.py:69-76 | Missing or non-integer page gives 1; an in-range page gives itself; an out-of-range one (0 and negatives included) gives the last page. |
| Dashboard.PageCountExamples | proj/users/views.py:70 | 50 orders make 3 pages, 48 make 2, none make 1. |
| Dashboard.PageExamples | proj/users/views.py:69-76 | With 50 orders, "abc" shows page 1, "2" page 2, and "0" and "7" the last page. |
| Dashboard.PageSlice | proj/users/views.py:70-72 | A page holds at most 24 consecutive entries starting at (n − 1)·24, and exactly 24 unless it is the last. |
| Dashboard.Paginate | proj/users/views.py:69-76 | A page only shows entries of the list. |
| Dashboard.PageCovers | proj/users/views.py:70-72 | Every entry is on the page its position names, so the pages together show the whole list. |
| Dashboard.Mine | proj/users/views.py:67 | Exactly the orders placed by this user. |
| Dashboard.CustomerOrders | proj/users/views.py:65-80 | The customer sees only orders they placed. |
| Dashboard.OrderDetail | proj/users/views.py:83-105 | An unknown pk is a 404. Anyone but the buyer is sent back to their orders. The buyer's posted non-empty message on an order without a shop is a server error, and only that is. |
| Dashboard.OrderDetailMail | proj/users/views.py:92-100 | Only the buyer sees the order. A support mail is queued exactly for the buyer's posted non-empty message, and carries it. |
| Dashboard.ShopOrderList | proj/users/views.py:144-164 | Exactly the paid orders of the shop whose number contains the keyword, if one is given. |
| Dashboard.ShopOrders | proj/users/views.py:138-176 | A user without a shop is sent to the shop form, and only such a user; the list never fails. |
| Dashboard.ShopOrdersSpec | proj/users/views.py:144-164 | Every listed order is paid and of the user's shop; without a keyword every such order is in the list. |
| Dashboard.StatusUrl | proj/users/views.py:189-192 | The redirect starts with the list address and "?page=". |
| Dashboard.StatusUrlFragment | proj/users/views.py:189-192 | The URL splits on '#' into the list address and "order-<id>", so different orders give different URLs. |
| Dashboard.Lookup | proj/users/views.py:182 | The seller reaches an order exactly when it exists and its shop equals the user's. |
| Dashboard.ChangeStatus | proj/users/views.py:179-192 | A change only ever touches the order's status and always redirects to its card. |
| Dashboard.ChangeStatusIff | proj/users/views.py:183-188 | The status changes, and the mail is queued, exactly for a listed code other than "awaiting_payment". The redirect happens either way. |
| Dashboard.ShoplessUserReachesShoplessOrders | proj/users/views.py:182 | A user without a shop reaches orders without a shop. |
| Dashboard.ProductsGate | proj/users/views.py:198-199 | The products page admits exactly a user whose shop exists and is verified. |
| Dashboard.SearchRows | proj/users/views.py:214-219 | The join yields rows for a product exactly when its name, number or a category title matches. |
| Dashboard.CategoryRows | proj/users/views.py:216 | The category join gives rows only of this product, and some row exactly when it has a category and its name, number or a category title matches. |
| Dashboard.SearchAsWritten | proj/users/views.py:214-222 | As written, the listed products are exactly the shop's matching products, with repeats. |
| Dashboard.Search | proj/users/views.py:214-222 | As intended, the listed products are exactly the shop's matching products, never more than there are. |
| Dashboard.SearchNoDup | proj/users/views.py:214-222 | The intended search lists each product once. |
| Dashboard.SearchSameProducts | proj/users/views.py:214-222 | Both searches find the same products. |
| Dashboard.SearchDuplicateExample | proj/users/views.py:214-222 | Product "AK" with two categories, searched for "ak", is listed twice as written and once as intended. |
| Dashboard.NumberTestOf | proj/users/views.py:220-221 | The number test applies exactly when `isdigit()` holds, and for ASCII digits its number is their value. |
| Dashboard.NumberTestSpec | proj/users/views.py:220-221 | The number test fails exactly when some digit of an all-digit keyword is not a decimal one; otherwise its number is the one `int()` reads. |
| Dashboard.DigitKeyword | proj/users/views.py:217-221 | A keyword the number test reads as a product's number finds that product; a keyword that is not all digits matches by name or category only. |
| Dashboard.ArabicIndicThree | proj/users/views.py:220-221 | The Arabic-Indic "٣" is read as 3 by the number test and as a page number. |
| Dashboard.SuperscriptTwo | proj/users/views.py:220-221 | "²" passes `isdigit()` but `int()` cannot read it. |
| Dashboard.SuperscriptTwoFails | proj/users/views.py:214-222 | A verified shop's search for "²" is a server error in both views. |
| Dashboard.ShopProducts | proj/users/views.py:195-234 | As written: an unverified or missing shop is sent to the shop form. A keyword of digits `int()` cannot read is a server error. Otherwise only that shop's products are listed, and with a keyword only matching ones, a product taking one place per matching category row. |
| Dashboard.ShopProductsIntended | proj/users/views.py:195-234 | The same view with the corrected search: the same gate, the same server error, the same bounds on what is listed, and each matching product listed once. |
| Dashboard.ShopProductsDiffer | proj/users/views.py:214-228 | Without a keyword, or with one that raises, both views give the same outcome; otherwise they paginate the as-written and the corrected search. |
| Dashboard.ShopProductList | proj/users/views.py:223-224 | Without a keyword, exactly the shop's products. |
| Grouping.KeysDistinct | proj/cart/views.py:150-152 | Each warehouse (or shop) is listed once. |
| Grouping.Keep | proj/cart/views.py:29-33 | Only shops that exist are kept. |
| Grouping.KeysMembers | proj/cart/views.py:146-152 | A key is listed exactly when some element carries it. |
| Grouping.KeysComplete | proj/cart/views.py:146-152 | Every element's key is listed. |
| Grouping.MembersSpec | proj/cart/views.py:146-152 | A group holds exactly the elements carrying its key, in order. |
| Grouping.KeepSpec | proj/cart/views.py:29-33 | Keeping the existing shops keeps exactly the keys that exist. |
| Grouping.KeepDistinct | proj/cart/views.py:29-33 | Keeping preserves distinctness. |
| Grouping.Partition | proj/cart/views.py:154-161 | Summing per group and adding the group sums gives the plain sum. |
| Grouping.PartitionStep | proj/cart/views.py:154-161 | Appending an element adds its weight to exactly one group. |
| Grouping.NewGroup | proj/cart/views.py:150-152 | An element with an unseen key opens a group holding just its weight. |
| Text.Trim | proj/cart/views.py:138 | `strip()` removes exactly the leading and trailing characters `str.isspace()` accepts (the ASCII controls, U+001C to U+001F, the no-break space and the other Unicode spaces), and never lengthens. |
| Text.DecimalAt | proj/users/views.py:220 | Decimal digits have values 0 to 9, and '0' to '9' have their ASCII values. |
| Text.DecimalAtRuns | proj/users/views.py:220 | A code point is the decimal digit `v` exactly when one of the runs of Unicode 15.0 holds it at offset `v`. |
| Text.RunsAscend | proj/users/views.py:220 | The runs of decimal digits do not overlap and ascend. |
| Text.RunOfTen | proj/users/views.py:220 | Every decimal digit sits in a whole run of ten holding 0 to 9 in order. |
| Text.DecimalNotSpace | proj/users/views.py:69-76 | No decimal digit is whitespace, so `strip()` leaves a string of digits alone. |
| Text.ReadDecimal | proj/users/views.py:69-76 | `int()` reads a string exactly when every character is a decimal digit of some script; on ASCII digits it agrees with reading them one by one. |
| Text.Lower | proj/cart/views.py:138 | `lower()` maps each character. |
| Text.NormalizeIdempotent | proj/cart/views.py:138 | Stripping and lower-casing twice is doing it once. |
| Text.NormalizePadded | proj/cart/views.py:138 | Surrounding whitespace does not change the normalised city. |
| Text.TrimPadded | proj/cart/views.py:138 | `strip()` ignores any whitespace added around the text. |
| Text.NatToString | proj/cart/tasks.py:90 | `str(n)` is decimal digits with no leading zero. |
| Text.ParseNatToString | proj/cart/tasks.py:90 | `int(str(n)) == n`. |
| Text.NatToStringInjective | proj/cart/tasks.py:90 | Distinct ids print differently, so `str(pk)` is a faithful key. |
| Text.SplitHead | proj/cart/webhooks.py:18 | `split(',')[0]` is the text before the first ','. |
| Text.SplitOn | proj/cart/webhooks.py:18 | `split(c)` always gives at least one field. |
| Text.SplitJoin | proj/products/models.py:161 | Splitting a join recovers the parts when none holds the separator. |
| Text.SplitJoinAll | proj/products/utils.py:25-26 | Splitting a join gives the fields of each part in order. |

## Left out

- Payment creation with YooKassa, order and address persistence, and the redirects of `order_view` after the shipping branch (cart/views.py:177-397): these are foreign API calls and database writes.
- The tariff tables' contents: `cart/services.py` is not part of this model. The city table, zone matrix, special-city sets and prices are the parameters of `Tariff.Tables`.
- A resolver that raises: the model does not raise, so "an exception inside the resolver gives None" shows up only as `Estimate` returning `None` on every failure path.
- TF-IDF vectorising, MinMax price scaling and cosine similarity (products/tasks.py:57-83): these are floating-point library work. The score is an arbitrary function parameter.
- Recommend.Recommended: an interaction set holding only ids with no product, or only `None`, is modelled as a normal run. The library behaviour for empty user texts is not modelled.
- Email tasks, `send_email_*` and the support and status mails: only the fact that they are queued, with their arguments, is modelled.
- `Order.get_discount`: it refers to a `discount` field the model does not have.
- The admin Excel export and its float percentage splits.
- Celery dispatch, `select_for_update`, transactions and cache expiry timing. Tasks are recorded values, a failing task leaves state unchanged as its transaction would, and the cache keeps each timeout but never expires.
- `slugify` and `random.choice`: they are parameters, and only the three-character alphabet fact is stated.
- Forms, URL confs, templates, settings, migrations and the ORM queries in `products/services.py`.
- Checkout.ClampQty: `cart_update` raises (a server error) for a missing product or a non-integer id or quantity; the model starts from the looked-up stock and the parsed quantity, so those failures are not modelled.
- Money.Round2: it assumes the default decimal context (`ROUND_HALF_EVEN`); no code in the model changes the context.
- Dashboard.ParseInt: it accepts decimal digits of any script with an optional sign and surrounding whitespace. Underscores between digits, which Python's `int()` also accepts, are not modelled, nor is the limit of 4300 digits that recent Python versions put on `int()`.
- Text.DecimalAt: the digit tables are those of Unicode 15.0, as Python 3.12 ships them; other Python versions differ in the characters added since.
- Dashboard.NumberTestOf: a number too large for the database's integer column is compared like any other and matches no product. Some Django versions raise on such a lookup instead, and recent Python versions make `int()` raise on more than 4300 digits; neither server error is modelled.
- Text.Lower: it covers ASCII and the Russian alphabet. Other scripts are left unchanged.
- RecentlyViewed.OrderedByList: ids in the session are assumed to be product ids. A string id that `int()` would coerce is outside the model.
- Calendar: dates are proleptic Gregorian in years 1..9999, as `datetime.date` allows. Time zones are not modelled, and "today" is a parameter.

## Findings

| source | as written | input that shows it | evidently intended | confidence | as-written member | corrected member |
|---|---|---|---|---|---|---|
| proj/users/views.py:214-222 | The keyword search ORs a name test with a test on `category__title` across the many-to-many join and never calls `distinct()`, so a product yields one row per category. | A product "AK" with two categories, keyword "ak": it is listed twice, and the paginator counts it twice. | Each matching product listed once. | not executed | Dashboard.SearchAsWritten (shown by Dashboard.SearchDuplicateExample), used by Dashboard.ShopProducts | Dashboard.Search (Dashboard.SearchNoDup, Dashboard.SearchSameProducts), used by Dashboard.ShopProductsIntended |
