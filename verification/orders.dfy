/** The order records of `cart/models.py`: the status and delivery-method
    choices with their defaults, the database constraints, and the cost sums
    of `OrderItem` and `Order`. */
module Orders {
  import opened Wrappers

  /** `Order.STATUS_OPTIONS`, in their listed order. */
  datatype Status =
    | AwaitingPayment
    | InAssembly
    | TransferredToDelivery
    | OnTheWay
    | AwaitingReceipt
    | Received
    | Canceled

  function StatusCode(s: Status): string {
    match s
    case AwaitingPayment => "awaiting_payment"
    case InAssembly => "in_assembly"
    case TransferredToDelivery => "transferred_to_delivery"
    case OnTheWay => "on_the_way"
    case AwaitingReceipt => "awaiting_receipt"
    case Received => "received"
    case Canceled => "canceled"
  }

  /** The seven stored codes, in their listed order. */
  const StatusCodes: seq<string> := [
    "awaiting_payment", "in_assembly", "transferred_to_delivery", "on_the_way",
    "awaiting_receipt", "received", "canceled"]

  /** The status a stored code names; `None` for a code outside the choices. */
  function ParseStatus(code: string): (s: Option<Status>)
    ensures s.Some? <==> code in StatusCodes
  {
    if code == "awaiting_payment" then Some(AwaitingPayment)
    else if code == "in_assembly" then Some(InAssembly)
    else if code == "transferred_to_delivery" then Some(TransferredToDelivery)
    else if code == "on_the_way" then Some(OnTheWay)
    else if code == "awaiting_receipt" then Some(AwaitingReceipt)
    else if code == "received" then Some(Received)
    else if code == "canceled" then Some(Canceled)
    else None
  }

  /** Codes and statuses correspond one to one, and every status code is one
      of the seven listed. */
  lemma StatusRoundTrip(s: Status, code: string)
    ensures ParseStatus(StatusCode(s)) == Some(s)
    ensures StatusCode(s) in StatusCodes
    ensures ParseStatus(code).Some? ==> StatusCode(ParseStatus(code).value) == code
  {
  }

  /** `Order.DELIVERY_METHOD_OPTIONS`. */
  datatype DeliveryMethod = PickUpPoint | ByCourier

  function DeliveryCode(d: DeliveryMethod): string {
    match d
    case PickUpPoint => "pick-up_point"
    case ByCourier => "by_courier"
  }

  /** `product` is `None` once the item no longer refers to a product. */
  datatype OrderItem = OrderItem(product: Option<nat>, price: real, quantity: int)

  /** `shop` is `None` once the shop is deleted (`SET_NULL`). */
  datatype Order = Order(
    id: nat,
    shop: Option<nat>,
    status: Status,
    paid: bool,
    delivery: DeliveryMethod,
    amount: real,
    paymentId: Option<string>,
    items: seq<OrderItem>)

  /** A freshly created order: the field defaults apply. */
  function NewOrder(id: nat, shop: Option<nat>, amount: real, paymentId: Option<string>, items: seq<OrderItem>): (o: Order)
    ensures o.status == AwaitingPayment && !o.paid && o.delivery == PickUpPoint
    ensures o.id == id && o.shop == shop && o.amount == amount && o.paymentId == paymentId && o.items == items
  {
    Order(id, shop, AwaitingPayment, false, PickUpPoint, amount, paymentId, items)
  }

  /** The check constraints: `amount >= 0` and every item `quantity > 0`. */
  predicate ValidOrder(o: Order) {
    o.amount >= 0.0 && forall i :: 0 <= i < |o.items| ==> o.items[i].quantity > 0
  }

  /** `OrderItem.get_cost()` and the `total_cost` property alike. */
  function ItemCost(it: OrderItem): real {
    it.price * it.quantity as real
  }

  /** `get_total_cost_before_discount()`: the sum of the item costs. */
  function TotalBeforeDiscount(items: seq<OrderItem>): real {
    if items == [] then 0.0 else ItemCost(items[0]) + TotalBeforeDiscount(items[1..])
  }

  /** The total over two batches of items is the sum of their totals. */
  lemma {:induction false} TotalConcat(a: seq<OrderItem>, b: seq<OrderItem>)
    ensures TotalBeforeDiscount(a + b) == TotalBeforeDiscount(a) + TotalBeforeDiscount(b)
  {
    if a == [] {
      assert a + b == b;
    } else {
      assert (a + b)[0] == a[0] && (a + b)[1..] == a[1..] + b;
      TotalConcat(a[1..], b);
    }
  }

  /** Items with non-negative prices in a valid order never total less than zero,
      and each costs at least its price. */
  lemma {:induction false} TotalNonNegative(items: seq<OrderItem>)
    requires forall i :: 0 <= i < |items| ==> items[i].quantity > 0 && items[i].price >= 0.0
    ensures TotalBeforeDiscount(items) >= 0.0
    ensures forall i :: 0 <= i < |items| ==> ItemCost(items[i]) >= items[i].price
  {
    if items != [] {
      TotalNonNegative(items[1..]);
      assert forall i :: 1 <= i < |items| ==> items[i] == items[1..][i - 1];
      var it := items[0];
      assert ItemCost(it) == it.price * it.quantity as real >= it.price * 1.0;
    }
  }

  /** A new order satisfies the constraints exactly when its amount and
      quantities do, and starts unpaid. */
  lemma NewOrderValid(id: nat, shop: Option<nat>, amount: real, paymentId: Option<string>, items: seq<OrderItem>)
    ensures ValidOrder(NewOrder(id, shop, amount, paymentId, items)) <==>
      amount >= 0.0 && forall i :: 0 <= i < |items| ==> items[i].quantity > 0
    ensures StatusCode(NewOrder(id, shop, amount, paymentId, items).status) == "awaiting_payment"
    ensures DeliveryCode(NewOrder(id, shop, amount, paymentId, items).delivery) == "pick-up_point"
  {
  }
}
