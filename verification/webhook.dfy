/** The payment notification endpoint of `cart/webhooks.py`: where the client
    address comes from, and which response and follow-up tasks each
    notification leads to. The tasks are recorded, not run. */
module Webhook {
  import opened Wrappers
  import opened Text
  import opened Orders

  /** The request headers consulted; the server always sets `REMOTE_ADDR`. */
  datatype Meta = Meta(forwardedFor: Option<string>, remoteAddr: string)

  /** `get_client_ip`: the text before the first ',' of a non-empty
      `X-Forwarded-For` header, otherwise `REMOTE_ADDR`. */
  function ClientIp(m: Meta): (ip: string)
    ensures m.forwardedFor.Some? && m.forwardedFor.value != [] ==>
      var h := m.forwardedFor.value;
      IsPrefix(ip, h) && ',' !in ip && (|ip| < |h| ==> h[|ip|] == ',')
    ensures m.forwardedFor.None? || m.forwardedFor.value == [] ==> ip == m.remoteAddr
  {
    if m.forwardedFor.Some? && m.forwardedFor.value != [] then
      SplitHead(',', m.forwardedFor.value);
      SplitOn(',', m.forwardedFor.value)[0]
    else m.remoteAddr
  }

  /** A proxy chain "client, proxy" yields the client address, and a header
      without a comma is taken whole. */
  lemma ClientIpOfChain(client: string, rest: string, remote: string)
    requires ',' !in client
    ensures ClientIp(Meta(Some(client + "," + rest), remote)) == client
    ensures client != [] ==> ClientIp(Meta(Some(client), remote)) == client
    ensures ClientIp(Meta(Some(""), remote)) == remote
  {
    SplitAfterPart(',', client, rest);
    assert client + "," + rest == client + [','] + rest;
    SplitWithout(',', client);
  }

  datatype Event = PaymentSucceeded | PaymentCanceled | OtherEvent(name: string)

  /** What the notification factory builds from the parsed JSON; `amount` is
      `None` where `Decimal(amount.value)` raises. */
  datatype Notification = Notification(event: Event, paymentId: string, amount: Option<real>)

  /** The request body: not JSON at all, or JSON the factory may reject
      (`None`). */
  datatype Body = InvalidJson | Json(notification: Option<Notification>)

  /** The follow-up tasks the endpoint queues. */
  datatype Task =
    | UpdateOrderStatus(order: nat)
    | DecreaseProductQuantity(order: nat)
    | UpdateStoreSalesReport(order: nat)
    | SendEmailToOwner(order: nat)
    | SendEmailToCustomer(order: nat)
    | DeleteOrder(order: nat)

  /** The HTTP status returned and the tasks queued before it. */
  datatype Reply = Reply(status: int, tasks: seq<Task>)

  /** The orders carrying payment id `pid`, in order. */
  function Matching(orders: seq<Order>, pid: string): (r: seq<Order>)
    ensures forall o :: o in r <==> o in orders && o.paymentId == Some(pid)
    ensures |r| <= |orders|
  {
    if orders == [] then []
    else (if orders[0].paymentId == Some(pid) then [orders[0]] else []) + Matching(orders[1..], pid)
  }

  /** `Order.objects.get(payment_id=pid)`: the order when exactly one
      matches; no match and several matches both raise. */
  function FindOrder(orders: seq<Order>, pid: string): (r: Option<Order>)
    ensures r.Some? ==> r.value in orders && r.value.paymentId == Some(pid)
    ensures r.Some? ==> forall o :: o in orders && o.paymentId == Some(pid) ==> o == r.value
    ensures r.None? ==> |Matching(orders, pid)| != 1
  {
    var m := Matching(orders, pid);
    if |m| == 1 then (assert m[0] in m; Some(m[0])) else None
  }

  /** The five tasks of a confirmed payment, in dispatch order. */
  function PaidTasks(id: nat): (ts: seq<Task>)
    ensures |ts| == 5 && forall i :: 0 <= i < |ts| ==> ts[i].order == id && !ts[i].DeleteOrder?
  {
    [UpdateOrderStatus(id), DecreaseProductQuantity(id), UpdateStoreSalesReport(id),
     SendEmailToOwner(id), SendEmailToCustomer(id)]
  }

  const BadRequest := Reply(400, [])

  /** `yookassa_webhook` with `trusted` the payment provider's address check.
      A body that is not JSON raises outside every handler: status 500. */
  function Handle(meta: Meta, trusted: string -> bool, body: Body, orders: seq<Order>): (r: Reply)
    ensures r.status in {200, 400, 500}
    ensures r.status != 200 ==> r.tasks == []
  {
    if !trusted(ClientIp(meta)) then BadRequest
    else match body
      case InvalidJson => Reply(500, [])
      case Json(None) => BadRequest
      case Json(Some(n)) =>
        match n.event
        case PaymentSucceeded =>
          (match FindOrder(orders, n.paymentId)
           case None => BadRequest
           case Some(o) =>
             if n.amount != Some(o.amount) then BadRequest
             else Reply(200, PaidTasks(o.id)))
        case PaymentCanceled =>
          (match FindOrder(orders, n.paymentId)
           case None => BadRequest
           case Some(o) => Reply(200, [DeleteOrder(o.id)]))
        case OtherEvent(_) => BadRequest
  }

  /** An address the provider does not own is refused before anything else. */
  lemma UntrustedRefused(meta: Meta, trusted: string -> bool, body: Body, orders: seq<Order>)
    requires !trusted(ClientIp(meta))
    ensures Handle(meta, trusted, body, orders) == Reply(400, [])
  {
  }

  /** A confirmed payment of the right amount queues exactly the five
      post-payment tasks for its order, and never the delete task. */
  lemma SucceededDispatch(meta: Meta, trusted: string -> bool, orders: seq<Order>, n: Notification, o: Order)
    requires trusted(ClientIp(meta)) && n.event == PaymentSucceeded
    requires FindOrder(orders, n.paymentId) == Some(o) && n.amount == Some(o.amount)
    ensures Handle(meta, trusted, Json(Some(n)), orders) == Reply(200, PaidTasks(o.id))
    ensures forall t :: t in Handle(meta, trusted, Json(Some(n)), orders).tasks ==> !t.DeleteOrder? && t.order == o.id
  {
  }

  /** A confirmed payment whose amount differs from the order's, or cannot
      be read, is refused and queues nothing. */
  lemma AmountMismatchRefused(meta: Meta, trusted: string -> bool, orders: seq<Order>, n: Notification, o: Order)
    requires trusted(ClientIp(meta)) && n.event == PaymentSucceeded
    requires FindOrder(orders, n.paymentId) == Some(o) && n.amount != Some(o.amount)
    ensures Handle(meta, trusted, Json(Some(n)), orders) == Reply(400, [])
  {
  }

  /** A payment event for an id no single order carries is refused. */
  lemma UnknownOrderRefused(meta: Meta, trusted: string -> bool, orders: seq<Order>, n: Notification)
    requires trusted(ClientIp(meta)) && (n.event == PaymentSucceeded || n.event == PaymentCanceled)
    requires forall o :: o in orders ==> o.paymentId != Some(n.paymentId)
    ensures Handle(meta, trusted, Json(Some(n)), orders) == Reply(400, [])
  {
    MatchingNone(orders, n.paymentId);
  }

  lemma {:induction false} MatchingNone(orders: seq<Order>, pid: string)
    requires forall o :: o in orders ==> o.paymentId != Some(pid)
    ensures Matching(orders, pid) == []
  {
    if orders != [] {
      assert orders[0] in orders;
      MatchingNone(orders[1..], pid);
    }
  }

  /** A canceled payment queues only the deletion of its order. */
  lemma CanceledDispatch(meta: Meta, trusted: string -> bool, orders: seq<Order>, n: Notification, o: Order)
    requires trusted(ClientIp(meta)) && n.event == PaymentCanceled
    requires FindOrder(orders, n.paymentId) == Some(o)
    ensures Handle(meta, trusted, Json(Some(n)), orders) == Reply(200, [DeleteOrder(o.id)])
  {
  }

  /** Any other event, and a notification the factory rejects, are refused;
      a body that is not JSON escapes as a server error. */
  lemma OtherRefused(meta: Meta, trusted: string -> bool, orders: seq<Order>, n: Notification)
    requires trusted(ClientIp(meta))
    ensures n.event.OtherEvent? ==> Handle(meta, trusted, Json(Some(n)), orders) == Reply(400, [])
    ensures Handle(meta, trusted, Json(None), orders) == Reply(400, [])
    ensures Handle(meta, trusted, InvalidJson, orders) == Reply(500, [])
  {
  }

  /** The whole table at once: the endpoint answers 200 exactly for a
      trusted sender, a readable payment event of a single known order, and,
      for a confirmed payment, the matching amount; it queues tasks exactly
      when it answers 200. */
  lemma AcceptedIff(meta: Meta, trusted: string -> bool, body: Body, orders: seq<Order>)
    ensures var r := Handle(meta, trusted, body, orders);
      r.status == 200 <==>
        trusted(ClientIp(meta)) && body.Json? && body.notification.Some? &&
        (var n := body.notification.value;
         (n.event == PaymentSucceeded || n.event == PaymentCanceled) &&
         |Matching(orders, n.paymentId)| == 1 &&
         (n.event == PaymentSucceeded ==> n.amount == Some(Matching(orders, n.paymentId)[0].amount)))
    ensures var r := Handle(meta, trusted, body, orders);
      r.tasks != [] <==> r.status == 200
  {
  }
}
