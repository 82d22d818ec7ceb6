/** The order schema (backend/models/Order.js): the three references, the
    quantity minimum, the payment and order enums with their defaults, and the
    escrow flag. */
module OrderModel {
  import opened Common

  datatype PaymentMethod = Upi | Card | Netbanking | Wallet | Cod

  function ParsePaymentMethod(s: string): (r: Option<PaymentMethod>)
    ensures r == Some(Upi) <==> s == "upi"
    ensures r == Some(Card) <==> s == "card"
    ensures r == Some(Netbanking) <==> s == "netbanking"
    ensures r == Some(Wallet) <==> s == "wallet"
    ensures r == Some(Cod) <==> s == "cod"
  {
    if s == "upi" then Some(Upi)
    else if s == "card" then Some(Card)
    else if s == "netbanking" then Some(Netbanking)
    else if s == "wallet" then Some(Wallet)
    else if s == "cod" then Some(Cod)
    else None
  }

  datatype PaymentStatus = PaymentPending | Paid | PaymentFailed | Refunded

  function ParsePaymentStatus(s: string): (r: Option<PaymentStatus>)
    ensures r == Some(PaymentPending) <==> s == "pending"
    ensures r == Some(Paid) <==> s == "paid"
    ensures r == Some(PaymentFailed) <==> s == "failed"
    ensures r == Some(Refunded) <==> s == "refunded"
  {
    if s == "pending" then Some(PaymentPending)
    else if s == "paid" then Some(Paid)
    else if s == "failed" then Some(PaymentFailed)
    else if s == "refunded" then Some(Refunded)
    else None
  }

  datatype OrderStatus = Placed | Confirmed | Shipped | Delivered | Cancelled | Disputed

  function ParseOrderStatus(s: string): (r: Option<OrderStatus>)
    ensures r == Some(Placed) <==> s == "placed"
    ensures r == Some(Confirmed) <==> s == "confirmed"
    ensures r == Some(Shipped) <==> s == "shipped"
    ensures r == Some(Delivered) <==> s == "delivered"
    ensures r == Some(Cancelled) <==> s == "cancelled"
    ensures r == Some(Disputed) <==> s == "disputed"
  {
    if s == "placed" then Some(Placed)
    else if s == "confirmed" then Some(Confirmed)
    else if s == "shipped" then Some(Shipped)
    else if s == "delivered" then Some(Delivered)
    else if s == "cancelled" then Some(Cancelled)
    else if s == "disputed" then Some(Disputed)
    else None
  }

  datatype Address = Address(
    name: Option<string>, phone: Option<string>, address: Option<string>,
    city: Option<string>, state: Option<string>, pincode: Option<string>)

  datatype Tracking = Tracking(courier: Option<string>, trackingNumber: Option<string>, estimatedDelivery: Option<int>)

  datatype Order = Order(
    id: OrderId,
    buyer: UserId,
    seller: UserId,
    listing: ListingId,
    quantity: int,
    totalAmount: real,
    paymentMethod: PaymentMethod,
    paymentStatus: PaymentStatus,
    orderStatus: OrderStatus,
    deliveryAddress: Option<Address>,
    trackingInfo: Option<Tracking>,
    escrowReleased: bool,
    escrowReleaseDate: Option<int>,
    notes: Option<string>,
    createdAt: int,
    updatedAt: int)

  /** What create-time validation guarantees beyond the field types. */
  predicate ValidOrder(o: Order) {
    o.quantity >= 1
  }

  /** A create request body; every key is optional. */
  datatype OrderBody = OrderBody(
    listing: Option<ListingId>,
    buyer: Option<UserId>,
    seller: Option<UserId>,
    quantity: Option<int>,
    totalAmount: Option<real>,
    paymentMethod: Option<string>,
    paymentStatus: Option<string>,
    orderStatus: Option<string>,
    deliveryAddress: Option<Address>,
    trackingInfo: Option<Tracking>,
    escrowReleased: Option<bool>,
    escrowReleaseDate: Option<int>,
    notes: Option<string>)

  /** Schema validation of a create body (buyer and seller are always supplied by
      the handler, so only the listing reference can be missing). */
  predicate BodyValid(body: OrderBody) {
    && body.listing.Some?
    && (body.quantity.None? || body.quantity.value >= 1)
    && body.totalAmount.Some?
    && body.paymentMethod.Some? && ParsePaymentMethod(body.paymentMethod.value).Some?
    && (body.paymentStatus.None? || ParsePaymentStatus(body.paymentStatus.value).Some?)
    && (body.orderStatus.None? || ParseOrderStatus(body.orderStatus.value).Some?)
  }

  /** `Order.create({ ...req.body, buyer: req.user._id, seller: listing.seller })`:
      the buyer is the caller and the seller is the listing's seller, whatever the
      body says; absent fields take the schema defaults. */
  function NewOrder(body: OrderBody, caller: UserId, listingSeller: UserId, id: OrderId, now: int)
    : (r: Option<Order>)
    ensures r.Some? <==> BodyValid(body)
    ensures r.Some? ==> ValidOrder(r.value)
    ensures r.Some? ==> r.value.id == id && r.value.buyer == caller && r.value.seller == listingSeller
    ensures r.Some? ==> r.value.listing == body.listing.value
    ensures r.Some? ==> r.value.createdAt == now && r.value.updatedAt == now
    ensures r.Some? ==> r.value.totalAmount == body.totalAmount.value
    ensures r.Some? ==> ParsePaymentMethod(body.paymentMethod.value) == Some(r.value.paymentMethod)
    ensures r.Some? ==> r.value.deliveryAddress == body.deliveryAddress && r.value.trackingInfo == body.trackingInfo
    ensures r.Some? ==> r.value.escrowReleaseDate == body.escrowReleaseDate && r.value.notes == body.notes
    ensures r.Some? && body.quantity.Some? ==> r.value.quantity == body.quantity.value
    ensures r.Some? && body.quantity.None? ==> r.value.quantity == 1
    ensures r.Some? && body.paymentStatus.Some? ==> ParsePaymentStatus(body.paymentStatus.value) == Some(r.value.paymentStatus)
    ensures r.Some? && body.paymentStatus.None? ==> r.value.paymentStatus == PaymentPending
    ensures r.Some? && body.orderStatus.Some? ==> ParseOrderStatus(body.orderStatus.value) == Some(r.value.orderStatus)
    ensures r.Some? && body.orderStatus.None? ==> r.value.orderStatus == Placed
    ensures r.Some? && body.escrowReleased.Some? ==> r.value.escrowReleased == body.escrowReleased.value
    ensures r.Some? && body.escrowReleased.None? ==> !r.value.escrowReleased
  {
    if !BodyValid(body) then None
    else Some(Order(
      id := id,
      buyer := caller,
      seller := listingSeller,
      listing := body.listing.value,
      quantity := body.quantity.GetOr(1),
      totalAmount := body.totalAmount.value,
      paymentMethod := ParsePaymentMethod(body.paymentMethod.value).value,
      paymentStatus := if body.paymentStatus.None? then PaymentPending
                       else ParsePaymentStatus(body.paymentStatus.value).value,
      orderStatus := if body.orderStatus.None? then Placed else ParseOrderStatus(body.orderStatus.value).value,
      deliveryAddress := body.deliveryAddress,
      trackingInfo := body.trackingInfo,
      escrowReleased := body.escrowReleased.GetOr(false),
      escrowReleaseDate := body.escrowReleaseDate,
      notes := body.notes,
      createdAt := now,
      updatedAt := now))
  }

  /** The buyer and seller named in the body are ignored. */
  lemma PartiesInBodyIgnored(body: OrderBody, b: UserId, s: UserId, caller: UserId, listingSeller: UserId,
                             id: OrderId, now: int)
    ensures NewOrder(body.(buyer := Some(b), seller := Some(s)), caller, listingSeller, id, now) ==
            NewOrder(body, caller, listingSeller, id, now)
  {
  }

  /** The payment and escrow state come from the body as well: a buyer can create
      an order that is already paid, with its escrow released. */
  lemma PaymentStateFromBody(body: OrderBody, caller: UserId, listingSeller: UserId, id: OrderId, now: int)
    requires BodyValid(body)
    requires body.paymentStatus == Some("paid") && body.escrowReleased == Some(true)
    ensures NewOrder(body, caller, listingSeller, id, now).Some?
    ensures NewOrder(body, caller, listingSeller, id, now).value.paymentStatus == Paid
    ensures NewOrder(body, caller, listingSeller, id, now).value.escrowReleased
  {
  }

  /** `{ orderStatus: req.body.status, trackingInfo: req.body.trackingInfo }`: an
      absent key is dropped from the update, and `updatedAt` is refreshed. */
  function StatusUpdated(o: Order, status: Option<OrderStatus>, tracking: Option<Tracking>, now: int)
    : (r: Order)
    ensures r.orderStatus == status.GetOr(o.orderStatus)
    ensures r.trackingInfo == (if tracking.Some? then tracking else o.trackingInfo)
    ensures r.id == o.id && r.buyer == o.buyer && r.seller == o.seller && r.listing == o.listing
    ensures r.quantity == o.quantity && r.totalAmount == o.totalAmount
    ensures r.paymentMethod == o.paymentMethod && r.paymentStatus == o.paymentStatus
    ensures r.escrowReleased == o.escrowReleased && r.escrowReleaseDate == o.escrowReleaseDate
    ensures r.deliveryAddress == o.deliveryAddress && r.notes == o.notes
    ensures r.createdAt == o.createdAt && r.updatedAt == now
  {
    o.(orderStatus := status.GetOr(o.orderStatus),
       trackingInfo := if tracking.Some? then tracking else o.trackingInfo,
       updatedAt := now)
  }

  /** No transition is guarded: any order status can follow any other, including
      leaving `delivered` or `cancelled`. */
  lemma AnyOrderStatusReachable(o: Order, target: OrderStatus, now: int)
    ensures exists s: Option<OrderStatus> :: StatusUpdated(o, s, None, now).orderStatus == target
  {
    assert StatusUpdated(o, Some(target), None, now).orderStatus == target;
  }

  /** The payment status is independent of the order status: an order can be
      marked delivered while its payment is still pending. */
  lemma DeliveredWhileUnpaid(o: Order, now: int)
    requires o.paymentStatus == PaymentPending
    ensures StatusUpdated(o, Some(Delivered), None, now).orderStatus == Delivered
    ensures StatusUpdated(o, Some(Delivered), None, now).paymentStatus == PaymentPending
  {
  }
}
