/** The order handlers (backend/controllers/orderController.js) over the orders
    collection, reading the listings collection for the seller. */
module OrderController {
  import opened Common
  import opened OrderModel
  import ListingController
  import Lists

  const ListingNotFound: string := "Listing not found"
  const OrderNotFound: string := "Order not found"

  class OrderCollection {
    var orders: map<OrderId, Order>
    var nextId: OrderId

    ghost predicate Valid()
      reads this
    {
      forall id :: id in orders ==> orders[id].id == id && id < nextId
    }

    constructor ()
      ensures Valid() && orders == map[]
    {
      orders := map[];
      nextId := 0;
    }

    /** `createOrder`: 404 and nothing created when the referenced listing does
        not exist; otherwise the order of `NewOrder` (buyer = caller, seller = the
        listing's seller) or 400 when it fails validation. */
    method CreateOrder(caller: UserId, body: OrderBody, store: ListingController.ListingCollection, now: int)
      returns (reply: Reply<Order>)
      requires Valid()
      modifies this
      ensures Valid()
      ensures body.listing.None? || body.listing.value !in store.listings ==>
        reply == Err(404, ListingNotFound) && orders == old(orders)
      ensures body.listing.Some? && body.listing.value in store.listings ==>
        match NewOrder(body, caller, store.listings[body.listing.value].seller, old(nextId), now)
        case Some(o) =>
          && reply == Ok(201, o)
          && o.buyer == caller && o.seller == store.listings[o.listing].seller
          && old(nextId) !in old(orders)
          && orders == old(orders)[old(nextId) := o]
        case None =>
          reply == Err(400, ValidationFailed) && orders == old(orders)
    {
      if body.listing.None? || body.listing.value !in store.listings {
        return Err(404, ListingNotFound);
      }
      var listing := store.listings[body.listing.value];
      var created := NewOrder(body, caller, listing.seller, nextId, now);
      match created {
        case Some(o) =>
          orders := orders[nextId := o];
          nextId := nextId + 1;
          reply := Ok(201, o);
        case None =>
          reply := Err(400, ValidationFailed);
      }
    }

    /** `getMyOrders`: exactly the caller's purchases, newest first. */
    method GetMyOrders(caller: UserId) returns (r: seq<Order>)
      ensures forall o :: o in r <==> o in orders.Values && o.buyer == caller
      ensures Lists.NoDuplicates(r)
      ensures forall i, j :: 0 <= i < j < |r| ==> r[i].createdAt >= r[j].createdAt
    {
      r := Lists.SelectNewestFirst(orders, (o: Order) => o.buyer == caller,
                                   (o: Order) => o.createdAt as real);
    }

    /** `getMySales`: exactly the caller's sales, newest first. */
    method GetMySales(caller: UserId) returns (r: seq<Order>)
      ensures forall o :: o in r <==> o in orders.Values && o.seller == caller
      ensures Lists.NoDuplicates(r)
      ensures forall i, j :: 0 <= i < j < |r| ==> r[i].createdAt >= r[j].createdAt
    {
      r := Lists.SelectNewestFirst(orders, (o: Order) => o.seller == caller,
                                   (o: Order) => o.createdAt as real);
    }

    predicate SoldBy(caller: UserId, id: OrderId)
      reads this
    {
      id in orders && orders[id].seller == caller
    }

    /** `updateOrderStatus`: only the order's seller may write, and only the status
        and tracking fields change; otherwise 404 with the collection unchanged.
        The previous status is never consulted. */
    method UpdateOrderStatus(caller: UserId, id: OrderId, status: Option<OrderStatus>,
                             tracking: Option<Tracking>, now: int)
      returns (reply: Reply<Order>)
      requires Valid()
      modifies this
      ensures Valid() && nextId == old(nextId)
      ensures old(SoldBy(caller, id)) ==>
        && reply == Ok(200, StatusUpdated(old(orders[id]), status, tracking, now))
        && orders == old(orders)[id := StatusUpdated(old(orders[id]), status, tracking, now)]
      ensures !old(SoldBy(caller, id)) ==>
        reply == Err(404, OrderNotFound) && orders == old(orders)
    {
      if SoldBy(caller, id) {
        var updated := StatusUpdated(orders[id], status, tracking, now);
        orders := orders[id := updated];
        reply := Ok(200, updated);
      } else {
        reply := Err(404, OrderNotFound);
      }
    }
  }
}
