/**
 The views that change orders and listings, as the source writes them: fields
 read, checked and assigned in place. Each is proved to be one step of
 Marketplace. Row locks are OrderLocks' business; here a call is alone.
 */
module MarketplaceService {
  import opened Common
  import opened Marketplace
  import opened MarketplaceEffects

  /** Cancelling one open order of a listing writes that order and that listing. */
  lemma CancelTouches(m: Market, o: OrderId, l: ListingId)
    requires o in m.orders && m.orders[o].listing == Some(l) && !m.orders[o].Final() && l in m.listings
    ensures var m' := Next(m, Operation.PlatformCancel(o));
            && m'.orders == m.orders[o := m.orders[o].(status := Cancelled)]
            && l in m'.listings && m'.listings - {l} == m.listings - {l} && m'.deleted == m.deleted
  {
  }

  const PLATFORM_CANCEL_REASON_MIN_LENGTH := 3

  class MarketplaceService {
    var listings: map<ListingId, Listing>
    var orders: map<OrderId, Order>
    var deleted: set<UserId>

    constructor ()
      ensures State() == Market(map[], map[], {})
    {
      listings, orders, deleted := map[], map[], {};
    }

    function State(): Market
      reads this
    {
      Market(listings, orders, deleted)
    }

    /** orders/services.py, release_reservation */
    method ReleaseReservation(o: OrderId, oldStatus: OrderStatus)
      requires o in orders
      modifies this`listings
      ensures var l := orders[o].listing;
              var released := Released(ListingOf(old(State()), orders[o]), oldStatus.Accepted? || oldStatus.HandedOver?);
              listings == if l.Some? && l.value in old(listings)
                          then old(listings)[l.value := released.value] else old(listings)
    {
      if orders[o].listing.None? || orders[o].listing.value !in listings {
        return;
      }
      var l := orders[o].listing.value;
      if (oldStatus.Accepted? || oldStatus.HandedOver?) && listings[l].status.Reserved? {
        listings := listings[l := listings[l].(status := Active)];
      }
    }

    /** OrderViewSet.update */
    method UpdateOrder(o: OrderId, user: UserId, status: Option<OrderStatus>, meetup: bool) returns (reply: Reply)
      modifies this`listings, this`orders
      ensures State() == Next(old(State()), Operation.UpdateOrder(o, user, status, meetup))
      ensures reply.Saved? <==> Saves(old(State()), Operation.UpdateOrder(o, user, status, meetup))
    {
      if o in orders {
        UpdateOpenTo(orders[o], ListingOf(State(), orders[o]), user, status, meetup);
      }
      if o !in orders || user in deleted || (user != orders[o].buyer && user != orders[o].seller) {
        return NotFound;
      }
      var order := orders[o];
      if status.Some? {
        var role := TransitionActor(order.status, status.value);
        if role == Some(Seller) && user != order.seller {
          return Forbidden;
        }
        if role == Some(Buyer) && user != order.buyer {
          return Forbidden;
        }
        if status.value !in ValidTransitions(order.status) {
          return Invalid;
        }
      } else if meetup {
        if user != order.seller {
          return Forbidden;
        }
        if order.status != Accepted {
          return Invalid;
        }
      }
      reply := PerformUpdate(o, status.GetOr(order.status));
    }

    /** OrderViewSet.perform_update; `status` is the order's own when the
        update names none. */
    method PerformUpdate(o: OrderId, status: OrderStatus) returns (reply: Reply)
      requires o in orders
      modifies this`listings, this`orders
      ensures var order, listing := old(orders)[o], ListingOf(old(State()), old(orders)[o]);
              if status.Accepted? && !order.status.Accepted? && (listing.None? || !listing.value.status.Active?)
              then reply == Unavailable && State() == old(State())
              else reply == Saved
                   && State() == Applied(old(State()), o, Write(order.(status := status), ListingAfter(order, status, listing)))
    {
      var order := orders[o];
      var listing := ListingOf(State(), order);
      if status == Accepted && order.status != Accepted && (listing.None? || listing.value.status != Active) {
        return Unavailable;
      }
      orders := orders[o := order.(status := status)];
      if status == Cancelled {
        ReleaseReservation(o, order.status);
      } else if listing.Some? && (status == Accepted || status == Completed) {
        var l := order.listing.value;
        listings := listings[l := listings[l].(status := if status == Accepted then Reserved else Sold)];
      }
      return Saved;
    }

    /** platform_cancel_order */
    method PlatformCancel(o: OrderId) returns (cancelled: bool)
      modifies this`listings, this`orders
      ensures State() == Next(old(State()), Operation.PlatformCancel(o))
      ensures cancelled <==> o in old(orders) && !old(orders)[o].Final()
    {
      if o !in orders || orders[o].status == Cancelled || orders[o].status == Completed {
        return false;
      }
      var oldStatus := orders[o].status;
      orders := orders[o := orders[o].(status := Cancelled)];
      ReleaseReservation(o, oldStatus);
      return true;
    }

    /** The open orders of a listing, cancelled one by one. */
    method CancelOpenOrders(l: ListingId)
      requires l in listings
      modifies this`listings, this`orders
      ensures orders == map o | o in old(orders) :: CancelledIfOpen(old(orders)[o], l)
      ensures listings - {l} == old(listings) - {l}
    {
      ghost var before := State();
      var openOrders := set o | o in orders && orders[o].listing == Some(l) && !orders[o].Final();
      var todo := openOrders;
      while todo != {}
        invariant todo <= openOrders
        invariant l in listings && listings - {l} == before.listings - {l} && deleted == before.deleted
        invariant orders.Keys == before.orders.Keys
        invariant forall o <- orders :: orders[o] ==
                    if o in openOrders - todo then before.orders[o].(status := Cancelled) else before.orders[o]
      {
        var o :| o in todo;
        assert o in openOrders && orders[o] == before.orders[o];
        CancelTouches(State(), o, l);
        var _ := PlatformCancel(o);
        todo := todo - {o};
      }
    }

    /** AdminListingDetailView.delete; `reason` is the written reason, stripped. */
    method DeleteAsPlatform(l: ListingId, reason: string) returns (reply: Reply)
      modifies this`listings, this`orders
      ensures HasOpenOrder(old(State()), l) && |reason| < PLATFORM_CANCEL_REASON_MIN_LENGTH ==>
                State() == old(State()) && !reply.Saved?
      ensures !(HasOpenOrder(old(State()), l) && |reason| < PLATFORM_CANCEL_REASON_MIN_LENGTH) ==>
                State() == Next(old(State()), PlatformDelete(l)) && (reply.Saved? <==> l in old(listings))
    {
      if l !in listings {
        return NotFound;
      }
      if (exists o <- orders :: orders[o].listing == Some(l) && !orders[o].Final())
         && |reason| < PLATFORM_CANCEL_REASON_MIN_LENGTH {
        return Invalid;
      }
      CancelOpenOrders(l);
      listings := listings - {l};
      orders := map o | o in orders :: Detached(orders[o], l);
      return Saved;
    }

    /** OrderSerializer.validate and OrderViewSet.perform_create; `o` is the new
        order's id; `sameRegion` and `chatted` are what the serializer finds
        about the request's region and the parties' conversation. */
    method CreateOrder(o: OrderId, buyer: UserId, l: ListingId, sameRegion: bool, chatted: bool) returns (reply: Reply)
      requires o !in orders
      modifies this`orders
      ensures State() == if sameRegion && chatted then Next(old(State()), Operation.CreateOrder(o, buyer, l))
                         else old(State())
      ensures reply.Saved? <==> o in orders
    {
      if l !in listings || buyer in deleted {
        return NotFound;
      }
      if listings[l].status != Active {
        return Unavailable;
      }
      if !sameRegion || buyer == listings[l].seller || !chatted {
        return Invalid;
      }
      orders := orders[o := Order(buyer, listings[l].seller, Some(l), Pending)];
      return Saved;
    }

    /** ListingDetailView.delete */
    method DeleteAsSeller(l: ListingId, user: UserId) returns (reply: Reply)
      modifies this`listings, this`orders
      ensures State() == Next(old(State()), SellerDelete(l, user))
      ensures reply.Saved? <==> l in old(listings) && l !in listings
    {
      if l !in listings || user in deleted || listings[l].seller != user {
        return NotFound;
      }
      if listings[l].locked {
        return Forbidden;
      }
      if exists o <- orders :: orders[o].listing == Some(l) && !orders[o].Final() {
        return Unavailable;
      }
      listings := listings - {l};
      orders := map o | o in orders :: Detached(orders[o], l);
      return Saved;
    }

    /** ReportActionView.perform_update, for a report acted upon. */
    method TakeDown(l: ListingId)
      modifies this`listings
      ensures State() == Next(old(State()), Takedown(l))
    {
      if l in listings {
        listings := listings[l := listings[l].(status := Removed, locked := true)];
      }
    }

    /** User.delete: every listing not yet removed comes off sale. */
    method DeleteAccount(user: UserId)
      modifies this
      ensures State() == Next(old(State()), Operation.DeleteAccount(user))
    {
      var todo := set l | l in listings && listings[l].seller == user && listings[l].status != Removed;
      while todo != {}
        invariant todo <= listings.Keys == old(listings).Keys
        invariant forall l <- todo :: listings[l] == old(listings)[l]
        invariant forall l <- listings :: l !in todo ==>
                    listings[l] == if old(listings)[l].seller == user
                                   then old(listings)[l].(status := Removed) else old(listings)[l]
        invariant orders == old(orders) && deleted == old(deleted)
      {
        var l :| l in todo;
        listings := listings[l := listings[l].(status := Removed)];
        todo := todo - {l};
      }
      deleted := deleted + {user};
    }

    /** ListingDetailView._patch; `bookRefused` says that the request also edits
        a manual book and the checks on that refuse it. */
    method EditListing(l: ListingId, user: UserId, newStatus: Option<ListingStatus>, details: int, bookRefused: bool)
      returns (reply: Reply)
      modifies this`listings
      ensures State() == if bookRefused then old(State()) else Next(old(State()), SellerEdit(l, user, newStatus, details))
      ensures reply.Saved? <==> !bookRefused && l in old(listings) && user !in deleted
                                && DecideEdit(old(listings)[l], user, newStatus, details).Some?
    {
      if l !in listings || user in deleted || listings[l].seller != user {
        return NotFound;
      }
      if listings[l].locked {
        return Forbidden;
      }
      if bookRefused {
        return Invalid;
      }
      var listing := listings[l];
      if newStatus.Some? {
        // ListingSerializer.validate_status
        if newStatus.value != listing.status {
          if listing.status == Reserved || newStatus.value !in {Active, Sold, Removed} {
            return Invalid;
          }
        }
        listing := listing.(status := newStatus.value);
      }
      listings := listings[l := listing.(details := details)];
      return Saved;
    }
  }
}
