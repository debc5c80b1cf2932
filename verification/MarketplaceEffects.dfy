/**
 What each operation on orders and listings does, and to whom it is open, in
 terms of the rows before and after: a reading of Marketplace that uses none of
 its decision functions.
 */
module MarketplaceEffects {
  import opened Common
  import opened Marketplace

  // ----- Who may do what to an order -----

  /** Who may ask for which update: the seller accepts and hands over, the buyer
      confirms, either backs out before the end, and the seller alone moves the
      meetup, of an accepted order. */
  predicate MayAsk(order: Order, listing: Option<Listing>, user: UserId, status: Option<OrderStatus>, meetup: bool) {
    && user in {order.buyer, order.seller}
    && match status
       case None => meetup ==> user == order.seller && order.status == Accepted
       case Some(Pending) => false
       case Some(Accepted) =>
         order.status == Pending && user == order.seller && listing.Some? && listing.value.status == Active
       case Some(HandedOver) => order.status == Accepted && user == order.seller
       case Some(Completed) => order.status == HandedOver && user == order.buyer
       case Some(Cancelled) => order.status !in {Completed, Cancelled}
  }

  lemma UpdateOpenTo(order: Order, listing: Option<Listing>, user: UserId, status: Option<OrderStatus>, meetup: bool)
    ensures DecideUpdate(order, listing, user, status, meetup).Write? <==> MayAsk(order, listing, user, status, meetup)
  {
  }

  /** The operation is an update the view saves. */
  predicate Saves(m: Market, op: Operation) {
    && op.UpdateOrder? && op.order in m.orders && op.user !in m.deleted
    && MayAsk(m.orders[op.order], ListingOf(m, m.orders[op.order]), op.user, op.status, op.meetup)
  }

  /** Nothing but one order and, if it has one, its listing differs. */
  ghost predicate OnlyOrderAndListing(before: Market, after: Market, o: OrderId)
    requires o in before.orders
  {
    && after.deleted == before.deleted
    && after.orders.Keys == before.orders.Keys && after.listings.Keys == before.listings.Keys
    && (forall p <- before.orders :: p != o ==> after.orders[p] == before.orders[p])
    && (forall l <- before.listings :: before.orders[o].listing != Some(l) ==> after.listings[l] == before.listings[l])
  }

  /** The status of a listing once an order on it was saved: sold when the order
      ends completed, reserved when it ends accepted, on sale again when an order
      that held its reservation is cancelled, and otherwise as it was. */
  predicate ListingFollows(was: OrderStatus, now: OrderStatus, before: Listing, after: Listing) {
    && after.seller == before.seller && after.locked == before.locked && after.details == before.details
    && match now
       case Completed => after.status == Sold
       case Accepted => after.status == Reserved
       case Cancelled =>
         after.status == if was in {Accepted, HandedOver} && before.status == Reserved then Active else before.status
       case _ => after.status == before.status
  }

  /** Every saved update, whole. */
  lemma UpdateEffect(m: Market, op: Operation)
    requires Saves(m, op)
    ensures var m', o := Next(m, op), op.order;
            && o in m'.orders
            && m'.orders[o] == m.orders[o].(status := op.status.GetOr(m.orders[o].status))
            && OnlyOrderAndListing(m, m', o)
            && var l := m.orders[o].listing;
               l.Some? && l.value in m.listings ==>
                 ListingFollows(m.orders[o].status, m'.orders[o].status, m.listings[l.value], m'.listings[l.value])
  {
    UpdateOpenTo(m.orders[op.order], ListingOf(m, m.orders[op.order]), op.user, op.status, op.meetup);
  }

  lemma UpdateRefused(m: Market, op: Operation)
    requires op.UpdateOrder? && !Saves(m, op)
    ensures Next(m, op) == m
  {
    if op.order in m.orders {
      UpdateOpenTo(m.orders[op.order], ListingOf(m, m.orders[op.order]), op.user, op.status, op.meetup);
    }
  }

  /** A platform cancel ends any order that is not over, and as a cancel does. */
  lemma PlatformCancelEffect(m: Market, o: OrderId)
    requires o in m.orders
    ensures var m', open := Next(m, PlatformCancel(o)), m.orders[o].status !in {Completed, Cancelled};
            && o in m'.orders && OnlyOrderAndListing(m, m', o)
            && m'.orders[o] == (if open then m.orders[o].(status := Cancelled) else m.orders[o])
            && (!open ==> m' == m)
            && var l := m.orders[o].listing;
               open && l.Some? && l.value in m.listings ==>
                 ListingFollows(m.orders[o].status, Cancelled, m.listings[l.value], m'.listings[l.value])
  {
  }

  // ----- Listings -----

  /** What a seller may write, and that it is written whole. Reserved is the
      order flow's: a seller neither sets nor leaves it. */
  lemma EditEffect(m: Market, l: ListingId, user: UserId, status: Option<ListingStatus>, details: int)
    requires l in m.listings
    ensures var m', row := Next(m, SellerEdit(l, user, status, details)), m.listings[l];
            var open := user == row.seller && user !in m.deleted && !row.locked
                        && (status.Some? && status.value != row.status ==> Reserved !in {status.value, row.status});
            m' == if open then m.(listings := m.listings[l := Listing(row.seller, status.GetOr(row.status), false, details)])
                  else m
  {
  }

  /** A takedown takes its listing off sale for its seller too, and no other. */
  lemma TakedownEffect(m: Market, l: ListingId)
    requires l in m.listings
    ensures var m', row := Next(m, Takedown(l)), m.listings[l];
            m' == m.(listings := m.listings[l := Listing(row.seller, Removed, true, row.details)])
  {
  }

  /** A deleted account has nothing on sale, and everybody else has what they had. */
  lemma DeleteAccountEffect(m: Market, user: UserId)
    ensures var m' := Next(m, DeleteAccount(user));
            && m'.orders == m.orders && m'.deleted == m.deleted + {user} && m'.listings.Keys == m.listings.Keys
            && (forall l <- m.listings :: m.listings[l].seller != user ==> m'.listings[l] == m.listings[l])
            && (forall l <- m.listings :: m.listings[l].seller == user ==>
                  m'.listings[l] == Listing(user, Removed, m.listings[l].locked, m.listings[l].details))
  {
  }

  /** A new listing is on sale and a new order waits for its listing's seller. */
  lemma CreationEffect(m: Market, l: ListingId, o: OrderId, user: UserId, details: int)
    requires user !in m.deleted
    ensures l !in m.listings ==>
              Next(m, AddListing(l, user, details)) == m.(listings := m.listings[l := Listing(user, Active, false, details)])
    ensures o !in m.orders && l in m.listings && m.listings[l].status == Active && user != m.listings[l].seller ==>
              Next(m, CreateOrder(o, user, l)) ==
                m.(orders := m.orders[o := Order(user, m.listings[l].seller, Some(l), Pending)])
    ensures l !in m.listings || m.listings[l].status != Active || user == m.listings[l].seller ==>
              Next(m, CreateOrder(o, user, l)) == m
  {
  }

  /** Whose listing may go, and what becomes of its orders: the seller's only
      unlocked and with no order open, the platform's always, open orders
      cancelled; orders stay, without the listing. */
  lemma DeletionEffect(m: Market, l: ListingId, user: UserId)
    requires l in m.listings
    ensures var open := exists o <- m.orders :: m.orders[o].listing == Some(l) && m.orders[o].status !in {Completed, Cancelled};
            var mine := Next(m, SellerDelete(l, user));
            if user == m.listings[l].seller && user !in m.deleted && !m.listings[l].locked && !open
            then Gone(m, mine, l) && forall o <- m.orders :: mine.orders[o].status == m.orders[o].status
            else mine == m
    ensures var ours := Next(m, PlatformDelete(l));
            && Gone(m, ours, l)
            && forall o <- m.orders :: ours.orders[o].status ==
                 if m.orders[o].listing == Some(l) && m.orders[o].status != Completed then Cancelled else m.orders[o].status
  {
    assert HasOpenOrder(m, l) <==>
      exists o <- m.orders :: m.orders[o].listing == Some(l) && m.orders[o].status !in {Completed, Cancelled};
  }

  ghost predicate Gone(before: Market, after: Market, l: ListingId) {
    && after.listings == before.listings - {l} && after.deleted == before.deleted
    && after.orders.Keys == before.orders.Keys
    && forall o <- before.orders ::
         && after.orders[o].buyer == before.orders[o].buyer && after.orders[o].seller == before.orders[o].seller
         && after.orders[o].listing == if before.orders[o].listing == Some(l) then None else before.orders[o].listing
  }

  // ----- Over runs -----

  /** The only way into each status, and whose move it is. */
  function Before(status: OrderStatus): OrderStatus
    requires status in {Accepted, HandedOver, Completed}
  {
    if status == Accepted then Pending else if status == HandedOver then Accepted else HandedOver
  }

  predicate Moves(m: Market, op: Operation, o: OrderId, status: OrderStatus)
    requires status in {Accepted, HandedOver, Completed}
  {
    && o in m.orders && m.orders[o].status == Before(status)
    && op.UpdateOrder? && op.order == o && op.status == Some(status)
    && op.user == (if status == Completed then m.orders[o].buyer else m.orders[o].seller) && op.user !in m.deleted
  }

  lemma StepEnters(m: Market, op: Operation, o: OrderId, status: OrderStatus)
    requires status in {Accepted, HandedOver, Completed}
    requires o in m.orders ==> m.orders[o].status != status
    requires o in Next(m, op).orders && Next(m, op).orders[o].status == status
    ensures Moves(m, op, o, status)
  {
    if op.UpdateOrder? {
      if Saves(m, op) { UpdateEffect(m, op); } else { UpdateRefused(m, op); }
    }
  }

  /** However a run got there: an order that is accepted, handed over or
      completed was brought there by that one person's move, from the status
      before it. */
  lemma {:induction false} RunEnters(m: Market, ops: seq<Operation>, o: OrderId, status: OrderStatus)
    requires status in {Accepted, HandedOver, Completed}
    requires o in m.orders ==> m.orders[o].status != status
    requires o in Run(m, ops).orders && Run(m, ops).orders[o].status == status
    ensures exists i :: 0 <= i < |ops| && Moves(Run(m, ops[..i]), ops[i], o, status)
    decreases |ops|
  {
    if ops != [] {
      var n := Next(m, ops[0]);
      if o in n.orders && n.orders[o].status == status {
        StepEnters(m, ops[0], o, status);
        assert Run(m, ops[..0]) == m;
      } else {
        RunEnters(n, ops[1..], o, status);
        var i :| 0 <= i < |ops| - 1 && Moves(Run(n, ops[1..][..i]), ops[1..][i], o, status);
        assert ops[..i + 1][0] == ops[0] && ops[..i + 1][1..] == ops[1..][..i];
        assert Moves(Run(m, ops[..i + 1]), ops[i + 1], o, status);
      }
    }
  }

  ghost predicate Moved(m: Market, ops: seq<Operation>, i: nat, o: OrderId, status: OrderStatus)
    requires status in {Accepted, HandedOver, Completed}
  {
    i < |ops| && Moves(Run(m, ops[..i]), ops[i], o, status)
  }

  /** The move into the status before, earlier in the run. */
  lemma MovedBefore(m: Market, ops: seq<Operation>, k: nat, o: OrderId, status: OrderStatus) returns (j: nat)
    requires status in {HandedOver, Completed} && o !in m.orders && Moved(m, ops, k, o, status)
    ensures j < k && Moved(m, ops, j, o, Before(status))
  {
    RunEnters(m, ops[..k], o, Before(status));
    j :| 0 <= j < k && Moves(Run(m, ops[..k][..j]), ops[..k][j], o, Before(status));
    assert ops[..k][..j] == ops[..j];
  }

  /** So a completed order was accepted and handed over by its seller and then
      confirmed by its buyer, in that order. */
  lemma CompletedStepByStep(m: Market, ops: seq<Operation>, o: OrderId)
    requires o !in m.orders && o in Run(m, ops).orders && Run(m, ops).orders[o].status == Completed
    ensures exists i: nat, j: nat, k: nat :: i < j < k
              && Moved(m, ops, i, o, Accepted) && Moved(m, ops, j, o, HandedOver) && Moved(m, ops, k, o, Completed)
  {
    RunEnters(m, ops, o, Completed);
    var k :| 0 <= k < |ops| && Moves(Run(m, ops[..k]), ops[k], o, Completed);
    assert Moved(m, ops, k, o, Completed);
    var j := MovedBefore(m, ops, k, o, Completed);
    var i := MovedBefore(m, ops, j, o, HandedOver);
  }

  /** Not on sale, with no order that could put it there. */
  ghost predicate OffSale(m: Market, l: ListingId) {
    l in m.listings && m.listings[l].status != Active && forall o :: !HoldsListing(m, o, l)
  }

  /** The buyer's confirmation leaves the listing sold and held by nobody. */
  lemma CompletionSells(m: Market, op: Operation)
    requires Ok(m) && Saves(m, op) && op.status == Some(Completed) && m.orders[op.order].listing.Some?
    ensures var l := m.orders[op.order].listing.value;
            OffSale(Next(m, op), l) && Next(m, op).listings[l].status == Sold
  {
    var o, l := op.order, m.orders[op.order].listing.value;
    UpdateEffect(m, op);
    assert HoldsListing(m, o, l);
    forall p ensures !HoldsListing(Next(m, op), p, l) {
      assert p != o && HoldsListing(Next(m, op), p, l) ==> HoldsListing(m, p, l);
    }
  }

  /** The seller's own relisting, the one way back on sale. */
  predicate Relists(op: Operation, l: ListingId) {
    op.SellerEdit? && op.listing == l && op.newStatus == Some(Active)
  }

  lemma OffSaleNext(m: Market, op: Operation, l: ListingId)
    requires OffSale(m, l) && !Relists(op, l)
    ensures l in Next(m, op).listings ==> OffSale(Next(m, op), l)
  {
    var m' := Next(m, op);
    if op.UpdateOrder? {
      if Saves(m, op) {
        UpdateEffect(m, op);
        assert !HoldsListing(m, op.order, l);
      } else {
        UpdateRefused(m, op);
      }
    } else if op.PlatformCancel? && op.order in m.orders {
      PlatformCancelEffect(m, op.order);
      assert !HoldsListing(m, op.order, l);
    }
    if l in m'.listings {
      forall o ensures !HoldsListing(m', o, l) {
        assert !HoldsListing(m, o, l);
      }
    }
  }

  /** A listing whose order was completed is not on sale again, over any run,
      until its seller puts it there. */
  lemma {:induction false} SoldStaysOffSale(m: Market, ops: seq<Operation>, l: ListingId)
    requires OffSale(m, l)
    requires forall op <- ops :: !Relists(op, l) && !(op.AddListing? && op.listing == l)
    ensures l in Run(m, ops).listings ==> OffSale(Run(m, ops), l)
    decreases |ops|
  {
    if ops != [] {
      assert ops[0] in ops;
      OffSaleNext(m, ops[0], l);
      if l in Next(m, ops[0]).listings {
        SoldStaysOffSale(Next(m, ops[0]), ops[1..], l);
      } else {
        GoneStaysGone(Next(m, ops[0]), ops[1..], l);
      }
    }
  }

  lemma {:induction false} GoneStaysGone(m: Market, ops: seq<Operation>, l: ListingId)
    requires l !in m.listings && forall op <- ops :: !(op.AddListing? && op.listing == l)
    ensures l !in Run(m, ops).listings
    decreases |ops|
  {
    if ops != [] {
      assert ops[0] in ops;
      GoneStaysGone(Next(m, ops[0]), ops[1..], l);
    }
  }
}
