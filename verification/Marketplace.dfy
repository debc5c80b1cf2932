/**
 Orders and the listings they compete for: the status machine of
 orders/views/orders.py and orders/services.py, the listing changes that touch
 it, and what every run of them keeps.

 Each operation is one atomic step here; OrderLocks shows that the ones the
 source runs under row locks really are.
 */
module Marketplace {
  import opened Common

  type UserId = nat
  type ListingId = nat
  type OrderId = nat

  datatype ListingStatus = Active | Reserved | Sold | Removed

  /** `details` stands for every field a seller edits besides the status. */
  datatype Listing = Listing(seller: UserId, status: ListingStatus, locked: bool, details: int)

  datatype OrderStatus = Pending | Accepted | HandedOver | Completed | Cancelled

  datatype Order = Order(buyer: UserId, seller: UserId, listing: Option<ListingId>, status: OrderStatus)
  {
    /** The order holds its listing's reservation. */
    predicate Holds() {
      status.Accepted? || status.HandedOver?
    }

    predicate Final() {
      status.Completed? || status.Cancelled?
    }
  }

  datatype Market = Market(listings: map<ListingId, Listing>, orders: map<OrderId, Order>, deleted: set<UserId>)

  datatype Reply = Saved | NotFound | Forbidden | Invalid | Unavailable

  /** The rows one locked operation writes, given the rows it read. */
  datatype Decision = Refuse(reply: Reply) | Write(order: Order, listing: Option<Listing>)

  // ----- Checks over the transition table (orders/serializers.py) -----

  datatype Role = Seller | Buyer | Either

  function TransitionActor(current: OrderStatus, wanted: OrderStatus): Option<Role> {
    match (current, wanted)
    case (Pending, Accepted) => Some(Seller)
    case (Pending, Cancelled) => Some(Either)
    case (Accepted, HandedOver) => Some(Seller)
    case (Accepted, Cancelled) => Some(Either)
    case (HandedOver, Completed) => Some(Buyer)
    case (HandedOver, Cancelled) => Some(Either)
    case _ => None
  }

  function ValidTransitions(status: OrderStatus): set<OrderStatus> {
    match status
    case Pending => {Accepted, Cancelled}
    case Accepted => {HandedOver, Cancelled}
    case HandedOver => {Completed, Cancelled}
    case _ => {}
  }

  predicate MayMove(order: Order, status: OrderStatus, user: UserId) {
    match TransitionActor(order.status, status)
    case None => true
    case Some(Seller) => user == order.seller
    case Some(Buyer) => user == order.buyer
    case Some(Either) => user == order.buyer || user == order.seller
  }

  /** The two tables agree: a transition has an actor exactly when it is valid. */
  lemma TransitionTablesAgree(current: OrderStatus, wanted: OrderStatus)
    ensures TransitionActor(current, wanted).Some? <==> wanted in ValidTransitions(current)
  {
  }

  // ----- What one operation decides from the rows it holds -----

  /** release_reservation */
  function Released(listing: Option<Listing>, held: bool): Option<Listing> {
    if listing.Some? && held && listing.value.status.Reserved?
    then Some(listing.value.(status := Active))
    else listing
  }

  /** What saving an order leaves of its listing: perform_update looks at the
      status the order ends with, whether or not this update set it. */
  function ListingAfter(order: Order, status: OrderStatus, listing: Option<Listing>): Option<Listing> {
    if status.Cancelled? then Released(listing, order.Holds())
    else if listing.None? then None
    else if status.Accepted? then Some(listing.value.(status := Reserved))
    else if status.Completed? then Some(listing.value.(status := Sold))
    else listing
  }

  /** OrderViewSet._locked_update and perform_update. An update may name no
      status; `meetup` says whether it names a time or a place. */
  function DecideUpdate(order: Order, listing: Option<Listing>, user: UserId, status: Option<OrderStatus>, meetup: bool)
    : Decision
  {
    if user != order.buyer && user != order.seller then Refuse(NotFound)
    else if status.Some? then
      if !MayMove(order, status.value, user) then Refuse(Forbidden)
      else if status.value !in ValidTransitions(order.status) then Refuse(Invalid)
      else if status.value.Accepted? && (listing.None? || !listing.value.status.Active?) then Refuse(Unavailable)
      else Write(order.(status := status.value), ListingAfter(order, status.value, listing))
    else if meetup && user != order.seller then Refuse(Forbidden)
    else if meetup && !order.status.Accepted? then Refuse(Invalid)
    else Write(order, ListingAfter(order, order.status, listing))
  }

  /** platform_cancel_order */
  function DecideCancel(order: Order, listing: Option<Listing>): Decision {
    if order.Final() then Refuse(Invalid)
    else Write(order.(status := Cancelled), Released(listing, order.Holds()))
  }

  /** ListingSerializer.validate_status on an existing listing. */
  predicate SellerMaySet(current: ListingStatus, status: ListingStatus) {
    status == current || (!current.Reserved? && !status.Reserved?)
  }

  /** ListingDetailView._patch: the whole row is written back. */
  function DecideEdit(listing: Listing, user: UserId, status: Option<ListingStatus>, details: int): Option<Listing> {
    if user != listing.seller || listing.locked then None
    else if status.Some? && !SellerMaySet(listing.status, status.value) then None
    else Some(listing.(status := status.GetOr(listing.status), details := details))
  }

  // ----- The operations -----

  datatype Operation =
    | AddListing(listing: ListingId, seller: UserId, details: int)
    | CreateOrder(order: OrderId, buyer: UserId, listing: ListingId)
    | UpdateOrder(order: OrderId, user: UserId, status: Option<OrderStatus>, meetup: bool)
    | PlatformCancel(order: OrderId)
    | SellerEdit(listing: ListingId, user: UserId, newStatus: Option<ListingStatus>, details: int)
    | SellerDelete(listing: ListingId, user: UserId)
    | PlatformDelete(listing: ListingId)
    | Takedown(listing: ListingId)
    | DeleteAccount(user: UserId)

  function ListingOf(m: Market, order: Order): Option<Listing> {
    if order.listing.Some? && order.listing.value in m.listings then Some(m.listings[order.listing.value]) else None
  }

  /** The decision's rows, written back. */
  function Applied(m: Market, o: OrderId, d: Decision): Market
    requires o in m.orders
  {
    if d.Refuse? then m
    else if d.listing.None? || m.orders[o].listing.None? then m.(orders := m.orders[o := d.order])
    else m.(orders := m.orders[o := d.order], listings := m.listings[m.orders[o].listing.value := d.listing.value])
  }

  /** SET_NULL on every order of a deleted listing. */
  function Detached(order: Order, l: ListingId): Order {
    if order.listing == Some(l) then order.(listing := None) else order
  }

  function ListingDeleted(m: Market, l: ListingId): Market {
    m.(listings := m.listings - {l}, orders := map o | o in m.orders :: Detached(m.orders[o], l))
  }

  function CancelledIfOpen(order: Order, l: ListingId): Order {
    if order.listing == Some(l) && !order.Final() then order.(status := Cancelled) else order
  }

  predicate HasOpenOrder(m: Market, l: ListingId) {
    exists o <- m.orders :: m.orders[o].listing == Some(l) && !m.orders[o].Final()
  }

  function Next(m: Market, op: Operation): Market {
    match op
    case AddListing(l, seller, details) =>
      if l in m.listings || seller in m.deleted then m
      else m.(listings := m.listings[l := Listing(seller, Active, false, details)])
    case CreateOrder(o, buyer, l) =>
      if o in m.orders || l !in m.listings || buyer in m.deleted || !m.listings[l].status.Active?
         || buyer == m.listings[l].seller then m
      else m.(orders := m.orders[o := Order(buyer, m.listings[l].seller, Some(l), Pending)])
    case UpdateOrder(o, user, status, meetup) =>
      if o !in m.orders || user in m.deleted then m
      else Applied(m, o, DecideUpdate(m.orders[o], ListingOf(m, m.orders[o]), user, status, meetup))
    case PlatformCancel(o) =>
      if o !in m.orders then m
      else Applied(m, o, DecideCancel(m.orders[o], ListingOf(m, m.orders[o])))
    case SellerEdit(l, user, status, details) =>
      if l !in m.listings || user in m.deleted then m
      else
        var row := DecideEdit(m.listings[l], user, status, details);
        if row.None? then m else m.(listings := m.listings[l := row.value])
    case SellerDelete(l, user) =>
      if l !in m.listings || user in m.deleted || user != m.listings[l].seller || m.listings[l].locked
         || HasOpenOrder(m, l) then m
      else ListingDeleted(m, l)
    case PlatformDelete(l) =>
      if l !in m.listings then m
      else ListingDeleted(m.(orders := map o | o in m.orders :: CancelledIfOpen(m.orders[o], l)), l)
    case Takedown(l) =>
      if l !in m.listings then m
      else m.(listings := m.listings[l := m.listings[l].(status := Removed, locked := true)])
    case DeleteAccount(user) =>
      m.(listings := map l | l in m.listings ::
             if m.listings[l].seller == user then m.listings[l].(status := Removed) else m.listings[l],
         deleted := m.deleted + {user})
  }

  function Run(m: Market, ops: seq<Operation>): Market
    decreases |ops|
  {
    if ops == [] then m else Run(Next(m, ops[0]), ops[1..])
  }

  // ----- What every run keeps -----

  predicate HoldsListing(m: Market, o: OrderId, l: ListingId) {
    o in m.orders && m.orders[o].listing == Some(l) && m.orders[o].Holds()
  }

  /** The four promises of the order flow. */
  ghost predicate Sound(m: Market) {
    && (forall o, p, l :: HoldsListing(m, o, l) && HoldsListing(m, p, l) ==> o == p)
    && (forall l <- m.listings :: m.listings[l].status.Reserved? ==> exists o :: HoldsListing(m, o, l))
    && (forall o, l :: HoldsListing(m, o, l) ==>
          && l in m.listings
          && (m.listings[l].status.Reserved? || m.listings[l].locked || m.listings[l].seller in m.deleted))
    && (forall o <- m.orders :: m.orders[o].listing.None? ==> m.orders[o].Final())
  }

  /** What makes them inductive: an order's listing exists and is its seller's,
      and no order holds a listing that is for sale. */
  ghost predicate Consistent(m: Market) {
    && (forall o <- m.orders :: m.orders[o].listing.Some? ==>
          m.orders[o].listing.value in m.listings && m.orders[o].seller == m.listings[m.orders[o].listing.value].seller)
    && (forall o, l :: HoldsListing(m, o, l) ==> l in m.listings && !m.listings[l].status.Active?)
  }

  ghost predicate Ok(m: Market) {
    Sound(m) && Consistent(m)
  }

  /** An update without a status marks the listing of a completed order as sold
      once more. Meanwhile the seller may have listed the copy again and
      accepted another order for it. */
  predicate SellsAgain(m: Market, op: Operation) {
    && op.UpdateOrder? && op.status.None? && !op.meetup
    && op.order in m.orders && op.user !in m.deleted && op.user in {m.orders[op.order].buyer, m.orders[op.order].seller}
    && m.orders[op.order].status.Completed?
    && var listing := ListingOf(m, m.orders[op.order]);
       && listing.Some? && listing.value.status.Reserved? && !listing.value.locked && listing.value.seller !in m.deleted
  }

  /** A write that takes up or lets go of the listing as its order does, and
      otherwise leaves a held listing held. */
  ghost predicate Fits(m: Market, o: OrderId, d: Decision)
    requires o in m.orders && d.Write?
  {
    var order, listing := m.orders[o], ListingOf(m, m.orders[o]);
    && d.order == order.(status := d.order.status)
    && (order.listing.None? ==> order.Final() && d.order.Final())
    && (d.listing.Some? ==> listing.Some? && d.listing == Some(listing.value.(status := d.listing.value.status)))
    && (order.listing.Some? && listing.Some? ==>
          var l := order.listing.value;
          var status := if d.listing.Some? then d.listing.value.status else listing.value.status;
          && (d.order.Holds() && !order.Holds() ==> listing.value.status.Active?)
          && (d.order.Holds() && !order.Holds() ==> status.Reserved?)
          && (d.order.Holds() && order.Holds() ==> status == listing.value.status || status.Reserved?)
          && (!d.order.Holds() && order.Holds() ==> !status.Reserved?)
          && (!d.order.Holds() && !order.Holds() ==>
                || status == listing.value.status
                || (status.Sold? && ((forall p :: !HoldsListing(m, p, l))
                                     || listing.value.locked || listing.value.seller in m.deleted))))
  }

  lemma OkFitting(m: Market, o: OrderId, d: Decision)
    requires Ok(m) && o in m.orders && d.Write? && Fits(m, o, d)
    ensures Ok(Applied(m, o, d))
  {
    var m' := Applied(m, o, d);
    forall p, k ensures p != o ==> (HoldsListing(m', p, k) <==> HoldsListing(m, p, k)) {
    }
    if m.orders[o].listing.Some? {
      var l := m.orders[o].listing.value;
      assert m.orders[o].Holds() ==> HoldsListing(m, o, l);
      assert d.order.Holds() ==> HoldsListing(m', o, l);
      forall k <- m'.listings | m'.listings[k].status.Reserved? ensures exists p :: HoldsListing(m', p, k) {
        if k != l || !d.order.Holds() {
          var p :| HoldsListing(m, p, k);
          assert HoldsListing(m', p, k);
        }
      }
    } else {
      forall k <- m'.listings | m'.listings[k].status.Reserved? ensures exists p :: HoldsListing(m', p, k) {
        var p :| HoldsListing(m, p, k);
        assert HoldsListing(m', p, k);
      }
    }
  }

  lemma UpdateFits(m: Market, op: Operation)
    requires Ok(m) && op.UpdateOrder? && op.order in m.orders && op.user !in m.deleted && !SellsAgain(m, op)
    ensures var d := DecideUpdate(m.orders[op.order], ListingOf(m, m.orders[op.order]), op.user, op.status, op.meetup);
            d.Write? ==> Fits(m, op.order, d)
  {
  }

  lemma CancelFits(m: Market, o: OrderId)
    requires Ok(m) && o in m.orders
    ensures var d := DecideCancel(m.orders[o], ListingOf(m, m.orders[o]));
            d.Write? ==> Fits(m, o, d)
  {
  }

  lemma OkEdit(m: Market, op: Operation)
    requires Ok(m) && (op.SellerEdit? || op.Takedown? || op.DeleteAccount? || op.AddListing? || op.CreateOrder?)
    ensures Ok(Next(m, op))
  {
    var m' := Next(m, op);
    forall o, l ensures HoldsListing(m', o, l) <==> HoldsListing(m, o, l) {
    }
    forall l <- m'.listings | m'.listings[l].status.Reserved? ensures exists o :: HoldsListing(m', o, l) {
      assert l in m.listings && m.listings[l].status.Reserved?;
      var o :| HoldsListing(m, o, l);
      assert HoldsListing(m', o, l);
    }
  }

  lemma OkDelete(m: Market, op: Operation)
    requires Ok(m) && (op.SellerDelete? || op.PlatformDelete?)
    ensures Ok(Next(m, op))
  {
    var m' := Next(m, op);
    if m' != m {
      forall o, l ensures HoldsListing(m', o, l) <==> HoldsListing(m, o, l) && l != op.listing {
      }
      forall l <- m'.listings | m'.listings[l].status.Reserved? ensures exists o :: HoldsListing(m', o, l) {
        var o :| HoldsListing(m, o, l);
        assert HoldsListing(m', o, l);
      }
    }
  }

  lemma OkNext(m: Market, op: Operation)
    requires Ok(m) && !SellsAgain(m, op)
    ensures Ok(Next(m, op))
  {
    match op
    case UpdateOrder(o, user, status, meetup) =>
      if o in m.orders && user !in m.deleted {
        UpdateFits(m, op);
        var d := DecideUpdate(m.orders[o], ListingOf(m, m.orders[o]), user, status, meetup);
        if d.Write? { OkFitting(m, o, d); }
      }
    case PlatformCancel(o) =>
      if o in m.orders {
        CancelFits(m, o);
        var d := DecideCancel(m.orders[o], ListingOf(m, m.orders[o]));
        if d.Write? { OkFitting(m, o, d); }
      }
    case SellerDelete(_, _) => OkDelete(m, op);
    case PlatformDelete(_) => OkDelete(m, op);
    case _ => OkEdit(m, op);
  }

  /** Exactly when one operation keeps the four promises. */
  lemma SoundByStep(m: Market, op: Operation)
    requires Ok(m)
    ensures Sound(Next(m, op)) <==> !SellsAgain(m, op)
  {
    if SellsAgain(m, op) {
      var l := m.orders[op.order].listing.value;
      var m' := Next(m, op);
      var p :| HoldsListing(m, p, l);
      assert HoldsListing(m', p, l) && m'.listings[l].status.Sold?;
    } else {
      OkNext(m, op);
    }
  }

  /** No update without a status reaches a listing sold before and reserved
      again since. */
  predicate NothingSoldAgain(m: Market, ops: seq<Operation>)
    decreases |ops|
  {
    ops != [] ==> !SellsAgain(m, ops[0]) && NothingSoldAgain(Next(m, ops[0]), ops[1..])
  }

  /** Over every such run: at most one order holds a listing, a reserved listing
      is held by one, a held listing is reserved, locked or its seller's account
      is deleted, and an order without a listing is finished. */
  lemma {:induction false} SoundOverRuns(m: Market, ops: seq<Operation>)
    requires Ok(m) && NothingSoldAgain(m, ops)
    ensures Ok(Run(m, ops))
    decreases |ops|
  {
    if ops != [] {
      OkNext(m, ops[0]);
      SoundOverRuns(Next(m, ops[0]), ops[1..]);
    }
  }

  /** In particular when every order update names a status or a meetup. */
  lemma {:induction false} NamedUpdatesAreSound(m: Market, ops: seq<Operation>)
    requires Ok(m) && forall op <- ops :: op.UpdateOrder? ==> op.status.Some? || op.meetup
    ensures Ok(Run(m, ops))
  {
    NamedUpdatesSellNothing(m, ops);
    SoundOverRuns(m, ops);
  }

  lemma {:induction false} NamedUpdatesSellNothing(m: Market, ops: seq<Operation>)
    requires forall op <- ops :: op.UpdateOrder? ==> op.status.Some? || op.meetup
    ensures NothingSoldAgain(m, ops)
    decreases |ops|
  {
    if ops != [] {
      assert ops[0] in ops;
      NamedUpdatesSellNothing(Next(m, ops[0]), ops[1..]);
    }
  }

  /** What goes wrong otherwise: an order on the listing is completed, another
      accepted since and a third pending. The first buyer's empty update marks
      the listing sold, its seller lists it again and accepts the third order,
      and two orders hold one copy. */
  lemma TwoOrdersHoldOneCopy(m: Market, l: ListingId, first: OrderId, second: OrderId, third: OrderId)
    requires Ok(m) && l in m.listings && {first, second, third} <= m.orders.Keys
    requires forall o <- {first, second, third} :: m.orders[o].listing == Some(l)
    requires m.orders[first].status.Completed? && m.orders[second].status.Accepted? && m.orders[third].status.Pending?
    requires !m.listings[l].locked && m.listings[l].seller !in m.deleted && m.orders[first].buyer !in m.deleted
    ensures var seller := m.listings[l].seller;
            var m1 := Next(m, UpdateOrder(first, m.orders[first].buyer, None, false));
            var m2 := Next(m1, SellerEdit(l, seller, Some(Active), 0));
            var m3 := Next(m2, UpdateOrder(third, seller, Some(Accepted), false));
            second != third && HoldsListing(m3, second, l) && HoldsListing(m3, third, l)
  {
  }

  // ----- A takedown, and the listings of a deleted account -----

  /** Removed for good: taken down by the platform, or its seller's account gone. */
  predicate TakenDown(m: Market, l: ListingId) {
    l in m.listings ==>
      m.listings[l].status.Removed? && (m.listings[l].locked || m.listings[l].seller in m.deleted)
  }

  /** A saved update of an order on the listing that ends accepted or completed:
      the order's status is written over the removal. */
  predicate Overrides(m: Market, op: Operation, l: ListingId) {
    && op.UpdateOrder? && op.order in m.orders && op.user !in m.deleted && l in m.listings
    && m.orders[op.order].listing == Some(l)
    && var d := DecideUpdate(m.orders[op.order], ListingOf(m, m.orders[op.order]), op.user, op.status, op.meetup);
       d.Write? && (d.order.status.Accepted? || d.order.status.Completed?)
  }

  /** Exactly which steps take such a listing off `Removed`. */
  lemma TakedownByStep(m: Market, op: Operation, l: ListingId)
    requires Ok(m) && TakenDown(m, l) && !(op.AddListing? && op.listing == l)
    ensures TakenDown(Next(m, op), l) <==> !Overrides(m, op, l)
    ensures l in Next(m, op).listings ==>
              l in m.listings && (m.listings[l].locked ==> Next(m, op).listings[l].locked)
  {
  }

  predicate NeverOverridden(m: Market, ops: seq<Operation>, l: ListingId)
    decreases |ops|
  {
    ops != [] ==>
      && !Overrides(m, ops[0], l) && !(ops[0].AddListing? && ops[0].listing == l)
      && NeverOverridden(Next(m, ops[0]), ops[1..], l)
  }

  /** Over every run without one the listing stays removed, and locked if it
      was, or goes. */
  lemma {:induction false} TakedownLasts(m: Market, ops: seq<Operation>, l: ListingId)
    requires Ok(m) && TakenDown(m, l) && NothingSoldAgain(m, ops) && NeverOverridden(m, ops, l)
    ensures TakenDown(Run(m, ops), l)
    ensures l in Run(m, ops).listings ==> l in m.listings && (m.listings[l].locked ==> Run(m, ops).listings[l].locked)
    decreases |ops|
  {
    if ops != [] {
      TakedownByStep(m, ops[0], l);
      OkNext(m, ops[0]);
      TakedownLasts(Next(m, ops[0]), ops[1..], l);
    }
  }

  /** Otherwise it can end on sale again, locked: an order was accepted, the
      listing is taken down, its seller moves the meetup and then cancels. */
  lemma TakedownUndone(m: Market, o: OrderId)
    requires Ok(m) && o in m.orders && m.orders[o].status.Accepted? && m.orders[o].listing.Some?
    requires m.orders[o].seller !in m.deleted
    ensures var l, seller := m.orders[o].listing.value, m.orders[o].seller;
            var m1 := Next(m, Takedown(l));
            var m2 := Next(m1, UpdateOrder(o, seller, None, true));
            var m3 := Next(m2, UpdateOrder(o, seller, Some(Cancelled), false));
            l in m3.listings && m3.listings[l].status.Active? && m3.listings[l].locked
  {
    var l, seller := m.orders[o].listing.value, m.orders[o].seller;
    assert HoldsListing(m, o, l);
    var m1 := Next(m, Takedown(l));
    var m2 := Next(m1, UpdateOrder(o, seller, None, true));
    assert m2.orders == m.orders && m2.listings[l].status.Reserved? && m2.listings[l].locked;
  }

  /** And the listing of an account deleted with an order accepted: the buyer's
      empty update and cancel put it on sale again, with nobody to sell it. */
  lemma AccountDeletionUndone(m: Market, o: OrderId)
    requires Ok(m) && o in m.orders && m.orders[o].status.Accepted? && m.orders[o].listing.Some?
    requires m.orders[o].buyer !in m.deleted && m.orders[o].buyer != m.orders[o].seller
    ensures var l, buyer, seller := m.orders[o].listing.value, m.orders[o].buyer, m.orders[o].seller;
            var m1 := Next(m, DeleteAccount(seller));
            var m2 := Next(m1, UpdateOrder(o, buyer, None, false));
            var m3 := Next(m2, UpdateOrder(o, buyer, Some(Cancelled), false));
            l in m3.listings && m3.listings[l].status.Active? && m3.listings[l].seller in m3.deleted
  {
    var l, buyer, seller := m.orders[o].listing.value, m.orders[o].buyer, m.orders[o].seller;
    assert HoldsListing(m, o, l);
    var m1 := Next(m, DeleteAccount(seller));
    var m2 := Next(m1, UpdateOrder(o, buyer, None, false));
    assert m2.orders == m.orders && m2.listings[l].status.Reserved? && m2.listings[l].seller == seller;
  }

  lemma EmptyMarketOk()
    ensures Ok(Market(map[], map[], {}))
  {
  }
}
