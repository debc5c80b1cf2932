/**
 The meetup-reminder cron (cron/views.py) beside order edits
 (orders/views/orders.py): a run reads a batch of due orders, then mails the
 parties of each and writes down what it did, while edits go on.

 Times are microseconds. A mail is delivered or it fails.
 */
module MeetupReminders {
  import opened Common

  type OrderId = nat
  type UserId = nat
  type Time = int

  const MAX_REMIND_ORDERS_PER_RUN: nat := 50
  const LOOKAHEAD: Time := 65 * 60 * 1_000_000

  datatype Order = Order(accepted: bool, buyer: UserId, seller: UserId, meetup: Option<Time>,
                         buyerSent: Option<Time>, sellerSent: Option<Time>, allSent: Option<Time>)

  /** How the mails of one order went: who can be mailed at all (active, not
      deleted, with an address), and whose mail was accepted. */
  datatype Mailing = Mailing(reachable: set<UserId>, delivered: set<UserId>) {
    /** Mailed, or skipped for good. */
    predicate Handles(user: UserId) {
      user !in reachable || user in delivered
    }

    predicate Mails(user: UserId) {
      user in reachable && user in delivered
    }
  }

  /** A run in flight: the orders still to do, as they were when read, and the
      mails of the first of them once they are out. */
  datatype InFlight =
    | Idle
    | Running(now: Time, queue: seq<OrderId>, copies: map<OrderId, Order>, out: Option<Mailing>)

  /** A mail that reached someone, and the meetup time it gave. */
  datatype Mail = Mail(user: UserId, about: Option<Time>)

  /** History since an order's last reschedule: `mails` that reached someone, and
      whom a run marked without a mail, there being no way to reach them. */
  datatype System = System(orders: map<OrderId, Order>, mails: map<OrderId, seq<Mail>>,
                           skipped: map<OrderId, set<UserId>>, run: InFlight)

  // ----- One order -----

  predicate IsDue(order: Order, now: Time) {
    order.accepted && order.allSent.None? && order.meetup.Some? && now <= order.meetup.value <= now + LOOKAHEAD
  }

  /** The mails give the time of the copy. */
  function MailsOf(copy: Order, m: Mailing): seq<Mail> {
    (if copy.buyerSent.None? && m.Mails(copy.buyer) then [Mail(copy.buyer, copy.meetup)] else []) +
    (if copy.sellerSent.None? && m.Mails(copy.seller) && !(copy.seller == copy.buyer && copy.buyerSent.None?)
     then [Mail(copy.seller, copy.meetup)] else [])
  }

  function SkippedOf(copy: Order, m: Mailing): set<UserId> {
    (if copy.buyerSent.None? then {copy.buyer} - m.reachable else {}) +
    (if copy.sellerSent.None? then {copy.seller} - m.reachable else {})
  }

  predicate BuyerDone(copy: Order, m: Mailing) {
    copy.buyerSent.Some? || m.Handles(copy.buyer)
  }

  predicate SellerDone(copy: Order, m: Mailing) {
    copy.sellerSent.Some? || m.Handles(copy.seller)
  }

  /** The row once the run has written back what it found out about `copy`. */
  function Written(row: Order, copy: Order, m: Mailing, now: Time): Order {
    row.(buyerSent := if copy.buyerSent.None? && m.Handles(copy.buyer) then Some(now) else row.buyerSent,
         sellerSent := if copy.sellerSent.None? && m.Handles(copy.seller) then Some(now) else row.sellerSent,
         allSent := if BuyerDone(copy, m) && SellerDone(copy, m) then Some(now) else row.allSent)
  }

  function Cleared(order: Order): Order {
    order.(buyerSent := None, sellerSent := None, allSent := None)
  }

  // ----- Events -----

  datatype Event =
    | Place(order: OrderId, buyer: UserId, seller: UserId, meetup: Option<Time>)
    | Edit(order: OrderId, accepted: bool, newMeetup: Option<Option<Time>>)
    | StartRun(now: Time, due: seq<OrderId>)
    | Remind(m: Mailing)
    | Record
    | EndRun

  /** What the query for due orders may return: all of them, earliest first. */
  predicate QueryResult(orders: map<OrderId, Order>, now: Time, due: seq<OrderId>) {
    && (forall o <- due :: o in orders && IsDue(orders[o], now))
    && (forall o <- orders :: IsDue(orders[o], now) ==> o in due)
    && (forall i, j :: 0 <= i < j < |due| ==> due[i] != due[j])
    && (forall i, j :: 0 <= i < j < |due| ==> orders[due[i]].meetup.value <= orders[due[j]].meetup.value)
  }

  predicate Enabled(sys: System, e: Event) {
    match e
    case Place(o, _, _, _) => o !in sys.orders
    case Edit(o, _, _) => o in sys.orders
    case StartRun(now, due) => QueryResult(sys.orders, now, due)
    case Remind(_) => sys.run.Running? && sys.run.queue != [] && sys.run.out.None?
    case Record => sys.run.Running? && sys.run.out.Some?
    case EndRun => sys.run.Running? && sys.run.queue == []
  }

  predicate Reschedules(order: Order, newMeetup: Option<Option<Time>>) {
    newMeetup.Some? && newMeetup.value != order.meetup
  }

  function Edited(order: Order, accepted: bool, newMeetup: Option<Option<Time>>): Order {
    var saved := order.(accepted := accepted, meetup := newMeetup.GetOr(order.meetup));
    if Reschedules(order, newMeetup) then Cleared(saved) else saved
  }

  function Batch(due: seq<OrderId>): seq<OrderId> {
    if |due| <= MAX_REMIND_ORDERS_PER_RUN then due else due[..MAX_REMIND_ORDERS_PER_RUN]
  }

  /** Every order in flight is there, and the mails out are the first one's. */
  predicate Shaped(sys: System) {
    && sys.orders.Keys == sys.mails.Keys == sys.skipped.Keys
    && (sys.run.Running? ==>
          && (forall o <- sys.run.queue :: o in sys.orders && o in sys.run.copies)
          && (forall i, j :: 0 <= i < j < |sys.run.queue| ==> sys.run.queue[i] != sys.run.queue[j])
          && (sys.run.out.Some? ==> sys.run.queue != []))
  }

  function Next(sys: System, e: Event): System
    requires Shaped(sys) && Enabled(sys, e)
  {
    match e
    case Place(o, buyer, seller, meetup) =>
      sys.(orders := sys.orders[o := Order(false, buyer, seller, meetup, None, None, None)],
           mails := sys.mails[o := []], skipped := sys.skipped[o := {}])
    case Edit(o, accepted, newMeetup) =>
      sys.(orders := sys.orders[o := Edited(sys.orders[o], accepted, newMeetup)],
           mails := if Reschedules(sys.orders[o], newMeetup) then sys.mails[o := []] else sys.mails,
           skipped := if Reschedules(sys.orders[o], newMeetup) then sys.skipped[o := {}] else sys.skipped)
    case StartRun(now, due) =>
      if sys.run.Running? then sys
      else sys.(run := Running(now, Batch(due), sys.orders, None))
    case Remind(m) =>
      var o := sys.run.queue[0];
      sys.(mails := sys.mails[o := sys.mails[o] + MailsOf(sys.run.copies[o], m)],
           run := sys.run.(out := Some(m)))
    case Record =>
      var o := sys.run.queue[0];
      sys.(orders := sys.orders[o := Written(sys.orders[o], sys.run.copies[o], sys.run.out.value, sys.run.now)],
           skipped := sys.skipped[o := sys.skipped[o] + SkippedOf(sys.run.copies[o], sys.run.out.value)],
           run := sys.run.(queue := sys.run.queue[1..], out := None))
    case EndRun => sys.(run := Idle)
  }

  lemma NextIsShaped(sys: System, e: Event)
    requires Shaped(sys) && Enabled(sys, e)
    ensures Shaped(Next(sys, e))
  {
  }

  ghost predicate OkRun(sys: System, events: seq<Event>)
    requires Shaped(sys)
    decreases |events|
  {
    events == [] ||
    (Enabled(sys, events[0]) && Shaped(Next(sys, events[0])) && OkRun(Next(sys, events[0]), events[1..]))
  }

  ghost function After(sys: System, events: seq<Event>): System
    requires Shaped(sys) && OkRun(sys, events)
    decreases |events|
  {
    if events == [] then sys else After(Next(sys, events[0]), events[1..])
  }

  const EMPTY: System := System(map[], map[], map[], Idle)

  // ----- At most one mail -----

  /** Someone on both sides of an order is marked on both or on neither. */
  predicate Synced(order: Order) {
    order.buyer == order.seller ==> (order.buyerSent.None? <==> order.sellerSent.None?)
  }

  predicate SameParties(row: Order, copy: Order) {
    row.buyer == copy.buyer && row.seller == copy.seller
  }

  predicate NoneTwice(mails: seq<Mail>) {
    forall i, j :: 0 <= i < j < |mails| ==> mails[i].user != mails[j].user
  }

  predicate MailedTo(mails: seq<Mail>, user: UserId) {
    exists mail <- mails :: mail.user == user
  }

  /** Whoever an order does not mark as reminded got no mail. */
  predicate UnmarkedUnmailed(order: Order, mails: seq<Mail>) {
    && (order.buyerSent.None? ==> !MailedTo(mails, order.buyer))
    && (order.sellerSent.None? ==> !MailedTo(mails, order.seller))
  }

  predicate UnmarkedUnskipped(order: Order, skipped: set<UserId>) {
    && (order.buyerSent.None? ==> order.buyer !in skipped)
    && (order.sellerSent.None? ==> order.seller !in skipped)
  }

  /** As `UnmarkedUnmailed`, but for what the run is about to write. A mail of
      the run is among `mails` unless a reschedule has come since. */
  predicate MailedWillBeMarked(row: Order, copy: Order, m: Mailing, mails: seq<Mail>) {
    && UnmarkedUnmailed(Written(row, copy, m, 0), mails)
    && (mails == [] || forall mail <- MailsOf(copy, m) :: mail in mails)
  }

  /** What the run in flight has of an order: its copy while it is still to be
      written, and the order's own mailing once it is out. */
  function CopyOf(sys: System, o: OrderId): Option<Order>
    requires Shaped(sys)
  {
    if sys.run.Running? && o in sys.run.queue then Some(sys.run.copies[o]) else None
  }

  function OutFor(sys: System, o: OrderId): Option<Mailing>
    requires Shaped(sys)
  {
    if sys.run.Running? && sys.run.out.Some? && o == sys.run.queue[0] then sys.run.out else None
  }

  /** One order's mails are accounted for. */
  predicate RowAccounted(row: Order, mails: seq<Mail>, skipped: set<UserId>, copy: Option<Order>, out: Option<Mailing>) {
    && Synced(row) && NoneTwice(mails) && UnmarkedUnskipped(row, skipped)
    && (copy.Some? ==> SameParties(row, copy.value) && Synced(copy.value) && UnmarkedUnskipped(copy.value, skipped))
    && match out
       case None => UnmarkedUnmailed(row, mails) && (copy.Some? ==> UnmarkedUnmailed(copy.value, mails))
       case Some(m) => copy.Some? ==> MailedWillBeMarked(row, copy.value, m, mails)
  }

  predicate Accounted(sys: System, o: OrderId)
    requires Shaped(sys) && o in sys.orders
  {
    RowAccounted(sys.orders[o], sys.mails[o], sys.skipped[o], CopyOf(sys, o), OutFor(sys, o))
  }

  predicate AllAccounted(sys: System)
    requires Shaped(sys)
  {
    forall o <- sys.orders :: Accounted(sys, o)
  }

  lemma MailingAccounted(row: Order, mails: seq<Mail>, skipped: set<UserId>, copy: Order, m: Mailing)
    requires RowAccounted(row, mails, skipped, Some(copy), None)
    ensures RowAccounted(row, mails + MailsOf(copy, m), skipped, Some(copy), Some(m))
  {
    assert forall mail <- MailsOf(copy, m) :: mail in mails + MailsOf(copy, m);
  }

  lemma WriteAccounted(row: Order, mails: seq<Mail>, skipped: set<UserId>, copy: Order, m: Mailing, now: Time)
    requires RowAccounted(row, mails, skipped, Some(copy), Some(m))
    ensures RowAccounted(Written(row, copy, m, now), mails, skipped + SkippedOf(copy, m), None, None)
  {
  }

  lemma EditAccounted(row: Order, mails: seq<Mail>, skipped: set<UserId>, copy: Option<Order>, out: Option<Mailing>,
                      accepted: bool, newMeetup: Option<Option<Time>>)
    requires RowAccounted(row, mails, skipped, copy, out)
    ensures var moved := Reschedules(row, newMeetup);
            RowAccounted(Edited(row, accepted, newMeetup), if moved then [] else mails, if moved then {} else skipped,
                         copy, out)
  {
  }

  lemma AccountedNext(sys: System, e: Event, o: OrderId)
    requires Shaped(sys) && AllAccounted(sys) && Enabled(sys, e) && Shaped(Next(sys, e)) && o in Next(sys, e).orders
    ensures Accounted(Next(sys, e), o)
  {
    var sys' := Next(sys, e);
    if o in sys.orders {
      assert Accounted(sys, o);
      var row, mails, skipped := sys.orders[o], sys.mails[o], sys.skipped[o];
      match e
      case Edit(other, accepted, newMeetup) =>
        EditAccounted(row, mails, skipped, CopyOf(sys, o), OutFor(sys, o), accepted, newMeetup);
        assert CopyOf(sys', o) == CopyOf(sys, o) && OutFor(sys', o) == OutFor(sys, o);
      case Remind(m) =>
        if o == sys.run.queue[0] {
          MailingAccounted(row, mails, skipped, sys.run.copies[o], m);
        }
      case Record =>
        if o == sys.run.queue[0] {
          WriteAccounted(row, mails, skipped, sys.run.copies[o], sys.run.out.value, sys.run.now);
          assert CopyOf(sys', o) == None;
        } else {
          assert CopyOf(sys', o) == CopyOf(sys, o);
        }
      case _ =>
    }
  }

  lemma AllAccountedNext(sys: System, e: Event)
    requires Shaped(sys) && AllAccounted(sys) && Enabled(sys, e) && Shaped(Next(sys, e))
    ensures AllAccounted(Next(sys, e))
  {
    forall o <- Next(sys, e).orders ensures Accounted(Next(sys, e), o) {
      AccountedNext(sys, e, o);
    }
  }

  lemma {:induction false} AccountedOverRuns(sys: System, events: seq<Event>)
    requires Shaped(sys) && AllAccounted(sys) && OkRun(sys, events)
    ensures Shaped(After(sys, events)) && AllAccounted(After(sys, events))
    decreases |events|
  {
    if events != [] {
      AllAccountedNext(sys, events[0]);
      AccountedOverRuns(Next(sys, events[0]), events[1..]);
    }
  }

  /** Over any run, with orders edited and rescheduled even while a reminder run
      is at work on them, nobody gets two mails about an order between two
      reschedules. */
  lemma AtMostOneMail(events: seq<Event>, o: OrderId)
    requires Shaped(EMPTY) && OkRun(EMPTY, events)
    ensures var sys := After(EMPTY, events);
            Shaped(sys) && (o in sys.orders ==> NoneTwice(sys.mails[o]))
  {
    AccountedOverRuns(EMPTY, events);
    assert o in After(EMPTY, events).orders ==> Accounted(After(EMPTY, events), o);
  }

  // ----- The overall mark -----

  /** `meetup_reminder_sent_at` is set exactly when both parties are done. */
  predicate Marks(order: Order) {
    order.allSent.Some? <==> order.buyerSent.Some? && order.sellerSent.Some?
  }

  predicate SameMarks(row: Order, copy: Order) {
    row.buyerSent == copy.buyerSent && row.sellerSent == copy.sellerSent && row.allSent == copy.allSent
  }

  /** Writing back keeps the mark right unless the order lost a reminder to a
      reschedule since it was read and this run thinks both parties are done. */
  lemma WriteKeepsMarks(row: Order, copy: Order, m: Mailing, now: Time)
    requires Marks(row) && Marks(copy) && copy.allSent.None?
    requires SameMarks(row, copy) || SameMarks(row, Cleared(copy))
    ensures Marks(Written(row, copy, m, now)) <==>
              SameMarks(row, copy) || !BuyerDone(copy, m) || !SellerDone(copy, m)
  {
  }

  /** No order is rescheduled while the run has still to write it. */
  predicate LeavesBatchAlone(sys: System, e: Event) {
    e.Edit? && sys.run.Running? && e.order in sys.run.queue && e.order in sys.orders ==>
      !Reschedules(sys.orders[e.order], e.newMeetup)
  }

  ghost predicate BatchesLeftAlone(sys: System, events: seq<Event>)
    requires Shaped(sys) && OkRun(sys, events)
    decreases |events|
  {
    events == [] || (LeavesBatchAlone(sys, events[0]) && BatchesLeftAlone(Next(sys, events[0]), events[1..]))
  }

  predicate Marked(sys: System)
    requires Shaped(sys)
  {
    && (forall o <- sys.orders :: Marks(sys.orders[o]))
    && (sys.run.Running? ==> forall o <- sys.run.queue ::
          SameMarks(sys.orders[o], sys.run.copies[o]) && sys.run.copies[o].allSent.None?)
  }

  lemma {:induction false} MarkedOverRuns(sys: System, events: seq<Event>)
    requires Shaped(sys) && Marked(sys) && OkRun(sys, events) && BatchesLeftAlone(sys, events)
    ensures Shaped(After(sys, events)) && Marked(After(sys, events))
    decreases |events|
  {
    if events != [] {
      MarkedNext(sys, events[0]);
      MarkedOverRuns(Next(sys, events[0]), events[1..]);
    }
  }

  lemma MarkedNext(sys: System, e: Event)
    requires Shaped(sys) && Marked(sys) && Enabled(sys, e) && Shaped(Next(sys, e)) && LeavesBatchAlone(sys, e)
    ensures Marked(Next(sys, e))
  {
  }

  /** The overall mark is right over every run that reschedules no order of a
      batch in flight. */
  lemma MarkedWhenBothDone(events: seq<Event>, o: OrderId)
    requires Shaped(EMPTY) && OkRun(EMPTY, events) && BatchesLeftAlone(EMPTY, events)
    ensures var sys := After(EMPTY, events);
            Shaped(sys) && (o in sys.orders ==> Marks(sys.orders[o]))
  {
    MarkedOverRuns(EMPTY, events);
  }

  // ----- Who has heard of the time an order now has -----

  predicate Told(order: Order, mails: seq<Mail>, skipped: set<UserId>, user: UserId) {
    user in skipped || exists mail <- mails :: mail.user == user && mail.about == order.meetup
  }

  /** Every party marked as reminded got a mail with the order's time, or could
      not be reached when it was marked. */
  predicate AllTold(order: Order, mails: seq<Mail>, skipped: set<UserId>) {
    && (order.buyerSent.Some? ==> Told(order, mails, skipped, order.buyer))
    && (order.sellerSent.Some? ==> Told(order, mails, skipped, order.seller))
  }

  /** The write comes in time: it marks nobody on account of a mail, or the mails
      it marks them for still count and gave the time the order has now. */
  predicate InTime(row: Order, copy: Order, m: Mailing, mails: seq<Mail>) {
    MailsOf(copy, m) == [] || (mails != [] && copy.meetup == row.meetup)
  }

  /** Exactly when writing back leaves nobody marked who has not heard, whatever
      was rescheduled since the order was read, before its mails or after. */
  lemma WriteTells(row: Order, copy: Order, m: Mailing, mails: seq<Mail>, skipped: set<UserId>, now: Time)
    requires SameParties(row, copy) && Synced(copy) && NoneTwice(mails)
    requires UnmarkedUnskipped(copy, skipped) && MailedWillBeMarked(row, copy, m, mails)
    requires AllTold(row, mails, skipped)
    ensures AllTold(Written(row, copy, m, now), mails, skipped + SkippedOf(copy, m)) <==> InTime(row, copy, m, mails)
  {
    var after, all := Written(row, copy, m, now), skipped + SkippedOf(copy, m);
    forall mail <- MailsOf(copy, m) ensures mail.user !in all && mail.about == copy.meetup {
    }
    if MailsOf(copy, m) != [] && mails != [] {
      var mail := MailsOf(copy, m)[0];
      assert mail in MailsOf(copy, m) && mail in mails;
      forall other <- mails | other.user == mail.user ensures other == mail {
      }
      assert copy.meetup != row.meetup ==> !Told(after, mails, all, mail.user);
    } else if MailsOf(copy, m) != [] {
      var mail := MailsOf(copy, m)[0];
      assert mail in MailsOf(copy, m);
      assert !Told(after, mails, all, mail.user);
    }
  }

  predicate WritesInTime(sys: System, e: Event)
    requires Shaped(sys)
  {
    e.Record? && sys.run.Running? && sys.run.out.Some? ==>
      var o := sys.run.queue[0];
      InTime(sys.orders[o], sys.run.copies[o], sys.run.out.value, sys.mails[o])
  }

  ghost predicate AlwaysInTime(sys: System, events: seq<Event>)
    requires Shaped(sys) && OkRun(sys, events)
    decreases |events|
  {
    events == [] || (WritesInTime(sys, events[0]) && AlwaysInTime(Next(sys, events[0]), events[1..]))
  }

  predicate EveryoneTold(sys: System)
    requires Shaped(sys)
  {
    forall o <- sys.orders :: AllTold(sys.orders[o], sys.mails[o], sys.skipped[o])
  }

  /** One step leaves everyone marked told exactly when it is not a late write. */
  lemma ToldNext(sys: System, e: Event)
    requires Shaped(sys) && AllAccounted(sys) && EveryoneTold(sys) && Enabled(sys, e) && Shaped(Next(sys, e))
    ensures EveryoneTold(Next(sys, e)) <==> WritesInTime(sys, e)
  {
    if e.Record? {
      var o := sys.run.queue[0];
      assert Accounted(sys, o);
      WriteTells(sys.orders[o], sys.run.copies[o], sys.run.out.value, sys.mails[o], sys.skipped[o], sys.run.now);
    } else if e.Remind? {
      var o := sys.run.queue[0];
      MoreMailsTell(sys.orders[o], sys.mails[o], MailsOf(sys.run.copies[o], e.m), sys.skipped[o]);
    }
  }

  lemma MoreMailsTell(order: Order, mails: seq<Mail>, more: seq<Mail>, skipped: set<UserId>)
    requires AllTold(order, mails, skipped)
    ensures AllTold(order, mails + more, skipped)
  {
    assert forall mail <- mails :: mail in mails + more;
  }

  lemma {:induction false} ToldOverRuns(sys: System, events: seq<Event>)
    requires Shaped(sys) && AllAccounted(sys) && EveryoneTold(sys) && OkRun(sys, events) && AlwaysInTime(sys, events)
    ensures Shaped(After(sys, events)) && EveryoneTold(After(sys, events))
    decreases |events|
  {
    if events != [] {
      ToldNext(sys, events[0]);
      AllAccountedNext(sys, events[0]);
      ToldOverRuns(Next(sys, events[0]), events[1..]);
    }
  }

  /** Over every run without a late write, whoever is marked as reminded of a
      meetup was mailed the time it has, or could not be reached. */
  lemma MarkedWereTold(events: seq<Event>, o: OrderId)
    requires Shaped(EMPTY) && OkRun(EMPTY, events) && AlwaysInTime(EMPTY, events)
    ensures var sys := After(EMPTY, events);
            Shaped(sys) && (o in sys.orders ==> AllTold(sys.orders[o], sys.mails[o], sys.skipped[o]))
  {
    ToldOverRuns(EMPTY, events);
  }

  /** The orders in flight are at the time they were read with. */
  predicate Unmoved(sys: System)
    requires Shaped(sys)
  {
    sys.run.Running? ==>
      && (forall o <- sys.run.queue :: sys.orders[o].meetup == sys.run.copies[o].meetup)
      && (sys.run.out.Some? ==>
            var o := sys.run.queue[0];
            forall mail <- MailsOf(sys.run.copies[o], sys.run.out.value) :: mail in sys.mails[o])
  }

  lemma UnmovedNext(sys: System, e: Event)
    requires Shaped(sys) && Unmoved(sys) && Enabled(sys, e) && Shaped(Next(sys, e)) && LeavesBatchAlone(sys, e)
    ensures Unmoved(Next(sys, e)) && WritesInTime(sys, e)
  {
    if e.Record? && MailsOf(sys.run.copies[sys.run.queue[0]], sys.run.out.value) != [] {
      assert MailsOf(sys.run.copies[sys.run.queue[0]], sys.run.out.value)[0] in sys.mails[sys.run.queue[0]];
    }
  }

  /** No write is late in a run that reschedules no order of a batch in flight. */
  lemma {:induction false} LeftAloneIsInTime(sys: System, events: seq<Event>)
    requires Shaped(sys) && Unmoved(sys) && OkRun(sys, events) && BatchesLeftAlone(sys, events)
    ensures AlwaysInTime(sys, events)
    decreases |events|
  {
    if events != [] {
      UnmovedNext(sys, events[0]);
      LeftAloneIsInTime(Next(sys, events[0]), events[1..]);
    }
  }

  /** A reschedule in either half of an order's turn, before its mails or before
      its write, is missed: the order is never due again, and no mail counted
      for it gives the new time. */
  lemma RescheduleMidRunIsMissed(sys: System, m: Mailing, accepted: bool, newMeetup: Option<Option<Time>>, at: Time)
    requires Shaped(sys) && sys.run.Running? && sys.run.queue != [] && sys.run.out.None?
    requires var o := sys.run.queue[0];
             && BuyerDone(sys.run.copies[o], m) && SellerDone(sys.run.copies[o], m)
             && sys.run.copies[o].meetup == sys.orders[o].meetup && Reschedules(sys.orders[o], newMeetup)
    ensures var edit := Edit(sys.run.queue[0], accepted, newMeetup);
            && Missed(sys, [edit, Remind(m), Record], sys.run.queue[0], at)
            && Missed(sys, [Remind(m), edit, Record], sys.run.queue[0], at)
  {
    var o, edit := sys.run.queue[0], Edit(sys.run.queue[0], accepted, newMeetup);
    var edited, mailed := Next(sys, edit), Next(sys, Remind(m));
    NextIsShaped(sys, edit);
    NextIsShaped(sys, Remind(m));
    NextIsShaped(edited, Remind(m));
    NextIsShaped(mailed, edit);
    NextIsShaped(Next(edited, Remind(m)), Record);
    NextIsShaped(Next(mailed, edit), Record);
    ThreeEvents(sys, edit, Remind(m), Record);
    ThreeEvents(sys, Remind(m), edit, Record);
  }

  ghost predicate Missed(sys: System, events: seq<Event>, o: OrderId, at: Time)
    requires Shaped(sys)
  {
    && OkRun(sys, events)
    && var end := After(sys, events);
       && o in end.orders && o in end.mails && !IsDue(end.orders[o], at)
       && forall mail <- end.mails[o] :: mail.about != end.orders[o].meetup
  }

  lemma ThreeEvents(sys: System, a: Event, b: Event, c: Event)
    requires Shaped(sys) && Enabled(sys, a) && Shaped(Next(sys, a)) && Enabled(Next(sys, a), b)
    requires Shaped(Next(Next(sys, a), b)) && Enabled(Next(Next(sys, a), b), c)
    requires Shaped(Next(Next(Next(sys, a), b), c))
    ensures OkRun(sys, [a, b, c]) && After(sys, [a, b, c]) == Next(Next(Next(sys, a), b), c)
  {
    var end := Next(Next(Next(sys, a), b), c);
    assert OkRun(end, []) && After(end, []) == end;
    FirstEvent(Next(Next(sys, a), b), c, []);
    FirstEvent(Next(sys, a), b, [c]);
    FirstEvent(sys, a, [b, c]);
    assert [c] == [c] + [] && [b, c] == [b] + [c] && [a, b, c] == [a] + [b, c];
  }

  lemma FirstEvent(sys: System, e: Event, rest: seq<Event>)
    requires Shaped(sys) && Enabled(sys, e) && Shaped(Next(sys, e)) && OkRun(Next(sys, e), rest)
    ensures OkRun(sys, [e] + rest) && After(sys, [e] + rest) == After(Next(sys, e), rest)
  {
  }

  // ----- Who is mailed at all -----

  /** Agreed, not reminded yet, and within sixty-five minutes. */
  predicate Ahead(order: Order, now: Time) {
    && order.accepted && order.allSent == None
    && order.meetup.Some? && now <= order.meetup.value && order.meetup.value - now <= 65 * 60 * 1_000_000
  }

  /** A started run has in its queue only orders ahead, no more than fifty, and
      leaves out another only when it has fifty no later. */
  lemma StartedBatch(sys: System, now: Time, due: seq<OrderId>)
    requires Shaped(sys) && sys.run.Idle? && QueryResult(sys.orders, now, due)
    ensures var queue := Next(sys, StartRun(now, due)).run.queue;
            && |queue| <= 50
            && (forall o <- queue :: o in sys.orders && Ahead(sys.orders[o], now))
            && (forall o <- sys.orders :: Ahead(sys.orders[o], now) && o !in queue ==>
                  |queue| == 50 && forall p <- queue :: sys.orders[p].meetup.value <= sys.orders[o].meetup.value)
  {
    var queue := Batch(due);
    assert forall o <- queue :: o in due;
    forall o <- sys.orders | Ahead(sys.orders[o], now) && o !in queue
      ensures |queue| == 50 && forall p <- queue :: sys.orders[p].meetup.value <= sys.orders[o].meetup.value
    {
      assert IsDue(sys.orders[o], now);
      var k :| 0 <= k < |due| && due[k] == o;
      assert k >= 50;
    }
  }

  /** The mails of one order: each unmarked party the run can reach gets one, if
      its mail is accepted, and nobody else gets any. */
  lemma MailsExactly(copy: Order, m: Mailing, mail: Mail)
    ensures mail in MailsOf(copy, m) <==>
              && mail.about == copy.meetup && mail.user in m.reachable && mail.user in m.delivered
              && ((mail.user == copy.buyer && copy.buyerSent == None) || (mail.user == copy.seller && copy.sellerSent == None))
  {
  }

  /** What an edit leaves: its own status and meetup, and a reminder still to come
      exactly when it moved the meetup. */
  lemma EditLeaves(sys: System, o: OrderId, accepted: bool, newMeetup: Option<Option<Time>>)
    requires Shaped(sys) && o in sys.orders
    ensures var before, sys' := sys.orders[o], Next(sys, Edit(o, accepted, newMeetup));
            && o in sys'.orders && sys'.orders.Keys == sys.orders.Keys && sys'.run == sys.run
            && (forall p <- sys.orders :: p != o ==> sys'.orders[p] == sys.orders[p])
            && var after := sys'.orders[o];
               && after.accepted == accepted && after.meetup == newMeetup.GetOr(before.meetup)
               && after.buyer == before.buyer && after.seller == before.seller
               && (after.meetup == before.meetup ==> SameMarks(after, before))
               && (after.meetup != before.meetup ==>
                     after.buyerSent == None && after.sellerSent == None && after.allSent == None)
  {
  }

  /** The orders a run has still to do were ahead when it read them. */
  predicate QueueAhead(sys: System)
    requires Shaped(sys)
  {
    sys.run.Running? ==> forall o <- sys.run.queue :: Ahead(sys.run.copies[o], sys.run.now)
  }

  lemma QueueAheadNext(sys: System, e: Event)
    requires Shaped(sys) && QueueAhead(sys) && Enabled(sys, e) && Shaped(Next(sys, e))
    ensures QueueAhead(Next(sys, e))
  {
    if e.StartRun? && sys.run.Idle? {
      StartedBatch(sys, e.now, e.due);
    }
  }

  lemma {:induction false} QueueAheadOverRuns(sys: System, events: seq<Event>)
    requires Shaped(sys) && QueueAhead(sys) && OkRun(sys, events)
    ensures Shaped(After(sys, events)) && QueueAhead(After(sys, events))
    decreases |events|
  {
    if events != [] {
      QueueAheadNext(sys, events[0]);
      QueueAheadOverRuns(Next(sys, events[0]), events[1..]);
    }
  }

  /** The event mails people about `o`, whom the run read as ahead. */
  predicate MailsAbout(sys: System, e: Event, o: OrderId)
    requires Shaped(sys)
  {
    && e.Remind? && sys.run.Running? && o in sys.run.queue && o in sys.mails && o in NextIfEnabled(sys, e).mails
    && Ahead(sys.run.copies[o], sys.run.now)
    && NextIfEnabled(sys, e).mails[o] == sys.mails[o] + MailsOf(sys.run.copies[o], e.m)
  }

  /** The state after an event, if it can happen. */
  function NextIfEnabled(sys: System, e: Event): System
    requires Shaped(sys)
  {
    if Enabled(sys, e) then Next(sys, e) else sys
  }

  lemma {:induction false} PrefixRuns(sys: System, events: seq<Event>, i: nat)
    requires Shaped(sys) && OkRun(sys, events) && i < |events|
    ensures OkRun(sys, events[..i]) && Shaped(After(sys, events[..i])) && Enabled(After(sys, events[..i]), events[i])
    decreases |events|
  {
    if i > 0 {
      PrefixRuns(Next(sys, events[0]), events[1..], i - 1);
      assert events[..i][1..] == events[1..][..i - 1];
    }
  }

  /** Whenever, in any run, the mails counted for an order grow, they are those
      of a batch that read the order accepted, with its meetup ahead and within
      the window. */
  lemma OnlyAheadAreMailed(events: seq<Event>, i: nat, o: OrderId)
    requires Shaped(EMPTY) && OkRun(EMPTY, events) && i < |events|
    ensures OkRun(EMPTY, events[..i]) && Shaped(After(EMPTY, events[..i]))
    ensures var sys := After(EMPTY, events[..i]);
            var after := NextIfEnabled(sys, events[i]);
            o in after.mails && after.mails[o] != [] && !(o in sys.mails && after.mails[o] == sys.mails[o]) ==>
              MailsAbout(sys, events[i], o)
  {
    PrefixRuns(EMPTY, events, i);
    QueueAheadOverRuns(EMPTY, events[..i]);
  }
}
