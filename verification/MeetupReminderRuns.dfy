/**
 A reminder run as the view does it (cron/views.py), whole: which meetups its
 batch reaches, and the state it leaves when nothing comes in between.
 */
module MeetupReminderRuns {
  import opened Common
  import opened MeetupReminders

  // ----- Who is covered -----

  /** Runs come at most LOOKAHEAD apart. */
  predicate Frequent(times: seq<Time>) {
    forall i :: 0 <= i < |times| - 1 ==> times[i] <= times[i + 1] <= times[i] + LOOKAHEAD
  }

  /** The last of the runs that is not after `m`. */
  function LastRun(times: seq<Time>, m: Time): (k: int)
    requires times != [] && times[0] <= m
    ensures 0 <= k < |times| && times[k] <= m && (k + 1 < |times| ==> m < times[k + 1])
  {
    if times[|times| - 1] <= m then |times| - 1
    else LastRun(times[..|times| - 1], m)
  }

  /** A meetup set by the last run before it is due at that run, and is in its
      batch when no more than fifty are due. */
  lemma CoveredByLastRun(times: seq<Time>, sys: System, due: seq<OrderId>, o: OrderId)
    requires Frequent(times) && times != [] && Shaped(sys) && sys.run.Idle? && o in sys.orders
    requires sys.orders[o].accepted && sys.orders[o].allSent.None? && sys.orders[o].meetup.Some?
    requires times[0] <= sys.orders[o].meetup.value < times[|times| - 1]
    requires var now := times[LastRun(times, sys.orders[o].meetup.value)];
             QueryResult(sys.orders, now, due) && |due| <= MAX_REMIND_ORDERS_PER_RUN
    ensures var now := times[LastRun(times, sys.orders[o].meetup.value)];
            o in Next(sys, StartRun(now, due)).run.queue
  {
  }

  /** The events of a run nobody disturbs. */
  function RunEvents(queue: seq<OrderId>, how: OrderId -> Mailing): seq<Event> {
    if queue == [] then [] else [Remind(how(queue[0])), Record] + RunEvents(queue[1..], how)
  }

  function OrdersAfter(orders: map<OrderId, Order>, queue: seq<OrderId>, how: OrderId -> Mailing, now: Time)
    : map<OrderId, Order>
  {
    map o | o in orders :: if o in queue then Written(orders[o], orders[o], how(o), now) else orders[o]
  }

  function MailsAfter(orders: map<OrderId, Order>, mails: map<OrderId, seq<Mail>>, queue: seq<OrderId>,
                      how: OrderId -> Mailing): map<OrderId, seq<Mail>>
    requires orders.Keys == mails.Keys
  {
    map o | o in mails :: if o in queue then mails[o] + MailsOf(orders[o], how(o)) else mails[o]
  }

  function SkippedAfter(orders: map<OrderId, Order>, skipped: map<OrderId, set<UserId>>, queue: seq<OrderId>,
                        how: OrderId -> Mailing): map<OrderId, set<UserId>>
    requires orders.Keys == skipped.Keys
  {
    map o | o in skipped :: if o in queue then skipped[o] + SkippedOf(orders[o], how(o)) else skipped[o]
  }

  lemma FirstReminded(sys: System, m: Mailing)
    requires Shaped(sys) && sys.run.Running? && sys.run.queue != [] && sys.run.out.None?
    ensures Enabled(sys, Remind(m)) && Shaped(Next(sys, Remind(m))) && Enabled(Next(sys, Remind(m)), Record)
    ensures var o := sys.run.queue[0];
            var end := Next(Next(sys, Remind(m)), Record);
            && Shaped(end)
            && end.orders == sys.orders[o := Written(sys.orders[o], sys.run.copies[o], m, sys.run.now)]
            && end.mails == sys.mails[o := sys.mails[o] + MailsOf(sys.run.copies[o], m)]
            && end.skipped == sys.skipped[o := sys.skipped[o] + SkippedOf(sys.run.copies[o], m)]
            && end.run == sys.run.(queue := sys.run.queue[1..])
  {
  }

  lemma RestOfBatch(orders: map<OrderId, Order>, mails: map<OrderId, seq<Mail>>, skipped: map<OrderId, set<UserId>>,
                    o: OrderId, rest: seq<OrderId>, how: OrderId -> Mailing, now: Time)
    requires orders.Keys == mails.Keys == skipped.Keys && o in orders && o !in rest
    ensures var row := Written(orders[o], orders[o], how(o), now);
            var list, more := mails[o] + MailsOf(orders[o], how(o)), skipped[o] + SkippedOf(orders[o], how(o));
            && OrdersAfter(orders[o := row], rest, how, now) == OrdersAfter(orders, [o] + rest, how, now)
            && MailsAfter(orders[o := row], mails[o := list], rest, how) == MailsAfter(orders, mails, [o] + rest, how)
            && SkippedAfter(orders[o := row], skipped[o := more], rest, how) ==
                 SkippedAfter(orders, skipped, [o] + rest, how)
  {
  }

  function RanBatch(sys: System, how: OrderId -> Mailing): System
    requires Shaped(sys) && sys.run.Running?
  {
    System(OrdersAfter(sys.orders, sys.run.queue, how, sys.run.now),
           MailsAfter(sys.orders, sys.mails, sys.run.queue, how),
           SkippedAfter(sys.orders, sys.skipped, sys.run.queue, how), sys.run.(queue := []))
  }

  lemma RanBatchSteps(sys: System, how: OrderId -> Mailing)
    requires Shaped(sys) && sys.run.Running? && sys.run.queue != [] && sys.run.out.None?
    requires forall o <- sys.run.queue :: sys.run.copies[o] == sys.orders[o]
    ensures var m := how(sys.run.queue[0]);
            && Enabled(sys, Remind(m)) && Shaped(Next(sys, Remind(m))) && Enabled(Next(sys, Remind(m)), Record)
            && var written := Next(Next(sys, Remind(m)), Record);
            && Shaped(written) && written.run == sys.run.(queue := sys.run.queue[1..])
            && (forall o <- written.run.queue :: written.run.copies[o] == written.orders[o])
            && RanBatch(written, how) == RanBatch(sys, how)
  {
    var o, rest := sys.run.queue[0], sys.run.queue[1..];
    FirstReminded(sys, how(o));
    RestOfBatch(sys.orders, sys.mails, sys.skipped, o, rest, how, sys.run.now);
    assert sys.run.queue == [o] + rest;
  }

  /** Left alone, a run writes each order of its batch once. */
  lemma {:induction false} UndisturbedRun(sys: System, how: OrderId -> Mailing)
    requires Shaped(sys) && sys.run.Running? && sys.run.out.None?
    requires forall o <- sys.run.queue :: sys.run.copies[o] == sys.orders[o]
    ensures OkRun(sys, RunEvents(sys.run.queue, how))
    ensures After(sys, RunEvents(sys.run.queue, how)) == RanBatch(sys, how)
    decreases |sys.run.queue|
  {
    var queue := sys.run.queue;
    if queue == [] {
      NothingToDo(sys, how);
    } else {
      var m, rest := how(queue[0]), RunEvents(queue[1..], how);
      RanBatchSteps(sys, how);
      var mailed := Next(sys, Remind(m));
      UndisturbedRun(Next(mailed, Record), how);
      FirstEvent(mailed, Record, rest);
      FirstEvent(sys, Remind(m), [Record] + rest);
      assert RunEvents(queue, how) == [Remind(m)] + ([Record] + rest);
    }
  }

  lemma NothingToDo(sys: System, how: OrderId -> Mailing)
    requires Shaped(sys) && sys.run.Running? && sys.run.out.None? && sys.run.queue == []
    ensures RanBatch(sys, how) == sys
  {
  }

  lemma {:induction false} LastEvent(sys: System, events: seq<Event>, e: Event)
    requires Shaped(sys) && OkRun(sys, events) && Shaped(After(sys, events))
    requires Enabled(After(sys, events), e) && Shaped(Next(After(sys, events), e))
    ensures OkRun(sys, events + [e]) && After(sys, events + [e]) == Next(After(sys, events), e)
    decreases |events|
  {
    if events == [] {
      FirstEvent(sys, e, []);
      assert [] + [e] == [e] + [];
    } else {
      LastEvent(Next(sys, events[0]), events[1..], e);
      FirstEvent(sys, events[0], events[1..] + [e]);
      assert events + [e] == [events[0]] + (events[1..] + [e]);
    }
  }

  /** A whole run, from its query to its end: what `MeetupReminderView.Run`
      leaves behind. */
  lemma WholeRun(sys: System, now: Time, due: seq<OrderId>, how: OrderId -> Mailing)
    requires Shaped(sys) && sys.run.Idle? && QueryResult(sys.orders, now, due)
    ensures var events := [StartRun(now, due)] + RunEvents(Batch(due), how) + [EndRun];
            && OkRun(sys, events)
            && After(sys, events) == System(OrdersAfter(sys.orders, Batch(due), how, now),
                                            MailsAfter(sys.orders, sys.mails, Batch(due), how),
                                            SkippedAfter(sys.orders, sys.skipped, Batch(due), how), Idle)
  {
    var start := StartRun(now, due);
    var started := Next(sys, start);
    NextIsShaped(sys, start);
    UndisturbedRun(started, how);
    var steps := RunEvents(Batch(due), how);
    NextIsShaped(After(started, steps), EndRun);
    LastEvent(started, steps, EndRun);
    FirstEvent(sys, start, steps + [EndRun]);
    assert [start] + steps + [EndRun] == [start] + (steps + [EndRun]);
  }

  // ----- The run as the view does it -----

  datatype Party = Buyer | Seller

  /** An entry of `targets`; `mail` is false for the second entry of one person. */
  datatype Target = Target(mail: bool, user: UserId, party: Party)

  function TargetsOf(order: Order): seq<Target> {
    (if order.buyerSent.None? then [Target(true, order.buyer, Buyer)] else []) +
    (if order.sellerSent.None? then
       [Target(!(order.seller == order.buyer && order.buyerSent.None?), order.seller, Seller)] else [])
  }

  function MailedIn(targets: seq<Target>, m: Mailing): seq<UserId> {
    if targets == [] then []
    else
      var last := targets[|targets| - 1];
      MailedIn(targets[..|targets| - 1], m) + if last.mail && m.Mails(last.user) then [last.user] else []
  }

  function MarkedIn(targets: seq<Target>, m: Mailing): set<Party> {
    if targets == [] then {}
    else
      var before, last := targets[..|targets| - 1], targets[|targets| - 1];
      MarkedIn(before, m) +
      if last.user !in m.reachable || (if last.mail then last.user in m.delivered else last.user in MailedIn(before, m))
      then {last.party} else {}
  }

  /** The mails a run sent, with the time they gave. */
  function Announced(users: seq<UserId>, about: Option<Time>): seq<Mail> {
    seq(|users|, i requires 0 <= i < |users| => Mail(users[i], about))
  }

  lemma TargetsDone(order: Order, m: Mailing)
    ensures Announced(MailedIn(TargetsOf(order), m), order.meetup) == MailsOf(order, m)
    ensures Buyer in MarkedIn(TargetsOf(order), m) <==> order.buyerSent.None? && m.Handles(order.buyer)
    ensures Seller in MarkedIn(TargetsOf(order), m) <==> order.sellerSent.None? && m.Handles(order.seller)
  {
    var buyer := Target(true, order.buyer, Buyer);
    var seller := Target(!(order.seller == order.buyer && order.buyerSent.None?), order.seller, Seller);
    OneTarget(buyer, m);
    OneTarget(seller, m);
    TwoTargets(buyer, seller, m);
  }

  lemma OneTarget(only: Target, m: Mailing)
    ensures MailedIn([only], m) == if only.mail && m.Mails(only.user) then [only.user] else []
    ensures only.mail ==> MarkedIn([only], m) == if m.Handles(only.user) then {only.party} else {}
  {
  }

  lemma TwoTargets(first: Target, second: Target, m: Mailing)
    requires first.mail
    ensures MailedIn([first, second], m) == MailedIn([first], m) + MailedIn([second], m)
    ensures second.mail || second.user == first.user ==>
              MarkedIn([first, second], m) ==
                MarkedIn([first], m) + if m.Handles(second.user) then {second.party} else {}
  {
  }

  lemma OneMoreWritten(orders: map<OrderId, Order>, mails: map<OrderId, seq<Mail>>, done: seq<OrderId>, o: OrderId,
                       how: OrderId -> Mailing, now: Time)
    requires orders.Keys == mails.Keys && o in orders && o !in done
    ensures var row := Written(orders[o], orders[o], how(o), now);
            var list := mails[o] + MailsOf(orders[o], how(o));
            && OrdersAfter(orders, done, how, now)[o := row] == OrdersAfter(orders, done + [o], how, now)
            && MailsAfter(orders, mails, done, how)[o := list] == MailsAfter(orders, mails, done + [o], how)
  {
  }

  class MeetupReminderView {
    var orders: map<OrderId, Order>
    var mails: map<OrderId, seq<Mail>>

    constructor (orders: map<OrderId, Order>, mails: map<OrderId, seq<Mail>>)
      ensures this.orders == orders && this.mails == mails
    {
      this.orders, this.mails := orders, mails;
    }

    static method PickTargets(order: Order) returns (targets: seq<Target>)
      ensures targets == TargetsOf(order)
    {
      targets := [];
      var seen: set<UserId> := {};
      if order.buyerSent.None? {
        targets := targets + [Target(order.buyer !in seen, order.buyer, Buyer)];
        seen := seen + {order.buyer};
      }
      if order.sellerSent.None? {
        targets := targets + [Target(order.seller !in seen, order.seller, Seller)];
      }
    }

    /** Mails the targets in turn; a failed mail leaves its party unmarked. */
    static method MailTargets(targets: seq<Target>, m: Mailing) returns (mailed: seq<UserId>, marked: set<Party>)
      ensures mailed == MailedIn(targets, m) && marked == MarkedIn(targets, m)
    {
      mailed, marked := [], {};
      for i := 0 to |targets|
        invariant mailed == MailedIn(targets[..i], m) && marked == MarkedIn(targets[..i], m)
      {
        assert targets[..i + 1][..i] == targets[..i];
        var target := targets[i];
        if target.user !in m.reachable {
          marked := marked + {target.party};
        } else if !target.mail {
          if target.user in mailed {
            marked := marked + {target.party};
          }
        } else if target.user in m.delivered {
          marked := marked + {target.party};
          mailed := mailed + [target.user];
        }
      }
      assert targets[..|targets|] == targets;
    }

    /** cron/views.py, MeetupReminderView._run, with nothing in between. */
    method Run(now: Time, due: seq<OrderId>, how: OrderId -> Mailing)
      requires orders.Keys == mails.Keys && QueryResult(orders, now, due)
      modifies this
      ensures orders == OrdersAfter(old(orders), Batch(due), how, now)
      ensures mails == MailsAfter(old(orders), old(mails), Batch(due), how)
    {
      RemindBatch(Batch(due), now, how);
    }

    method RemindBatch(batch: seq<OrderId>, now: Time, how: OrderId -> Mailing)
      requires orders.Keys == mails.Keys
      requires forall o <- batch :: o in orders && orders[o].allSent.None?
      requires forall i, j :: 0 <= i < j < |batch| ==> batch[i] != batch[j]
      modifies this
      ensures orders == OrdersAfter(old(orders), batch, how, now)
      ensures mails == MailsAfter(old(orders), old(mails), batch, how)
    {
      for i := 0 to |batch|
        invariant orders == OrdersAfter(old(orders), batch[..i], how, now)
        invariant mails == MailsAfter(old(orders), old(mails), batch[..i], how)
      {
        var o := batch[i];
        assert o !in batch[..i] && batch[..i + 1] == batch[..i] + [o];
        assert orders[o] == old(orders)[o] && mails[o] == old(mails)[o];
        RemindOrder(o, how(o), now);
        OneMoreWritten(old(orders), old(mails), batch[..i], o, how, now);
      }
      assert batch[..|batch|] == batch;
    }

    method RemindOrder(o: OrderId, m: Mailing, now: Time)
      requires o in orders && o in mails && orders[o].allSent.None?
      modifies this
      ensures orders == old(orders)[o := Written(old(orders)[o], old(orders)[o], m, now)]
      ensures mails == old(mails)[o := old(mails)[o] + MailsOf(old(orders)[o], m)]
    {
      var order := orders[o];
      var targets := PickTargets(order);
      TargetsDone(order, m);
      if targets == [] {
        orders := orders[o := order.(allSent := Some(now))];
        assert MailsOf(order, m) == [] && mails[o] + [] == mails[o];
        return;
      }
      var mailed, marked := MailTargets(targets, m);
      mails := mails[o := mails[o] + Announced(mailed, order.meetup)];
      var row := order;
      if Buyer in marked { row := row.(buyerSent := Some(now)); }
      if Seller in marked { row := row.(sellerSent := Some(now)); }
      var buyerDone := Buyer in marked || order.buyerSent.Some?;
      var sellerDone := Seller in marked || order.sellerSent.Some?;
      if marked != {} && buyerDone && sellerDone {
        row := row.(allSent := Some(now));
      }
      orders := orders[o := row];
    }
  }
}
