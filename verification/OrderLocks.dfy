/**
 Order updates, platform cancels and seller edits under row locks
 (orders/services.py `lock_order`, ListingDetailView._patch): a stale unlocked
 read, the listing's lock, the order's lock, a fresh read of each row, and a
 commit that writes what was decided and releases the locks.

 Uncommitted writes are visible to nobody, so a transaction's writes are made
 at its commit. `log` is history: the transactions in the order they ended.
 */
module OrderLocks {
  import opened Common
  import opened Marketplace

  datatype Tx =
    | OrderTx(order: OrderId, move: Move)
    | EditTx(listing: ListingId, user: UserId, newStatus: Option<ListingStatus>, details: int)

  datatype Move = ByUser(user: UserId, status: Option<OrderStatus>, meetup: bool) | ByPlatform

  datatype Stage =
    | Start
    | Seen(key: Option<ListingId>)
    | ListingLocked
    | OrderLocked(order: Order)
    | Loaded(orderCopy: Option<Order>, listingCopy: Option<Listing>)
    | Done

  datatype World = World(m: Market, txs: map<nat, Tx>, stages: map<nat, Stage>,
                         listingLock: map<ListingId, nat>, orderLock: map<OrderId, nat>, log: seq<nat>)

  /** The transaction as one atomic operation. */
  function OperationOf(tx: Tx): Operation {
    match tx
    case OrderTx(o, ByUser(user, status, meetup)) => UpdateOrder(o, user, status, meetup)
    case OrderTx(o, ByPlatform) => PlatformCancel(o)
    case EditTx(l, user, newStatus, details) => SellerEdit(l, user, newStatus, details)
  }

  /** The listing row the transaction locks, if there is one. */
  function ListingKey(m: Market, tx: Tx): Option<ListingId> {
    match tx
    case OrderTx(o, _) =>
      if o in m.orders && m.orders[o].listing.Some? && m.orders[o].listing.value in m.listings
      then m.orders[o].listing else None
    case EditTx(l, _, _, _) => if l in m.listings then Some(l) else None
  }

  /** The unlocked read finds nothing the user may act on: the view returns. */
  predicate TurnedAway(m: Market, tx: Tx) {
    match tx
    case OrderTx(o, ByUser(user, _, _)) =>
      o !in m.orders || user in m.deleted || (user != m.orders[o].buyer && user != m.orders[o].seller)
    case OrderTx(o, ByPlatform) => o !in m.orders
    case EditTx(l, user, _, _) => l !in m.listings || user in m.deleted || user != m.listings[l].seller
  }

  /** The rows a transaction that has loaded its copies writes. */
  function Committed(m: Market, tx: Tx, order: Option<Order>, listing: Option<Listing>): Market {
    match tx
    case OrderTx(o, move) =>
      if o !in m.orders || order.None? then m
      else Applied(m, o, match move
                         case ByUser(user, status, meetup) => DecideUpdate(order.value, listing, user, status, meetup)
                         case ByPlatform => DecideCancel(order.value, listing))
    case EditTx(l, user, newStatus, details) =>
      if listing.None? then m
      else
        var row := DecideEdit(listing.value, user, newStatus, details);
        if row.None? then m else m.(listings := m.listings[l := row.value])
  }

  predicate Pending(w: World, t: nat) {
    t in w.txs && t in w.stages && !w.stages[t].Done?
  }

  /** Not waiting for a lock somebody else holds. */
  predicate CanStep(w: World, t: nat) {
    && Pending(w, t)
    && match w.stages[t]
       case Seen(key) => key.Some? ==> key.value !in w.listingLock
       case ListingLocked => w.txs[t].OrderTx? ==> w.txs[t].order !in w.orderLock
       case _ => true
  }

  function At(w: World, t: nat, stage: Stage): World {
    w.(stages := w.stages[t := stage])
  }

  /** One step of transaction `t`; a blocked one stays where it is. */
  function Step(w: World, t: nat): World {
    if !CanStep(w, t) then w else
    var tx := w.txs[t];
    match w.stages[t]
    case Start =>
      if TurnedAway(w.m, tx) then At(w, t, Done).(log := w.log + [t])
      else At(w, t, Seen(ListingKey(w.m, tx)))
    case Seen(key) =>
      if key.None? then At(w, t, ListingLocked)
      else At(w, t, ListingLocked).(listingLock := w.listingLock[key.value := t])
    case ListingLocked =>
      (match tx
       case OrderTx(o, _) =>
         if o !in w.m.orders then w
         else At(w, t, OrderLocked(w.m.orders[o])).(orderLock := w.orderLock[o := t])
       case EditTx(l, _, _, _) => At(w, t, Loaded(None, if l in w.m.listings then Some(w.m.listings[l]) else None)))
    case OrderLocked(order) => At(w, t, Loaded(Some(order), ListingOf(w.m, order)))
    case Loaded(order, listing) =>
      Ended(w, t, Committed(w.m, tx, order, listing))
  }

  /** Commit: the new state is visible and the locks are released. */
  function Ended(w: World, t: nat, m: Market): World {
    At(w, t, Done).(m := m, log := w.log + [t],
                    listingLock := map l | l in w.listingLock && w.listingLock[l] != t :: w.listingLock[l],
                    orderLock := map o | o in w.orderLock && w.orderLock[o] != t :: w.orderLock[o])
  }

  function Interleaved(w: World, schedule: seq<nat>): World
    decreases |schedule|
  {
    if schedule == [] then w else Interleaved(Step(w, schedule[0]), schedule[1..])
  }

  function Initial(m: Market, txs: map<nat, Tx>): World {
    World(m, txs, map t | t in txs :: Start, map[], map[], [])
  }

  // ----- The locks -----

  predicate HasListingLock(stage: Stage) {
    stage.ListingLocked? || stage.OrderLocked? || stage.Loaded?
  }

  predicate HasOrderLock(w: World, t: nat)
    requires t in w.txs && t in w.stages
  {
    w.txs[t].OrderTx? && (w.stages[t].OrderLocked? || w.stages[t].Loaded?)
  }

  /** A transaction past a lock call holds that lock. */
  predicate HoldsItsLocks(w: World, t: nat)
    requires t in w.txs && t in w.stages
  {
    && (HasListingLock(w.stages[t]) && ListingKey(w.m, w.txs[t]).Some? ==>
          var l := ListingKey(w.m, w.txs[t]).value; l in w.listingLock && w.listingLock[l] == t)
    && (HasOrderLock(w, t) ==> w.txs[t].order in w.orderLock && w.orderLock[w.txs[t].order] == t)
  }

  /** And a held lock's holder is one of those. */
  predicate ListingLockOk(w: World, l: ListingId)
    requires l in w.listingLock
  {
    var t := w.listingLock[l];
    t in w.txs && t in w.stages && HasListingLock(w.stages[t]) && ListingKey(w.m, w.txs[t]) == Some(l)
  }

  predicate OrderLockOk(w: World, o: OrderId)
    requires o in w.orderLock
  {
    var t := w.orderLock[o];
    t in w.txs && t in w.stages && HasOrderLock(w, t) && w.txs[t].order == o
  }

  predicate LocksOk(w: World) {
    && w.stages.Keys == w.txs.Keys
    && (forall t <- w.txs :: HoldsItsLocks(w, t))
    && (forall l <- w.listingLock :: ListingLockOk(w, l))
    && (forall o <- w.orderLock :: OrderLockOk(w, o))
  }

  /** What a transaction has read is still what is committed: the stale copy's
      listing id always, the rows it read under a lock while it holds it. */
  predicate CopiesOk(w: World, t: nat)
    requires t in w.txs && t in w.stages
  {
    var tx, stage := w.txs[t], w.stages[t];
    && (!stage.Start? && !stage.Done? ==>
          && !TurnedAway(w.m, tx)
          && (stage.Seen? ==> stage.key == ListingKey(w.m, tx)))
    && (stage.OrderLocked? ==>
          tx.OrderTx? && tx.order in w.m.orders && stage.order == w.m.orders[tx.order])
    && (stage.Loaded? ==>
          match tx
          case OrderTx(o, _) =>
            o in w.m.orders && stage.orderCopy == Some(w.m.orders[o]) && stage.listingCopy == ListingOf(w.m, w.m.orders[o])
          case EditTx(l, _, _, _) =>
            l in w.m.listings && stage.listingCopy == Some(w.m.listings[l]))
  }

  /** What no transaction of this kind changes. */
  ghost predicate SameShape(m: Market, m': Market) {
    && m'.deleted == m.deleted && m'.orders.Keys == m.orders.Keys && m'.listings.Keys == m.listings.Keys
    && (forall o <- m.orders :: m'.orders[o] == m.orders[o].(status := m'.orders[o].status))
    && (forall l <- m.listings :: m'.listings[l].seller == m.listings[l].seller)
  }

  predicate Ok(w: World) {
    LocksOk(w) && forall t <- w.txs :: CopiesOk(w, t)
  }

  lemma InitialOk(m: Market, txs: map<nat, Tx>)
    ensures Ok(Initial(m, txs))
  {
  }

  /** Some transaction can always step: no schedule deadlocks. */
  lemma NoDeadlock(w: World, t: nat)
    requires Ok(w) && Pending(w, t)
    ensures exists u :: CanStep(w, u)
  {
    assert CopiesOk(w, t);
    if CanStep(w, t) {
    } else {
      if w.stages[t].Seen? {
        assert ListingLockOk(w, w.stages[t].key.value);
        var u := w.listingLock[w.stages[t].key.value];
        if !CanStep(w, u) {
          HolderOfOrderSteps(w, u);
        }
      } else {
        HolderOfOrderSteps(w, t);
      }
    }
  }

  /** Whoever holds an order another transaction waits for waits for nothing. */
  lemma HolderOfOrderSteps(w: World, t: nat)
    requires Ok(w) && Pending(w, t) && w.stages[t].ListingLocked? && !CanStep(w, t)
    ensures w.txs[t].OrderTx? && w.txs[t].order in w.orderLock && CanStep(w, w.orderLock[w.txs[t].order])
  {
  }

  // ----- Each commit is the atomic operation -----

  lemma CommitIsAtomic(w: World, t: nat)
    requires Ok(w) && Pending(w, t) && w.stages[t].Loaded?
    ensures Step(w, t).m == Next(w.m, OperationOf(w.txs[t]))
    ensures SameShape(w.m, Step(w, t).m)
  {
    assert CopiesOk(w, t);
    assert Step(w, t).m == Next(w.m, OperationOf(w.txs[t]));
    OperationsKeepShape(w.m, w.txs[t]);
  }

  lemma OperationsKeepShape(m: Market, tx: Tx)
    ensures SameShape(m, Next(m, OperationOf(tx)))
  {
  }

  lemma TurnedAwayChangesNothing(m: Market, tx: Tx)
    requires TurnedAway(m, tx)
    ensures Next(m, OperationOf(tx)) == m
  {
  }

  /** Rows locked by another transaction are as they were. */
  predicate SparesOthers(w: World, t: nat, m: Market) {
    && (forall o <- w.m.orders :: o in m.orders && (m.orders[o] != w.m.orders[o] ==> o in w.orderLock && w.orderLock[o] == t))
    && (forall l <- w.m.listings ::
          l in m.listings && (m.listings[l] != w.m.listings[l] ==> l in w.listingLock && w.listingLock[l] == t))
  }

  /** A commit writes only rows it has locked. */
  lemma CommitWritesLockedRows(w: World, t: nat)
    requires Ok(w) && Pending(w, t) && w.stages[t].Loaded?
    ensures SparesOthers(w, t, Step(w, t).m)
  {
  }

  lemma KeysKept(m: Market, m': Market, tx: Tx)
    requires SameShape(m, m')
    ensures ListingKey(m', tx) == ListingKey(m, tx) && (TurnedAway(m', tx) <==> TurnedAway(m, tx))
  {
  }

  lemma CopiesKeptByEnd(w: World, t: nat, u: nat, m: Market)
    requires u in w.txs && u in w.stages && u != t && HoldsItsLocks(w, u) && CopiesOk(w, u)
    requires SameShape(w.m, m) && SparesOthers(w, t, m)
    ensures u in Ended(w, t, m).stages && CopiesOk(Ended(w, t, m), u)
  {
    KeysKept(w.m, m, w.txs[u]);
  }

  lemma CopiesKeptByCommit(w: World, t: nat, u: nat)
    requires Ok(w) && Pending(w, t) && w.stages[t].Loaded? && u in w.txs
    ensures u in Step(w, t).stages && CopiesOk(Step(w, t), u)
  {
    CommitIsAtomic(w, t);
    CommitWritesLockedRows(w, t);
    assert Step(w, t) == Ended(w, t, Step(w, t).m);
    if u != t {
      CopiesKeptByEnd(w, t, u, Step(w, t).m);
    }
  }

  lemma LocksKeptByEnd(w: World, t: nat, m: Market)
    requires LocksOk(w) && t in w.txs && SameShape(w.m, m)
    ensures LocksOk(Ended(w, t, m))
  {
    var w' := Ended(w, t, m);
    forall u <- w.txs ensures HoldsItsLocks(w', u) && ListingKey(m, w.txs[u]) == ListingKey(w.m, w.txs[u]) {
      KeysKept(w.m, m, w.txs[u]);
      assert HoldsItsLocks(w, u);
    }
    forall l <- w'.listingLock ensures ListingLockOk(w', l) {
      assert ListingLockOk(w, l);
    }
    forall o <- w'.orderLock ensures OrderLockOk(w', o) {
      assert OrderLockOk(w, o);
    }
  }

  lemma LocksHeldAfterAcquiring(w: World, t: nat, u: nat)
    requires Ok(w) && CanStep(w, t) && !w.stages[t].Loaded? && u in w.txs
    ensures u in Step(w, t).stages && HoldsItsLocks(Step(w, t), u)
  {
    assert CopiesOk(w, t) && HoldsItsLocks(w, t) && HoldsItsLocks(w, u);
  }

  lemma HoldersAfterAcquiring(w: World, t: nat)
    requires Ok(w) && CanStep(w, t) && !w.stages[t].Loaded?
    ensures var w' := Step(w, t);
            && (forall l <- w'.listingLock :: ListingLockOk(w', l))
            && (forall o <- w'.orderLock :: OrderLockOk(w', o))
  {
    var w' := Step(w, t);
    assert CopiesOk(w, t);
    forall l <- w'.listingLock ensures ListingLockOk(w', l) {
      assert l in w.listingLock ==> ListingLockOk(w, l);
    }
    forall o <- w'.orderLock ensures OrderLockOk(w', o) {
      assert o in w.orderLock ==> OrderLockOk(w, o);
    }
  }

  lemma CopiesKeptByAcquiring(w: World, t: nat, u: nat)
    requires Ok(w) && CanStep(w, t) && !w.stages[t].Loaded? && u in w.txs
    ensures u in Step(w, t).stages && CopiesOk(Step(w, t), u)
  {
    assert CopiesOk(w, t) && CopiesOk(w, u);
  }

  lemma AcquiringKeepsTxs(w: World, t: nat)
    requires w.stages.Keys == w.txs.Keys && CanStep(w, t) && !w.stages[t].Loaded?
    ensures Step(w, t).txs == w.txs && Step(w, t).stages.Keys == w.txs.Keys
  {
  }

  lemma AllPartsOk(w: World)
    requires w.stages.Keys == w.txs.Keys
    requires forall u <- w.txs :: HoldsItsLocks(w, u) && CopiesOk(w, u)
    requires forall l <- w.listingLock :: ListingLockOk(w, l)
    requires forall o <- w.orderLock :: OrderLockOk(w, o)
    ensures Ok(w)
  {
  }

  lemma OkAfterAcquiring(w: World, t: nat)
    requires Ok(w) && CanStep(w, t) && !w.stages[t].Loaded?
    ensures Ok(Step(w, t))
  {
    AcquiringKeepsTxs(w, t);
    HoldersAfterAcquiring(w, t);
    forall u <- w.txs ensures u in Step(w, t).stages && HoldsItsLocks(Step(w, t), u) && CopiesOk(Step(w, t), u) {
      LocksHeldAfterAcquiring(w, t, u);
      CopiesKeptByAcquiring(w, t, u);
    }
    AllPartsOk(Step(w, t));
  }

  lemma OkAfterCommit(w: World, t: nat)
    requires Ok(w) && CanStep(w, t) && w.stages[t].Loaded?
    ensures Ok(Step(w, t))
  {
    var w' := Step(w, t);
    CommitIsAtomic(w, t);
    LocksKeptByEnd(w, t, w'.m);
    assert w' == Ended(w, t, w'.m);
    forall u <- w.txs ensures u in w'.stages && CopiesOk(w', u) {
      CopiesKeptByCommit(w, t, u);
    }
  }

  lemma OkStep(w: World, t: nat)
    requires Ok(w)
    ensures Ok(Step(w, t))
  {
    if CanStep(w, t) {
      if w.stages[t].Loaded? {
        OkAfterCommit(w, t);
      } else {
        OkAfterAcquiring(w, t);
      }
    }
  }

  // ----- Every interleaving is some serial order -----

  function Operations(txs: map<nat, Tx>, log: seq<nat>): seq<Operation>
    requires forall t <- log :: t in txs
  {
    seq(|log|, i requires 0 <= i < |log| => OperationOf(txs[log[i]]))
  }

  /** The committed state is the ended transactions, run one after the other in
      the order they ended, each once. */
  ghost predicate Serial(w: World, m0: Market) {
    && (forall t <- w.log :: t in w.txs)
    && (forall i, j :: 0 <= i < j < |w.log| ==> w.log[i] != w.log[j])
    && (forall t <- w.txs :: t in w.stages && (w.stages[t].Done? <==> t in w.log))
    && w.m == Run(m0, Operations(w.txs, w.log))
  }

  lemma {:induction false} RunOneMore(m: Market, ops: seq<Operation>, op: Operation)
    ensures Run(m, ops + [op]) == Next(Run(m, ops), op)
    decreases |ops|
  {
    if ops == [] {
      assert ops + [op] == [op];
    } else {
      assert (ops + [op])[1..] == ops[1..] + [op];
      RunOneMore(Next(m, ops[0]), ops[1..], op);
    }
  }

  /** A transaction ends with its atomic operation done, or goes on with
      nothing committed. */
  lemma EndsOrGoesOn(w: World, t: nat)
    requires Ok(w) && CanStep(w, t)
    ensures var w' := Step(w, t);
            && w'.txs == w.txs
            && (|| (w'.stages == w.stages[t := Done] && w'.log == w.log + [t] && w'.m == Next(w.m, OperationOf(w.txs[t])))
                || (w'.log == w.log && w'.m == w.m && exists stage: Stage :: !stage.Done? && w'.stages == w.stages[t := stage]))
  {
    assert CopiesOk(w, t);
    if w.stages[t].Loaded? {
      CommitIsAtomic(w, t);
    } else if w.stages[t].Start? && TurnedAway(w.m, w.txs[t]) {
      TurnedAwayChangesNothing(w.m, w.txs[t]);
    } else {
      var stage := Step(w, t).stages[t];
      assert !stage.Done? && Step(w, t).stages == w.stages[t := stage];
    }
  }

  lemma SerialStep(w: World, t: nat, m0: Market)
    requires Ok(w) && Serial(w, m0)
    ensures Serial(Step(w, t), m0) && Step(w, t).txs == w.txs
  {
    if CanStep(w, t) {
      EndsOrGoesOn(w, t);
      SerialAfter(w, Step(w, t), t, m0);
    }
  }

  lemma SerialAfter(w: World, w': World, t: nat, m0: Market)
    requires Serial(w, m0) && Pending(w, t) && w'.txs == w.txs
    requires || (w'.stages == w.stages[t := Done] && w'.log == w.log + [t] && w'.m == Next(w.m, OperationOf(w.txs[t])))
             || (w'.log == w.log && w'.m == w.m && exists stage: Stage :: !stage.Done? && w'.stages == w.stages[t := stage])
    ensures Serial(w', m0)
  {
    if w'.log == w.log + [t] {
      var ops := Operations(w.txs, w.log);
      assert Operations(w'.txs, w'.log) == ops + [OperationOf(w.txs[t])];
      RunOneMore(m0, ops, OperationOf(w.txs[t]));
    }
  }

  lemma {:induction false} SerialOverSchedule(w: World, schedule: seq<nat>, m0: Market)
    requires Ok(w) && Serial(w, m0)
    ensures Ok(Interleaved(w, schedule)) && Serial(Interleaved(w, schedule), m0)
    ensures Interleaved(w, schedule).txs == w.txs
    decreases |schedule|
  {
    if schedule != [] {
      OkStep(w, schedule[0]);
      SerialStep(w, schedule[0], m0);
      SerialOverSchedule(Step(w, schedule[0]), schedule[1..], m0);
    }
  }

  /** A run in which every transaction ended: the final state is that of the
      same transactions run atomically in some order, and every state of the
      run can still move until then. */
  lemma EveryRunIsSerializable(m: Market, txs: map<nat, Tx>, schedule: seq<nat>)
    ensures var w := Interleaved(Initial(m, txs), schedule);
            && (forall t :: Pending(w, t) ==> exists u :: CanStep(w, u))
            && ((forall t :: !Pending(w, t)) ==>
                  && (forall t :: t in w.log <==> t in txs)
                  && (forall i, j :: 0 <= i < j < |w.log| ==> w.log[i] != w.log[j])
                  && w.m == Run(m, Operations(txs, w.log)))
  {
    var w0 := Initial(m, txs);
    InitialOk(m, txs);
    assert Operations(txs, []) == [];
    assert Serial(w0, m);
    SerialOverSchedule(w0, schedule, m);
    var w := Interleaved(w0, schedule);
    forall t | Pending(w, t) ensures exists u :: CanStep(w, u) {
      NoDeadlock(w, t);
    }
    if forall t :: !Pending(w, t) {
      forall t ensures t in w.log <==> t in txs {
        assert t in txs ==> !Pending(w, t);
      }
    }
  }

  function Rank(stage: Stage): nat {
    match stage
    case Start => 5
    case Seen(_) => 4
    case ListingLocked => 3
    case OrderLocked(_) => 2
    case Loaded(_, _) => 1
    case Done => 0
  }

  /** A step that can be taken brings its transaction nearer its end and moves
      no other, so a schedule that keeps stepping finishes them all. */
  lemma StepsMakeProgress(w: World, t: nat)
    requires Ok(w) && CanStep(w, t)
    ensures var w' := Step(w, t);
            && w'.stages.Keys == w.stages.Keys && Rank(w'.stages[t]) < Rank(w.stages[t])
            && forall u <- w.stages :: u != t ==> w'.stages[u] == w.stages[u]
  {
    assert CopiesOk(w, t);
  }
}
