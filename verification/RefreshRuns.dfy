/**
 Any number of refresh and sign-out requests interleaved at store calls, with
 sign-ins, revocations, purges and a clock in between.

 `issued` and `delivered` are history: the sign-in each jti descends from, and
 the jtis some reply handed to a client. No step of the program reads them.
 */
module RefreshRuns {
  import opened Common
  import opened TokenStore
  import opened RefreshRequest

  datatype SignIn = SignIn(head: Jti, user: UserId)

  datatype Thread = Thread(request: Request, stage: Stage)

  datatype System = System(rows: Rows, now: Time, threads: map<nat, Thread>,
                           issued: map<Jti, SignIn>, delivered: set<Jti>)

  datatype Event =
    | NewSignIn(user: UserId, jti: Jti)
    | BeginRefresh(tid: nat, request: Request)
    | BeginSignOut(tid: nat, request: Request)
    | Call(tid: nat, up: bool, newJti: Jti, account: Account)
    | RevokeEverything(user: UserId)
    | Purge
    | Tick(now: Time)

  predicate Unused(s: System, jti: Jti) {
    jti !in s.issued && jti !in s.rows
  }

  /** A step that cannot be taken changes nothing. */
  function Next(s: System, e: Event): System {
    match e
    case NewSignIn(user, jti) =>
      if !Unused(s, jti) then s
      else s.(rows := Recorded(s.rows, jti, user, jti, s.now), issued := s.issued[jti := SignIn(jti, user)],
              delivered := s.delivered + {jti})
    case BeginRefresh(tid, request) =>
      if tid in s.threads then s else s.(threads := s.threads[tid := Thread(request, AtGrace)])
    case BeginSignOut(tid, request) =>
      if tid in s.threads then s else s.(threads := s.threads[tid := Thread(request, AtVerify(SignedOut))])
    case Call(tid, up, newJti, account) =>
      if tid !in s.threads || s.threads[tid].stage.Done? then s
      else if s.threads[tid].stage.AtRecord? && !Unused(s, newJti) then s
      else CallStep(s, tid, up, newJti, account)
    case RevokeEverything(user) => s.(rows := AllRevoked(s.rows, user))
    case Purge => s.(rows := Purged(s.rows, s.now))
    case Tick(now) => if now < s.now then s else s.(now := now)
  }

  function CallStep(s: System, tid: nat, up: bool, newJti: Jti, account: Account): System
    requires tid in s.threads
  {
    var t := s.threads[tid];
    var (rows, stage) := Advance(s.rows, s.now, t.request, t.stage, up, newJti, account);
    s.(rows := rows, threads := s.threads[tid := t.(stage := stage)],
       issued := if t.stage.AtRecord? && stage.AtMark? then s.issued[newJti := Origin(s, t.request, newJti)] else s.issued,
       delivered := if stage.Done? && stage.answer.Tokens? then s.delivered + {stage.answer.pair.refresh} else s.delivered)
  }

  /** The sign-in a rotation of `r.jti` continues. */
  function Origin(s: System, r: Request, newJti: Jti): SignIn {
    if r.jti in s.issued then s.issued[r.jti] else SignIn(newJti, r.user)
  }

  function Run(s: System, events: seq<Event>): System
    decreases |events|
  {
    if events == [] then s else Run(Next(s, events[0]), events[1..])
  }

  // ----- What holds in every reachable state -----

  /** Past the whitelist check and before the rotation is recorded. */
  predicate Rotating(stage: Stage) {
    stage.AtFamily? || stage.AtRecord? || stage.AtMark?
  }

  predicate HistoryOk(s: System) {
    && (forall j <- s.issued :: s.issued[j].head in s.issued
          && s.issued[s.issued[j].head] == s.issued[j])
    && (forall j <- s.rows :: j in s.issued && s.rows[j].user == s.issued[j].user)
  }

  predicate ThreadOk(s: System, t: Thread) {
    && (Rotating(t.stage) ==> t.request.jti in s.issued && s.issued[t.request.jti].user == t.request.user)
    && (t.stage.AtMark? ==> t.stage.issued in s.issued && s.issued[t.stage.issued] == s.issued[t.request.jti])
  }

  predicate Ok(s: System) {
    HistoryOk(s) && forall tid <- s.threads :: ThreadOk(s, s.threads[tid])
  }

  lemma OkCall(s: System, tid: nat, up: bool, newJti: Jti, account: Account)
    requires Ok(s) && tid in s.threads
    requires s.threads[tid].stage.AtRecord? ==> Unused(s, newJti)
    ensures Ok(CallStep(s, tid, up, newJti, account))
  {
    var s' := CallStep(s, tid, up, newJti, account);
    var t := s.threads[tid];
    assert HistoryOk(s');
    forall i <- s'.threads ensures ThreadOk(s', s'.threads[i]) {
      assert i != tid ==> ThreadOk(s, s.threads[i]);
      assert ThreadOk(s, t);
    }
  }

  lemma OkNext(s: System, e: Event)
    requires Ok(s)
    ensures Ok(Next(s, e))
  {
    if e.Call? && Next(s, e) != s {
      OkCall(s, e.tid, e.up, e.newJti, e.account);
    } else {
      var s' := Next(s, e);
      forall i <- s'.threads ensures ThreadOk(s', s'.threads[i]) {
        assert i in s.threads ==> ThreadOk(s, s.threads[i]);
      }
    }
  }

  lemma {:induction false} OkRun(s: System, events: seq<Event>)
    requires Ok(s)
    ensures Ok(Run(s, events))
    decreases |events|
  {
    if events != [] {
      OkNext(s, events[0]);
      OkRun(Next(s, events[0]), events[1..]);
    }
  }

  // ----- Every row keeps the family of its sign-in -----

  predicate Kept(s: System) {
    && (forall j <- s.rows :: j in s.issued && ChainOf(j, s.rows[j]) == s.issued[j].head)
    && (forall tid <- s.threads :: KeptThread(s, s.threads[tid]))
  }

  /** A family a request is carrying is that of the sign-in it was read for. */
  predicate KeptThread(s: System, t: Thread) {
    && (t.stage.AtRecord? && t.stage.chain.Some? ==>
          t.request.jti in s.issued && t.stage.chain.value == s.issued[t.request.jti].head)
    && (t.stage.AtRevokeFamily? ==>
          t.request.jti in s.issued && t.stage.family == s.issued[t.request.jti].head
          && s.issued[t.request.jti].user == t.request.user)
  }

  /** The two ways a rotation loses its chain: `token_family` found no record,
      or the presented row was deleted before `mark_rotated` re-created it. */
  predicate Orphans(s: System, e: Event) {
    && e.Call? && e.up && e.tid in s.threads
    && var t := s.threads[e.tid];
       || (t.stage == AtRecord(None) && Unused(s, e.newJti))
       || (t.stage.AtMark? && t.request.jti !in s.rows
           && t.request.jti in s.issued && s.issued[t.request.jti].head != t.request.jti)
  }

  lemma KeptThreadsCall(s: System, tid: nat, up: bool, newJti: Jti, account: Account)
    requires Ok(s) && Kept(s) && tid in s.threads
    requires s.threads[tid].stage.AtRecord? ==> Unused(s, newJti)
    ensures var s' := CallStep(s, tid, up, newJti, account);
            forall i <- s'.threads :: KeptThread(s', s'.threads[i])
  {
  }

  lemma KeptCall(s: System, tid: nat, up: bool, newJti: Jti, account: Account)
    requires Ok(s) && Kept(s) && tid in s.threads
    requires s.threads[tid].stage.AtRecord? ==> Unused(s, newJti)
    ensures Kept(CallStep(s, tid, up, newJti, account)) <==> !Orphans(s, Call(tid, up, newJti, account))
  {
    KeptThreadsCall(s, tid, up, newJti, account);
    var s' := CallStep(s, tid, up, newJti, account);
    var t := s.threads[tid];
    assert ThreadOk(s, t) && KeptThread(s, t);
    if t.stage.AtRecord? && up {
      assert ChainOf(newJti, s'.rows[newJti]) == t.stage.chain.GetOr(newJti);
      assert s'.issued[newJti].head == s.issued[t.request.jti].head != newJti;
    } else if t.stage.AtMark? && up {
      var j := t.request.jti;
      assert ChainOf(j, s'.rows[j]) == if j in s.rows then ChainOf(j, s.rows[j]) else j;
    }
  }

  /** Exactly when one step keeps every row in the family of its sign-in. */
  lemma FamiliesKeptByStep(s: System, e: Event)
    requires Ok(s) && Kept(s)
    ensures Kept(Next(s, e)) <==> !Orphans(s, e)
  {
    if e.Call? && e.tid in s.threads && !s.threads[e.tid].stage.Done?
       && !(s.threads[e.tid].stage.AtRecord? && !Unused(s, e.newJti)) {
      KeptCall(s, e.tid, e.up, e.newJti, e.account);
    } else {
      var s' := Next(s, e);
      forall i <- s'.threads ensures KeptThread(s', s'.threads[i]) {
        assert i in s.threads ==> KeptThread(s, s.threads[i]);
      }
    }
  }

  /** The presented row is still there, unexpired, for every request that is
      rotating it. */
  predicate Grounded(s: System) {
    forall tid <- s.threads :: GroundedThread(s, s.threads[tid])
  }

  predicate GroundedThread(s: System, t: Thread) {
    Rotating(t.stage) ==>
      && t.request.jti in s.rows && s.rows[t.request.jti].expires > s.now
      && t.stage != AtRecord(None)
  }

  /** The run's assumption: no step removes a row, or lets it expire, while a
      request is rotating it. */
  predicate Undisturbed(s: System, events: seq<Event>)
    decreases |events|
  {
    events != [] ==>
      var s' := Next(s, events[0]);
      && (forall tid <- s.threads :: Rotating(s.threads[tid].stage) && Present(s, s.threads[tid].request.jti)
            ==> Present(s', s.threads[tid].request.jti))
      && Undisturbed(s', events[1..])
  }

  predicate Present(s: System, jti: Jti) {
    jti in s.rows && s.rows[jti].expires > s.now
  }

  lemma GroundedNext(s: System, e: Event)
    requires Ok(s) && Grounded(s) && Undisturbed(s, [e])
    ensures Grounded(Next(s, e)) && !Orphans(s, e)
  {
  }

  /** However the requests interleave, and whichever calls fail, every row of
      every reachable state is in the family of the sign-in it descends from. */
  lemma {:induction false} FamiliesKept(s: System, events: seq<Event>)
    requires Ok(s) && Kept(s) && Grounded(s) && Undisturbed(s, events)
    ensures Kept(Run(s, events)) && Grounded(Run(s, events))
    decreases |events|
  {
    if events != [] {
      var s' := Next(s, events[0]);
      assert Undisturbed(s, [events[0]]);
      OkNext(s, events[0]);
      GroundedNext(s, events[0]);
      FamiliesKeptByStep(s, events[0]);
      FamiliesKept(s', events[1..]);
    }
  }

  /** Without that assumption the claim is false: a password change lands
      between the two writes of a rotation, and the row it deleted comes back as
      the head of a chain of its own. */
  lemma OrphanedByRevocation(s: System, live: Row)
    requires live == Row(7, Some(1), LIFETIME, None, None)
    requires s == System(map[2 := live, 3 := live], 0, map[0 := Thread(Request(2, 7), AtMark(3))],
                         map[1 := SignIn(1, 7), 2 := SignIn(1, 7), 3 := SignIn(1, 7)], {2})
    ensures Ok(s) && Kept(s) && Grounded(s)
    ensures !Kept(Next(Next(s, RevokeEverything(7)), Call(0, true, 0, Active)))
  {
    MidRotation(s, live);
    RevokedMidRotation(s, live);
  }

  lemma MidRotation(s: System, live: Row)
    requires live == Row(7, Some(1), LIFETIME, None, None)
    requires s == System(map[2 := live, 3 := live], 0, map[0 := Thread(Request(2, 7), AtMark(3))],
                         map[1 := SignIn(1, 7), 2 := SignIn(1, 7), 3 := SignIn(1, 7)], {2})
    ensures Ok(s) && Kept(s) && Grounded(s)
  {
    assert s.rows.Keys == {2, 3} && s.issued.Keys == {1, 2, 3} && s.threads.Keys == {0};
    assert HistoryOk(s);
    assert ThreadOk(s, s.threads[0]) && KeptThread(s, s.threads[0]) && GroundedThread(s, s.threads[0]);
  }

  lemma RevokedMidRotation(s: System, live: Row)
    requires live == Row(7, Some(1), LIFETIME, None, None)
    requires s.rows == map[2 := live, 3 := live] && s.threads == map[0 := Thread(Request(2, 7), AtMark(3))]
    requires 2 in s.issued && s.issued[2].head == 1
    ensures !Kept(Next(Next(s, RevokeEverything(7)), Call(0, true, 0, Active)))
  {
  }

  /** The runs may start from nothing. */
  lemma NothingYet(now: Time)
    ensures var s := System(map[], now, map[], map[], {}); Ok(s) && Kept(s) && Grounded(s)
  {
  }

  // ----- A replay ends its chain, and only its chain -----

  predicate InChain(s: System, jti: Jti, head: Jti) {
    jti in s.issued && s.issued[jti].head == head
  }

  /** The chain has no live row and no request is rotating one of its tokens. */
  predicate Dead(s: System, head: Jti) {
    && (forall j <- s.rows :: InChain(s, j, head) ==> !s.rows[j].Live())
    && NoRotationOf(s, head)
  }

  predicate NoRotationOf(s: System, head: Jti) {
    forall tid <- s.threads :: Rotating(s.threads[tid].stage) ==> !InChain(s, s.threads[tid].request.jti, head)
  }

  lemma DeadStaysDead(s: System, e: Event, head: Jti)
    requires Ok(s) && Dead(s, head) && head in s.issued
    ensures Dead(Next(s, e), head) && head in Next(s, e).issued
  {
    var s' := Next(s, e);
    forall j <- s'.rows | InChain(s', j, head) ensures !s'.rows[j].Live() {
      NoLiveRowNext(s, e, head, j);
    }
    forall i <- s'.threads | Rotating(s'.threads[i].stage) ensures !InChain(s', s'.threads[i].request.jti, head) {
      NoRotationNext(s, e, head, i);
    }
  }

  lemma NoLiveRowNext(s: System, e: Event, head: Jti, j: Jti)
    requires Ok(s) && Dead(s, head) && head in s.issued
    requires j in Next(s, e).rows && InChain(Next(s, e), j, head)
    ensures !Next(s, e).rows[j].Live() && head in Next(s, e).issued
  {
    if e.Call? && e.tid in s.threads {
      assert ThreadOk(s, s.threads[e.tid]);
    }
  }

  lemma NoRotationNext(s: System, e: Event, head: Jti, i: nat)
    requires Ok(s) && Dead(s, head) && head in s.issued
    requires i in Next(s, e).threads && Rotating(Next(s, e).threads[i].stage)
    ensures !InChain(Next(s, e), Next(s, e).threads[i].request.jti, head)
  {
    assert i in s.threads ==> ThreadOk(s, s.threads[i]);
  }

  /** Once a chain is dead no later step of any request brings it back. */
  lemma {:induction false} DeadForever(s: System, events: seq<Event>, head: Jti)
    requires Ok(s) && Dead(s, head) && head in s.issued
    ensures Dead(Run(s, events), head)
    decreases |events|
  {
    if events != [] {
      OkNext(s, events[0]);
      DeadStaysDead(s, events[0], head);
      DeadForever(Next(s, events[0]), events[1..], head);
    }
  }

  /** The revocation a replay makes, with requests on other chains at any stage:
      the chain is dead afterwards, and every row that is rotated or belongs to
      another chain (the same user's other devices included) is as it was. */
  lemma ReplayKillsChain(s: System, tid: nat, newJti: Jti, account: Account)
    requires Ok(s) && Kept(s)
    requires tid in s.threads && s.threads[tid].stage.AtRevokeFamily?
    requires NoRotationOf(s, s.threads[tid].stage.family)
    ensures var s' := Next(s, Call(tid, true, newJti, account));
            var head := s.threads[tid].stage.family;
            && Dead(s', head)
            && s'.issued == s.issued && s'.rows.Keys <= s.rows.Keys
            && (forall j <- s.rows :: !InChain(s, j, head) || !s.rows[j].Live() ==> j in s'.rows && s'.rows[j] == s.rows[j])
  {
  }

  /** The calls of a replay of a rotated token past the grace window. */
  function ReplayCalls(tid: nat, r: Request): seq<Event> {
    var call := Call(tid, true, 0, Active);
    [BeginRefresh(tid, r), call, call, call, call]
  }

  predicate RotatedBeforeGrace(s: System, r: Request) {
    && Present(s, r.jti) && s.rows[r.jti].user == r.user
    && s.rows[r.jti].rotatedAt.Some? && s.now - s.rows[r.jti].rotatedAt.value > GRACE
  }

  function WithStage(s: System, tid: nat, r: Request, stage: Stage): System {
    s.(threads := s.threads[tid := Thread(r, stage)])
  }

  /** Where each of the three lookups of a replay leads. */
  function AfterReplayLookup(s: System, r: Request, stage: Stage): Stage
    requires r.jti in s.issued
  {
    if stage.AtGrace? then AtRotated else if stage.AtRotated? then AtReplay else AtRevokeFamily(s.issued[r.jti].head)
  }

  lemma ReplayLookup(s: System, tid: nat, r: Request, stage: Stage)
    requires Ok(s) && Kept(s) && RotatedBeforeGrace(s, r)
    requires stage.AtGrace? || stage.AtRotated? || stage.AtReplay?
    ensures Next(WithStage(s, tid, r, stage), Call(tid, true, 0, Active)) ==
              WithStage(s, tid, r, AfterReplayLookup(s, r, stage))
  {
    var found := Lookup(s.rows, r.jti, s.now);
    assert RotationRecord(s.rows, r, s.now) == found && found.value.rotated;
    assert HonouredPair(found, s.now).None?;
    assert found.value.family == Some(s.issued[r.jti].head);
    var at := WithStage(s, tid, r, stage);
    assert CallStep(at, tid, true, 0, Active) == WithStage(s, tid, r, AfterReplayLookup(s, r, stage));
  }

  lemma RunTwo(s: System, a: Event, b: Event)
    ensures Run(s, [a, b]) == Next(Next(s, a), b)
  {
    assert [a, b][1..] == [b] && [b][1..] == [];
    assert Run(s, [a, b]) == Run(Next(s, a), [b]);
  }

  lemma RunFive(s: System, a: Event, b: Event)
    ensures Run(s, [a, b, b, b, b]) == Next(Next(Next(Next(Next(s, a), b), b), b), b)
  {
    assert [a, b, b, b, b][1..] == [b, b, b, b] && [b, b, b, b][1..] == [b, b, b];
    assert [b, b, b][1..] == [b, b] && [b, b][1..] == [b];
    var s1 := Next(s, a);
    var s2 := Next(s1, b);
    var s3 := Next(s2, b);
    assert Run(s, [a, b, b, b, b]) == Run(s1, [b, b, b, b]);
    assert Run(s1, [b, b, b, b]) == Run(s2, [b, b, b]);
    assert Run(s2, [b, b, b]) == Run(s3, [b, b]);
    RunTwo(s3, b, b);
  }

  lemma ReplayRun(s: System, tid: nat, r: Request)
    requires Ok(s) && Kept(s) && tid !in s.threads && RotatedBeforeGrace(s, r)
    ensures var call := Call(tid, true, 0, Active);
            Run(s, ReplayCalls(tid, r)) == Next(WithStage(s, tid, r, AtRevokeFamily(s.issued[r.jti].head)), call)
  {
    ReplayLookup(s, tid, r, AtGrace);
    ReplayLookup(s, tid, r, AtRotated);
    ReplayLookup(s, tid, r, AtReplay);
    RunFive(s, BeginRefresh(tid, r), Call(tid, true, 0, Active));
  }

  lemma ReachedRevocation(s: System, tid: nat, r: Request)
    requires Ok(s) && Kept(s) && tid !in s.threads && RotatedBeforeGrace(s, r)
    requires NoRotationOf(s, s.issued[r.jti].head)
    ensures var head := s.issued[r.jti].head;
            var s3 := WithStage(s, tid, r, AtRevokeFamily(head));
            Ok(s3) && Kept(s3) && NoRotationOf(s3, head)
  {
  }

  /** A token presented again after the grace window: the reply is a refusal,
      the chain is dead from then on, whatever happens next, and no other chain
      has lost a token. */
  lemma ReplayEndsChain(s: System, tid: nat, r: Request, later: seq<Event>)
    requires Ok(s) && Kept(s) && tid !in s.threads && RotatedBeforeGrace(s, r)
    requires NoRotationOf(s, s.issued[r.jti].head)
    ensures var head := s.issued[r.jti].head;
            var s' := Run(s, ReplayCalls(tid, r));
            && tid in s'.threads && s'.threads[tid].stage == Done(Refused)
            && Dead(s', head) && Dead(Run(s', later), head)
            && (forall j <- s.rows :: !InChain(s, j, head) ==> j in s'.rows && s'.rows[j] == s.rows[j])
  {
    var call := Call(tid, true, 0, Active);
    var head := s.issued[r.jti].head;
    var s3 := WithStage(s, tid, r, AtRevokeFamily(head));
    var s' := Next(s3, call);
    ReplayRun(s, tid, r);
    ReachedRevocation(s, tid, r);
    ReplayKillsChain(s3, tid, 0, Active);
    OkNext(s3, call);
    DeadForever(s', later, head);
  }

  // ----- Once rotated, never live again -----

  predicate NotLive(s: System, jti: Jti) {
    jti in s.issued && (jti in s.rows ==> !s.rows[jti].Live())
  }

  lemma NotLiveNext(s: System, e: Event, jti: Jti)
    requires Ok(s) && NotLive(s, jti)
    ensures NotLive(Next(s, e), jti)
  {
  }

  /** No later lookup, in any run, reports a rotated (or revoked) token as live. */
  lemma {:induction false} NeverLiveAgain(s: System, events: seq<Event>, jti: Jti)
    requires Ok(s) && NotLive(s, jti)
    ensures var s' := Run(s, events);
            && NotLive(s', jti)
            && (forall now: Time :: Lookup(s'.rows, jti, now).Some? ==> Lookup(s'.rows, jti, now).value.rotated)
    decreases |events|
  {
    if events != [] {
      OkNext(s, events[0]);
      NotLiveNext(s, events[0], jti);
      NeverLiveAgain(Next(s, events[0]), events[1..], jti);
    }
  }

  /** The revoking call of a sign-out, whatever came since its lookup: the token
      is gone, or rotated, and live in no later lookup of any run. */
  lemma RevocationSticks(s: System, tid: nat, later: seq<Event>, at: Time)
    requires Ok(s) && tid in s.threads && s.threads[tid].stage.AtRevoke? && s.threads[tid].request.jti in s.issued
    ensures var jti := s.threads[tid].request.jti;
            var end := Run(Next(s, Call(tid, true, 0, Active)), later);
            Lookup(end.rows, jti, at).Some? ==> Lookup(end.rows, jti, at).value.rotated
  {
    var call := Call(tid, true, 0, Active);
    OkNext(s, call);
    assert Next(s, call) == CallStep(s, tid, true, 0, Active);
    NeverLiveAgain(Next(s, call), later, s.threads[tid].request.jti);
  }

  function SignOutCalls(tid: nat, r: Request): seq<Event> {
    [BeginSignOut(tid, r), Call(tid, true, 0, Active), Call(tid, true, 0, Active)]
  }

  /** An answered sign-out of a live token, among any requests: exactly that row
      goes, and no later lookup of any run reports the token live. */
  lemma SignOutEndsToken(s: System, tid: nat, r: Request, later: seq<Event>, at: Time)
    requires Ok(s) && tid !in s.threads && LiveFor(s.rows, r, s.now)
    ensures var out := Run(s, SignOutCalls(tid, r));
            && out.rows == s.rows - {r.jti}
            && tid in out.threads && out.threads[tid].stage == Done(SignedOut)
            && (Lookup(Run(out, later).rows, r.jti, at).Some? ==> Lookup(Run(out, later).rows, r.jti, at).value.rotated)
  {
    var begin, call := BeginSignOut(tid, r), Call(tid, true, 0, Active);
    var s1 := Next(s, begin);
    var s2 := Next(s1, call);
    OkNext(s, begin);
    OkNext(s1, call);
    assert s2 == WithStage(s, tid, r, AtRevoke(SignedOut)) by {
      assert CallStep(s1, tid, true, 0, Active) == WithStage(s, tid, r, AtRevoke(SignedOut));
    }
    assert [begin, call, call][1..] == [call, call];
    assert Run(s, [begin, call, call]) == Run(s1, [call, call]);
    RunTwo(s1, call, call);
    RevokedRow(s.rows, r.jti);
    assert Next(s2, call) == CallStep(s2, tid, true, 0, Active);
    RevocationSticks(s2, tid, later, at);
  }
}
