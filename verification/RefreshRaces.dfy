/**
 Two requests with one token: what a refresh makes of a rotation that lands
 between its own two lookups of the token (accounts/views/auth.py, the calls to
 get_grace_tokens and was_rotated).
 */
module RefreshRaces {
  import opened Common
  import opened TokenStore
  import opened RefreshRequest
  import opened RefreshRuns

  /** A lookup now would hand the token's pair back: it was rotated at most
      `GRACE` ago and the pair is still stored. */
  predicate Honours(s: System, r: Request) {
    HonouredPair(RotationRecord(s.rows, r, s.now), s.now).Some?
  }

  /** The event writes a rotation of the token. */
  predicate MarksRotation(s: System, e: Event, jti: Jti) {
    && e.Call? && e.up && e.tid in s.threads
    && s.threads[e.tid].stage.AtMark? && s.threads[e.tid].request.jti == jti
  }

  predicate RotatedDuring(s: System, events: seq<Event>, jti: Jti)
    decreases |events|
  {
    events != [] && (MarksRotation(s, events[0], jti) || RotatedDuring(Next(s, events[0]), events[1..], jti))
  }

  /** The other requests' events, not this one's. */
  predicate Without(events: seq<Event>, tid: nat) {
    forall e <- events :: !(e.Call? && e.tid == tid)
  }

  /** A pair that is there after a step that rotates nothing was there before. */
  lemma PairWasThere(s: System, e: Event, jti: Jti)
    requires !MarksRotation(s, e, jti) && jti in Next(s, e).rows
    requires Next(s, e).rows[jti].rotatedAt.Some? && Next(s, e).rows[jti].tokens.Some?
    ensures jti in s.rows && s.rows[jti] == Next(s, e).rows[jti]
    ensures s.now <= Next(s, e).now
  {
  }

  lemma {:induction false} HonouredThroughout(s: System, events: seq<Event>, r: Request)
    requires !RotatedDuring(s, events, r.jti) && Honours(Run(s, events), r)
    ensures Honours(s, r)
    decreases |events|
  {
    if events != [] {
      HonouredThroughout(Next(s, events[0]), events[1..], r);
      PairWasThere(s, events[0], r.jti);
    }
  }

  lemma {:induction false} RequestWaits(s: System, events: seq<Event>, tid: nat)
    requires tid in s.threads && Without(events, tid)
    ensures tid in Run(s, events).threads && Run(s, events).threads[tid] == s.threads[tid]
    decreases |events|
  {
    if events != [] {
      assert events[0] in events;
      RequestWaits(Next(s, events[0]), events[1..], tid);
    }
  }

  /** A refresh of a token that is rotated, and within its grace window, by the
      time of its second lookup: it is taken for a replay exactly when it had no
      pair to be handed at its first lookup, and then the rotation fell between
      the two. */
  lemma TakenForReplay(s: System, tid: nat, r: Request, between: seq<Event>, newJti: Jti, account: Account)
    requires tid in s.threads && s.threads[tid] == Thread(r, AtGrace) && Without(between, tid)
    requires Honours(Run(Next(s, Call(tid, true, newJti, account)), between), r)
    ensures var call := Call(tid, true, newJti, account);
            var looked := Next(s, call);
            var end := Next(Run(looked, between), call);
            && tid in end.threads
            && (end.threads[tid].stage.AtReplay? <==> !Honours(s, r) && RotatedDuring(looked, between, r.jti))
            && (Honours(s, r) ==>
                  end.threads[tid].stage == Done(Tokens(HonouredPair(RotationRecord(s.rows, r, s.now), s.now).value)))
  {
    var call := Call(tid, true, newJti, account);
    var looked := Next(s, call);
    assert looked == CallStep(s, tid, true, newJti, account);
    RequestWaits(looked, between, tid);
    if !RotatedDuring(looked, between, r.jti) {
      HonouredThroughout(looked, between, r);
      assert Honours(s, r);
    }
  }

  /** The rotation of the first of two requests, seen by the second. */
  lemma MarkedForSecond(s: System, first: nat, r: Request, newJti: Jti)
    requires Ok(s) && Kept(s) && first in s.threads && s.threads[first] == Thread(r, AtMark(newJti))
    requires Present(s, r.jti) && newJti in s.rows && newJti != r.jti
    ensures var marked := Next(s, Call(first, true, 0, Active));
            && Ok(marked) && Kept(marked) && r.jti in marked.issued && newJti in marked.rows && r.jti in marked.rows
            && marked.threads == s.threads[first := Thread(r, Done(Tokens(Pair(newJti))))] && marked.now == s.now
            && marked.rows[newJti] == s.rows[newJti]
            && ChainOf(newJti, marked.rows[newJti]) == ChainOf(r.jti, marked.rows[r.jti])
            && marked.rows[newJti].user == r.user && marked.rows[r.jti].user == r.user
            && marked.rows[r.jti].rotatedAt == Some(s.now) && Present(marked, r.jti)
  {
    var mark := Call(first, true, 0, Active);
    assert ThreadOk(s, s.threads[first]);
    FamiliesKeptByStep(s, mark);
    OkNext(s, mark);
    assert Next(s, mark) == CallStep(s, first, true, 0, Active);
  }

  /** A request past its grace lookup goes on to revoke the chain of a token that
      is rotated by then, however lately. */
  lemma RevokesFromRotated(s: System, tid: nat, r: Request)
    requires tid in s.threads && s.threads[tid] == Thread(r, AtRotated)
    requires Present(s, r.jti) && s.rows[r.jti].user == r.user && s.rows[r.jti].rotatedAt.Some?
    ensures var call := Call(tid, true, 0, Active);
            Next(Next(Next(s, call), call), call) ==
              WithStage(s, tid, r, Done(Refused)).(rows := FamilyRevoked(s.rows, ChainOf(r.jti, s.rows[r.jti]), r.user))
  {
    var call, head := Call(tid, true, 0, Active), ChainOf(r.jti, s.rows[r.jti]);
    var replay, revoke := WithStage(s, tid, r, AtReplay), WithStage(s, tid, r, AtRevokeFamily(head));
    assert Next(s, call) == replay;
    assert Next(replay, call) == revoke;
  }

  /** So a race can end a sign-in: the other request has just been given its pair
      when this one revokes the chain, the new token included. */
  lemma RaceRevokesNewPair(s: System, first: nat, second: nat, r: Request, newJti: Jti)
    requires Ok(s) && Kept(s) && {first, second} <= s.threads.Keys
    requires s.threads[first] == Thread(r, AtMark(newJti)) && s.threads[second] == Thread(r, AtRotated)
    requires Present(s, r.jti) && newJti in s.rows && s.rows[newJti].Live() && newJti != r.jti
    ensures var marked := Next(s, Call(first, true, 0, Active));
            var call := Call(second, true, 0, Active);
            var end := Next(Next(Next(marked, call), call), call);
            && {first, second} <= end.threads.Keys
            && end.threads[first].stage == Done(Tokens(Pair(newJti))) && end.threads[second].stage == Done(Refused)
            && newJti !in end.rows && r.jti in end.rows && end.rows[r.jti].rotatedAt == Some(end.now)
  {
    MarkedForSecond(s, first, r, newJti);
    RevokesFromRotated(Next(s, Call(first, true, 0, Active)), second, r);
  }

  // ----- Pairs are kept for the grace window -----

  /** A rotation record without its pair is `GRACE` old. */
  predicate PairsKept(s: System) {
    forall j <- s.rows :: s.rows[j].rotatedAt.Some? && s.rows[j].tokens.None? ==> s.rows[j].rotatedAt.value <= s.now - GRACE
  }

  lemma {:induction false} PairsKeptOverRuns(s: System, events: seq<Event>)
    requires PairsKept(s)
    ensures PairsKept(Run(s, events))
    decreases |events|
  {
    if events != [] {
      PairsKeptNext(s, events[0]);
      PairsKeptOverRuns(Next(s, events[0]), events[1..]);
    }
  }

  lemma PairsKeptNext(s: System, e: Event)
    requires PairsKept(s)
    ensures PairsKept(Next(s, e))
  {
  }

  predicate JustRotated(s: System, r: Request) {
    && Present(s, r.jti) && s.rows[r.jti].user == r.user
    && s.rows[r.jti].rotatedAt.Some? && s.now - s.rows[r.jti].rotatedAt.value < GRACE
  }

  /** So over any run a token rotated less than `GRACE` ago is one whose pair a
      lookup hands back. */
  lemma RecentIsHonoured(s: System, events: seq<Event>, r: Request)
    requires PairsKept(s)
    ensures JustRotated(Run(s, events), r) ==> Honours(Run(s, events), r)
  {
    PairsKeptOverRuns(s, events);
  }
}
