/**
 Requests one at a time, any store call of which may go unanswered: a chain
 never has two live tokens that a client was ever given.
 */
module RefreshSequential {
  import opened TokenStore
  import opened RefreshRequest
  import opened RefreshRuns

  ghost predicate Idle(s: System) {
    forall tid <- s.threads :: s.threads[tid].stage.Done?
  }

  /** A request begins once the one before it is over, with a token some reply
      delivered. */
  ghost predicate OneAtATime(s: System, events: seq<Event>)
    decreases |events|
  {
    events != [] ==>
      && MayFollow(s, events[0])
      && OneAtATime(Next(s, events[0]), events[1..])
  }

  ghost predicate MayFollow(s: System, e: Event) {
    && (e.BeginRefresh? ==> Idle(s) && e.request.jti in s.delivered)
    && (e.BeginSignOut? ==> Idle(s))
  }

  /** A live token of the chain that a client holds. */
  ghost predicate Held(s: System, jti: Jti, head: Jti) {
    jti in s.rows && s.rows[jti].Live() && jti in s.delivered && InChain(s, jti, head)
  }

  ghost predicate OneHeldToken(s: System) {
    forall j, k, head :: Held(s, j, head) && Held(s, k, head) ==> j == k
  }

  /** Only tokens already delivered are kept to be handed back. */
  ghost predicate PairsDelivered(s: System) {
    && (forall j <- s.delivered :: j in s.issued)
    && (forall j <- s.rows :: s.rows[j].tokens.Some? ==> s.rows[j].tokens.value.refresh in s.delivered)
  }

  ghost predicate Solo(s: System) {
    forall a <- s.threads, b <- s.threads ::
      !s.threads[a].stage.Done? && !s.threads[b].stage.Done? ==> a == b
  }

  ghost predicate RequestOk(s: System, t: Thread) {
    && (t.stage.AtGrace? || t.stage.AtRotated? || t.stage.AtWhitelist? ==> t.request.jti in s.delivered)
    && (Rotating(t.stage) ==>
          && t.request.jti in s.issued
          && forall k :: Held(s, k, s.issued[t.request.jti].head) ==> k == t.request.jti)
    && (t.stage.AtMark? ==> t.stage.issued !in s.delivered)
    && (t.stage.AtRevokeOwner? || t.stage.AtVerify? || t.stage.AtRevoke? ==> !t.stage.reply.Tokens?)
  }

  ghost predicate Single(s: System) {
    && OneHeldToken(s) && PairsDelivered(s) && Solo(s)
    && forall tid <- s.threads :: RequestOk(s, s.threads[tid])
  }

  /** A reply hands over a pair already delivered, or the one just recorded. */
  lemma DeliveredByCall(s: System, e: Event)
    requires Ok(s) && Single(s)
    ensures forall p <- Next(s, e).delivered - s.delivered ::
              || (e.NewSignIn? && e.jti == p)
              || (e.Call? && e.up && e.tid in s.threads && s.threads[e.tid].stage == AtMark(p))
    ensures forall p <- Next(s, e).delivered :: p in Next(s, e).issued
  {
  }

  lemma HeldBefore(s: System, e: Event, jti: Jti, head: Jti)
    requires Ok(s) && Single(s) && Held(Next(s, e), jti, head)
    ensures Held(s, jti, head) || (e.NewSignIn? && e.jti == jti)
         || (e.Call? && e.tid in s.threads && s.threads[e.tid].stage == AtMark(jti) && InChain(s, jti, head))
  {
    DeliveredByCall(s, e);
    if e.Call? && e.tid in s.threads {
      assert ThreadOk(s, s.threads[e.tid]) && RequestOk(s, s.threads[e.tid]);
    }
  }

  lemma PairsDeliveredNext(s: System, e: Event)
    requires Ok(s) && Single(s)
    ensures PairsDelivered(Next(s, e))
  {
    DeliveredByCall(s, e);
    if e.Call? && e.tid in s.threads {
      assert ThreadOk(s, s.threads[e.tid]) && RequestOk(s, s.threads[e.tid]);
    }
  }

  lemma OneHeldTokenNext(s: System, e: Event)
    requires Ok(s) && Single(s)
    ensures OneHeldToken(Next(s, e))
  {
    var s' := Next(s, e);
    if e.Call? && e.tid in s.threads {
      assert RequestOk(s, s.threads[e.tid]);
    }
    forall j, k, head | Held(s', j, head) && Held(s', k, head) ensures j == k {
      HeldBefore(s, e, j, head);
      HeldBefore(s, e, k, head);
    }
  }

  lemma OnlyHeldNext(s: System, e: Event, tid: nat)
    requires Ok(s) && Single(s) && tid in s.threads && tid in Next(s, e).threads
    requires Rotating(Next(s, e).threads[tid].stage)
    ensures var s', jti := Next(s, e), s.threads[tid].request.jti;
            && s'.threads[tid].request.jti == jti && jti in s.issued && jti in s'.issued
            && s'.issued[jti] == s.issued[jti]
            && forall k :: Held(s', k, s.issued[jti].head) ==> k == jti
  {
    var s', before := Next(s, e), s.threads[tid];
    assert RequestOk(s, before) && ThreadOk(s, before);
    var head := s.issued[before.request.jti].head;
    assert before.stage.AtWhitelist? ==> Held(s, before.request.jti, head);
    forall k | Held(s', k, head) ensures k == before.request.jti {
      HeldBefore(s, e, k, head);
      assert !before.stage.AtWhitelist? ==> Rotating(before.stage);
      assert !(e.Call? && e.tid in s.threads && s.threads[e.tid].stage == AtMark(k));
    }
  }

  /** A request moves on by its own call, and otherwise stays as it was. */
  lemma RequestMoves(s: System, e: Event, tid: nat)
    requires Ok(s) && Single(s) && tid in s.threads && tid in Next(s, e).threads
    requires !Rotating(Next(s, e).threads[tid].stage)
    ensures var s' := Next(s, e); RequestOk(s', s'.threads[tid])
  {
    assert RequestOk(s, s.threads[tid]) && ThreadOk(s, s.threads[tid]);
  }

  lemma RequestNext(s: System, e: Event, tid: nat)
    requires Ok(s) && Single(s) && MayFollow(s, e) && tid in Next(s, e).threads
    ensures var s' := Next(s, e); RequestOk(s', s'.threads[tid])
  {
    var s' := Next(s, e);
    if tid in s.threads {
      if Rotating(s'.threads[tid].stage) {
        OnlyHeldNext(s, e, tid);
        MarkNotDelivered(s, e, tid);
      } else {
        RequestMoves(s, e, tid);
      }
    }
  }

  lemma MarkNotDelivered(s: System, e: Event, tid: nat)
    requires Ok(s) && Single(s) && tid in s.threads && tid in Next(s, e).threads
    ensures var s' := Next(s, e); s'.threads[tid].stage.AtMark? ==> s'.threads[tid].stage.issued !in s'.delivered
  {
    assert RequestOk(s, s.threads[tid]) && ThreadOk(s, s.threads[tid]);
    DeliveredByCall(s, e);
  }

  lemma SoloNext(s: System, e: Event)
    requires Single(s) && MayFollow(s, e)
    ensures Solo(Next(s, e))
  {
  }

  /** In every run of requests one at a time, whichever store calls fail and
      whatever is revoked, purged or signed in between, each chain has at most
      one live token that a client was given. */
  lemma {:induction false} AtMostOneLiveToken(s: System, events: seq<Event>)
    requires Ok(s) && Single(s) && OneAtATime(s, events)
    ensures Ok(Run(s, events)) && Single(Run(s, events))
    decreases |events|
  {
    if events != [] {
      OkNext(s, events[0]);
      OneHeldTokenNext(s, events[0]);
      PairsDeliveredNext(s, events[0]);
      SoloNext(s, events[0]);
      forall tid <- Next(s, events[0]).threads {
        RequestNext(s, events[0], tid);
      }
      AtMostOneLiveToken(Next(s, events[0]), events[1..]);
    }
  }

  lemma NothingDelivered(now: Time)
    ensures Single(System(map[], now, map[], map[], {}))
  {
  }
}
