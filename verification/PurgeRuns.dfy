/**
 A purge among interleaved requests: every request in flight, and every later
 one, goes on as it would have without it.
 */
module PurgeRuns {
  import opened TokenStore
  import opened RefreshRequest
  import opened RefreshRuns
  import P = PurgeInvisible

  /** The same requests in flight, over stores no request can tell apart. */
  ghost predicate SameButRows(a: System, b: System) {
    && b == a.(rows := b.rows)
    && P.Alike(a.rows, b.rows, a.now)
  }

  /** No rotation is marked on a row that is there but has expired: only a purge
      would tell the two stores apart by it. */
  predicate MarksUnexpired(s: System, e: Event) {
    e.Call? && e.tid in s.threads && s.threads[e.tid].stage.AtMark? && s.threads[e.tid].request.jti in s.rows ==>
      s.rows[s.threads[e.tid].request.jti].expires > s.now
  }

  ghost predicate AllMarksUnexpired(s: System, events: seq<Event>)
    decreases |events|
  {
    events != [] ==> MarksUnexpired(s, events[0]) && AllMarksUnexpired(Next(s, events[0]), events[1..])
  }

  lemma UnusedAlike(a: System, b: System, jti: Jti)
    requires Ok(a) && SameButRows(a, b)
    ensures Unused(a, jti) <==> Unused(b, jti)
  {
  }

  /** One store call over both stores. */
  lemma CallAlike(a: Rows, b: Rows, now: Time, r: Request, stage: Stage, up: bool, newJti: Jti, account: Account)
    requires P.Alike(a, b, now)
    requires stage.AtRecord? ==> newJti !in a
    requires stage.AtMark? && r.jti in a ==> a[r.jti].expires > now
    ensures var (a', stageA) := Advance(a, now, r, stage, up, newJti, account);
            var (b', stageB) := Advance(b, now, r, stage, up, newJti, account);
            stageA == stageB && P.Alike(a', b', now)
  {
    P.AlikeLookup(a, b, now, r.jti);
  }

  lemma NextAlike(a: System, b: System, e: Event)
    requires Ok(a) && SameButRows(a, b) && MarksUnexpired(a, e)
    ensures SameButRows(Next(a, e), Next(b, e))
  {
    match e
    case NewSignIn(user, jti) => UnusedAlike(a, b, jti);
    case Call(tid, up, newJti, account) =>
      UnusedAlike(a, b, newJti);
      if tid in a.threads && !a.threads[tid].stage.Done? && !(a.threads[tid].stage.AtRecord? && !Unused(a, newJti)) {
        var t := a.threads[tid];
        CallAlike(a.rows, b.rows, a.now, t.request, t.stage, up, newJti, account);
      }
    case Purge => P.PurgedAlike(a.rows, b.rows, a.now);
    case Tick(now) => if now >= a.now { P.AlikeLater(a.rows, b.rows, a.now, now); }
    case _ =>
  }

  lemma {:induction false} RunAlike(a: System, b: System, events: seq<Event>)
    requires Ok(a) && SameButRows(a, b) && AllMarksUnexpired(a, events)
    ensures SameButRows(Run(a, events), Run(b, events))
    decreases |events|
  {
    if events != [] {
      NextAlike(a, b, events[0]);
      OkNext(a, events[0]);
      RunAlike(Next(a, events[0]), Next(b, events[0]), events[1..]);
    }
  }

  /** A purge at any moment, between any two store calls of any requests, leaves
      every request where it would have stood without it, and every reply what
      it would have been: unless a record is `GRACE` old to the microsecond and
      the clock has not moved on. */
  lemma PurgeChangesNoRequest(s: System, events: seq<Event>)
    requires Ok(s) && AllMarksUnexpired(s, events)
    requires || (forall j <- s.rows :: !P.OnTheBoundary(s.rows[j], s.now))
             || (events != [] && events[0].Tick? && s.now < events[0].now)
    ensures Run(Next(s, Purge), events).threads == Run(s, events).threads
    ensures Run(Next(s, Purge), events).delivered == Run(s, events).delivered
  {
    if forall j <- s.rows :: !P.OnTheBoundary(s.rows[j], s.now) {
      P.PurgeAlike(s.rows, s.now);
      RunAlike(s, Next(s, Purge), events);
    } else {
      var later := Next(s, events[0]);
      P.PurgedAlikeLater(s.rows, s.now, later.now);
      OkNext(s, events[0]);
      RunAlike(later, Next(Next(s, Purge), events[0]), events[1..]);
    }
  }

  /** With a record on the boundary, a request at its first lookup is refused
      instead of handed its pair. */
  lemma PurgeOnTheBoundary(s: System, jti: Jti, tid: nat)
    requires jti in s.rows && P.OnTheBoundary(s.rows[jti], s.now) && tid !in s.threads
    ensures var events := [BeginRefresh(tid, Request(jti, s.rows[jti].user)), Call(tid, true, 0, Active)];
            && AllMarksUnexpired(s, events)
            && Run(Next(s, Purge), events).threads != Run(s, events).threads
  {
    var r := Request(jti, s.rows[jti].user);
    var begin, call := BeginRefresh(tid, r), Call(tid, true, 0, Active);
    RunTwo(s, begin, call);
    RunTwo(Next(s, Purge), begin, call);
    var found := RotationRecord(s.rows, r, s.now);
    assert HonouredPair(found, s.now) == s.rows[jti].tokens;
    assert HonouredPair(RotationRecord(Purged(s.rows, s.now), r, s.now), s.now).None?;
    assert [begin, call][1..] == [call] && AllMarksUnexpired(Next(s, begin), [call]);
  }

  /** Exactly when a purge goes unnoticed by everything that may follow it. */
  lemma PurgeUnnoticed(s: System, tid: nat)
    requires Ok(s) && tid !in s.threads
    ensures (forall events | AllMarksUnexpired(s, events) :: Run(Next(s, Purge), events).threads == Run(s, events).threads)
            <==> forall j <- s.rows :: !P.OnTheBoundary(s.rows[j], s.now)
  {
    if forall j <- s.rows :: !P.OnTheBoundary(s.rows[j], s.now) {
      forall events | AllMarksUnexpired(s, events) {
        PurgeChangesNoRequest(s, events);
      }
    } else {
      var j :| j in s.rows && P.OnTheBoundary(s.rows[j], s.now);
      PurgeOnTheBoundary(s, j, tid);
    }
  }
}
