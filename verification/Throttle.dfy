/**
 The fixed-window rate limiter (core/throttling.py): one counter row per key and
 aligned window, dropped a day after its window began.

 Times and window lengths are microseconds.
 */
module Throttle {
  type Key = nat

  const RETENTION: int := 24 * 60 * 60 * 1_000_000

  datatype Row = Row(key: Key, start: int)

  type Counters = map<Row, nat>

  datatype Rate = Rate(limit: nat, window: int)

  datatype Reply = Reply(allowed: bool, retryAfter: int)

  /** `int(now // window) * window` */
  function WindowStart(now: int, window: int): int
    requires window > 0
  {
    now / window * window
  }

  function Count(counters: Counters, row: Row): nat {
    if row in counters then counters[row] else 0
  }

  function Counted(counters: Counters, row: Row): Counters {
    counters[row := Count(counters, row) + 1]
  }

  function Purged(counters: Counters, now: int): Counters {
    map r | r in counters && r.start >= now - RETENTION :: counters[r]
  }

  /** core/throttling.py, PostgresThrottleStore. */
  class PostgresThrottleStore {
    var counters: Counters

    constructor ()
      ensures counters == map[]
    {
      counters := map[];
    }

    method Hit(key: Key, limit: nat, window: int, now: int) returns (allowed: bool, retryAfter: int)
      requires window > 0
      modifies this
      ensures var row := Row(key, WindowStart(now, window));
              && counters == Counted(old(counters), row)
              && allowed == (Count(old(counters), row) < limit)
      ensures 0 < retryAfter <= window && (now + retryAfter) % window == 0
    {
      var start := now / window * window;
      var row := Row(key, start);
      if row in counters {
        counters := counters[row := counters[row] + 1];
      } else {
        counters := counters[row := 1];
      }
      WindowHolds(now, window);
      allowed, retryAfter := counters[row] <= limit, start + window - now;
      assert now + retryAfter == (now / window + 1) * window;
      MultipleOf(now / window + 1, window);
    }

    method Purge(now: int)
      modifies this
      ensures counters == Purged(old(counters), now)
    {
      var doomed := set r | r in counters && r.start < now - RETENTION;
      counters := counters - doomed;
    }
  }

  // ----- Aligned windows -----

  lemma WindowHolds(now: int, window: int)
    requires window > 0
    ensures WindowStart(now, window) <= now < WindowStart(now, window) + window
  {
  }

  lemma MultipleOf(k: int, window: int)
    requires window > 0
    ensures (k * window) % window == 0
  {
    var d, r := k - k * window / window, k * window % window;
    assert d * window == r && 0 <= r < window;
    assert (d >= 1 ==> d * window >= window) && (d <= -1 ==> d * window <= -window);
  }

  /** A window starts on a multiple of its length, the last not after its hits. */
  lemma WindowAligned(now: int, window: int)
    requires window > 0
    ensures WindowStart(now, window) % window == 0 && 0 <= now - WindowStart(now, window) < window
  {
    MultipleOf(now / window, window);
    WindowHolds(now, window);
  }

  /** Any stretch of one window's length lies in two aligned windows. */
  lemma TwoWindowsCover(from: int, at: int, window: int)
    requires window > 0 && from <= at <= from + window
    ensures WindowStart(at, window) == WindowStart(from, window)
         || WindowStart(at, window) == WindowStart(from, window) + window
  {
    WindowHolds(from, window);
    WindowHolds(at, window);
    var a, b := from / window, at / window;
    assert (b - a) * window == WindowStart(at, window) - WindowStart(from, window);
    assert b - a >= 2 ==> (b - a) * window >= 2 * window;
    assert b - a <= -1 ==> (b - a) * window <= -window;
    assert b - a == 0 || b - a == 1;
  }

  // ----- Runs -----

  datatype Event = HitBy(key: Key, at: int) | PurgeAt(at: int)

  /** Every key has one rate, whose window is at most the retention. */
  predicate RatesOk(rates: map<Key, Rate>, events: seq<Event>) {
    && (forall e <- events :: e.HitBy? ==> e.key in rates)
    && (forall k <- rates :: 0 < rates[k].window <= RETENTION)
  }

  predicate InOrder(events: seq<Event>) {
    forall i, j :: 0 <= i < j < |events| ==> events[i].at <= events[j].at
  }

  function RowFor(rates: map<Key, Rate>, e: Event): Row
    requires e.HitBy? && e.key in rates && rates[e.key].window > 0
  {
    Row(e.key, WindowStart(e.at, rates[e.key].window))
  }

  /** The table after a run. */
  function After(rates: map<Key, Rate>, events: seq<Event>): Counters
    requires RatesOk(rates, events)
  {
    if events == [] then map[]
    else
      var before, e := After(rates, events[..|events| - 1]), events[|events| - 1];
      if e.HitBy? then Counted(before, RowFor(rates, e)) else Purged(before, e.at)
  }

  /** Whether the last hit of a run is let through. */
  predicate LastAllowed(rates: map<Key, Rate>, events: seq<Event>)
    requires RatesOk(rates, events) && events != [] && events[|events| - 1].HitBy?
  {
    var e := events[|events| - 1];
    Count(After(rates, events[..|events| - 1]), RowFor(rates, e)) < rates[e.key].limit
  }

  /** The decisions of a run, one per hit. */
  function Decisions(rates: map<Key, Rate>, events: seq<Event>): seq<bool>
    requires RatesOk(rates, events)
  {
    if events == [] then []
    else
      Decisions(rates, events[..|events| - 1]) +
      if events[|events| - 1].HitBy? then [LastAllowed(rates, events)] else []
  }

  /** Hits on a key at the selected times, and those of them let through. */
  ghost function Hits(events: seq<Event>, key: Key, at: int -> bool): nat {
    if events == [] then 0
    else
      var e := events[|events| - 1];
      Hits(events[..|events| - 1], key, at) + if e.HitBy? && e.key == key && at(e.at) then 1 else 0
  }

  ghost function Admitted(rates: map<Key, Rate>, events: seq<Event>, key: Key, at: int -> bool): nat
    requires RatesOk(rates, events)
  {
    if events == [] then 0
    else
      var e := events[|events| - 1];
      Admitted(rates, events[..|events| - 1], key, at) +
      if e.HitBy? && e.key == key && at(e.at) && LastAllowed(rates, events) then 1 else 0
  }

  ghost function InWindow(start: int, window: int): int -> bool {
    t => window > 0 && WindowStart(t, window) == start
  }

  ghost function Between(from: int, to: int): int -> bool {
    t => from <= t <= to
  }

  /** A counter whose window has not been dropped holds the number of hits in
      that window, whatever was purged on the way. */
  lemma {:induction false} CountersCountHits(rates: map<Key, Rate>, events: seq<Event>, now: int, row: Row)
    requires RatesOk(rates, events) && InOrder(events) && row.key in rates
    requires forall e <- events :: e.at <= now
    requires now - RETENTION <= row.start
    ensures Count(After(rates, events), row) == Hits(events, row.key, InWindow(row.start, rates[row.key].window))
  {
    if events != [] {
      CountersCountHits(rates, events[..|events| - 1], now, row);
      assert events[|events| - 1] in events;
    }
  }

  /** A hit is let through exactly when fewer than `limit` hits on its key came
      before it in its aligned window. */
  lemma DecisionByHits(rates: map<Key, Rate>, events: seq<Event>)
    requires RatesOk(rates, events) && InOrder(events) && events != [] && events[|events| - 1].HitBy?
    ensures var e := events[|events| - 1];
            e.key in rates && var row := RowFor(rates, e);
            LastAllowed(rates, events) <==>
              Hits(events[..|events| - 1], e.key, InWindow(row.start, rates[e.key].window)) < rates[e.key].limit
  {
    var e := events[|events| - 1];
    assert e in events;
    WindowHolds(e.at, rates[e.key].window);
    CountersCountHits(rates, events[..|events| - 1], e.at, RowFor(rates, e));
  }

  function WithoutPurges(events: seq<Event>): seq<Event> {
    if events == [] then []
    else WithoutPurges(events[..|events| - 1]) + if events[|events| - 1].HitBy? then [events[|events| - 1]] else []
  }

  lemma {:induction false} KeptAreHits(events: seq<Event>, i: nat)
    requires i < |WithoutPurges(events)|
    ensures WithoutPurges(events)[i].HitBy? && WithoutPurges(events)[i] in events
  {
    var before := events[..|events| - 1];
    if i < |WithoutPurges(before)| {
      KeptAreHits(before, i);
    } else {
      assert events[|events| - 1] in events;
    }
  }

  lemma {:induction false} KeptInOrder(rates: map<Key, Rate>, events: seq<Event>)
    requires RatesOk(rates, events) && InOrder(events)
    ensures RatesOk(rates, WithoutPurges(events)) && InOrder(WithoutPurges(events))
  {
    forall i | 0 <= i < |WithoutPurges(events)| ensures WithoutPurges(events)[i] in events {
      KeptAreHits(events, i);
    }
    if events != [] {
      var before, last := events[..|events| - 1], events[|events| - 1];
      KeptInOrder(rates, before);
      forall i | 0 <= i < |WithoutPurges(before)| ensures WithoutPurges(before)[i].at <= last.at {
        KeptAreHits(before, i);
        var j :| 0 <= j < |before| && before[j] == WithoutPurges(before)[i];
        assert events[j].at <= events[|events| - 1].at;
      }
    }
  }

  lemma {:induction false} KeptHitTheSame(events: seq<Event>, key: Key, at: int -> bool)
    ensures Hits(WithoutPurges(events), key, at) == Hits(events, key, at)
  {
    if events != [] {
      var before, last := events[..|events| - 1], events[|events| - 1];
      KeptHitTheSame(before, key, at);
      var kept := WithoutPurges(events);
      if last.HitBy? {
        assert kept[..|kept| - 1] == WithoutPurges(before) && kept[|kept| - 1] == last;
      } else {
        assert kept == WithoutPurges(before);
      }
    }
  }

  /** Purges change no decision. */
  lemma {:induction false} PurgesChangeNothing(rates: map<Key, Rate>, events: seq<Event>)
    requires RatesOk(rates, events) && InOrder(events)
    ensures RatesOk(rates, WithoutPurges(events))
    ensures Decisions(rates, WithoutPurges(events)) == Decisions(rates, events)
  {
    KeptInOrder(rates, events);
    if events != [] {
      var before, last := events[..|events| - 1], events[|events| - 1];
      PurgesChangeNothing(rates, before);
      if last.HitBy? {
        var kept := WithoutPurges(events);
        assert kept[..|kept| - 1] == WithoutPurges(before) && kept[|kept| - 1] == last;
        DecisionByHits(rates, events);
        DecisionByHits(rates, kept);
        KeptHitTheSame(before, last.key, InWindow(RowFor(rates, last).start, rates[last.key].window));
      } else {
        assert WithoutPurges(events) == WithoutPurges(before);
      }
    }
  }

  /** Each aligned window lets through exactly the smaller of the requests made
      in it and the limit. */
  lemma {:induction false} WindowAdmitsExactly(rates: map<Key, Rate>, events: seq<Event>, key: Key, start: int)
    requires RatesOk(rates, events) && InOrder(events) && key in rates
    ensures var at := InWindow(start, rates[key].window);
            Admitted(rates, events, key, at) ==
              if Hits(events, key, at) < rates[key].limit then Hits(events, key, at) else rates[key].limit
  {
    if events != [] {
      WindowAdmitsExactly(rates, events[..|events| - 1], key, start);
      if events[|events| - 1].HitBy? {
        DecisionByHits(rates, events);
      }
    }
  }

  lemma {:induction false} AdmittedInUnion(rates: map<Key, Rate>, events: seq<Event>, key: Key,
                                           at: int -> bool, a: int -> bool, b: int -> bool)
    requires RatesOk(rates, events) && forall t :: at(t) ==> a(t) || b(t)
    ensures Admitted(rates, events, key, at) <= Admitted(rates, events, key, a) + Admitted(rates, events, key, b)
  {
    if events != [] {
      AdmittedInUnion(rates, events[..|events| - 1], key, at, a, b);
    }
  }

  /** And any interval one window long lets through at most twice the limit. */
  lemma IntervalAdmitsTwice(rates: map<Key, Rate>, events: seq<Event>, key: Key, from: int)
    requires RatesOk(rates, events) && InOrder(events) && key in rates
    ensures Admitted(rates, events, key, Between(from, from + rates[key].window)) <= 2 * rates[key].limit
  {
    var w := rates[key].window;
    var start := WindowStart(from, w);
    forall t | Between(from, from + w)(t) ensures InWindow(start, w)(t) || InWindow(start + w, w)(t) {
      TwoWindowsCover(from, t, w);
    }
    AdmittedInUnion(rates, events, key, Between(from, from + w), InWindow(start, w), InWindow(start + w, w));
    WindowAdmitsExactly(rates, events, key, start);
    WindowAdmitsExactly(rates, events, key, start + w);
  }

  /** What a purge is for: a counter is kept, as it was, exactly when its window
      began within a day. */
  lemma PurgeDrops(counters: Counters, now: int, row: Row)
    ensures row in Purged(counters, now) <==> row in counters && now - row.start <= 24 * 60 * 60 * 1_000_000
    ensures row in Purged(counters, now) ==> Purged(counters, now)[row] == counters[row]
  {
  }
}
