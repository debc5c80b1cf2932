/**
 Readers and writers of the generation-stamped cache, interleaved between the
 two generation reads, the lookup, the database read and the store of a page,
 with bumps, evictions and a clock in between. One generation read is one step,
 though it is up to three cache calls, and so is one bump.
 */
module CacheCoherence {
  import opened GenerationCache

  /** One generation of one counter. */
  datatype Generation = Generation(c: Counter, number: int)

  /**
   The counters, and the number of writes whose row is visible. The rest is
   history that no step of the program reads: the newest write each counter has
   been bumped for, and that floor at the moment each generation was issued.
   */
  datatype Generations = Generations(counters: Counters, writes: nat,
                                     floors: map<Counter, nat>, born: map<Generation, nat>)
  {
    function Floor(c: Counter): nat {
      if c in floors then floors[c] else 0
    }

    /** `counters[c]` has just been issued as a new generation. */
    function Issued(c: Counter): Generations
      requires c in counters
    {
      this.(born := born[Generation(c, counters[c]) := Floor(c)])
    }

    /** One cache_version call. */
    function Read(c: Counter, now: int): Generations {
      if c in counters then this else this.(counters := Seeded(counters, c, now)).Issued(c)
    }

    /** One bump_cache_version call, for a write already visible. */
    function Bump(c: Counter, write: nat, now: int): Generations {
      this.(counters := Bumped(counters, c, now), floors := floors[c := Max(Floor(c), write)]).Issued(c)
    }
  }

  datatype Stage =
    | AtShared
    | AtRegional(shared: int)
    | AtGet(key: Key)
    | AtBuild(key: Key)
    | AtStore(key: Key, body: nat)
    | Returned(body: nat)

  /** `since` is history: the newest write bumped for when the read began. */
  datatype Reader = Reader(region: Region, ns: Namespace, suffix: string, stage: Stage, since: nat)
  {
    function SharedCounter(): Counter {
      Shared(ns)
    }

    function RegionalCounter(): Counter {
      Regional(region, ns)
    }
  }

  datatype System = System(gens: Generations, entries: map<Key, nat>, now: int, readers: map<nat, Reader>)

  datatype Event =
    | BeginRead(id: nat, region: Region, ns: Namespace, suffix: string)
    | ReaderStep(id: nat)
    | WriteRow
    | BumpFor(c: Counter, write: nat)
    | EvictCounter(c: Counter)
    | EvictEntry(key: Key)
    | Tick(now: int)

  function Max(a: nat, b: nat): nat {
    if a < b then b else a
  }

  function MovedTo(s: System, id: nat, stage: Stage): System
    requires id in s.readers
  {
    s.(readers := s.readers[id := s.readers[id].(stage := stage)])
  }

  function StepReader(s: System, id: nat): System
    requires id in s.readers
  {
    var r := s.readers[id];
    match r.stage
    case AtShared =>
      var gens := s.gens.Read(r.SharedCounter(), s.now);
      MovedTo(s, id, AtRegional(gens.counters[r.SharedCounter()])).(gens := gens)
    case AtRegional(shared) =>
      var gens := s.gens.Read(r.RegionalCounter(), s.now);
      MovedTo(s, id, AtGet(Key(r.region, r.ns, shared, gens.counters[r.RegionalCounter()], r.suffix))).(gens := gens)
    case AtGet(key) =>
      MovedTo(s, id, if key in s.entries then Returned(s.entries[key]) else AtBuild(key))
    case AtBuild(key) => MovedTo(s, id, AtStore(key, s.gens.writes))
    case AtStore(key, body) => MovedTo(s, id, Returned(body)).(entries := s.entries[key := body])
    case Returned(_) => s
  }

  /** A step that cannot be taken changes nothing. */
  function Next(s: System, e: Event): System {
    match e
    case BeginRead(id, region, ns, suffix) =>
      if id in s.readers then s
      else
        var since := Max(s.gens.Floor(Shared(ns)), s.gens.Floor(Regional(region, ns)));
        s.(readers := s.readers[id := Reader(region, ns, suffix, AtShared, since)])
    case ReaderStep(id) => if id in s.readers then StepReader(s, id) else s
    case WriteRow => s.(gens := s.gens.(writes := s.gens.writes + 1))
    case BumpFor(c, write) => if write > s.gens.writes then s else s.(gens := s.gens.Bump(c, write, s.now))
    case EvictCounter(c) => s.(gens := s.gens.(counters := s.gens.counters - {c}))
    case EvictEntry(key) => s.(entries := s.entries - {key})
    case Tick(now) => if now < s.now then s else s.(now := now)
  }

  function Run(s: System, events: seq<Event>): System
    decreases |events|
  {
    if events == [] then s else Run(Next(s, events[0]), events[1..])
  }

  /** A number a counter is about to take is new, or was last issued when no
      other write had been bumped for than now. */
  predicate Fresh(gens: Generations, c: Counter, number: int, floor: nat) {
    Generation(c, number) in gens.born ==> gens.born[Generation(c, number)] == floor
  }

  predicate FreshRead(gens: Generations, c: Counter, now: int) {
    c !in gens.counters ==> Fresh(gens, c, now, gens.Floor(c))
  }

  predicate FreshBump(gens: Generations, c: Counter, write: nat, now: int) {
    Fresh(gens, c, Bumped(gens.counters, c, now)[c], Max(gens.Floor(c), write))
  }

  predicate IssuesFresh(s: System, e: Event) {
    match e
    case BumpFor(c, write) => write <= s.gens.writes ==> FreshBump(s.gens, c, write, s.now)
    case ReaderStep(id) =>
      id in s.readers ==>
        && (s.readers[id].stage.AtShared? ==> FreshRead(s.gens, s.readers[id].SharedCounter(), s.now))
        && (s.readers[id].stage.AtRegional? ==> FreshRead(s.gens, s.readers[id].RegionalCounter(), s.now))
    case _ => true
  }

  predicate AlwaysFresh(s: System, events: seq<Event>)
    decreases |events|
  {
    events != [] ==> IssuesFresh(s, events[0]) && AlwaysFresh(Next(s, events[0]), events[1..])
  }

  // ----- The invariant -----

  /** Each generation of a counter was issued at a floor no higher than today's,
      the current one at today's. */
  ghost predicate CounterOk(gens: Generations, c: Counter) {
    && gens.Floor(c) <= gens.writes
    && (forall g: int :: Generation(c, g) in gens.born ==> gens.born[Generation(c, g)] <= gens.Floor(c))
    && (c in gens.counters ==>
          var g := Generation(c, gens.counters[c]);
          g in gens.born && gens.born[g] == gens.Floor(c))
  }

  ghost predicate GenerationsOk(gens: Generations) {
    forall c: Counter :: CounterOk(gens, c)
  }

  /** The floor a key's generations were issued at, the higher of the two. */
  predicate KeyBorn(gens: Generations, key: Key) {
    Generation(Shared(key.ns), key.shared) in gens.born && Generation(Regional(key.region, key.ns), key.regional) in gens.born
  }

  function KeyFloor(gens: Generations, key: Key): nat
    requires KeyBorn(gens, key)
  {
    Max(gens.born[Generation(Shared(key.ns), key.shared)], gens.born[Generation(Regional(key.region, key.ns), key.regional)])
  }

  /** A body stored, or about to be, under a key is no older than that. */
  predicate BodyOk(gens: Generations, key: Key, body: nat) {
    KeyBorn(gens, key) && KeyFloor(gens, key) <= body
  }

  predicate KeyOk(gens: Generations, r: Reader, key: Key) {
    && key.region == r.region && key.ns == r.ns && key.suffix == r.suffix
    && KeyBorn(gens, key) && r.since <= KeyFloor(gens, key)
  }

  predicate ReaderOk(gens: Generations, r: Reader) {
    match r.stage
    case AtShared => r.since <= Max(gens.Floor(r.SharedCounter()), gens.Floor(r.RegionalCounter()))
    case AtRegional(shared) =>
      && Generation(r.SharedCounter(), shared) in gens.born
      && r.since <= Max(gens.born[Generation(r.SharedCounter(), shared)], gens.Floor(r.RegionalCounter()))
    case AtGet(key) => KeyOk(gens, r, key)
    case AtBuild(key) => KeyOk(gens, r, key)
    case AtStore(key, body) => KeyOk(gens, r, key) && BodyOk(gens, key, body)
    case Returned(body) => r.since <= body
  }

  ghost predicate Ok(s: System) {
    && GenerationsOk(s.gens)
    && (forall key <- s.entries :: BodyOk(s.gens, key, s.entries[key]))
    && (forall id <- s.readers :: ReaderOk(s.gens, s.readers[id]))
  }

  /** History only grows. */
  ghost predicate Grows(a: Generations, b: Generations) {
    && a.writes <= b.writes
    && (forall c: Counter :: a.Floor(c) <= b.Floor(c))
    && (forall g <- a.born :: g in b.born && b.born[g] == a.born[g])
  }

  /** A counter that takes a new number rewrites no history exactly when the
      number is fresh. */
  lemma IssueOk(gens: Generations, c: Counter, counters: Counters, floor: nat)
    requires GenerationsOk(gens)
    requires c in counters && counters - {c} == gens.counters - {c}
    requires gens.Floor(c) <= floor <= gens.writes
    ensures var gens' := gens.(counters := counters, floors := gens.floors[c := floor]).Issued(c);
            GenerationsOk(gens') && (Grows(gens, gens') <==> Fresh(gens, c, counters[c], floor))
  {
    var gens' := gens.(counters := counters, floors := gens.floors[c := floor]).Issued(c);
    assert CounterOk(gens, c);
    forall k: Counter ensures CounterOk(gens', k) {
      assert CounterOk(gens, k);
      if k != c && k in counters {
        assert k in counters - {c} && counters[k] == (counters - {c})[k];
      }
    }
    if !Fresh(gens, c, counters[c], floor) {
      assert gens'.born[Generation(c, counters[c])] != gens.born[Generation(c, counters[c])];
    }
  }

  lemma BumpOk(gens: Generations, c: Counter, write: nat, now: int)
    requires GenerationsOk(gens) && write <= gens.writes
    ensures var gens' := gens.Bump(c, write, now);
            && GenerationsOk(gens') && write <= gens'.Floor(c)
            && (Grows(gens, gens') <==> FreshBump(gens, c, write, now))
  {
    assert CounterOk(gens, c);
    IssueOk(gens, c, Bumped(gens.counters, c, now), Max(gens.Floor(c), write));
  }

  lemma ReadOk(gens: Generations, c: Counter, now: int)
    requires GenerationsOk(gens) && FreshRead(gens, c, now)
    ensures var gens' := gens.Read(c, now);
            && Grows(gens, gens') && GenerationsOk(gens') && c in gens'.counters
            && Generation(c, gens'.counters[c]) in gens'.born
            && gens'.born[Generation(c, gens'.counters[c])] == gens.Floor(c)
  {
    assert CounterOk(gens, c);
    if c !in gens.counters {
      var seeded := Seeded(gens.counters, c, now);
      IssueOk(gens, c, seeded, gens.Floor(c));
      var gens' := gens.(counters := seeded, floors := gens.floors[c := gens.Floor(c)]).Issued(c);
      forall k: Counter ensures CounterOk(gens.Read(c, now), k) && gens.Read(c, now).Floor(k) == gens.Floor(k) {
        assert CounterOk(gens', k);
      }
    }
  }

  /** What was all right stays so as history grows. */
  lemma OkGrows(s: System, gens: Generations)
    requires Ok(s) && Grows(s.gens, gens) && GenerationsOk(gens)
    ensures Ok(s.(gens := gens))
  {
  }

  lemma StepReaderOk(s: System, id: nat)
    requires Ok(s) && id in s.readers && IssuesFresh(s, ReaderStep(id))
    ensures Ok(StepReader(s, id))
  {
    var r := s.readers[id];
    assert ReaderOk(s.gens, r);
    match r.stage
    case AtShared =>
      ReadOk(s.gens, r.SharedCounter(), s.now);
      OkGrows(s, s.gens.Read(r.SharedCounter(), s.now));
    case AtRegional(_) =>
      ReadOk(s.gens, r.RegionalCounter(), s.now);
      OkGrows(s, s.gens.Read(r.RegionalCounter(), s.now));
    case AtBuild(key) =>
      assert CounterOk(s.gens, r.SharedCounter()) && CounterOk(s.gens, r.RegionalCounter());
    case _ =>
  }

  lemma OkNext(s: System, e: Event)
    requires Ok(s) && IssuesFresh(s, e)
    ensures Ok(Next(s, e))
  {
    match e
    case ReaderStep(id) =>
      if id in s.readers {
        StepReaderOk(s, id);
      }
    case BumpFor(c, write) =>
      if write <= s.gens.writes {
        BumpOk(s.gens, c, write, s.now);
        OkGrows(s, s.gens.Bump(c, write, s.now));
      }
    case WriteRow =>
      forall c: Counter ensures CounterOk(Next(s, e).gens, c) {
        assert CounterOk(s.gens, c);
      }
      OkGrows(s, Next(s, e).gens);
    case EvictCounter(_) =>
      forall c: Counter ensures CounterOk(Next(s, e).gens, c) {
        assert CounterOk(s.gens, c);
      }
      OkGrows(s, Next(s, e).gens);
    case _ =>
  }

  lemma {:induction false} OkRun(s: System, events: seq<Event>)
    requires Ok(s) && AlwaysFresh(s, events)
    ensures Ok(Run(s, events))
    decreases |events|
  {
    if events != [] {
      OkNext(s, events[0]);
      OkRun(Next(s, events[0]), events[1..]);
    }
  }

  // ----- Coherence -----

  lemma {:induction false} RunAppend(s: System, a: seq<Event>, b: seq<Event>)
    ensures Run(s, a + b) == Run(Run(s, a), b)
    ensures AlwaysFresh(s, a + b) <==> AlwaysFresh(s, a) && AlwaysFresh(Run(s, a), b)
    decreases |a|
  {
    if a == [] {
      assert a + b == b;
    } else {
      assert (a + b)[1..] == a[1..] + b && (a + b)[0] == a[0];
      RunAppend(Next(s, a[0]), a[1..], b);
    }
  }

  lemma {:induction false} FloorsOnlyRise(s: System, events: seq<Event>, c: Counter)
    ensures s.gens.Floor(c) <= Run(s, events).gens.Floor(c)
    decreases |events|
  {
    if events != [] {
      FloorsOnlyRise(Next(s, events[0]), events[1..], c);
    }
  }

  lemma {:induction false} ReaderKeepsSince(s: System, events: seq<Event>, id: nat)
    requires id in s.readers
    ensures id in Run(s, events).readers && Run(s, events).readers[id].since == s.readers[id].since
    decreases |events|
  {
    if events != [] {
      ReaderKeepsSince(Next(s, events[0]), events[1..], id);
    }
  }

  predicate Done(s: System, id: nat) {
    id in s.readers && s.readers[id].stage.Returned?
  }

  /**
   A read that begins after a bump never returns a body built before the write
   the bump was for, whatever readers, writers and evictions do in between and
   meanwhile: a slow reader storing an old body after the bump included.
   */
  lemma NoStaleRead(s: System, c: Counter, write: nat, between: seq<Event>,
                    id: nat, region: Region, ns: Namespace, suffix: string, after: seq<Event>)
    requires Ok(s) && write <= s.gens.writes
    requires c == Shared(ns) || c == Regional(region, ns)
    requires AlwaysFresh(s, [BumpFor(c, write)] + between + [BeginRead(id, region, ns, suffix)] + after)
    requires id !in Run(s, [BumpFor(c, write)] + between).readers
    ensures var end := Run(s, [BumpFor(c, write)] + between + [BeginRead(id, region, ns, suffix)] + after);
            Done(end, id) ==> write <= end.readers[id].stage.body
  {
    var bump, begin := BumpFor(c, write), BeginRead(id, region, ns, suffix);
    var head := [bump] + between;
    var s1 := Run(s, head);
    var s2 := Next(s1, begin);
    RunAppend(s, head + [begin], after);
    RunAppend(s, head, [begin]);
    assert Run(s1, [begin]) == s2 by {
      assert [begin][1..] == [];
    }
    assert head[1..] == between;
    BumpOk(s.gens, c, write, s.now);
    FloorsOnlyRise(Next(s, bump), between, c);
    assert write <= s2.readers[id].since;
    ReaderKeepsSince(s2, after, id);
    var end := Run(s2, after);
    assert Run(s, head + [begin] + after) == end;
    OkRun(s, head + [begin] + after);
    assert ReaderOk(end.gens, end.readers[id]);
  }

  /** A bump leaves no body older than its write reachable in the family, and
      with a number the counter never had, none at all. */
  lemma BumpRetiresFamily(s: System, region: Region, ns: Namespace, c: Counter, write: nat, suffix: string)
    requires Ok(s) && write <= s.gens.writes && FreshBump(s.gens, c, write, s.now)
    requires c == Shared(ns) || c == Regional(region, ns)
    requires Shared(ns) in s.gens.counters && Regional(region, ns) in s.gens.counters
    ensures var counters := Next(s, BumpFor(c, write)).gens.counters;
            && Shared(ns) in counters && Regional(region, ns) in counters
            && var key := KeyFor(counters, region, ns, suffix);
               && (key in s.entries ==> write <= s.entries[key])
               && (Generation(c, counters[c]) !in s.gens.born ==> key !in s.entries)
  {
    var key := KeyFor(Next(s, BumpFor(c, write)).gens.counters, region, ns, suffix);
    assert key in s.entries ==> BodyOk(s.gens, key, s.entries[key]);
  }

  /** And a regional bump leaves every other region's keys as they were. */
  lemma RegionalBumpSparesOthers(counters: Counters, region: Region, ns: Namespace, now: int,
                                 other: Region, otherNs: Namespace, suffix: string)
    requires Shared(otherNs) in counters && Regional(other, otherNs) in counters && other != region
    ensures var bumped := Bumped(counters, Regional(region, ns), now);
            && Shared(otherNs) in bumped && Regional(other, otherNs) in bumped
            && KeyFor(bumped, other, otherNs, suffix) == KeyFor(counters, other, otherNs, suffix)
  {
  }

  /** A writer that bumps each of these counters for its write. */
  function Bumps(cs: seq<Counter>, write: nat): seq<Event> {
    seq(|cs|, i requires 0 <= i < |cs| => BumpFor(cs[i], write))
  }

  lemma {:induction false} AllBumped(s: System, cs: seq<Counter>, write: nat)
    requires write <= s.gens.writes
    ensures forall c <- cs :: write <= Run(s, Bumps(cs, write)).gens.Floor(c)
    decreases |cs|
  {
    if cs != [] {
      var s' := Next(s, BumpFor(cs[0], write));
      assert Bumps(cs, write)[1..] == Bumps(cs[1..], write);
      AllBumped(s', cs[1..], write);
      FloorsOnlyRise(s', Bumps(cs[1..], write), cs[0]);
      assert cs == [cs[0]] + cs[1..];
    }
  }

  /** Which pages a saved or deleted listing can no longer appear stale on, once
      invalidate_listing_caches has run: the lists and book pages of its region,
      and its own page in every region. */
  lemma ListingSaveReaches(s: System, region: Region, pk: nat, write: nat, other: Region)
    requires write <= s.gens.writes
    ensures var gens := Run(s, Bumps(ListingCounters(region, pk), write)).gens;
            && write <= Max(gens.Floor(Shared(ListingList)), gens.Floor(Regional(region, ListingList)))
            && write <= Max(gens.Floor(Shared(BookDetail)), gens.Floor(Regional(region, BookDetail)))
            && write <= Max(gens.Floor(Shared(ListingPage(pk))), gens.Floor(Regional(other, ListingPage(pk))))
  {
    var cs := ListingCounters(region, pk);
    AllBumped(s, cs, write);
    assert cs[0] in cs && cs[1] in cs && cs[2] in cs;
  }

  // ----- When a number is issued again -----

  /** The key of a page while counter `c` reads `number`. */
  function KeyWith(counters: Counters, c: Counter, number: int, region: Region, ns: Namespace, suffix: string): Key
    requires Shared(ns) in counters[c := number] && Regional(region, ns) in counters[c := number]
  {
    KeyFor(counters[c := number], region, ns, suffix)
  }

  /** Exactly when a counter taking a number can serve a body older than `floor`:
      the number was issued at a lower floor, and the page's other counter has
      not been bumped for a write as new. */
  lemma StaleBodyExactly(gens: Generations, c: Counter, number: int, floor: nat, other: Counter,
                         region: Region, ns: Namespace, suffix: string)
    requires GenerationsOk(gens) && gens.Floor(c) <= floor && other in gens.counters
    requires (c == Shared(ns) && other == Regional(region, ns)) || (c == Regional(region, ns) && other == Shared(ns))
    ensures var key := KeyWith(gens.counters, c, number, region, ns, suffix);
            (exists body: nat :: BodyOk(gens, key, body) && body < Max(floor, gens.Floor(other))) <==>
              !Fresh(gens, c, number, floor) && gens.Floor(other) < floor
  {
    var key := KeyWith(gens.counters, c, number, region, ns, suffix);
    assert CounterOk(gens, c) && CounterOk(gens, other);
    if !Fresh(gens, c, number, floor) && gens.Floor(other) < floor {
      assert BodyOk(gens, key, KeyFloor(gens, key)) && KeyFloor(gens, key) < floor;
    }
  }

  function ReadEvents(id: nat, region: Region, ns: Namespace, suffix: string): seq<Event> {
    [BeginRead(id, region, ns, suffix), ReaderStep(id), ReaderStep(id), ReaderStep(id)]
  }

  /** A read alone returns what is stored under the key of its two counters. */
  lemma ReadAlone(s: System, id: nat, region: Region, ns: Namespace, suffix: string)
    requires id !in s.readers
    ensures var counters := Seeded(Seeded(s.gens.counters, Shared(ns), s.now), Regional(region, ns), s.now);
            var key, end := KeyFor(counters, region, ns, suffix), Run(s, ReadEvents(id, region, ns, suffix));
            && id in end.readers
            && end.readers[id].since == Max(s.gens.Floor(Shared(ns)), s.gens.Floor(Regional(region, ns)))
            && (key in s.entries ==> end.readers[id].stage == Returned(s.entries[key]))
  {
    var begin, step := BeginRead(id, region, ns, suffix), ReaderStep(id);
    var s1 := Next(s, begin);
    var s2 := Next(s1, step);
    var s3 := Next(s2, step);
    assert [begin, step, step, step][1..] == [step, step, step] && [step, step, step][1..] == [step, step];
    assert [step, step][1..] == [step] && [step][1..] == [];
    assert Run(s3, [step]) == Next(s3, step);
    assert Run(s2, [step, step]) == Next(s3, step);
    assert Run(s1, [step, step, step]) == Next(s3, step);
  }

  /** So a bump that issues such a number again serves a store's old body to a
      read that begins after it. */
  lemma StaleAfterReissue(s: System, c: Counter, write: nat, other: Counter, id: nat,
                          region: Region, ns: Namespace, suffix: string)
    requires write <= s.gens.writes && id !in s.readers && other in s.gens.counters
    requires (c == Shared(ns) && other == Regional(region, ns)) || (c == Regional(region, ns) && other == Shared(ns))
    requires KeyWith(s.gens.counters, c, Bumped(s.gens.counters, c, s.now)[c], region, ns, suffix) in s.entries
    ensures var key := KeyWith(s.gens.counters, c, Bumped(s.gens.counters, c, s.now)[c], region, ns, suffix);
            var end := Run(Next(s, BumpFor(c, write)), ReadEvents(id, region, ns, suffix));
            && id in end.readers && end.readers[id].stage == Returned(s.entries[key])
            && end.readers[id].since == Max(Max(s.gens.Floor(c), write), s.gens.Floor(other))
  {
    var s' := Next(s, BumpFor(c, write));
    ReadAlone(s', id, region, ns, suffix);
    assert s'.gens.counters == s.gens.counters[c := Bumped(s.gens.counters, c, s.now)[c]];
  }

  /** The same when the read itself seeds the counter. */
  lemma StaleAfterSeed(s: System, c: Counter, other: Counter, id: nat, region: Region, ns: Namespace, suffix: string)
    requires id !in s.readers && c !in s.gens.counters && other in s.gens.counters
    requires (c == Shared(ns) && other == Regional(region, ns)) || (c == Regional(region, ns) && other == Shared(ns))
    requires KeyWith(s.gens.counters, c, s.now, region, ns, suffix) in s.entries
    ensures var key := KeyWith(s.gens.counters, c, s.now, region, ns, suffix);
            var end := Run(s, ReadEvents(id, region, ns, suffix));
            && id in end.readers && end.readers[id].stage == Returned(s.entries[key])
            && end.readers[id].since == Max(s.gens.Floor(c), s.gens.Floor(other))
  {
    ReadAlone(s, id, region, ns, suffix);
    assert Seeded(Seeded(s.gens.counters, Shared(ns), s.now), Regional(region, ns), s.now) == s.gens.counters[c := s.now];
  }

  /** For instance: a page stored in the second its counter was seeded in, then
      a write, its bump and the counter's eviction, all before the clock moves. */
  lemma StaleWithinTheSecond(s: System, c: Counter, other: Counter, id: nat, region: Region, ns: Namespace, suffix: string)
    requires Ok(s) && id !in s.readers && c in s.gens.counters && other in s.gens.counters
    requires (c == Shared(ns) && other == Regional(region, ns)) || (c == Regional(region, ns) && other == Shared(ns))
    requires s.gens.counters[c] == s.now
    requires var key := KeyFor(s.gens.counters, region, ns, suffix); key in s.entries && s.entries[key] <= s.gens.writes
    ensures var write := s.gens.writes + 1;
            var events := [WriteRow, BumpFor(c, write), EvictCounter(c)] + ReadEvents(id, region, ns, suffix);
            var end := Run(s, events);
            && id in end.readers && end.readers[id].since == write
            && end.readers[id].stage.Returned? && end.readers[id].stage.body < write
  {
    var write, row, bump, evict := s.gens.writes + 1, WriteRow, BumpFor(c, s.gens.writes + 1), EvictCounter(c);
    var s1 := Next(s, row);
    var s2 := Next(s1, bump);
    var s3 := Next(s2, evict);
    assert CounterOk(s.gens, c) && CounterOk(s.gens, other);
    assert [row, bump, evict][1..] == [bump, evict] && [bump, evict][1..] == [evict] && [evict][1..] == [];
    assert Run(s1, [bump, evict]) == Run(s2, [evict]) == s3;
    assert Run(s, [row, bump, evict]) == s3;
    assert s3.gens.counters[c := s.now] == s.gens.counters;
    StaleAfterSeed(s3, c, other, id, region, ns, suffix);
    RunAppend(s, [row, bump, evict], ReadEvents(id, region, ns, suffix));
  }

  // ----- The clock -----

  predicate ClockPast(gens: Generations, c: Counter, now: int) {
    c !in gens.counters ==> forall g <- gens.born :: g.c == c ==> g.number < now
  }

  /** An absent counter is started again from a clock past every generation it
      has had. */
  predicate ClockAhead(s: System, e: Event) {
    match e
    case BumpFor(c, _) => ClockPast(s.gens, c, s.now)
    case ReaderStep(id) =>
      id in s.readers ==>
        && (s.readers[id].stage.AtShared? ==> ClockPast(s.gens, s.readers[id].SharedCounter(), s.now))
        && (s.readers[id].stage.AtRegional? ==> ClockPast(s.gens, s.readers[id].RegionalCounter(), s.now))
    case _ => true
  }

  predicate ClockAlwaysAhead(s: System, events: seq<Event>)
    decreases |events|
  {
    events != [] ==> ClockAhead(s, events[0]) && ClockAlwaysAhead(Next(s, events[0]), events[1..])
  }

  /** A counter reads the highest number it has had. */
  predicate CurrentIsNewest(gens: Generations) {
    forall g <- gens.born :: g.c in gens.counters ==> g.number <= gens.counters[g.c]
  }

  lemma ClockAheadNext(s: System, e: Event)
    requires Ok(s) && CurrentIsNewest(s.gens) && ClockAhead(s, e)
    ensures IssuesFresh(s, e) && CurrentIsNewest(Next(s, e).gens)
  {
  }

  /** A clock ahead of every generation handed out is enough. */
  lemma {:induction false} ClockAheadIsEnough(s: System, events: seq<Event>)
    requires Ok(s) && CurrentIsNewest(s.gens) && ClockAlwaysAhead(s, events)
    ensures AlwaysFresh(s, events)
    decreases |events|
  {
    if events != [] {
      ClockAheadNext(s, events[0]);
      OkNext(s, events[0]);
      ClockAheadIsEnough(Next(s, events[0]), events[1..]);
    }
  }

  /** A read alone of a page nobody stored gets as far as building it. */
  lemma ReadMisses(s: System, id: nat, region: Region, ns: Namespace, suffix: string)
    requires id !in s.readers
    ensures var counters := Seeded(Seeded(s.gens.counters, Shared(ns), s.now), Regional(region, ns), s.now);
            var key, missed := KeyFor(counters, region, ns, suffix), Run(s, ReadEvents(id, region, ns, suffix));
            key !in s.entries ==>
              && id in missed.readers && missed.readers[id].stage == AtBuild(key)
              && missed.entries == s.entries && missed.gens.writes == s.gens.writes && missed.gens.counters == counters
  {
    var begin, step := BeginRead(id, region, ns, suffix), ReaderStep(id);
    var s1 := Next(s, begin);
    var s2 := Next(s1, step);
    var s3 := Next(s2, step);
    assert [begin, step, step, step][1..] == [step, step, step] && [step, step, step][1..] == [step, step];
    assert [step, step][1..] == [step] && [step][1..] == [];
    assert Run(s3, [step]) == Next(s3, step);
    assert Run(s2, [step, step]) == Next(s3, step);
    assert Run(s1, [step, step, step]) == Next(s3, step);
  }

  lemma BuildStores(s: System, id: nat, key: Key)
    requires id in s.readers && s.readers[id].stage == AtBuild(key)
    ensures var end := Run(s, [ReaderStep(id), ReaderStep(id)]);
            && id in end.readers && end.readers[id].stage == Returned(s.gens.writes)
            && end.entries == s.entries[key := s.gens.writes] && end.gens == s.gens
  {
    var step := ReaderStep(id);
    assert [step, step][1..] == [step] && [step][1..] == [];
    assert Run(Next(s, step), [step]) == Next(Next(s, step), step);
  }

  /** And then builds it from every write visible and stores it where the next
      read looks. */
  lemma ReadAloneStores(s: System, id: nat, region: Region, ns: Namespace, suffix: string)
    requires id !in s.readers
    ensures var counters := Seeded(Seeded(s.gens.counters, Shared(ns), s.now), Regional(region, ns), s.now);
            var key := KeyFor(counters, region, ns, suffix);
            var end := Run(s, ReadEvents(id, region, ns, suffix) + [ReaderStep(id), ReaderStep(id)]);
            key !in s.entries ==>
              && id in end.readers && end.readers[id].stage == Returned(s.gens.writes)
              && end.entries == s.entries[key := s.gens.writes] && end.gens.counters == counters
  {
    var counters := Seeded(Seeded(s.gens.counters, Shared(ns), s.now), Regional(region, ns), s.now);
    var key, first := KeyFor(counters, region, ns, suffix), ReadEvents(id, region, ns, suffix);
    if key !in s.entries {
      ReadMisses(s, id, region, ns, suffix);
      BuildStores(Run(s, first), id, key);
      RunAppend(s, first, [ReaderStep(id), ReaderStep(id)]);
    }
  }
}
