/**
 The generation-stamped cache (core/cache.py) between readers that look up,
 rebuild and store a page, and writers that change a row and then bump.

 A body is named by the number of writes visible when it was built. The clock
 is in whole seconds, as `int(time.time())` reads it.
 */
module GenerationCache {
  import opened Common

  type Region = nat

  datatype Namespace = ListingList | BookDetail | ListingPage(pk: nat)

  /** `cachever:{namespace}` and `cachever:{region}:{namespace}`. */
  datatype Counter = Shared(ns: Namespace) | Regional(region: Region, ns: Namespace)

  /** `{region}_{namespace}_v{shared}.{regional}_{suffix}` */
  datatype Key = Key(region: Region, ns: Namespace, shared: int, regional: int, suffix: string)

  type Counters = map<Counter, int>

  /** cache_version: an absent counter is seeded from the clock. */
  function Seeded(counters: Counters, c: Counter, now: int): Counters {
    if c in counters then counters else counters[c := now]
  }

  /** bump_cache_version: an absent counter is set from the clock. */
  function Bumped(counters: Counters, c: Counter, now: int): Counters {
    if c in counters then counters[c := counters[c] + 1] else counters[c := now]
  }

  /** region_versioned_key, with both counters present. */
  function KeyFor(counters: Counters, region: Region, ns: Namespace, suffix: string): Key
    requires Shared(ns) in counters && Regional(region, ns) in counters
  {
    Key(region, ns, counters[Shared(ns)], counters[Regional(region, ns)], suffix)
  }

  /** core/cache.py, and the cached reader the listing views share. */
  class GenerationCache {
    var counters: Counters
    var entries: map<Key, nat>

    constructor ()
      ensures counters == map[] && entries == map[]
    {
      counters, entries := map[], map[];
    }

    /** `answered` is how many of its cache calls are answered before one
        fails; three is all of them. A failure reads as generation 0. */
    method CacheVersion(c: Counter, now: int, answered: nat) returns (version: int)
      modifies this`counters
      ensures counters == if answered >= 2 then Seeded(old(counters), c, now) else old(counters)
      ensures answered >= 3 || (answered >= 1 && c in old(counters)) ==> c in counters && version == counters[c]
      ensures answered == 0 || (answered < 3 && c !in old(counters)) ==> version == 0
    {
      if answered == 0 {
        return 0;
      }
      if c in counters {
        return counters[c];
      }
      if answered == 1 {
        return 0;
      }
      counters := counters[c := now];
      return if answered == 2 then 0 else now;
    }

    /** `up` and `seedUp` say whether `incr`, and the `set` after it, are
        answered; a bump the cache does not answer is lost. */
    method BumpCacheVersion(ns: Namespace, region: Option<Region>, now: int, up: bool, seedUp: bool)
      modifies this`counters
      ensures var c := if region.Some? then Regional(region.value, ns) else Shared(ns);
              counters == if up && (c in old(counters) || seedUp) then Bumped(old(counters), c, now) else old(counters)
    {
      var c := if region.Some? then Regional(region.value, ns) else Shared(ns);
      if up {
        if c in counters {
          counters := counters[c := counters[c] + 1];
        } else if seedUp {
          counters := counters[c := now];
        }
      }
    }

    method RegionVersionedKey(region: Region, ns: Namespace, suffix: string, now: int) returns (key: Key)
      modifies this`counters
      ensures counters == Seeded(Seeded(old(counters), Shared(ns), now), Regional(region, ns), now)
      ensures Shared(ns) in counters && Regional(region, ns) in counters && key == KeyFor(counters, region, ns, suffix)
    {
      var shared := CacheVersion(Shared(ns), now, 3);
      var regional := CacheVersion(Regional(region, ns), now, 3);
      key := Key(region, ns, shared, regional, suffix);
    }

    /** A read nothing interferes with; `built` is the body the database gives,
        if the page exists. A page that does not is never stored. */
    method Read(region: Region, ns: Namespace, suffix: string, now: int, built: Option<nat>) returns (body: Option<nat>)
      modifies this
      ensures Shared(ns) in counters && Regional(region, ns) in counters
      ensures var key := KeyFor(counters, region, ns, suffix);
              && body == (if key in old(entries) then Some(old(entries)[key]) else built)
              && entries == if body.Some? then old(entries)[key := body.value] else old(entries)
    {
      var key := RegionVersionedKey(region, ns, suffix, now);
      if key in entries {
        assert entries[key := entries[key]] == entries;
        return Some(entries[key]);
      }
      if built.Some? {
        entries := entries[key := built.value];
      }
      return built;
    }

    /** invalidate_listing_caches (listings/models.py) */
    method InvalidateListingCaches(region: Region, pk: nat, now: int)
      modifies this`counters
      ensures counters == BumpedAll(old(counters), ListingCounters(region, pk), now)
    {
      BumpCacheVersion(ListingList, Some(region), now, true, true);
      BumpCacheVersion(ListingPage(pk), None, now, true, true);
      BumpCacheVersion(BookDetail, Some(region), now, true, true);
      BumpedAllThree(old(counters), region, pk, now);
    }
  }

  /** The counters a listing's save or deletion bumps. */
  function ListingCounters(region: Region, pk: nat): seq<Counter> {
    [Regional(region, ListingList), Shared(ListingPage(pk)), Regional(region, BookDetail)]
  }

  function BumpedAll(counters: Counters, cs: seq<Counter>, now: int): Counters
    decreases |cs|
  {
    if cs == [] then counters else BumpedAll(Bumped(counters, cs[0], now), cs[1..], now)
  }

  lemma BumpedAllThree(counters: Counters, region: Region, pk: nat, now: int)
    ensures BumpedAll(counters, ListingCounters(region, pk), now) ==
              Bumped(Bumped(Bumped(counters, Regional(region, ListingList), now), Shared(ListingPage(pk)), now),
                     Regional(region, BookDetail), now)
  {
    var list, page, book := Regional(region, ListingList), Shared(ListingPage(pk)), Regional(region, BookDetail);
    assert [list, page, book][1..] == [page, book] && [page, book][1..] == [book] && [book][1..] == [];
    var c1 := Bumped(counters, list, now);
    assert BumpedAll(counters, [list, page, book], now) == BumpedAll(c1, [page, book], now);
    var c2 := Bumped(c1, page, now);
    assert BumpedAll(c1, [page, book], now) == BumpedAll(c2, [book], now);
    assert BumpedAll(c2, [book], now) == BumpedAll(Bumped(c2, book, now), [], now);
  }

  /** Two pages share a key exactly when they are the same page at the same two
      generations. */
  lemma KeysDiffer(counters: Counters, later: Counters, region: Region, ns: Namespace, suffix: string,
                   region': Region, ns': Namespace, suffix': string)
    requires Shared(ns) in counters && Regional(region, ns) in counters
    requires Shared(ns') in later && Regional(region', ns') in later
    ensures KeyFor(counters, region, ns, suffix) == KeyFor(later, region', ns', suffix') <==>
              region == region' && ns == ns' && suffix == suffix'
              && counters[Shared(ns)] == later[Shared(ns)] && counters[Regional(region, ns)] == later[Regional(region, ns)]
  {
  }

  /** A saved listing leaves every other region's lists and book pages, and every
      other listing's page, under the keys they had. */
  lemma ListingSaveSpares(counters: Counters, region: Region, pk: nat, now: int, other: Region, ns: Namespace, suffix: string)
    requires Shared(ns) in counters && Regional(other, ns) in counters
    requires if ns.ListingPage? then ns.pk != pk else other != region
    ensures var bumped := BumpedAll(counters, ListingCounters(region, pk), now);
            && Shared(ns) in bumped && Regional(other, ns) in bumped
            && KeyFor(bumped, other, ns, suffix) == KeyFor(counters, other, ns, suffix)
  {
    BumpedAllThree(counters, region, pk, now);
  }
}
