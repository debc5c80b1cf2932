/**
 Which catalogues a book lookup asks, and in what order
 (catalog/services/engines.py).
 */
module Engines {
  import opened Common

  type Record = nat

  /** `Other` is any name the site does not know. */
  datatype Engine = GoogleBooks | OpenLibrary | IsbnNet | Other(name: string)

  const VALID_SEARCH_ENGINES: set<Engine> := {GoogleBooks, OpenLibrary, IsbnNet}
  const ISBN_FALLBACK_ORDER: seq<Engine> := [GoogleBooks, IsbnNet, OpenLibrary]
  const KEYWORD_FALLBACK_ORDER: seq<Engine> := [GoogleBooks, OpenLibrary]

  /** What a lookup function does: answer, or raise GoogleBooksRateLimited. It
      may set a status of its own. */
  datatype Outcome =
    | Answered(result: Option<Record>, status: Option<string>, cacheHit: bool)
    | RateLimited(cacheHit: bool)

  datatype Attempt = Attempt(engine: Engine, status: string, cacheHit: bool)

  function Filtered(engines: seq<Engine>, allowed: set<Engine>): seq<Engine> {
    if engines == [] then []
    else (if engines[0] in allowed then [engines[0]] else []) + Filtered(engines[1..], allowed)
  }

  function RegionSearchEngines(configured: seq<Engine>): seq<Engine> {
    var allowed := Filtered(configured, VALID_SEARCH_ENGINES);
    if allowed == [] then [GoogleBooks] else allowed
  }

  function EngineOrder(requested: Option<Engine>, allowed: seq<Engine>, fallback: seq<Engine>): seq<Engine> {
    if requested.Some? && requested.value in allowed then [requested.value]
    else Filtered(fallback, set e | e in allowed)
  }

  predicate Distinct(engines: seq<Engine>) {
    forall i, j :: 0 <= i < j < |engines| ==> engines[i] != engines[j]
  }

  predicate Has(lookups: Engine -> Outcome, engine: Engine) {
    lookups(engine).Answered? && lookups(engine).result.Some?
  }

  predicate AnyLimited(lookups: Engine -> Outcome, engines: seq<Engine>) {
    exists i :: 0 <= i < |engines| && lookups(engines[i]).RateLimited?
  }

  function AttemptAt(lookups: Engine -> Outcome, engine: Engine): Attempt {
    match lookups(engine)
    case RateLimited(hit) => Attempt(engine, "rate_limited", hit)
    case Answered(result, status, hit) =>
      Attempt(engine, status.GetOr(if result.Some? then "found" else "not_found"), hit)
  }

  /** The order with Open Library behind it when a rate limit calls for it. */
  function Effective(order: seq<Engine>, lookups: Engine -> Outcome, allowed: set<Engine>): seq<Engine> {
    if OpenLibrary in allowed && OpenLibrary !in order && AnyLimited(lookups, order) then order + [OpenLibrary]
    else order
  }

  /** Engines are asked along `order` up to the first with a result, or all of
      them when none has one. */
  predicate AskedUntilFound(order: seq<Engine>, lookups: Engine -> Outcome, asked: seq<Engine>, result: Option<Record>) {
    && asked <= order
    && (forall i :: 0 <= i < |asked| - 1 ==> !Has(lookups, asked[i]))
    && if result.None? then asked == order && forall i :: 0 <= i < |order| ==> !Has(lookups, order[i])
       else asked != [] && Has(lookups, asked[|asked| - 1]) && result == lookups(asked[|asked| - 1]).result
  }

  predicate AttemptsOf(lookups: Engine -> Outcome, asked: seq<Engine>, attempts: seq<Attempt>) {
    |attempts| == |asked| && forall i :: 0 <= i < |asked| ==> attempts[i] == AttemptAt(lookups, asked[i])
  }

  /** catalog/services/engines.py, lookup_in_order. `asked` lists the engines in
      the order they were called. */
  method LookupInOrder(start: seq<Engine>, lookups: Engine -> Outcome, allowed: set<Engine>)
    returns (result: Option<Record>, used: Option<Engine>, attempts: seq<Attempt>, unavailable: bool,
             asked: seq<Engine>)
    ensures AskedUntilFound(Effective(start, lookups, allowed), lookups, asked, result)
    ensures AttemptsOf(lookups, asked, attempts)
    ensures used == if asked == [] then None else Some(asked[|asked| - 1])
    ensures unavailable == AnyLimited(lookups, asked)
  {
    var order := start;
    result, used, attempts, unavailable, asked := None, None, [], false, [];
    var i := 0;
    while i < |order| && result.None?
      invariant 0 <= i <= |order| && asked == order[..i]
      invariant Grown(start, lookups, allowed, order, asked)
      invariant forall j :: 0 <= j < i - 1 ==> !Has(lookups, order[j])
      invariant i == 0 ==> result == None
      invariant i > 0 ==> result == if Has(lookups, order[i - 1]) then lookups(order[i - 1]).result else None
      invariant AttemptsOf(lookups, asked, attempts)
      invariant used == if i == 0 then None else Some(order[i - 1])
      invariant unavailable == AnyLimited(lookups, asked)
      decreases |start| + 1 - i
    {
      var engine := order[i];
      OneMoreAsked(start, lookups, allowed, order, asked, engine);
      used, asked := Some(engine), asked + [engine];
      i := i + 1;
      var attempt, limited;
      result, attempt, limited := Ask(engine, lookups);
      if limited {
        unavailable := true;
        if OpenLibrary in allowed && OpenLibrary !in order {
          order := order + [OpenLibrary];
        }
      }
      attempts := attempts + [attempt];
    }
    WholeOrder(start, lookups, allowed, order, asked);
  }

  /** One turn of the loop: the call and its entry in the attempts. */
  method Ask(engine: Engine, lookups: Engine -> Outcome)
    returns (result: Option<Record>, attempt: Attempt, limited: bool)
    ensures result == if Has(lookups, engine) then lookups(engine).result else None
    ensures attempt == AttemptAt(lookups, engine) && limited == lookups(engine).RateLimited?
  {
    var outcome := lookups(engine);
    limited := outcome.RateLimited?;
    var status: string;
    if limited {
      result, status := None, "rate_limited";
    } else {
      result := outcome.result;
      status := outcome.status.GetOr(if result.Some? then "found" else "not_found");
    }
    attempt := Attempt(engine, status, outcome.cacheHit);
  }

  /** The list after some engines were asked: Open Library joins it with the
      first rate limit. */
  predicate Grown(start: seq<Engine>, lookups: Engine -> Outcome, allowed: set<Engine>,
                  order: seq<Engine>, asked: seq<Engine>)
  {
    if order == start then !(OpenLibrary in allowed && OpenLibrary !in start && AnyLimited(lookups, asked))
    else order == start + [OpenLibrary] && order == Effective(start, lookups, allowed)
  }

  lemma OneMoreAsked(start: seq<Engine>, lookups: Engine -> Outcome, allowed: set<Engine>,
                     order: seq<Engine>, asked: seq<Engine>, engine: Engine)
    requires Grown(start, lookups, allowed, order, asked)
    requires |asked| < |order| && asked == order[..|asked|] && engine == order[|asked|]
    ensures AnyLimited(lookups, asked + [engine]) <==> AnyLimited(lookups, asked) || lookups(engine).RateLimited?
    ensures var more := if lookups(engine).RateLimited? && OpenLibrary in allowed && OpenLibrary !in order
                        then order + [OpenLibrary] else order;
            Grown(start, lookups, allowed, more, asked + [engine])
  {
    var more := asked + [engine];
    assert more[|asked|] == engine;
    if i :| 0 <= i < |asked| && lookups(asked[i]).RateLimited? {
      assert more[i] == asked[i];
    }
    if i :| 0 <= i < |more| && lookups(more[i]).RateLimited? {
      assert i < |asked| ==> more[i] == asked[i];
    }
    if order == start && lookups(engine).RateLimited? {
      assert AnyLimited(lookups, start);
    }
  }

  lemma WholeOrder(start: seq<Engine>, lookups: Engine -> Outcome, allowed: set<Engine>,
                   order: seq<Engine>, asked: seq<Engine>)
    requires Grown(start, lookups, allowed, order, asked) && asked <= order
    ensures asked <= Effective(start, lookups, allowed)
    ensures asked == order ==> order == Effective(start, lookups, allowed)
  {
  }

  // ----- What a lookup may ask -----

  lemma {:induction false} FilteredKeeps(engines: seq<Engine>, allowed: set<Engine>)
    ensures forall e :: e in Filtered(engines, allowed) <==> e in engines && e in allowed
    ensures Distinct(engines) ==> Distinct(Filtered(engines, allowed))
  {
    if engines != [] {
      FilteredKeeps(engines[1..], allowed);
      assert engines == [engines[0]] + engines[1..];
      if Distinct(engines) {
        assert engines[0] !in engines[1..];
      }
    }
  }

  /** A region always has an engine, and never one the site does not know. */
  lemma RegionHasEngines(configured: seq<Engine>)
    ensures RegionSearchEngines(configured) != []
    ensures forall e <- RegionSearchEngines(configured) :: e in VALID_SEARCH_ENGINES
    ensures forall e <- configured :: e in VALID_SEARCH_ENGINES ==> e in RegionSearchEngines(configured)
  {
    FilteredKeeps(configured, VALID_SEARCH_ENGINES);
  }

  /** Each engine is asked at most once. */
  lemma AskedOnce(order: seq<Engine>, lookups: Engine -> Outcome, allowed: set<Engine>)
    requires Distinct(order)
    ensures Distinct(Effective(order, lookups, allowed))
  {
  }

  /** Only engines the region allows are asked, each at most once, whether or
      not the caller named one and whatever the catalogues answer. */
  lemma OnlyAllowedAsked(requested: Option<Engine>, allowed: seq<Engine>, fallback: seq<Engine>,
                         lookups: Engine -> Outcome)
    requires Distinct(fallback)
    ensures var order := Effective(EngineOrder(requested, allowed, fallback), lookups, set e | e in allowed);
            Distinct(order) && forall e <- order :: e in allowed
  {
    FilteredKeeps(fallback, set e | e in allowed);
  }

  /** A lookup with no engine to ask: exactly when the region allows none of the
      fallback, and the caller named none it allows. */
  lemma NobodyAsked(requested: Option<Engine>, allowed: seq<Engine>, fallback: seq<Engine>, lookups: Engine -> Outcome)
    ensures Effective(EngineOrder(requested, allowed, fallback), lookups, set e | e in allowed) == [] <==>
              (requested.None? || requested.value !in allowed) && forall e <- fallback :: e !in allowed
  {
    FilteredKeeps(fallback, set e | e in allowed);
    var order := EngineOrder(requested, allowed, fallback);
    if order == [] {
      assert forall e <- fallback :: e in allowed ==> e in Filtered(fallback, set e | e in allowed);
    } else {
      assert order[0] in order;
    }
  }

  /** Both fallback orders are ones `OnlyAllowedAsked` is about, and a region
      with the ISBN registry alone has nobody to ask about a keyword. */
  lemma FallbackOrders(lookups: Engine -> Outcome)
    ensures Distinct(ISBN_FALLBACK_ORDER) && Distinct(KEYWORD_FALLBACK_ORDER)
    ensures Effective(EngineOrder(None, [IsbnNet], KEYWORD_FALLBACK_ORDER), lookups, set e | e in [IsbnNet]) == []
    ensures Effective(EngineOrder(None, [IsbnNet], ISBN_FALLBACK_ORDER), lookups, set e | e in [IsbnNet]) != []
  {
    NobodyAsked(None, [IsbnNet], KEYWORD_FALLBACK_ORDER, lookups);
    NobodyAsked(None, [IsbnNet], ISBN_FALLBACK_ORDER, lookups);
    assert ISBN_FALLBACK_ORDER[1] in ISBN_FALLBACK_ORDER && IsbnNet in [IsbnNet];
  }

  /** Naming Google still reaches Open Library when Google is rate limited. */
  lemma GoogleHandsOver(allowed: seq<Engine>, fallback: seq<Engine>, lookups: Engine -> Outcome)
    requires GoogleBooks in allowed
    ensures var order := Effective(EngineOrder(Some(GoogleBooks), allowed, fallback), lookups, set e | e in allowed);
            order == if lookups(GoogleBooks).RateLimited? && OpenLibrary in allowed
                     then [GoogleBooks, OpenLibrary] else [GoogleBooks]
  {
    assert [GoogleBooks][0] == GoogleBooks;
  }

  // ----- In what order -----

  /** Where an engine stands in a list, and the length of the list when it is not
      there. */
  function PlaceOf(engines: seq<Engine>, e: Engine): nat {
    if engines == [] || engines[0] == e then 0 else 1 + PlaceOf(engines[1..], e)
  }

  lemma {:induction false} PlaceFound(engines: seq<Engine>, e: Engine)
    ensures PlaceOf(engines, e) <= |engines|
    ensures e in engines <==> PlaceOf(engines, e) < |engines|
    ensures e in engines ==> engines[PlaceOf(engines, e)] == e
  {
    if engines != [] {
      PlaceFound(engines[1..], e);
    }
  }

  lemma PlaceBehind(head: Engine, rest: seq<Engine>, e: Engine)
    ensures PlaceOf([head] + rest, e) == if e == head then 0 else 1 + PlaceOf(rest, e)
  {
    assert ([head] + rest)[1..] == rest;
  }

  /** The engines a region allows keep the order of the list they come from. */
  lemma {:induction false} FilteredInOrder(engines: seq<Engine>, allowed: set<Engine>, a: Engine, b: Engine)
    requires a in engines && b in engines && a in allowed && b in allowed
    ensures PlaceOf(engines, a) < PlaceOf(engines, b) <==>
              PlaceOf(Filtered(engines, allowed), a) < PlaceOf(Filtered(engines, allowed), b)
  {
    var head, tail := engines[0], engines[1..];
    assert engines == [head] + tail;
    PlaceBehind(head, tail, a);
    PlaceBehind(head, tail, b);
    PlaceBehind(head, Filtered(tail, allowed), a);
    PlaceBehind(head, Filtered(tail, allowed), b);
    assert Filtered(engines, allowed) == if head in allowed then [head] + Filtered(tail, allowed) else Filtered(tail, allowed);
    if a != head && b != head {
      FilteredInOrder(tail, allowed, a, b);
    }
  }

  /** A named engine the region allows is asked alone; otherwise the fallback
      order says who is asked before whom. */
  lemma OrderOfEngines(requested: Option<Engine>, allowed: seq<Engine>, fallback: seq<Engine>, a: Engine, b: Engine)
    ensures requested.Some? && requested.value in allowed ==>
              EngineOrder(requested, allowed, fallback) == [requested.value]
    ensures !(requested.Some? && requested.value in allowed) ==>
              var order := EngineOrder(requested, allowed, fallback);
              && (a in order <==> a in fallback && a in allowed)
              && (a in order && b in order ==>
                    (PlaceOf(order, a) < PlaceOf(order, b) <==> PlaceOf(fallback, a) < PlaceOf(fallback, b)))
  {
    var kept := set e | e in allowed;
    FilteredKeeps(fallback, kept);
    if a in fallback && b in fallback && a in kept && b in kept {
      FilteredInOrder(fallback, kept, a, b);
    }
  }

  /** Where all are allowed, a lookup by ISBN asks Google, then the ISBN registry,
      then Open Library; a keyword search asks Google, then Open Library. */
  lemma WhoIsAskedFirst(allowed: seq<Engine>)
    requires GoogleBooks in allowed && OpenLibrary in allowed && IsbnNet in allowed
    ensures EngineOrder(None, allowed, ISBN_FALLBACK_ORDER) == [GoogleBooks, IsbnNet, OpenLibrary]
    ensures EngineOrder(None, allowed, KEYWORD_FALLBACK_ORDER) == [GoogleBooks, OpenLibrary]
  {
    AllKept(ISBN_FALLBACK_ORDER, set e | e in allowed);
    AllKept(KEYWORD_FALLBACK_ORDER, set e | e in allowed);
  }

  lemma {:induction false} AllKept(engines: seq<Engine>, allowed: set<Engine>)
    requires forall e <- engines :: e in allowed
    ensures Filtered(engines, allowed) == engines
  {
    if engines != [] {
      assert forall e <- engines[1..] :: e in engines;
      AllKept(engines[1..], allowed);
      assert engines == [engines[0]] + engines[1..];
    }
  }

  /** A region with nothing valid configured has Google alone. */
  lemma RegionDefault(configured: seq<Engine>)
    ensures (forall e <- configured :: e !in {GoogleBooks, OpenLibrary, IsbnNet}) ==>
              RegionSearchEngines(configured) == [GoogleBooks]
    ensures (exists e <- configured :: e in {GoogleBooks, OpenLibrary, IsbnNet}) ==>
              forall e :: e in RegionSearchEngines(configured) <==>
                e in configured && e in {GoogleBooks, OpenLibrary, IsbnNet}
  {
    FilteredKeeps(configured, VALID_SEARCH_ENGINES);
    var kept := Filtered(configured, VALID_SEARCH_ENGINES);
    assert kept != [] ==> kept[0] in kept;
  }

  /** What an attempt reports: the engine asked, whether its answer was cached,
      and how it went, in the lookup's own words when it has any. */
  lemma AttemptTells(lookups: Engine -> Outcome, engine: Engine)
    ensures var attempt := AttemptAt(lookups, engine);
            && attempt.engine == engine && attempt.cacheHit == lookups(engine).cacheHit
            && (lookups(engine).RateLimited? ==> attempt.status == "rate_limited")
            && (lookups(engine).Answered? && lookups(engine).status.Some? ==>
                  attempt.status == lookups(engine).status.value)
            && (lookups(engine).Answered? && lookups(engine).status.None? ==>
                  attempt.status == if Has(lookups, engine) then "found" else "not_found")
  {
  }

  /** Open Library is added, last, exactly when a rate limit calls for it and it
      is allowed and not in the order already. */
  lemma HandsOverExactly(order: seq<Engine>, lookups: Engine -> Outcome, allowed: set<Engine>)
    ensures var limited := exists e <- order :: lookups(e).RateLimited?;
            Effective(order, lookups, allowed) ==
              order + if limited && OpenLibrary in allowed && OpenLibrary !in order then [OpenLibrary] else []
  {
    assert AnyLimited(lookups, order) <==> exists e <- order :: lookups(e).RateLimited?;
    assert order + [] == order;
  }
}
