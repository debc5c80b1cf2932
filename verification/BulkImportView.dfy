/**
 The bulk import request as the source runs it: the owners loaded, the planner
 loop, the refusals and the apply loop.
 */
module BulkImportView {
  import opened Common
  import opened SchoolCodes
  import opened BulkImport
  import opened BulkImportRuns
  import opened BulkImportOutcome

  class AdminSchoolBulkImportView {
    var schools: Schools

    constructor (schools: Schools)
      ensures this.schools == schools
    {
      this.schools := schools;
    }

    /** `taken` and `code_owner` as the request starts with them. */
    method LoadOwners(region: string) returns (owner: map<Code, Domain>)
      requires DistinctCodes(schools, region)
      ensures owner == OwnerOf(schools, region)
    {
      owner := map[];
      var todo := set d | d in schools && schools[d].region == region;
      ghost var all := todo;
      while todo != {}
        invariant todo <= all
        invariant forall d <- all - todo :: schools[d].code in owner && owner[schools[d].code] == d
        invariant forall c <- owner :: owner[c] in all - todo && schools[owner[c]].code == c
      {
        var d :| d in todo;
        owner := owner[schools[d].code := d];
        todo := todo - {d};
      }
    }

    /** The planner loop. */
    method PlanFile(ctx: Context, items: seq<Item>) returns (p: Plan)
      requires ctx.existing == schools && DistinctCodes(schools, ctx.region)
      ensures p == PlanAll(ctx, items)
    {
      var taken := set d | d in schools && schools[d].region == ctx.region :: schools[d].code;
      var owner := LoadOwners(ctx.region);
      p := Plan(taken, owner, [], [], [], [], []);
      for i := 0 to |items|
        invariant p == PlanAll(ctx, items[..i])
      {
        assert items[..i + 1][..i] == items[..i];
        p := PlanOne(ctx, p, items[i]);
      }
      assert items[..|items|] == items;
    }

    method PlanOne(ctx: Context, p: Plan, item: Item) returns (q: Plan)
      requires ctx.existing == schools
      ensures q == PlanItem(ctx, p, item)
    {
      var domain := item.domain;
      if domain == "" {
        return p;
      }
      var target := if item.region != "" then item.region else ctx.region;
      if target != ctx.region || (domain in schools && schools[domain].region != ctx.region) {
        return p.(forbidden := p.forbidden + [item]);
      }
      var city := None;
      if item.city.Named? {
        var key := CityKey(item.city.name);
        if key !in ctx.cities {
          return p.(badCities := p.badCities + [domain]);
        }
        city := Some(ctx.cities[key]);
      }
      var code := None;
      if item.code != "" {
        code := Some(NormalizeCode(item.code));
        if !IsValidCode(code.value) {
          return p.(badCodes := p.badCodes + [domain]);
        }
        if code.value in p.owner && p.owner[code.value] != domain {
          return p.(clashing := p.clashing + [domain]);
        }
      } else if domain !in schools {
        var derived := Dedupe(DeriveCode(domain), p.taken + ctx.reserved);
        code := Some(derived);
      }
      q := p;
      if code.Some? {
        if domain in schools && schools[domain].code != code.value {
          q := q.(taken := q.taken - {schools[domain].code}, owner := q.owner - {schools[domain].code});
        }
        q := q.(taken := q.taken + {code.value}, owner := q.owner[code.value := domain]);
      }
      q := q.(planned := q.planned + [Planned(item, code, city)]);
    }

    /** The apply loop. A refused write ends the request; the writes before it
        stand, for the source opens no transaction. */
    method ApplyPlan(ctx: Context, items: seq<Item>, p: Plan, apply: bool) returns (response: Response)
      requires ctx.existing == schools
      modifies this
      ensures var g := Applying(ctx, apply, p.planned);
              && schools == g.schools
              && response == (if g.refused then ConstraintViolated
                              else if ValidCount(items) > 0 && |p.forbidden| == ValidCount(items) then AllForbidden
                              else Report(g.newItems, g.modified, g.same, p.forbidden))
    {
      var newItems: seq<Item>, modified: seq<Item>, same: seq<Item> := [], [], [];
      for i := 0 to |p.planned|
        invariant Progress(schools, newItems, modified, same, false) == Applying(ctx, apply, p.planned[..i])
      {
        var q := p.planned[i];
        assert p.planned[..i + 1][..i] == p.planned[..i];
        var isNew := q.item.domain !in ctx.existing;
        var row := RowOn(ctx, schools, q);
        var changed := isNew || row != schools[q.item.domain];
        if isNew {
          newItems := newItems + [q.item];
        } else if changed {
          modified := modified + [q.item];
        } else {
          same := same + [q.item];
        }
        if apply && changed {
          if Violates(schools, q.item.domain, row, isNew) {
            TurnAt(ctx, apply, p.planned, i);
            RefusedStays(ctx, apply, p.planned, i + 1);
            return ConstraintViolated;
          }
          schools := schools[q.item.domain := row];
        }
      }
      assert p.planned[..|p.planned|] == p.planned;
      if ValidCount(items) > 0 && |p.forbidden| == ValidCount(items) {
        return AllForbidden;
      }
      return Report(newItems, modified, same, p.forbidden);
    }

    /** Any refused code or city writes nothing. Otherwise a file that names each
        domain once is written whole; any other, up to the first write the
        database refuses. */
    method Post(items: seq<Item>, region: string, cities: map<string, nat>, apply: bool) returns (response: Response)
      requires DistinctCodes(schools, region)
      modifies this
      ensures var ctx := Context(old(schools), region, cities, ReservedCodes(items));
              var p := PlanAll(ctx, items);
              && (!Unrefused(p) ==>
                    && schools == old(schools)
                    && response == if p.badCities != [] then CitiesUnknown(p.badCities)
                                   else if p.badCodes != [] then CodesInvalid(p.badCodes)
                                   else CodesTaken(p.clashing))
              && (Unrefused(p) ==>
                    && schools == Applying(ctx, apply, p.planned).schools
                    && (response == ConstraintViolated <==> Applying(ctx, apply, p.planned).refused))
              && (Unrefused(p) && DistinctDomains(items) ==>
                    && schools == (if apply then ApplyAll(ctx, p.planned) else old(schools))
                    && response == ReplyTo(ctx, items, p))
              && (Unrefused(p) && DistinctDomains(items) && apply ==>
                    forall i | 0 <= i < |items| && WantsItsDomainsCode(ctx, items, i) ::
                      items[i].domain in schools && schools[items[i].domain].code == DeriveCode(items[i].domain))
      ensures DistinctCodes(schools, region)
    {
      var ctx := Context(schools, region, cities, ReservedCodes(items));
      var p := PlanFile(ctx, items);
      if p.badCities != [] {
        return CitiesUnknown(p.badCities);
      }
      if p.badCodes != [] {
        return CodesInvalid(p.badCodes);
      }
      if p.clashing != [] {
        return CodesTaken(p.clashing);
      }
      response := ApplyPlan(ctx, items, p, apply);
      ApplyingKeepsCodes(ctx, apply, p.planned);
      if DistinctDomains(items) {
        DistinctFileApplies(ctx, items, apply, |p.planned|);
        assert p.planned[..|p.planned|] == p.planned;
        forall i | 0 <= i < |items| && WantsItsDomainsCode(ctx, items, i)
          ensures items[i].domain in ApplyAll(ctx, p.planned)
          ensures ApplyAll(ctx, p.planned)[items[i].domain].code == DeriveCode(items[i].domain)
        {
          NewSchoolGetsItsCode(ctx, items, i);
        }
      }
    }
  }
}
