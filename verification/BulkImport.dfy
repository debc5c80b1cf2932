/**
 The bulk school import (adminapi/views/schools.py,
 AdminSchoolBulkImportView.post): codes are planned for the whole file before
 anything is written, then the plan is applied school by school.

 Names, translations and cities are opaque to it: strings and numbers here. An
 absent or empty code is "".
 */
module BulkImport {
  import opened Common
  import opened SchoolCodes

  type Domain = string
  type Code = string

  datatype School = School(region: string, code: Code, name: string, translations: string, city: Option<nat>)

  type Schools = map<Domain, School>

  datatype CityField = Absent | Blank | Named(name: string)

  datatype Item = Item(domain: Domain, region: string, code: string, city: CityField,
                       name: Option<string>, translations: Option<string>)

  /** What the request fixes: the schools as loaded, the region, its cities by
      code, and the codes the file spells out. */
  datatype Context = Context(existing: Schools, region: string, cities: map<string, nat>, reserved: set<Code>)

  datatype Planned = Planned(item: Item, code: Option<Code>, city: Option<nat>)

  /** The planner's variables. */
  datatype Plan = Plan(taken: set<Code>, owner: map<Code, Domain>, planned: seq<Planned>,
                       badCodes: seq<Domain>, clashing: seq<Domain>, badCities: seq<Domain>, forbidden: seq<Item>)

  function ReservedCodes(items: seq<Item>): set<Code> {
    set i | i in items && i.code != "" :: NormalizeCode(i.code)
  }

  function RegionCodes(schools: Schools, region: string): set<Code> {
    set d | d in schools && schools[d].region == region :: schools[d].code
  }

  // ----- Planning one item -----

  predicate Forbidden(ctx: Context, item: Item) {
    || (item.region != "" && item.region != ctx.region)
    || (item.domain in ctx.existing && ctx.existing[item.domain].region != ctx.region)
  }

  function CityKey(name: string): string {
    Upper(Strip(name))
  }

  predicate CityUnknown(ctx: Context, item: Item) {
    item.city.Named? && CityKey(item.city.name) !in ctx.cities
  }

  function CityOf(ctx: Context, item: Item): Option<nat>
    requires !CityUnknown(ctx, item)
  {
    if item.city.Named? then Some(ctx.cities[CityKey(item.city.name)]) else None
  }

  predicate Clashes(owner: map<Code, Domain>, code: Code, domain: Domain) {
    code in owner && owner[code] != domain
  }

  /** The code an item gets: the one it spells out, the derived default for a
      new school, or none for a school that keeps its own. */
  function CodeFor(ctx: Context, taken: set<Code>, item: Item): Option<Code> {
    if item.code != "" then Some(NormalizeCode(item.code))
    else if item.domain in ctx.existing then None
    else Some(DedupeCode(DeriveCode(item.domain), taken + ctx.reserved))
  }

  /** The old code of a school that changes it is free again. */
  function Released(ctx: Context, p: Plan, domain: Domain, code: Code): Plan {
    if domain in ctx.existing && ctx.existing[domain].code != code
    then p.(taken := p.taken - {ctx.existing[domain].code}, owner := p.owner - {ctx.existing[domain].code})
    else p
  }

  function Claimed(ctx: Context, p: Plan, domain: Domain, code: Code): Plan {
    var r := Released(ctx, p, domain, code);
    r.(taken := r.taken + {code}, owner := r.owner[code := domain])
  }

  function PlanItem(ctx: Context, p: Plan, item: Item): Plan {
    if item.domain == "" then p
    else if Forbidden(ctx, item) then p.(forbidden := p.forbidden + [item])
    else if CityUnknown(ctx, item) then p.(badCities := p.badCities + [item.domain])
    else
      var code := CodeFor(ctx, p.taken, item);
      if item.code != "" && !IsValidCode(code.value) then p.(badCodes := p.badCodes + [item.domain])
      else if item.code != "" && Clashes(p.owner, code.value, item.domain) then p.(clashing := p.clashing + [item.domain])
      else Accepted(ctx, p, item)
  }

  function Accepted(ctx: Context, p: Plan, item: Item): Plan
    requires !CityUnknown(ctx, item)
  {
    var code := CodeFor(ctx, p.taken, item);
    var q := if code.None? then p else Claimed(ctx, p, item.domain, code.value);
    q.(planned := q.planned + [Planned(item, code, CityOf(ctx, item))])
  }

  /** The item is planned, not refused or passed over. */
  predicate Accepts(ctx: Context, p: Plan, item: Item) {
    && item.domain != "" && !Forbidden(ctx, item) && !CityUnknown(ctx, item)
    && (item.code != "" ==> IsValidCode(NormalizeCode(item.code)) && !Clashes(p.owner, NormalizeCode(item.code), item.domain))
  }

  /** `{s.code: s.email_domain for s in region_schools}` */
  ghost function OwnerOf(schools: Schools, region: string): map<Code, Domain> {
    map c | c in RegionCodes(schools, region) :: TheOwner(schools, region, c)
  }

  ghost function TheOwner(schools: Schools, region: string, code: Code): Domain
    requires code in RegionCodes(schools, region)
  {
    var d :| d in schools && schools[d].region == region && schools[d].code == code;
    d
  }

  ghost function StartPlan(ctx: Context): Plan {
    Plan(RegionCodes(ctx.existing, ctx.region), OwnerOf(ctx.existing, ctx.region), [], [], [], [], [])
  }

  ghost function PlanAll(ctx: Context, items: seq<Item>): Plan {
    if items == [] then StartPlan(ctx)
    else PlanItem(ctx, PlanAll(ctx, items[..|items| - 1]), items[|items| - 1])
  }

  // ----- Applying the plan -----

  /** The row the apply loop makes of one planned item, over the row the school
      has by then. */
  function RowOn(ctx: Context, schools: Schools, p: Planned): School
    requires p.item.domain in ctx.existing ==> p.item.domain in schools
  {
    var i := p.item;
    if i.domain !in ctx.existing then
      School(ctx.region, p.code.GetOr(""), i.name.GetOr(""), i.translations.GetOr(""), p.city)
    else
      var e := schools[i.domain];
      e.(name := i.name.GetOr(e.name), translations := i.translations.GetOr(e.translations),
         code := p.code.GetOr(e.code), city := if i.city.Absent? then e.city else p.city)
  }

  /** In a file that names each domain once, that is the row as loaded. */
  function RowFor(ctx: Context, p: Planned): School {
    RowOn(ctx, ctx.existing, p)
  }

  function ApplyAll(ctx: Context, planned: seq<Planned>): Schools {
    if planned == [] then ctx.existing
    else
      var last := planned[|planned| - 1];
      ApplyAll(ctx, planned[..|planned| - 1])[last.item.domain := RowFor(ctx, last)]
  }

  /** The region's unique constraint on codes. */
  predicate DistinctCodes(schools: Schools, region: string) {
    forall d <- schools, e <- schools ::
      schools[d].region == region && schools[e].region == region && schools[d].code == schools[e].code ==> d == e
  }

  predicate DistinctDomains(items: seq<Item>) {
    forall i, j :: 0 <= i < j < |items| && items[i].domain != "" ==> items[i].domain != items[j].domain
  }

  // ----- `taken` and `code_owner` describe the region -----

  predicate Describes(p: Plan, schools: Schools, region: string) {
    && (forall c <- p.taken :: c in p.owner)
    && (forall c <- p.owner :: c in p.taken && p.owner[c] in schools
          && schools[p.owner[c]].region == region && schools[p.owner[c]].code == c)
    && (forall d <- schools :: schools[d].region == region ==> schools[d].code in p.owner && p.owner[schools[d].code] == d)
  }

  lemma DescribedCodesDistinct(p: Plan, schools: Schools, region: string)
    requires Describes(p, schools, region)
    ensures DistinctCodes(schools, region)
  {
  }

  predicate PlannedFor(p: Plan, domain: Domain) {
    exists q <- p.planned :: q.item.domain == domain
  }

  /** A plan in progress, against the region as it will be once the schools
      planned so far are written. */
  ghost predicate InStep(ctx: Context, p: Plan) {
    var schools := ApplyAll(ctx, p.planned);
    && Describes(p, schools, ctx.region)
    && (forall d :: !PlannedFor(p, d) ==>
          (d in schools <==> d in ctx.existing) && (d in schools ==> schools[d] == ctx.existing[d]))
  }

  lemma StartInStep(ctx: Context)
    requires DistinctCodes(ctx.existing, ctx.region)
    ensures InStep(ctx, StartPlan(ctx))
  {
  }

  /** Releasing an old code and claiming a new one is a change of one row. */
  lemma ClaimDescribes(ctx: Context, p: Plan, schools: Schools, domain: Domain, row: School)
    requires Describes(p, schools, ctx.region)
    requires domain in schools <==> domain in ctx.existing
    requires domain in schools ==> schools[domain] == ctx.existing[domain] && schools[domain].region == ctx.region
    requires row.region == ctx.region && (row.code in p.owner ==> p.owner[row.code] == domain)
    ensures Describes(Claimed(ctx, p, domain, row.code), schools[domain := row], ctx.region)
  {
  }

  /** An accepted item's claim and the row it plans are one change. */
  lemma AcceptedDescribes(ctx: Context, p: Plan, item: Item, schools: Schools)
    requires Describes(p, schools, ctx.region) && Accepts(ctx, p, item)
    requires item.domain in schools <==> item.domain in ctx.existing
    requires item.domain in schools ==> schools[item.domain] == ctx.existing[item.domain]
    ensures var q := Accepted(ctx, p, item);
            Describes(q, schools[item.domain := RowFor(ctx, q.planned[|q.planned| - 1])], ctx.region)
  {
    var q := Accepted(ctx, p, item);
    var last := q.planned[|q.planned| - 1];
    assert last == Planned(item, CodeFor(ctx, p.taken, item), CityOf(ctx, item));
    var row := RowFor(ctx, last);
    if last.code.Some? {
      ClaimDescribes(ctx, p, schools, item.domain, row);
    } else {
      SameCodeDescribes(p, schools, item.domain, row, ctx.region);
    }
  }

  lemma SameCodeDescribes(p: Plan, schools: Schools, domain: Domain, row: School, region: string)
    requires Describes(p, schools, region) && domain in schools
    requires row.region == schools[domain].region && row.code == schools[domain].code
    ensures Describes(p, schools[domain := row], region)
  {
  }

  lemma PlannedForOneMore(p: Plan, q: Plan, last: Planned, d: Domain)
    requires q.planned == p.planned + [last]
    ensures PlannedFor(q, d) <==> PlannedFor(p, d) || d == last.item.domain
  {
    assert last in q.planned && forall r <- p.planned :: r in q.planned;
  }

  lemma AcceptedInStep(ctx: Context, p: Plan, item: Item)
    requires InStep(ctx, p) && !PlannedFor(p, item.domain) && Accepts(ctx, p, item)
    ensures InStep(ctx, Accepted(ctx, p, item))
  {
    var q := Accepted(ctx, p, item);
    var last := q.planned[|q.planned| - 1];
    AcceptedDescribes(ctx, p, item, ApplyAll(ctx, p.planned));
    assert q.planned == p.planned + [last] && last.item == item;
    ItemInStep(ctx, p, q, last);
  }

  lemma ItemInStep(ctx: Context, p: Plan, q: Plan, last: Planned)
    requires InStep(ctx, p) && q.planned == p.planned + [last]
    requires Describes(q, ApplyAll(ctx, p.planned)[last.item.domain := RowFor(ctx, last)], ctx.region)
    ensures InStep(ctx, q)
  {
    assert q.planned[..|q.planned| - 1] == p.planned;
    forall d ensures PlannedFor(q, d) <==> PlannedFor(p, d) || d == last.item.domain {
      PlannedForOneMore(p, q, last, d);
    }
  }

  lemma PlanItemCases(ctx: Context, p: Plan, item: Item)
    ensures var q := PlanItem(ctx, p, item);
            if Accepts(ctx, p, item) then q == Accepted(ctx, p, item)
            else q.taken == p.taken && q.owner == p.owner && q.planned == p.planned
  {
  }

  lemma {:induction false} PlannedAreItems(ctx: Context, items: seq<Item>)
    ensures forall q <- PlanAll(ctx, items).planned :: q.item in items && q.item.domain != ""
  {
    if items != [] {
      PlannedAreItems(ctx, items[..|items| - 1]);
      assert items == items[..|items| - 1] + [items[|items| - 1]];
    }
  }

  lemma PrefixInStep(ctx: Context, items: seq<Item>)
    requires DistinctDomains(items) && items != []
    requires InStep(ctx, PlanAll(ctx, items[..|items| - 1]))
    ensures InStep(ctx, PlanAll(ctx, items))
  {
    var p, item := PlanAll(ctx, items[..|items| - 1]), items[|items| - 1];
    PlanItemCases(ctx, p, item);
    if Accepts(ctx, p, item) {
      NotYetPlanned(ctx, items);
      AcceptedInStep(ctx, p, item);
    } else {
      RefusedInStep(ctx, p, PlanItem(ctx, p, item));
    }
  }

  lemma RefusedInStep(ctx: Context, p: Plan, q: Plan)
    requires InStep(ctx, p) && q.taken == p.taken && q.owner == p.owner && q.planned == p.planned
    ensures InStep(ctx, q)
  {
  }

  lemma NotYetPlanned(ctx: Context, items: seq<Item>)
    requires DistinctDomains(items) && items != [] && items[|items| - 1].domain != ""
    ensures !PlannedFor(PlanAll(ctx, items[..|items| - 1]), items[|items| - 1].domain)
  {
    PlannedAreItems(ctx, items[..|items| - 1]);
  }

  /** For a file that names each domain once, `taken` and `code_owner` are, after
      every item, exactly the codes of the region with the plan so far applied. */
  lemma {:induction false} PlanDescribesRegion(ctx: Context, items: seq<Item>)
    requires DistinctCodes(ctx.existing, ctx.region) && DistinctDomains(items)
    ensures InStep(ctx, PlanAll(ctx, items))
  {
    if items == [] {
      StartInStep(ctx);
    } else {
      PlanDescribesRegion(ctx, items[..|items| - 1]);
      PrefixInStep(ctx, items);
    }
  }

  /** So after each single write of the apply loop the region's codes are still
      distinct, whichever code an earlier item gave up to a later one. */
  lemma {:induction false} EveryWriteKeepsCodesDistinct(ctx: Context, items: seq<Item>, k: nat)
    requires DistinctCodes(ctx.existing, ctx.region) && DistinctDomains(items)
    requires k <= |PlanAll(ctx, items).planned|
    ensures DistinctCodes(ApplyAll(ctx, PlanAll(ctx, items).planned[..k]), ctx.region)
  {
    var planned := PlanAll(ctx, items).planned;
    if k == |planned| {
      PlanDescribesRegion(ctx, items);
      assert planned[..k] == planned;
    } else {
      var before := items[..|items| - 1];
      assert planned[..|PlanAll(ctx, before).planned|] == PlanAll(ctx, before).planned;
      assert planned[..k] == PlanAll(ctx, before).planned[..k];
      EveryWriteKeepsCodesDistinct(ctx, before, k);
    }
  }

  /** Exactly when a claim keeps the two maps right, for a school that has a row
      by then: the row still has the code it was loaded with; or it claims the
      code it was planned onto before, and nobody has taken the loaded one since
      (a school new to the table has none). Only a file that names a domain
      twice can fail this. */
  predicate ClaimInStep(ctx: Context, p: Plan, held: Code, domain: Domain, code: Code) {
    if domain in ctx.existing
    then held == ctx.existing[domain].code || (code == held && ctx.existing[domain].code !in p.owner)
    else code == held
  }

  lemma ClaimExactly(ctx: Context, p: Plan, schools: Schools, domain: Domain, row: School)
    requires Describes(p, schools, ctx.region)
    requires domain in schools && schools[domain].region == ctx.region && row.region == ctx.region
    requires row.code in p.owner ==> p.owner[row.code] == domain
    ensures Describes(Claimed(ctx, p, domain, row.code), schools[domain := row], ctx.region) <==>
              ClaimInStep(ctx, p, schools[domain].code, domain, row.code)
  {
    var q, after := Claimed(ctx, p, domain, row.code), schools[domain := row];
    var held := schools[domain].code;
    assert p.owner[held] == domain;
    if ClaimInStep(ctx, p, held, domain, row.code) {
      OwnersAfterClaim(p, q, schools, domain, row, ctx.region);
    } else if row.code != held {
      assert held in q.owner && q.owner[held] == domain && after[domain].code != held;
    } else {
      var loaded := ctx.existing[domain].code;
      var other := p.owner[loaded];
      assert other in after && after[other].region == ctx.region && after[other].code == loaded && loaded !in q.owner;
    }
  }

  lemma OwnersAfterClaim(p: Plan, q: Plan, schools: Schools, domain: Domain, row: School, region: string)
    requires Describes(p, schools, region)
    requires domain in schools && schools[domain].region == region && row.region == region
    requires row.code in p.owner ==> p.owner[row.code] == domain
    requires q.owner == (p.owner - {schools[domain].code})[row.code := domain]
    requires q.taken == p.taken - {schools[domain].code} + {row.code}
    ensures Describes(q, schools[domain := row], region)
  {
  }

  /** An item that does no more than spell out a usable code. */
  predicate Plain(item: Item) {
    item.domain != "" && item.region == "" && item.city.Absent? && item.code != ""
    && NormalizeCode(item.code) == item.code && IsValidCode(item.code)
  }

  predicate SwapsTwice(ctx: Context, items: seq<Item>) {
    && |items| == 4 && Plain(items[0]) && Plain(items[1]) && Plain(items[2]) && Plain(items[3])
    && items[0].domain == items[2].domain && items[1].domain != items[0].domain
    && items[3].domain != items[0].domain && items[3].domain != items[1].domain
    && items[1].code == items[3].code && items[0].code != items[1].code
    && items[2].code != items[1].code && items[2].code != items[0].code
    && ctx.existing == map[items[0].domain := School(ctx.region, items[1].code, "", "", None)]
  }

  /** What such an item does to the plan, without the plan's other fields. */
  lemma PlainStep(ctx: Context, p: Plan, item: Item, owner: map<Code, Domain>)
    requires Plain(item) && !Clashes(p.owner, item.code, item.domain)
    requires item.domain in ctx.existing ==> ctx.existing[item.domain].region == ctx.region
    requires owner == if item.domain in ctx.existing && ctx.existing[item.domain].code != item.code
                      then (p.owner - {ctx.existing[item.domain].code})[item.code := item.domain]
                      else p.owner[item.code := item.domain]
    ensures var q := PlanItem(ctx, p, item);
            && q.owner == owner && q.planned == p.planned + [Planned(item, Some(item.code), None)]
            && q.badCodes == p.badCodes && q.clashing == p.clashing
  {
  }

  lemma StartOfSwaps(ctx: Context, items: seq<Item>)
    requires SwapsTwice(ctx, items)
    ensures StartPlan(ctx).owner == map[items[1].code := items[0].domain]
  {
    var a, x := items[0].domain, items[1].code;
    assert a in ctx.existing && ctx.existing[a].code == x && ctx.existing[a].region == ctx.region;
    assert RegionCodes(ctx.existing, ctx.region) == {x};
  }

  lemma PlanOfSwaps(ctx: Context, items: seq<Item>)
    requires SwapsTwice(ctx, items)
    ensures var p2 := PlanItem(ctx, PlanItem(ctx, StartPlan(ctx), items[0]), items[1]);
            var p := PlanItem(ctx, PlanItem(ctx, p2, items[2]), items[3]);
            && p.badCodes == [] && p.clashing == [] && |p.planned| == 4
            && p.planned[1] == Planned(items[1], Some(items[1].code), None)
            && p.planned[2].item == items[2]
            && p.planned[3] == Planned(items[3], Some(items[3].code), None)
  {
    var a, b, c := items[0].domain, items[1].domain, items[3].domain;
    var x, y, z := items[1].code, items[0].code, items[2].code;
    var p0 := StartPlan(ctx);
    StartOfSwaps(ctx, items);
    var p1 := PlanItem(ctx, p0, items[0]);
    PlainStep(ctx, p0, items[0], map[y := a]);
    var p2 := PlanItem(ctx, p1, items[1]);
    PlainStep(ctx, p1, items[1], map[y := a, x := b]);
    var p3 := PlanItem(ctx, p2, items[2]);
    assert (p2.owner - {x})[z := a] == map[y := a, z := a];
    PlainStep(ctx, p2, items[2], map[y := a, z := a]);
    PlainStep(ctx, p3, items[3], map[y := a, z := a, x := c]);
  }

  /** The file must name each domain once. Here a school changes its code twice:
      the second change frees the old code again, though another school has
      claimed it in between, and a third school is planned onto it as well. */
  lemma RepeatedDomainBreaksIt(ctx: Context, items: seq<Item>)
    requires SwapsTwice(ctx, items)
    ensures var p := PlanAll(ctx, items);
            p.badCodes == [] && p.clashing == [] && !DistinctCodes(ApplyAll(ctx, p.planned), ctx.region)
  {
    PlanFour(ctx, items);
    PlanOfSwaps(ctx, items);
    ApplyFour(ctx, PlanAll(ctx, items).planned);
  }

  lemma ApplyFour(ctx: Context, planned: seq<Planned>)
    requires |planned| == 4
    requires planned[1].item.domain != planned[2].item.domain && planned[1].item.domain != planned[3].item.domain
    ensures var schools := ApplyAll(ctx, planned);
            && planned[1].item.domain in schools && schools[planned[1].item.domain] == RowFor(ctx, planned[1])
            && planned[3].item.domain in schools && schools[planned[3].item.domain] == RowFor(ctx, planned[3])
  {
    assert planned[..3][..2] == planned[..2];
    var two := ApplyAll(ctx, planned[..2]);
    assert two[planned[1].item.domain] == RowFor(ctx, planned[1]);
    var three := ApplyAll(ctx, planned[..3]);
    assert three == two[planned[2].item.domain := RowFor(ctx, planned[2])];
  }

  lemma PlanFour(ctx: Context, items: seq<Item>)
    requires |items| == 4
    ensures var p2 := PlanItem(ctx, PlanItem(ctx, StartPlan(ctx), items[0]), items[1]);
            PlanAll(ctx, items) == PlanItem(ctx, PlanItem(ctx, p2, items[2]), items[3])
  {
    assert items[..3][..2] == items[..2] && items[..2][..1] == items[..1] && items[..1][..0] == [];
    assert PlanAll(ctx, items[..1]) == PlanItem(ctx, StartPlan(ctx), items[0]);
    assert PlanAll(ctx, items[..2]) == PlanItem(ctx, PlanAll(ctx, items[..1]), items[1]);
    assert PlanAll(ctx, items[..3]) == PlanItem(ctx, PlanAll(ctx, items[..2]), items[2]);
  }
}
