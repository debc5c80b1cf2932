/**
 What a bulk import file does, item by item, in terms of the file and the
 schools: which items are refused and why, and the row each of the others
 leaves (adminapi/views/schools.py).
 */
module BulkImportOutcome {
  import opened Common
  import opened SchoolCodes
  import opened BulkImport
  import opened BulkImportRuns

  // ----- Refusals -----

  /** The item names another region, or a school of another region. */
  predicate Elsewhere(ctx: Context, item: Item) {
    || item.region !in {"", ctx.region}
    || (item.domain in ctx.existing && ctx.existing[item.domain].region != ctx.region)
  }

  /** The item is this region's to import. */
  predicate Here(ctx: Context, item: Item) {
    item.domain != "" && !Elsewhere(ctx, item)
  }

  /** Its city, if it names one, is the region's: looked up without the white
      space around it, in capitals. */
  predicate CityKnown(ctx: Context, item: Item) {
    item.city.Named? ==> Upper(Strip(item.city.name)) in ctx.cities
  }

  predicate CodeUsable(item: Item) {
    item.code != "" ==> IsValidCode(NormalizeCode(item.code))
  }

  /** Which items are set aside as another region's, refused for their city, and
      refused for their code: all of them, whatever else is in the file. */
  lemma {:induction false} SetAsideExactly(ctx: Context, items: seq<Item>, item: Item)
    ensures item in PlanAll(ctx, items).forbidden <==> item in items && item.domain != "" && Elsewhere(ctx, item)
  {
    if items != [] {
      SetAsideExactly(ctx, items[..|items| - 1], item);
      assert items == items[..|items| - 1] + [items[|items| - 1]];
    }
  }

  lemma {:induction false} CityRefusedExactly(ctx: Context, items: seq<Item>, d: Domain)
    ensures d in PlanAll(ctx, items).badCities <==>
              exists item <- items :: item.domain == d && Here(ctx, item) && !CityKnown(ctx, item)
  {
    if items != [] {
      CityRefusedExactly(ctx, items[..|items| - 1], d);
      assert items == items[..|items| - 1] + [items[|items| - 1]];
    }
  }

  lemma {:induction false} CodeRefusedExactly(ctx: Context, items: seq<Item>, d: Domain)
    ensures d in PlanAll(ctx, items).badCodes <==>
              exists item <- items :: item.domain == d && Here(ctx, item) && CityKnown(ctx, item) && !CodeUsable(item)
  {
    if items != [] {
      CodeRefusedExactly(ctx, items[..|items| - 1], d);
      assert items == items[..|items| - 1] + [items[|items| - 1]];
    }
  }

  /** Another school of the region has the code, once the items before this one
      are written. */
  ghost predicate HeldByAnother(ctx: Context, before: seq<Item>, item: Item) {
    var schools := ApplyAll(ctx, PlanAll(ctx, before).planned);
    exists d <- schools :: d != item.domain && schools[d].region == ctx.region && schools[d].code == NormalizeCode(item.code)
  }

  /** A usable code clashes exactly when another school has it by then. */
  lemma ClashesExactly(ctx: Context, before: seq<Item>, item: Item)
    requires DistinctCodes(ctx.existing, ctx.region) && DistinctDomains(before)
    requires Here(ctx, item) && CityKnown(ctx, item) && CodeUsable(item) && item.code != ""
    ensures var p := PlanAll(ctx, before);
            PlanItem(ctx, p, item).clashing == if HeldByAnother(ctx, before, item) then p.clashing + [item.domain] else p.clashing
  {
    PlanDescribesRegion(ctx, before);
  }

  // ----- The rows -----

  /** The codes of the region once some items are written. */
  ghost function CodesAfter(ctx: Context, before: seq<Item>): set<Code> {
    RegionCodes(ApplyAll(ctx, PlanAll(ctx, before).planned), ctx.region)
  }

  lemma TakenAre(ctx: Context, before: seq<Item>)
    requires DistinctCodes(ctx.existing, ctx.region) && DistinctDomains(before)
    ensures PlanAll(ctx, before).taken == CodesAfter(ctx, before)
  {
    PlanDescribesRegion(ctx, before);
    var p, schools := PlanAll(ctx, before), ApplyAll(ctx, PlanAll(ctx, before).planned);
    forall c ensures c in p.taken <==> c in RegionCodes(schools, ctx.region) {
      assert c in p.taken ==> p.owner[c] in schools;
    }
  }

  /** The city an item asks for, given what the school had. */
  function CityAfter(ctx: Context, item: Item, had: Option<nat>): Option<nat>
    requires CityKnown(ctx, item)
  {
    match item.city
    case Absent => had
    case Blank => None
    case Named(name) => Some(ctx.cities[Upper(Strip(name))])
  }

  lemma TurnPlans(ctx: Context, p: Plan, item: Item)
    ensures var q := PlanItem(ctx, p, item); p.planned <= q.planned && (Unrefused(q) ==> Unrefused(p))
  {
  }

  lemma LastPlanned(ctx: Context, p: Plan, item: Item)
    requires Here(ctx, item) && Unrefused(PlanItem(ctx, p, item))
    ensures CityKnown(ctx, item) && CodeUsable(item)
    ensures PlanItem(ctx, p, item).planned == p.planned + [Planned(item, CodeFor(ctx, p.taken, item), CityAfter(ctx, item, None))]
  {
  }

  lemma {:induction false} PlannedAs(ctx: Context, items: seq<Item>, i: nat)
    requires i < |items| && Here(ctx, items[i]) && Unrefused(PlanAll(ctx, items))
    ensures CityKnown(ctx, items[i]) && CodeUsable(items[i])
    ensures var p := PlanAll(ctx, items[..i]);
            Planned(items[i], CodeFor(ctx, p.taken, items[i]), CityAfter(ctx, items[i], None)) in PlanAll(ctx, items).planned
  {
    var n := |items| - 1;
    var p := PlanAll(ctx, items[..n]);
    TurnPlans(ctx, p, items[n]);
    if i < n {
      PlannedAs(ctx, items[..n], i);
      assert items[..n][..i] == items[..i];
      StillIn(p.planned, PlanAll(ctx, items).planned,
              Planned(items[i], CodeFor(ctx, PlanAll(ctx, items[..i]).taken, items[i]), CityAfter(ctx, items[i], None)));
    } else {
      LastPlanned(ctx, p, items[n]);
    }
  }

  lemma StillIn(fewer: seq<Planned>, more: seq<Planned>, q: Planned)
    requires fewer <= more && q in fewer
    ensures q in more
  {
  }

  /** The row an item of an accepted file leaves: what it gives is stored, what
      it leaves out is as it was, or empty in a new school. */
  lemma ItemLeaves(ctx: Context, items: seq<Item>, i: nat)
    requires DistinctCodes(ctx.existing, ctx.region) && DistinctDomains(items) && Unrefused(PlanAll(ctx, items))
    requires i < |items| && Here(ctx, items[i])
    ensures CityKnown(ctx, items[i])
    ensures var item, schools := items[i], ApplyAll(ctx, PlanAll(ctx, items).planned);
            var had := if item.domain in ctx.existing then ctx.existing[item.domain] else School(ctx.region, "", "", "", None);
            && item.domain in schools
            && var row := schools[item.domain];
               && row.region == ctx.region
               && row.name == item.name.GetOr(had.name) && row.translations == item.translations.GetOr(had.translations)
               && row.city == CityAfter(ctx, item, had.city)
               && (item.code != "" ==> row.code == NormalizeCode(item.code))
               && (item.code == "" && item.domain in ctx.existing ==> row.code == had.code)
               && (item.code == "" && item.domain !in ctx.existing ==>
                     row.code == DedupeCode(DeriveCode(item.domain), CodesAfter(ctx, items[..i]) + ctx.reserved))
  {
    PlannedAs(ctx, items, i);
    PlannedDomainsDistinct(ctx, items);
    TakenAre(ctx, items[..i]);
    var p := PlanAll(ctx, items[..i]);
    AppliedRow(ctx, PlanAll(ctx, items).planned,
               Planned(items[i], CodeFor(ctx, p.taken, items[i]), CityAfter(ctx, items[i], None)));
  }

  /** A new school without a code, whose domain's code is neither taken by then
      nor spelled out anywhere in the file. */
  ghost predicate WantsItsDomainsCode(ctx: Context, items: seq<Item>, i: nat)
    requires i < |items|
  {
    && Here(ctx, items[i]) && items[i].code == "" && items[i].domain !in ctx.existing
    && DeriveCode(items[i].domain) !in CodesAfter(ctx, items[..i]) + ctx.reserved
  }

  /** It gets that code. */
  lemma NewSchoolGetsItsCode(ctx: Context, items: seq<Item>, i: nat)
    requires DistinctCodes(ctx.existing, ctx.region) && DistinctDomains(items) && Unrefused(PlanAll(ctx, items))
    requires i < |items| && WantsItsDomainsCode(ctx, items, i)
    ensures items[i].domain in ApplyAll(ctx, PlanAll(ctx, items).planned)
    ensures ApplyAll(ctx, PlanAll(ctx, items).planned)[items[i].domain].code == DeriveCode(items[i].domain)
  {
    ItemLeaves(ctx, items, i);
  }

  /** Schools the file does not import are as they were. */
  lemma OthersStand(ctx: Context, items: seq<Item>, d: Domain)
    requires forall item <- items :: item.domain == d ==> !Here(ctx, item)
    ensures d in ApplyAll(ctx, PlanAll(ctx, items).planned) <==> d in ctx.existing
    ensures d in ctx.existing ==> ApplyAll(ctx, PlanAll(ctx, items).planned)[d] == ctx.existing[d]
  {
    PlannedAreHere(ctx, items);
    UnplannedKept(ctx, PlanAll(ctx, items).planned, d);
  }

  lemma {:induction false} PlannedAreHere(ctx: Context, items: seq<Item>)
    ensures forall q <- PlanAll(ctx, items).planned :: q.item in items && Here(ctx, q.item)
  {
    if items != [] {
      PlannedAreHere(ctx, items[..|items| - 1]);
      assert items == items[..|items| - 1] + [items[|items| - 1]];
    }
  }

  // ----- The report -----

  /** New to the table; or loaded, and changed by the item or not. */
  predicate IsKind(ctx: Context, q: Planned, kind: Kind) {
    match kind
    case New => q.item.domain !in ctx.existing
    case Modified => q.item.domain in ctx.existing && RowFor(ctx, q) != ctx.existing[q.item.domain]
    case Unchanged => q.item.domain in ctx.existing && RowFor(ctx, q) == ctx.existing[q.item.domain]
  }

  /** Each planned item is reported under its kind. */
  lemma {:induction false} ReportedExactly(ctx: Context, planned: seq<Planned>, kind: Kind, item: Item)
    ensures item in OfKind(ctx, planned, kind) <==> exists q <- planned :: q.item == item && IsKind(ctx, q, kind)
  {
    if planned != [] {
      ReportedExactly(ctx, planned[..|planned| - 1], kind, item);
      assert planned == planned[..|planned| - 1] + [planned[|planned| - 1]];
    }
  }

  /** And once. */
  lemma {:induction false} ReportedOnce(ctx: Context, planned: seq<Planned>)
    ensures |OfKind(ctx, planned, New)| + |OfKind(ctx, planned, Modified)| + |OfKind(ctx, planned, Unchanged)| == |planned|
  {
    if planned != [] {
      ReportedOnce(ctx, planned[..|planned| - 1]);
    }
  }
}
