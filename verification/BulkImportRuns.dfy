/**
 The bulk school import as a whole: applying a file twice, what the items
 without a code change, and where the apply loop stops.
 */
module BulkImportRuns {
  import opened Common
  import opened SchoolCodes
  import opened BulkImport

  predicate Unrefused(p: Plan) {
    p.badCities == [] && p.badCodes == [] && p.clashing == []
  }

  // ----- Applying the same file a second time -----

  /** In an unrefused plan every item is forbidden or planned, as its own code
      and city say. */
  lemma {:induction false} EveryItemPlanned(ctx: Context, items: seq<Item>, i: nat)
    requires i < |items| && items[i].domain != "" && Unrefused(PlanAll(ctx, items))
    ensures !Forbidden(ctx, items[i]) ==>
              && !CityUnknown(ctx, items[i])
              && (items[i].code != "" ==> IsValidCode(NormalizeCode(items[i].code)))
              && exists q <- PlanAll(ctx, items).planned ::
                   q.item == items[i] && q.city == CityOf(ctx, items[i])
                   && (items[i].code != "" ==> q.code == Some(NormalizeCode(items[i].code)))
  {
    var before, last := items[..|items| - 1], items[|items| - 1];
    var p := PlanAll(ctx, before);
    if i < |before| {
      EveryItemPlanned(ctx, before, i);
      if !Forbidden(ctx, items[i]) {
        var q :| q in p.planned && q.item == items[i] && q.city == CityOf(ctx, items[i])
                 && (items[i].code != "" ==> q.code == Some(NormalizeCode(items[i].code)));
        assert q in PlanAll(ctx, items).planned;
      }
    } else if !Forbidden(ctx, last) {
      var q := PlanItem(ctx, p, last);
      assert q.planned[|q.planned| - 1] in q.planned;
    }
  }

  predicate DistinctlyPlanned(planned: seq<Planned>) {
    forall i, j :: 0 <= i < j < |planned| ==> planned[i].item.domain != planned[j].item.domain
  }

  lemma {:induction false} PlannedDomainsDistinct(ctx: Context, items: seq<Item>)
    requires DistinctDomains(items)
    ensures DistinctlyPlanned(PlanAll(ctx, items).planned)
  {
    if items != [] {
      var before, last := items[..|items| - 1], items[|items| - 1];
      var fewer := PlanAll(ctx, before).planned;
      PlannedDomainsDistinct(ctx, before);
      PlannedAreItems(ctx, before);
      forall q <- fewer ensures q.item.domain != last.domain {
        var i :| 0 <= i < |before| && before[i] == q.item;
        assert items[i].domain != "";
      }
      PlanItemCases(ctx, PlanAll(ctx, before), last);
      OneMoreDistinct(fewer, PlanAll(ctx, items).planned, last.domain);
    }
  }

  lemma OneMoreDistinct(fewer: seq<Planned>, planned: seq<Planned>, domain: Domain)
    requires DistinctlyPlanned(fewer) && forall q <- fewer :: q.item.domain != domain
    requires planned == fewer
          || (|planned| == |fewer| + 1 && planned[..|fewer|] == fewer && planned[|fewer|].item.domain == domain)
    ensures DistinctlyPlanned(planned)
  {
  }

  lemma {:induction false} AppliedRow(ctx: Context, planned: seq<Planned>, q: Planned)
    requires q in planned
    requires DistinctlyPlanned(planned)
    ensures q.item.domain in ApplyAll(ctx, planned) && ApplyAll(ctx, planned)[q.item.domain] == RowFor(ctx, q)
  {
    var before := planned[..|planned| - 1];
    if q != planned[|planned| - 1] {
      assert q in before;
      AppliedRow(ctx, before, q);
      var i :| 0 <= i < |before| && before[i] == q;
      assert planned[i].item.domain != planned[|planned| - 1].item.domain;
    }
  }

  lemma {:induction false} UnplannedKept(ctx: Context, planned: seq<Planned>, domain: Domain)
    requires forall q <- planned :: q.item.domain != domain
    ensures domain in ApplyAll(ctx, planned) <==> domain in ctx.existing
    ensures domain in ctx.existing ==> ApplyAll(ctx, planned)[domain] == ctx.existing[domain]
  {
    if planned != [] {
      assert forall q <- planned[..|planned| - 1] :: q in planned;
      UnplannedKept(ctx, planned[..|planned| - 1], domain);
    }
  }

  /** The request as it would be made again, after the file was applied. */
  ghost function Again(ctx: Context, items: seq<Item>): Context {
    ctx.(existing := ApplyAll(ctx, PlanAll(ctx, items).planned))
  }

  /** What the first run leaves for one item of the file. */
  ghost predicate Settled(ctx: Context, again: Context, item: Item) {
    if Forbidden(ctx, item) then Forbidden(again, item)
    else
      && !Forbidden(again, item) && !CityUnknown(again, item) && item.domain in again.existing
      && var row := again.existing[item.domain];
         && row.region == ctx.region
         && item.name.GetOr(row.name) == row.name && item.translations.GetOr(row.translations) == row.translations
         && (item.code != "" ==> IsValidCode(NormalizeCode(item.code)) && row.code == NormalizeCode(item.code))
         && (!item.city.Absent? ==> row.city == CityOf(again, item))
  }

  lemma ItemSettled(ctx: Context, items: seq<Item>, i: nat)
    requires DistinctDomains(items) && Unrefused(PlanAll(ctx, items))
    requires i < |items| && items[i].domain != ""
    ensures Settled(ctx, Again(ctx, items), items[i])
  {
    var item, planned := items[i], PlanAll(ctx, items).planned;
    EveryItemPlanned(ctx, items, i);
    if Forbidden(ctx, item) {
      ForbiddenUnplanned(ctx, items, i);
      UnplannedKept(ctx, planned, item.domain);
    } else {
      var q :| q in planned && q.item == item && q.city == CityOf(ctx, item)
               && (item.code != "" ==> q.code == Some(NormalizeCode(item.code)));
      PlannedDomainsDistinct(ctx, items);
      AppliedRow(ctx, planned, q);
    }
  }

  lemma {:induction false} ForbiddenUnplanned(ctx: Context, items: seq<Item>, i: nat)
    requires DistinctDomains(items) && i < |items| && items[i].domain != "" && Forbidden(ctx, items[i])
    ensures forall q <- PlanAll(ctx, items).planned :: q.item.domain != items[i].domain
  {
    var before := items[..|items| - 1];
    PlannedAreItems(ctx, before);
    if i < |before| {
      ForbiddenUnplanned(ctx, before, i);
    }
  }

  /** The second plan: nothing refused, nothing to write, the codes as they are. */
  ghost predicate Idle(again: Context, p: Plan) {
    && Unrefused(p)
    && p.taken == StartPlan(again).taken && p.owner == StartPlan(again).owner
    && (forall q <- p.planned :: q.item.domain in again.existing && RowFor(again, q) == again.existing[q.item.domain])
  }

  lemma SettledItemIdle(ctx: Context, again: Context, p: Plan, item: Item)
    requires again.region == ctx.region && again.cities == ctx.cities
    requires DistinctCodes(again.existing, again.region) && Idle(again, p)
    requires item.domain != "" ==> Settled(ctx, again, item)
    ensures Idle(again, PlanItem(again, p, item))
  {
  }

  lemma {:induction false} SecondPlanIdle(ctx: Context, items: seq<Item>, again: Context, k: nat)
    requires again.region == ctx.region && again.cities == ctx.cities && k <= |items|
    requires DistinctCodes(again.existing, again.region)
    requires forall i :: 0 <= i < |items| && items[i].domain != "" ==> Settled(ctx, again, items[i])
    ensures Idle(again, PlanAll(again, items[..k]))
  {
    if k > 0 {
      SecondPlanIdle(ctx, items, again, k - 1);
      assert items[..k][..k - 1] == items[..k - 1];
      SettledItemIdle(ctx, again, PlanAll(again, items[..k - 1]), items[k - 1]);
    }
  }

  /** A file that names each domain once and was accepted is accepted again,
      with no new and no modified school. */
  lemma ImportIsIdempotent(ctx: Context, items: seq<Item>)
    requires DistinctCodes(ctx.existing, ctx.region) && DistinctDomains(items)
    requires Unrefused(PlanAll(ctx, items))
    ensures var again := Again(ctx, items);
            var p := PlanAll(again, items);
            && Unrefused(p)
            && (forall q <- p.planned :: KindOf(again, q) == Unchanged)
            && ApplyAll(again, p.planned) == again.existing
  {
    var again := Again(ctx, items);
    PlanDescribesRegion(ctx, items);
    DescribedCodesDistinct(PlanAll(ctx, items), again.existing, ctx.region);
    forall i | 0 <= i < |items| && items[i].domain != "" {
      ItemSettled(ctx, items, i);
    }
    SecondPlanIdle(ctx, items, again, |items|);
    assert items[..|items|] == items;
    ApplyingNothing(again, PlanAll(again, items).planned);
  }

  lemma {:induction false} ApplyingNothing(ctx: Context, planned: seq<Planned>)
    requires forall q <- planned :: q.item.domain in ctx.existing && RowFor(ctx, q) == ctx.existing[q.item.domain]
    ensures ApplyAll(ctx, planned) == ctx.existing
  {
    if planned != [] {
      assert forall q <- planned[..|planned| - 1] :: q in planned;
      ApplyingNothing(ctx, planned[..|planned| - 1]);
      assert planned[|planned| - 1] in planned;
    }
  }

  // ----- Items without a code -----

  function Explicit(items: seq<Item>): seq<Item> {
    if items == [] then []
    else
      var last := items[|items| - 1];
      Explicit(items[..|items| - 1]) + if last.code != "" then [last] else []
  }

  ghost predicate Agree(a: map<Code, Domain>, b: map<Code, Domain>, on: set<Code>) {
    forall c <- on :: (c in a <==> c in b) && (c in a ==> a[c] == b[c])
  }

  lemma ExplicitItemAgrees(ctx: Context, p: Plan, q: Plan, item: Item)
    requires item.code != "" && NormalizeCode(item.code) in ctx.reserved
    requires Agree(p.owner, q.owner, ctx.reserved) && p.badCodes == q.badCodes && p.clashing == q.clashing
    ensures var p', q' := PlanItem(ctx, p, item), PlanItem(ctx, q, item);
            Agree(p'.owner, q'.owner, ctx.reserved) && p'.badCodes == q'.badCodes && p'.clashing == q'.clashing
  {
  }

  lemma CodelessItemAgrees(ctx: Context, p: Plan, item: Item)
    requires item.code == ""
    ensures var p' := PlanItem(ctx, p, item);
            Agree(p'.owner, p.owner, ctx.reserved) && p'.badCodes == p.badCodes && p'.clashing == p.clashing
  {
  }

  /** Items without a code never change which explicit codes are accepted, nor
      who owns a code the file spells out. */
  lemma {:induction false} CodelessItemsChangeNoVerdict(ctx: Context, items: seq<Item>)
    requires ReservedCodes(items) <= ctx.reserved
    ensures var p, q := PlanAll(ctx, items), PlanAll(ctx, Explicit(items));
            p.badCodes == q.badCodes && p.clashing == q.clashing && Agree(p.owner, q.owner, ctx.reserved)
  {
    if items != [] {
      var before, last := items[..|items| - 1], items[|items| - 1];
      assert forall i <- before :: i in items;
      assert last in items;
      CodelessItemsChangeNoVerdict(ctx, before);
      if last.code == "" {
        assert Explicit(items) == Explicit(before);
        CodelessItemAgrees(ctx, PlanAll(ctx, before), last);
      } else {
        assert NormalizeCode(last.code) in ReservedCodes(items);
        assert Explicit(items)[..|Explicit(items)| - 1] == Explicit(before);
        ExplicitItemAgrees(ctx, PlanAll(ctx, before), PlanAll(ctx, Explicit(before)), last);
      }
    }
  }

  lemma ReservedAppend(items: seq<Item>, last: Item)
    ensures ReservedCodes(items + [last]) == ReservedCodes(items) + if last.code != "" then {NormalizeCode(last.code)} else {}
  {
  }

  lemma {:induction false} ExplicitReservesTheSame(items: seq<Item>)
    ensures ReservedCodes(Explicit(items)) == ReservedCodes(items)
  {
    if items != [] {
      var before, last := items[..|items| - 1], items[|items| - 1];
      ExplicitReservesTheSame(before);
      ReservedAppend(before, last);
      ReservedAppend(Explicit(before), last);
      assert items == before + [last];
    }
  }

  /** As the view has it, which computes the reserved codes from each file: the
      file refuses the same codes, as invalid or as taken, with and without its
      items that spell none out. */
  lemma CodelessItemsRefuseNothing(ctx: Context, items: seq<Item>)
    requires ctx.reserved == ReservedCodes(items)
    ensures var p := PlanAll(ctx, items);
            var q := PlanAll(ctx.(reserved := ReservedCodes(Explicit(items))), Explicit(items));
            p.badCodes == q.badCodes && p.clashing == q.clashing
  {
    ExplicitReservesTheSame(items);
    CodelessItemsChangeNoVerdict(ctx, items);
  }

  // ----- The apply loop -----

  datatype Kind = New | Modified | Unchanged

  function KindOf(ctx: Context, p: Planned): Kind {
    if p.item.domain !in ctx.existing then New
    else if RowFor(ctx, p) != ctx.existing[p.item.domain] then Modified
    else Unchanged
  }

  function OfKind(ctx: Context, planned: seq<Planned>, kind: Kind): seq<Item> {
    if planned == [] then []
    else
      var last := planned[|planned| - 1];
      OfKind(ctx, planned[..|planned| - 1], kind) + if KindOf(ctx, last) == kind then [last.item] else []
  }

  datatype Response =
    | CitiesUnknown(domains: seq<Domain>)
    | CodesInvalid(domains: seq<Domain>)
    | CodesTaken(domains: seq<Domain>)
    | ConstraintViolated
    | AllForbidden
    | Report(newItems: seq<Item>, modified: seq<Item>, same: seq<Item>, forbidden: seq<Item>)

  function ValidCount(items: seq<Item>): nat {
    if items == [] then 0 else ValidCount(items[..|items| - 1]) + if items[|items| - 1].domain != "" then 1 else 0
  }

  /** The reply to a file nothing in it was refused for. */
  function ReplyTo(ctx: Context, items: seq<Item>, p: Plan): Response {
    if ValidCount(items) > 0 && |p.forbidden| == ValidCount(items) then AllForbidden
    else Report(OfKind(ctx, p.planned, New), OfKind(ctx, p.planned, Modified), OfKind(ctx, p.planned, Unchanged), p.forbidden)
  }

  /** The apply loop part way: the table, the lists of the reply, and whether a
      write was refused, which ends the loop. */
  datatype Progress = Progress(schools: Schools, newItems: seq<Item>, modified: seq<Item>, same: seq<Item>, refused: bool)

  function Applying(ctx: Context, apply: bool, planned: seq<Planned>): (g: Progress)
    ensures ctx.existing.Keys <= g.schools.Keys
  {
    if planned == [] then Progress(ctx.existing, [], [], [], false)
    else Applied(ctx, apply, Applying(ctx, apply, planned[..|planned| - 1]), planned[|planned| - 1])
  }

  /** One turn of the loop. */
  function Applied(ctx: Context, apply: bool, g: Progress, q: Planned): Progress
    requires ctx.existing.Keys <= g.schools.Keys
  {
    var domain, row := q.item.domain, RowOn(ctx, g.schools, q);
    var isNew := domain !in ctx.existing;
    var listed := if isNew then g.(newItems := g.newItems + [q.item])
                  else if row != g.schools[domain] then g.(modified := g.modified + [q.item])
                  else g.(same := g.same + [q.item]);
    if g.refused then g
    else if !apply || (!isNew && row == g.schools[domain]) then listed
    else if Violates(g.schools, domain, row, isNew) then listed.(refused := true)
    else listed.(schools := g.schools[domain := row])
  }

  /** The database refuses a row whose code another school of the region has,
      or a new one whose domain is in the table. */
  predicate Violates(schools: Schools, domain: Domain, row: School, isNew: bool) {
    || (isNew && domain in schools)
    || (exists d <- schools :: d != domain && schools[d].region == row.region && schools[d].code == row.code)
  }

  lemma NoViolation(ctx: Context, items: seq<Item>, k: nat)
    requires DistinctCodes(ctx.existing, ctx.region) && DistinctDomains(items)
    requires k < |PlanAll(ctx, items).planned|
    ensures var planned := PlanAll(ctx, items).planned;
            !Violates(ApplyAll(ctx, planned[..k]), planned[k].item.domain, RowFor(ctx, planned[k]),
                      planned[k].item.domain !in ctx.existing)
  {
    var planned := PlanAll(ctx, items).planned;
    var schools, row, domain := ApplyAll(ctx, planned[..k]), RowFor(ctx, planned[k]), planned[k].item.domain;
    EveryWriteKeepsCodesDistinct(ctx, items, k + 1);
    assert planned[..k + 1][..k] == planned[..k];
    var after := schools[domain := row];
    assert ApplyAll(ctx, planned[..k + 1]) == after;
    PlannedDomainsDistinct(ctx, items);
    UnplannedKept(ctx, planned[..k], domain);
    PlannedInRegion(ctx, items);
    forall d <- schools | d != domain ensures schools[d].region != row.region || schools[d].code != row.code {
      assert d in after && after[d] == schools[d] && after[domain] == row && row.region == ctx.region;
    }
  }

  /** A file that names each domain once is applied whole. */
  lemma {:induction false} DistinctFileApplies(ctx: Context, items: seq<Item>, apply: bool, k: nat)
    requires DistinctCodes(ctx.existing, ctx.region) && DistinctDomains(items)
    requires k <= |PlanAll(ctx, items).planned|
    ensures var planned := PlanAll(ctx, items).planned[..k];
            Applying(ctx, apply, planned) ==
              Progress(if apply then ApplyAll(ctx, planned) else ctx.existing,
                       OfKind(ctx, planned, New), OfKind(ctx, planned, Modified), OfKind(ctx, planned, Unchanged), false)
  {
    if k > 0 {
      var planned := PlanAll(ctx, items).planned;
      DistinctFileApplies(ctx, items, apply, k - 1);
      assert planned[..k][..k - 1] == planned[..k - 1];
      NoViolation(ctx, items, k - 1);
      PlannedDomainsDistinct(ctx, items);
      UnplannedKept(ctx, planned[..k - 1], planned[k - 1].item.domain);
    }
  }

  lemma TurnAt(ctx: Context, apply: bool, planned: seq<Planned>, k: nat)
    requires k < |planned|
    ensures Applying(ctx, apply, planned[..k + 1]) == Applied(ctx, apply, Applying(ctx, apply, planned[..k]), planned[k])
  {
    assert planned[..k + 1][..k] == planned[..k];
  }

  lemma {:induction false} RefusedStays(ctx: Context, apply: bool, planned: seq<Planned>, k: nat)
    requires k <= |planned| && Applying(ctx, apply, planned[..k]).refused
    ensures Applying(ctx, apply, planned) == Applying(ctx, apply, planned[..k])
    decreases |planned|
  {
    if k == |planned| {
      assert planned[..k] == planned;
    } else {
      var before := planned[..|planned| - 1];
      assert before[..k] == planned[..k];
      RefusedStays(ctx, apply, before, k);
    }
  }

  /** The database refuses the write of item `k`, and none before it. */
  predicate RefusedAt(ctx: Context, apply: bool, planned: seq<Planned>, k: nat)
    requires k < |planned|
  {
    var g, domain := Applying(ctx, apply, planned[..k]), planned[k].item.domain;
    var row, isNew := RowOn(ctx, g.schools, planned[k]), domain !in ctx.existing;
    apply && !g.refused && (isNew || row != g.schools[domain]) && Violates(g.schools, domain, row, isNew)
  }

  /** Otherwise the loop may stop at an item, and then exactly the items before
      it have been written. */
  lemma StoppedAtItem(ctx: Context, apply: bool, planned: seq<Planned>, k: nat)
    requires k < |planned| && RefusedAt(ctx, apply, planned, k)
    ensures Applying(ctx, apply, planned).refused
    ensures Applying(ctx, apply, planned).schools == Applying(ctx, apply, planned[..k]).schools
  {
    TurnAt(ctx, apply, planned, k);
    RefusedStays(ctx, apply, planned, k + 1);
  }

  lemma {:induction false} StopsOnlyAtItem(ctx: Context, apply: bool, planned: seq<Planned>)
    requires Applying(ctx, apply, planned).refused
    ensures exists k :: 0 <= k < |planned| && RefusedAt(ctx, apply, planned, k)
  {
    var n := |planned| - 1;
    TurnAt(ctx, apply, planned, n);
    assert planned[..n + 1] == planned;
    if Applying(ctx, apply, planned[..n]).refused {
      StopsOnlyAtItem(ctx, apply, planned[..n]);
      var k :| 0 <= k < n && RefusedAt(ctx, apply, planned[..n], k);
      assert planned[..n][..k] == planned[..k] && RefusedAt(ctx, apply, planned, k);
    } else {
      assert RefusedAt(ctx, apply, planned, n);
    }
  }

  lemma TurnKeepsCodes(ctx: Context, apply: bool, g: Progress, q: Planned)
    requires ctx.existing.Keys <= g.schools.Keys && DistinctCodes(g.schools, ctx.region)
    ensures DistinctCodes(Applied(ctx, apply, g, q).schools, ctx.region)
  {
  }

  /** Wherever it stops, no code of the region is held twice. */
  lemma {:induction false} ApplyingKeepsCodes(ctx: Context, apply: bool, planned: seq<Planned>)
    requires DistinctCodes(ctx.existing, ctx.region)
    ensures DistinctCodes(Applying(ctx, apply, planned).schools, ctx.region)
  {
    if planned != [] {
      var n := |planned| - 1;
      ApplyingKeepsCodes(ctx, apply, planned[..n]);
      TurnKeepsCodes(ctx, apply, Applying(ctx, apply, planned[..n]), planned[n]);
    }
  }

  lemma {:induction false} WrittenStays(ctx: Context, planned: seq<Planned>, k: nat)
    requires k < |planned| && !Applying(ctx, true, planned).refused
    ensures planned[k].item.domain in Applying(ctx, true, planned).schools
    ensures !Applying(ctx, true, planned[..k]).refused
  {
    var n := |planned| - 1;
    if k < n {
      WrittenStays(ctx, planned[..n], k);
      assert planned[..n][..k] == planned[..k];
    }
  }

  /** A school new to the table and named twice always stops it. */
  lemma NewSchoolTwiceStops(ctx: Context, planned: seq<Planned>, i: nat, j: nat)
    requires i < j < |planned| && planned[i].item.domain == planned[j].item.domain
    requires planned[j].item.domain !in ctx.existing
    ensures Applying(ctx, true, planned).refused
  {
    if Applying(ctx, true, planned[..j]).refused {
      RefusedStays(ctx, true, planned, j);
    } else {
      WrittenStays(ctx, planned[..j], i);
      StoppedAtItem(ctx, true, planned, j);
    }
  }

  lemma {:induction false} PlannedInRegion(ctx: Context, items: seq<Item>)
    ensures forall q <- PlanAll(ctx, items).planned :: RowFor(ctx, q).region == ctx.region
  {
    if items != [] {
      PlannedInRegion(ctx, items[..|items| - 1]);
    }
  }
}
