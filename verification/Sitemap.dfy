/**
 Keyset pages of the sitemap (listings/sitemap.py): one pass over a kind's rows
 records where each page starts, and a page later reads the rows between its
 own start and the next one's.

 Ids are integers; the rows of a query come in strictly rising id order.
 */
module Sitemap {
  import opened Common

  type Id = int
  type Time = int

  const PAGE_SIZE: int := 5000

  datatype Row = Row(id: Id, lastmod: Time)

  datatype Page = Page(first: Id, lastmod: Time)

  predicate Rising(rows: seq<Row>) {
    forall i, j :: 0 <= i < j < |rows| ==> rows[i].id < rows[j].id
  }

  /** Where page `p` (from 0) ends among `n` rows. */
  function PageEnd(p: int, n: int): int {
    if (p + 1) * PAGE_SIZE < n then (p + 1) * PAGE_SIZE else n
  }

  /** `stamp` is the newest lastmod of rows[lo..hi]. */
  predicate Newest(rows: seq<Row>, stamp: Time, lo: int, hi: int)
    requires 0 <= lo <= hi <= |rows|
  {
    && (forall i :: lo <= i < hi ==> rows[i].lastmod <= stamp)
    && (exists i :: lo <= i < hi && rows[i].lastmod == stamp)
  }

  predicate PageOf(rows: seq<Row>, page: Page, p: int) {
    && 0 <= p * PAGE_SIZE < PageEnd(p, |rows|)
    && page.first == rows[p * PAGE_SIZE].id
    && Newest(rows, page.lastmod, p * PAGE_SIZE, PageEnd(p, |rows|))
  }

  /** The pages of a full pass over `rows`: every one of PAGE_SIZE rows but the
      last, which has the rest. */
  predicate PagesOf(rows: seq<Row>, pages: seq<Page>) {
    && (|pages| - 1) * PAGE_SIZE < |rows| <= |pages| * PAGE_SIZE
    && forall p :: 0 <= p < |pages| ==> PageOf(rows, pages[p], p)
  }

  /** listings/sitemap.py, _build_pages. */
  method BuildPages(rows: seq<Row>) returns (pages: seq<Page>)
    ensures PagesOf(rows, pages)
  {
    pages := [];
    var i := 0;
    while i < |rows|
      invariant 0 <= i <= |rows|
      invariant PagesOf(rows[..i], pages)
    {
      ghost var was := pages;
      if i % PAGE_SIZE == 0 {
        pages := pages + [Page(rows[i].id, rows[i].lastmod)];
        assert i == |was| * PAGE_SIZE;
        assert rows[..i + 1][i].lastmod == rows[i].lastmod;
      } else {
        assert PageOf(rows[..i], was[|was| - 1], |was| - 1);
        if rows[i].lastmod > pages[|pages| - 1].lastmod {
          pages := pages[|pages| - 1 := pages[|pages| - 1].(lastmod := rows[i].lastmod)];
        }
        LastPageGrows(rows, i, was[|was| - 1], |was| - 1);
      }
      forall p | 0 <= p < |was| && p < |pages| - 1 ensures PageOf(rows[..i + 1], pages[p], p) {
        assert PageOf(rows[..i], was[p], p);
        FullPageStays(rows, i, was[p], p);
      }
      i := i + 1;
    }
    assert rows[..i] == rows;
  }

  lemma LastPageGrows(rows: seq<Row>, i: nat, page: Page, p: nat)
    requires i < |rows| && p * PAGE_SIZE < i < (p + 1) * PAGE_SIZE && PageOf(rows[..i], page, p)
    ensures PageOf(rows[..i + 1], page.(lastmod := if rows[i].lastmod > page.lastmod then rows[i].lastmod else page.lastmod), p)
  {
  }

  lemma FullPageStays(rows: seq<Row>, i: nat, page: Page, p: nat)
    requires i < |rows| && (p + 1) * PAGE_SIZE <= i && PageOf(rows[..i], page, p)
    ensures PageOf(rows[..i + 1], page, p)
  {
  }

  // ----- Sections -----

  predicate Within(id: Id, start: Option<Id>, end: Option<Id>) {
    (start.Some? ==> id >= start.value) && (end.Some? ==> id < end.value)
  }

  /** listings/sitemap.py, build_section: the rows a section lists. */
  function SectionRows(rows: seq<Row>, start: Option<Id>, end: Option<Id>): seq<Row> {
    if rows == [] then []
    else
      SectionRows(rows[..|rows| - 1], start, end) +
      if Within(rows[|rows| - 1].id, start, end) then [rows[|rows| - 1]] else []
  }

  function StartOf(pages: seq<Page>, page: int): Option<Id>
    requires 1 <= page <= |pages|
  {
    if page > 1 then Some(pages[page - 1].first) else None
  }

  function EndOf(pages: seq<Page>, page: int): Option<Id>
    requires 1 <= page <= |pages|
  {
    if page < |pages| then Some(pages[page].first) else None
  }

  /** listings/sitemap.py, sitemap_section_view: pages count from 1, and a page
      that does not exist is a 404. */
  function Section(rows: seq<Row>, pages: seq<Page>, page: int): Option<seq<Row>> {
    if 1 <= page <= |pages| then Some(SectionRows(rows, StartOf(pages, page), EndOf(pages, page))) else None
  }

  /** The sections of pages 1 to `k`, one after another. */
  function Sections(rows: seq<Row>, pages: seq<Page>, k: nat): seq<Row>
    requires k <= |pages|
  {
    if k == 0 then [] else Sections(rows, pages, k - 1) + Section(rows, pages, k).value
  }

  predicate RisingPages(pages: seq<Page>) {
    forall i, j :: 0 <= i < j < |pages| ==> pages[i].first < pages[j].first
  }

  /** How many rows come before an id. */
  function Below(rows: seq<Row>, id: Id): nat {
    if rows == [] then 0
    else Below(rows[..|rows| - 1], id) + if rows[|rows| - 1].id < id then 1 else 0
  }

  lemma {:induction false} BelowSplits(rows: seq<Row>, id: Id)
    requires Rising(rows)
    ensures Below(rows, id) <= |rows|
    ensures forall i :: 0 <= i < |rows| ==> (rows[i].id < id <==> i < Below(rows, id))
  {
    if rows != [] {
      var init := rows[..|rows| - 1];
      BelowSplits(init, id);
      if rows[|rows| - 1].id < id {
        assert Below(init, id) == |init| by {
          assert init != [] ==> rows[|init| - 1].id < rows[|init|].id && init[|init| - 1] == rows[|init| - 1];
        }
      }
      assert forall i :: 0 <= i < |init| ==> rows[i] == init[i];
    }
  }

  lemma BelowOwn(rows: seq<Row>, i: nat)
    requires Rising(rows) && i < |rows|
    ensures Below(rows, rows[i].id) == i
  {
    BelowSplits(rows, rows[i].id);
    assert i > 0 ==> rows[i - 1].id < rows[i].id;
  }

  function From(rows: seq<Row>, start: Option<Id>): nat {
    if start.Some? then Below(rows, start.value) else 0
  }

  function UpTo(rows: seq<Row>, end: Option<Id>): nat {
    if end.Some? then Below(rows, end.value) else |rows|
  }

  lemma {:induction false} RowsWithinAreRun(rows: seq<Row>, start: Option<Id>, end: Option<Id>, lo: nat, hi: nat)
    requires lo <= hi <= |rows|
    requires forall i :: 0 <= i < |rows| ==> (Within(rows[i].id, start, end) <==> lo <= i < hi)
    ensures SectionRows(rows, start, end) == rows[lo..hi]
  {
    if rows != [] {
      var n := |rows| - 1;
      var init, last := rows[..n], rows[n];
      if lo <= n < hi {
        RowsWithinAreRun(init, start, end, lo, n);
        assert rows[lo..hi] == init[lo..n] + [last];
      } else if hi <= n {
        RowsWithinAreRun(init, start, end, lo, hi);
        assert rows[lo..hi] == init[lo..hi];
      } else {
        RowsWithinAreRun(init, start, end, n, n);
        assert rows[lo..hi] == init[n..n] == [];
      }
    }
  }

  /** On rising rows a section is one contiguous run. */
  lemma SectionIsRun(rows: seq<Row>, start: Option<Id>, end: Option<Id>)
    requires Rising(rows) && (start.Some? && end.Some? ==> start.value <= end.value)
    ensures From(rows, start) <= UpTo(rows, end) <= |rows|
    ensures SectionRows(rows, start, end) == rows[From(rows, start)..UpTo(rows, end)]
  {
    if start.Some? { BelowSplits(rows, start.value); }
    if end.Some? { BelowSplits(rows, end.value); }
    var lo, hi := From(rows, start), UpTo(rows, end);
    assert start.Some? && end.Some? && hi < |rows| ==> !(rows[hi].id < start.value);
    RowsWithinAreRun(rows, start, end, lo, hi);
  }

  lemma {:induction false} SectionsArePrefix(rows: seq<Row>, pages: seq<Page>, k: nat)
    requires Rising(rows) && RisingPages(pages) && 0 < k <= |pages|
    ensures UpTo(rows, EndOf(pages, k)) <= |rows|
    ensures Sections(rows, pages, k) == rows[..UpTo(rows, EndOf(pages, k))]
  {
    SectionIsRun(rows, StartOf(pages, k), EndOf(pages, k));
    if k > 1 {
      SectionsArePrefix(rows, pages, k - 1);
      assert EndOf(pages, k - 1) == StartOf(pages, k);
    }
  }

  lemma PassIsRising(rows: seq<Row>, pages: seq<Page>)
    requires Rising(rows) && PagesOf(rows, pages)
    ensures RisingPages(pages) && (pages == [] <==> rows == [])
  {
  }

  /** Whatever rows there are when the sections are built, all pages together
      list each of them once and in order: the bounds may be from another time.
      Only bounds taken while there was nothing to list leave rows out. */
  lemma SectionsListEverything(taken: seq<Row>, pages: seq<Page>, rows: seq<Row>)
    requires Rising(taken) && PagesOf(taken, pages) && Rising(rows)
    ensures Sections(rows, pages, |pages|) == rows <==> taken != [] || rows == []
  {
    PassIsRising(taken, pages);
    if pages != [] {
      SectionsArePrefix(rows, pages, |pages|);
    }
  }

  /** The one page an id falls on. */
  function HomePage(pages: seq<Page>, id: Id): (page: int)
    requires pages != []
    ensures 1 <= page <= |pages|
  {
    if |pages| == 1 || pages[|pages| - 1].first <= id then |pages|
    else HomePage(pages[..|pages| - 1], id)
  }

  /** No two pages share a row, and every id lies on one. */
  lemma {:induction false} ExactlyOnePage(pages: seq<Page>, id: Id, page: int)
    requires RisingPages(pages) && 1 <= page <= |pages|
    ensures Within(id, StartOf(pages, page), EndOf(pages, page)) <==> page == HomePage(pages, id)
  {
    var init := pages[..|pages| - 1];
    if |pages| > 1 && id < pages[|pages| - 1].first && page < |pages| {
      ExactlyOnePage(init, id, page);
    } else if page < |pages| {
      assert pages[page].first <= pages[|pages| - 1].first;
    }
  }

  /** A section of the rows its bounds were taken from: PAGE_SIZE rows, or what
      is left for the last one, and dated by the newest of them. */
  lemma FullPages(rows: seq<Row>, pages: seq<Page>, page: int)
    requires Rising(rows) && PagesOf(rows, pages) && 1 <= page <= |pages|
    ensures var lo, hi := (page - 1) * PAGE_SIZE, PageEnd(page - 1, |rows|);
            && Section(rows, pages, page) == Some(rows[lo..hi])
            && (page < |pages| ==> hi - lo == PAGE_SIZE)
            && Newest(rows, pages[page - 1].lastmod, lo, hi)
  {
    PassIsRising(rows, pages);
    assert PageOf(rows, pages[page - 1], page - 1);
    BelowOwn(rows, (page - 1) * PAGE_SIZE);
    if page < |pages| {
      assert PageOf(rows, pages[page], page);
      BelowOwn(rows, page * PAGE_SIZE);
    }
    SectionIsRun(rows, StartOf(pages, page), EndOf(pages, page));
  }
}
