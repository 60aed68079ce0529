/** `main`: walk the listing pages in order, scrape every product they link
    to, and append one row per product, until done or until the first
    failure aborts the run. Sleeping between scrapes and the database writes
    are left out; the rows appended are the outcome. */
module Orchestrator {
  import opened Results
  import opened Web
  import opened Listing
  import opened Product

  /** `range(start, end)`: ascending, end excluded, empty when
      `start >= end`. */
  function PageRange(start: int, end: int): (pages: seq<int>)
    ensures |pages| == if start < end then end - start else 0
    ensures forall i :: 0 <= i < |pages| ==> pages[i] == start + i
    decreases end - start
  {
    if start >= end then [] else [start] + PageRange(start + 1, end)
  }

  /** The rows appended while scraping a list of addresses, and the error
      that stopped it, if any. */
  datatype Batch = Batch(rows: seq<BookRecord>, failure: Option<ScrapeError>)

  /** Scraping one product page, on a given site and day. */
  function Scraper(site: Site, today: string): string -> Result<BookRecord>
  {
    url => ScrapeSingleBookPage(url, site, today)
  }

  /** The inner loop of `main`: scrape the addresses in list order, one row
      per address, stopping at the first failure. Rows appended before the
      failure stay appended. */
  function ScrapeAll(urls: seq<string>, scrape: string -> Result<BookRecord>): (b: Batch)
    ensures |b.rows| <= |urls|
  {
    if urls == [] then Batch([], None)
    else
      match scrape(urls[0])
      case Err(e) => Batch([], Some(e))
      case Ok(row) =>
        var rest := ScrapeAll(urls[1..], scrape);
        Batch([row] + rest.rows, rest.failure)
  }

  /** Row `k` is the record scraped from address `k`; without a failure
      every address gave a row, and a failure is the error of the first
      address that gave none. */
  lemma {:induction false} ScrapeAllRows(urls: seq<string>, scrape: string -> Result<BookRecord>)
    ensures var b := ScrapeAll(urls, scrape);
            && (forall k :: 0 <= k < |b.rows| ==> scrape(urls[k]) == Ok(b.rows[k]))
            && (b.failure.None? ==> |b.rows| == |urls|)
            && (b.failure.Some? ==> |b.rows| < |urls| && scrape(urls[|b.rows|]) == Err(b.failure.value))
  {
    if urls != [] {
      ScrapeAllRows(urls[1..], scrape);
    }
  }

  /** Scraping a concatenation scrapes the first part, then, unless that
      failed, the second. */
  lemma {:induction false} ScrapeAllAppend(a: seq<string>, b: seq<string>, scrape: string -> Result<BookRecord>)
    ensures var ba := ScrapeAll(a, scrape);
            ScrapeAll(a + b, scrape)
            == if ba.failure.Some? then ba
               else Batch(ba.rows + ScrapeAll(b, scrape).rows, ScrapeAll(b, scrape).failure)
    decreases |a|, 1
  {
    if a == [] {
      assert a + b == b;
    } else if scrape(a[0]).Ok? {
      ScrapeAllAppendScraped(a, b, scrape);
    } else {
      assert (a + b)[0] == a[0];
    }
  }

  /** The step of `ScrapeAllAppend` for a first address that scrapes: its
      row opens both batches. */
  lemma {:induction false} ScrapeAllAppendScraped(a: seq<string>, b: seq<string>, scrape: string -> Result<BookRecord>)
    requires a != [] && scrape(a[0]).Ok?
    ensures var ba := ScrapeAll(a, scrape);
            ScrapeAll(a + b, scrape)
            == if ba.failure.Some? then ba
               else Batch(ba.rows + ScrapeAll(b, scrape).rows, ScrapeAll(b, scrape).failure)
    decreases |a|, 0
  {
    var row := scrape(a[0]).value;
    var ab := a + b;
    assert ab[0] == a[0];
    assert ab[1..] == a[1..] + b;
    ScrapeAllAppend(a[1..], b, scrape);
    var tail := ScrapeAll(a[1..], scrape);
    assert ScrapeAll(ab, scrape) == Batch([row] + ScrapeAll(a[1..] + b, scrape).rows, ScrapeAll(a[1..] + b, scrape).failure);
    assert ScrapeAll(a, scrape) == Batch([row] + tail.rows, tail.failure);
    if tail.failure.None? {
      assert [row] + (tail.rows + ScrapeAll(b, scrape).rows) == ([row] + tail.rows) + ScrapeAll(b, scrape).rows;
    }
  }

  /** What a run did: the listing pages it fetched, the rows it appended and
      the error that aborted it, if any. */
  datatype Outcome = Outcome(pagesVisited: seq<int>, rows: seq<BookRecord>, failure: Option<ScrapeError>)

  /** Listing one catalogue page on a given site. */
  function Lister(site: Site): int -> Result<seq<string>>
  {
    page => GetBookUrlsFromPage(page, site)
  }

  /** The outer loop of `main` over a given sequence of page numbers: list a
      page, scrape its addresses, and go on to the next page only if
      nothing failed. */
  function RunPages(pages: seq<int>, list: int -> Result<seq<string>>,
                    scrape: string -> Result<BookRecord>): (o: Outcome)
    ensures |o.pagesVisited| <= |pages| && o.pagesVisited == pages[..|o.pagesVisited|]
    ensures o.failure.None? ==> |o.pagesVisited| == |pages|
    ensures o.failure.Some? ==> |o.pagesVisited| > 0
  {
    if pages == [] then Outcome([], [], None)
    else
      match list(pages[0])
      case Err(e) => Outcome([pages[0]], [], Some(e))
      case Ok(urls) =>
        var batch := ScrapeAll(urls, scrape);
        if batch.failure.Some? then Outcome([pages[0]], batch.rows, batch.failure)
        else
          var rest := RunPages(pages[1..], list, scrape);
          assert [pages[0]] + rest.pagesVisited == pages[..1 + |rest.pagesVisited|];
          Outcome([pages[0]] + rest.pagesVisited, batch.rows + rest.rows, rest.failure)
  }

  /** A listing page passes when it lists and every product it links to
      scrapes. */
  predicate PagePasses(page: int, list: int -> Result<seq<string>>,
                       scrape: string -> Result<BookRecord>)
  {
    list(page).Ok? && ScrapeAll(list(page).value, scrape).failure.None?
  }

  /** The error a listing page stops the run with: its listing error or, if
      it lists, the error of its first product that does not scrape. */
  function PageFailure(page: int, list: int -> Result<seq<string>>,
                       scrape: string -> Result<BookRecord>): (f: Option<ScrapeError>)
    ensures f.None? <==> PagePasses(page, list, scrape)
  {
    if list(page).Err? then Some(list(page).error) else ScrapeAll(list(page).value, scrape).failure
  }

  /** Every page a run visits before its last one passed. */
  lemma {:induction false} RunPagesPassedBeforeLast(pages: seq<int>, list: int -> Result<seq<string>>,
                                                    scrape: string -> Result<BookRecord>)
    ensures forall i :: 0 <= i < |RunPages(pages, list, scrape).pagesVisited| - 1
              ==> PagePasses(RunPages(pages, list, scrape).pagesVisited[i], list, scrape)
  {
    if pages != [] && PagePasses(pages[0], list, scrape) {
      RunPagesPassedBeforeLast(pages[1..], list, scrape);
      var rest := RunPages(pages[1..], list, scrape).pagesVisited;
      var visited := RunPages(pages, list, scrape).pagesVisited;
      assert visited == [pages[0]] + rest;
      forall i | 1 <= i < |visited| - 1
        ensures PagePasses(visited[i], list, scrape)
      {
        assert visited[i] == rest[i - 1];
        assert PagePasses(rest[i - 1], list, scrape);
      }
    }
  }

  /** A run reports no failure exactly when every one of its pages passes. */
  lemma {:induction false} RunPagesFailsUnlessAllPass(pages: seq<int>, list: int -> Result<seq<string>>,
                                                      scrape: string -> Result<BookRecord>)
    ensures RunPages(pages, list, scrape).failure.None?
            <==> forall i :: 0 <= i < |pages| ==> PagePasses(pages[i], list, scrape)
  {
    if pages != [] {
      RunPagesFailsUnlessAllPass(pages[1..], list, scrape);
      assert forall i :: 1 <= i < |pages| ==> pages[i] == pages[1..][i - 1];
    }
  }

  /** A failed run reports the failure of the last page it visited. */
  lemma {:induction false} RunPagesFailureOfLast(pages: seq<int>, list: int -> Result<seq<string>>,
                                                 scrape: string -> Result<BookRecord>)
    ensures var o := RunPages(pages, list, scrape);
            o.failure.Some? ==> o.failure == PageFailure(o.pagesVisited[|o.pagesVisited| - 1], list, scrape)
  {
    if pages != [] {
      RunPagesFailureOfLast(pages[1..], list, scrape);
    }
  }

  /** A run fails exactly when one of its pages does not pass, and then it
      stops at the first such page: every page visited before the last one
      passed, and the failure is the last page's. */
  lemma {:induction false} RunPagesStopsAtFirstFailure(pages: seq<int>, list: int -> Result<seq<string>>,
                                                       scrape: string -> Result<BookRecord>)
    ensures var o := RunPages(pages, list, scrape);
            && (forall i :: 0 <= i < |o.pagesVisited| - 1 ==> PagePasses(o.pagesVisited[i], list, scrape))
            && (o.failure.None? <==> forall i :: 0 <= i < |pages| ==> PagePasses(pages[i], list, scrape))
            && (o.failure.Some? ==>
                  var last := o.pagesVisited[|o.pagesVisited| - 1];
                  !PagePasses(last, list, scrape) && o.failure == PageFailure(last, list, scrape))
  {
    RunPagesPassedBeforeLast(pages, list, scrape);
    RunPagesFailsUnlessAllPass(pages, list, scrape);
    RunPagesFailureOfLast(pages, list, scrape);
  }

  /** `RunPagesStopsAtFirstFailure` over a page range, where "every page
      passes" is "every page number from the start up to the end passes". */
  lemma {:induction false} RangeStopsAtFirstFailure(pageStart: int, pageEnd: int, list: int -> Result<seq<string>>,
                                                    scrape: string -> Result<BookRecord>)
    ensures var o := RunPages(PageRange(pageStart, pageEnd), list, scrape);
            && (forall i :: 0 <= i < |o.pagesVisited| - 1 ==> PagePasses(o.pagesVisited[i], list, scrape))
            && (o.failure.None? <==> (forall p :: pageStart <= p < pageEnd ==> PagePasses(p, list, scrape)))
            && (o.failure.Some? ==>
                  var last := o.pagesVisited[|o.pagesVisited| - 1];
                  !PagePasses(last, list, scrape) && o.failure == PageFailure(last, list, scrape))
  {
    var pages := PageRange(pageStart, pageEnd);
    RunPagesStopsAtFirstFailure(pages, list, scrape);
    if forall i :: 0 <= i < |pages| ==> PagePasses(pages[i], list, scrape) {
      forall p | pageStart <= p < pageEnd
        ensures PagePasses(p, list, scrape)
      {
        assert pages[p - pageStart] == p;
      }
    }
  }

  /** `main(db_path, seconds, page_start, page_end)`: the listing pages are
      visited from `pageStart` upwards, one at a time, never reaching
      `pageEnd`; an empty range does nothing. */
  function Main(pageStart: int := 1, pageEnd: int := 50, site: Site, today: string): (o: Outcome)
    ensures pageStart >= pageEnd ==> o == Outcome([], [], None)
    ensures forall i :: 0 <= i < |o.pagesVisited| ==> o.pagesVisited[i] == pageStart + i
    ensures forall i :: 0 <= i < |o.pagesVisited| ==> o.pagesVisited[i] < pageEnd
    ensures o.failure.None? ==> |o.pagesVisited| == if pageStart < pageEnd then pageEnd - pageStart else 0
  {
    RunPages(PageRange(pageStart, pageEnd), Lister(site), Scraper(site, today))
  }

  /** `main` reports no failure exactly when every page of its range lists
      and scrapes; otherwise it stops at the first page that does not, and
      reports that page's error. */
  lemma {:induction false} MainStopsAtFirstFailure(pageStart: int, pageEnd: int, site: Site, today: string)
    ensures var o := Main(pageStart, pageEnd, site, today);
            && (forall i :: 0 <= i < |o.pagesVisited| - 1
                  ==> PagePasses(o.pagesVisited[i], Lister(site), Scraper(site, today)))
            && (o.failure.None?
                <==> (forall p :: pageStart <= p < pageEnd ==> PagePasses(p, Lister(site), Scraper(site, today))))
            && (o.failure.Some? ==>
                  var last := o.pagesVisited[|o.pagesVisited| - 1];
                  !PagePasses(last, Lister(site), Scraper(site, today))
                  && o.failure == PageFailure(last, Lister(site), Scraper(site, today)))
  {
    RangeStopsAtFirstFailure(pageStart, pageEnd, Lister(site), Scraper(site, today));
  }

  /** One unit of work: a product address found on a listing page. */
  datatype WorkItem = WorkItem(page: int, url: string)

  function PageItems(page: int, urls: seq<string>): (items: seq<WorkItem>)
    ensures |items| == |urls|
    ensures forall k :: 0 <= k < |urls| ==> items[k] == WorkItem(page, urls[k])
  {
    seq(|urls|, k requires 0 <= k < |urls| => WorkItem(page, urls[k]))
  }

  /** The work a run is handed, in order: the product addresses of each
      listing page, page by page, up to the first listing that fails. */
  function WorkItems(pages: seq<int>, list: int -> Result<seq<string>>): (items: seq<WorkItem>)
    ensures forall i :: 0 <= i < |items| ==> items[i].page in pages
    ensures forall i :: 0 <= i < |items| ==>
              list(items[i].page).Ok? && items[i].url in list(items[i].page).value
    ensures (forall i, j :: 0 <= i < j < |pages| ==> pages[i] < pages[j])
            ==> forall i, j :: 0 <= i <= j < |items| ==> items[i].page <= items[j].page
  {
    if pages == [] then []
    else
      match list(pages[0])
      case Err(_) => []
      case Ok(urls) =>
        var rest := WorkItems(pages[1..], list);
        assert forall i :: 0 <= i < |rest| ==> rest[i].page in pages[1..];
        PageItems(pages[0], urls) + rest
  }

  function Addresses(items: seq<WorkItem>): (urls: seq<string>)
    ensures |urls| == |items|
    ensures forall k :: 0 <= k < |items| ==> urls[k] == items[k].url
  {
    seq(|items|, k requires 0 <= k < |items| => items[k].url)
  }

  /** A run appends exactly the rows of scraping its work list in order,
      stopping at the first failed scrape; a failed scrape is the failure
      the run reports. */
  lemma {:induction false} RunFollowsWorkItems(pages: seq<int>, list: int -> Result<seq<string>>,
                                               scrape: string -> Result<BookRecord>)
    ensures RunPages(pages, list, scrape).rows
            == ScrapeAll(Addresses(WorkItems(pages, list)), scrape).rows
    ensures ScrapeAll(Addresses(WorkItems(pages, list)), scrape).failure.Some?
            ==> RunPages(pages, list, scrape).failure
                == ScrapeAll(Addresses(WorkItems(pages, list)), scrape).failure
    decreases |pages|, 1
  {
    if pages != [] && list(pages[0]).Ok? {
      RunFollowsWorkItemsListed(pages, list, scrape);
    }
  }

  /** The step of `RunFollowsWorkItems` for a first page that lists: its
      addresses open the work list. */
  lemma {:induction false} RunFollowsWorkItemsListed(pages: seq<int>, list: int -> Result<seq<string>>,
                                                     scrape: string -> Result<BookRecord>)
    requires pages != [] && list(pages[0]).Ok?
    ensures RunPages(pages, list, scrape).rows
            == ScrapeAll(Addresses(WorkItems(pages, list)), scrape).rows
    ensures ScrapeAll(Addresses(WorkItems(pages, list)), scrape).failure.Some?
            ==> RunPages(pages, list, scrape).failure
                == ScrapeAll(Addresses(WorkItems(pages, list)), scrape).failure
    decreases |pages|, 0
  {
    var urls := list(pages[0]).value;
    var rest := WorkItems(pages[1..], list);
    assert WorkItems(pages, list) == PageItems(pages[0], urls) + rest;
    assert Addresses(PageItems(pages[0], urls) + rest) == urls + Addresses(rest);
    ScrapeAllAppend(urls, Addresses(rest), scrape);
    RunFollowsWorkItems(pages[1..], list, scrape);
  }

  /** `main` appends exactly the rows of scraping, in order, the work list
      of its page range. */
  lemma {:induction false} MainFollowsWorkItems(pageStart: int, pageEnd: int, site: Site, today: string)
    ensures Main(pageStart, pageEnd, site, today).rows
            == ScrapeAll(Addresses(WorkItems(PageRange(pageStart, pageEnd), Lister(site))),
                         Scraper(site, today)).rows
  {
    RunFollowsWorkItems(PageRange(pageStart, pageEnd), Lister(site), Scraper(site, today));
  }

  /** The work list of `main` holds product addresses from pages in the
      range only, page by page in ascending page order. */
  lemma {:induction false} MainWorkOrder(pageStart: int, pageEnd: int, list: int -> Result<seq<string>>)
    ensures var items := WorkItems(PageRange(pageStart, pageEnd), list);
            && (forall i :: 0 <= i < |items| ==> pageStart <= items[i].page < pageEnd)
            && (forall i, j :: 0 <= i <= j < |items| ==> items[i].page <= items[j].page)
  {
    var pages := PageRange(pageStart, pageEnd);
    var items := WorkItems(pages, list);
    assert forall i, j :: 0 <= i < j < |pages| ==> pages[i] < pages[j];
    forall i | 0 <= i < |items|
      ensures pageStart <= items[i].page < pageEnd
    {
      var k :| 0 <= k < |pages| && pages[k] == items[i].page;
    }
  }

  /** With its default arguments `main` visits listing pages 1 to 49 and
      never page 50: `range` leaves out the end page, although the
      parameter is described as the page to end at. */
  lemma {:induction false} DefaultRunSkipsLastPage(site: Site, today: string)
    ensures var o := Main(site := site, today := today);
            && 50 !in o.pagesVisited
            && (forall i :: 0 <= i < |o.pagesVisited| ==> 1 <= o.pagesVisited[i] <= 49)
            && (o.failure.None? ==> |o.pagesVisited| == 49)
  {
    var o := Main(site := site, today := today);
    assert forall i :: 0 <= i < |o.pagesVisited| ==> o.pagesVisited[i] == 1 + i;
  }
}
