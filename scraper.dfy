/**
 * `scrape_tdm_with_playwright`: visit listing pages 1..pages of the TDM
 * image-news list, and from every item container on each page keep the
 * stripped title and date when both sub-elements are present.
 *
 * The browser is replaced by the rendered site: a map from URL to the item
 * containers that page shows, in DOM order. Navigating to a URL the map does
 * not hold is a navigation failure, which aborts the whole run.
 */
module Scraper {
  import opened Wrappers
  import opened Sequences
  import opened PyText

  /** One `div.function-bar.px-0.py-3` item: the inner text of its first
      `h4.overflow-text-3` and of its first `div.date`, or None when the
      container has no such element. */
  datatype Container = Container(title: Option<string>, date: Option<string>)

  /** One row of the dataset: columns 標題 (title) and 日期時間 (date and time). */
  datatype NewsRecord = NewsRecord(title: string, published: string)

  /** `page.goto(url)` raised: the page could not be loaded. */
  datatype ScrapeError = NavigationFailure(page: nat, url: string)

  /** The rendered listing pages, by URL. */
  type Site = map<string, seq<Container>>

  const ListingUrlPrefix: string :=
    "https://www.tdm.com.mo/zh-hant/news-list?type=image&category=27&page="

  /** The page count `main` asks for. */
  const DefaultPages: int := 3

  /** The listing URL of page `i`: the fixed listing prefix followed by at
      least one decimal digit and nothing else. */
  function ListingUrl(i: nat): (url: string)
    ensures |url| > |ListingUrlPrefix| && ListingUrlPrefix <= url
    ensures forall k :: |ListingUrlPrefix| <= k < |url| ==> IsDigit(url[k])
  {
    DecimalRoundTrip(i);
    ListingUrlPrefix + Decimal(i)
  }

  /** The URL of page `i` is the fixed prefix followed by decimal digits that
      read back as `i`. */
  lemma ListingUrlShape(i: nat)
    ensures var url := ListingUrl(i);
      |url| > |ListingUrlPrefix| && url[..|ListingUrlPrefix|] == ListingUrlPrefix
      && (forall k :: |ListingUrlPrefix| <= k < |url| ==> IsDigit(url[k]))
      && DecimalValue(url[|ListingUrlPrefix|..]) == i
  {
    DecimalRoundTrip(i);
    assert ListingUrl(i)[|ListingUrlPrefix|..] == Decimal(i);
  }

  /** Distinct page numbers never share a URL. */
  lemma ListingUrlInjective(i: nat, j: nat)
    requires ListingUrl(i) == ListingUrl(j)
    ensures i == j
  {
    var p := |ListingUrlPrefix|;
    assert Decimal(i) == ListingUrl(i)[p..];
    assert Decimal(j) == ListingUrl(j)[p..];
    DecimalInjective(i, j);
  }

  /** The URLs the run navigates to when it gets through page `n`: pages
      1..n in ascending order (none when `n` <= 0). */
  function VisitedUrls(n: int): (urls: seq<string>)
    ensures |urls| == if n <= 0 then 0 else n
    ensures forall k :: 0 <= k < |urls| ==> urls[k] == ListingUrl(k + 1)
  {
    if n <= 0 then [] else VisitedUrls(n - 1) + [ListingUrl(n)]
  }

  /** What one container contributes: a record of its stripped texts when it
      has both a title and a date element, nothing otherwise. The texts may
      strip to empty strings; presence is all that is checked. */
  function ContainerRecord(c: Container): (r: Option<NewsRecord>)
    ensures r.Some? <==> c.title.Some? && c.date.Some?
    ensures r.Some? ==> IsStripped(r.value.title) && IsStripped(r.value.published)
    ensures r.Some? ==> r.value == NewsRecord(Strip(c.title.value), Strip(c.date.value))
  {
    if c.title.Some? && c.date.Some? then
      StripSpec(c.title.value);
      StripSpec(c.date.value);
      Some(NewsRecord(Strip(c.title.value), Strip(c.date.value)))
    else None
  }

  /** Present but blank elements still make a record, with empty fields. */
  lemma BlankTextIsKept(t: string, d: string)
    requires AllSpace(t) && AllSpace(d)
    ensures ContainerRecord(Container(Some(t), Some(d))) == Some(NewsRecord("", ""))
  {
    BlankStripsToNothing(t);
    BlankStripsToNothing(d);
  }

  /** A string of whitespace strips to the empty string. */
  lemma BlankStripsToNothing(s: string)
    requires AllSpace(s)
    ensures Strip(s) == ""
  {
    StripSpec(s);
  }

  /** The records one page yields, in container order. */
  function PageRecords(items: seq<Container>): seq<NewsRecord>
  {
    Keep(ContainerRecord, items)
  }

  /** The result of the whole scrape: pages 1..n visited in order, each
      page's records appended after those of the pages before it; the first
      page that cannot be loaded aborts the scrape with no dataset. A failure
      always names a URL the site does not serve. */
  function Scrape(site: Site, n: int): (r: Result<seq<NewsRecord>, ScrapeError>)
    ensures r.Err? ==> r.error.url !in site
    decreases n
  {
    if n <= 0 then Ok([])
    else
      match Scrape(site, n - 1)
      case Err(e) => Err(e)
      case Ok(rs) =>
        var url := ListingUrl(n);
        if url in site then Ok(rs + PageRecords(site[url]))
        else Err(NavigationFailure(n, url))
  }

  /** The scrape loop: for i in 1..pages, go to page i's URL and append the
      record of every container that has both elements. Returns the dataset
      or the navigation failure, and the URLs it navigated to. */
  method ScrapeTdm(site: Site, pages: int)
    returns (r: Result<seq<NewsRecord>, ScrapeError>, visited: seq<string>)
    ensures r == Scrape(site, pages)
    ensures r.Ok? ==> visited == VisitedUrls(pages)
    ensures r.Err? ==> visited == VisitedUrls(r.error.page)
  {
    var results: seq<NewsRecord> := [];
    visited := [];
    var i := 1;
    while i <= pages
      invariant 1 <= i <= if pages < 1 then 1 else pages + 1
      invariant Scrape(site, i - 1) == Ok(results)
      invariant visited == VisitedUrls(i - 1)
    {
      var url := ListingUrl(i);
      visited := visited + [url];
      assert visited == VisitedUrls(i);
      ScrapeStep(site, i, results);
      if url !in site {
        r := Err(NavigationFailure(i, url));
        ScrapeFailureIsFinal(site, i, pages);
        return;
      }
      results := AppendItems(results, site[url]);
      i := i + 1;
    }
    r := Ok(results);
  }

  /** The inner loop over one page's containers: append the stripped title
      and date of every container that has both elements, in DOM order. */
  method AppendItems(results: seq<NewsRecord>, items: seq<Container>)
    returns (out: seq<NewsRecord>)
    ensures out == results + PageRecords(items)
  {
    out := results;
    for j := 0 to |items|
      invariant out == results + PageRecords(items[..j])
    {
      var item := items[j];
      var titleEl, dateEl := item.title, item.date;
      if titleEl.Some? && dateEl.Some? {
        out := out + [NewsRecord(Strip(titleEl.value), Strip(dateEl.value))];
      }
      assert items[..j + 1][..j] == items[..j];
      assert PageRecords(items[..j + 1]) == PageRecords(items[..j]) + ContainerRecord(item).ToSeq();
    }
    assert items[..|items|] == items;
  }

  /** One turn of the page loop: after the pages before `i`, page `i` either
      appends its records or ends the scrape with its navigation failure. */
  lemma ScrapeStep(site: Site, i: int, results: seq<NewsRecord>)
    requires i >= 1 && Scrape(site, i - 1) == Ok(results)
    ensures var url := ListingUrl(i);
      Scrape(site, i) == if url in site then Ok(results + PageRecords(site[url]))
                         else Err(NavigationFailure(i, url))
  {
  }

  /** Once a page fails to load, every longer scrape fails with that same
      error: no later page can produce a dataset. */
  lemma {:induction false} ScrapeFailureIsFinal(site: Site, m: int, n: int)
    requires m <= n
    requires Scrape(site, m).Err?
    ensures Scrape(site, n) == Scrape(site, m)
    decreases n - m
  {
    if m < n {
      ScrapeFailureIsFinal(site, m, n - 1);
    }
  }

  /** The scrape succeeds exactly when every page 1..n is available. */
  lemma {:induction false} ScrapeSucceeds(site: Site, n: int)
    ensures Scrape(site, n).Ok? <==> forall i :: 1 <= i <= n ==> ListingUrl(i) in site
    decreases n
  {
    if n > 0 {
      ScrapeSucceeds(site, n - 1);
      var all := forall i :: 1 <= i <= n ==> ListingUrl(i) in site;
      var before := forall i :: 1 <= i <= n - 1 ==> ListingUrl(i) in site;
      assert all <==> before && ListingUrl(n) in site;
    }
  }

  /** A failed scrape names the first unavailable page: it is within 1..n,
      its URL is missing, and every page before it is available. */
  lemma {:induction false} ScrapeFailsAtFirstMissing(site: Site, n: int)
    requires Scrape(site, n).Err?
    ensures var e := Scrape(site, n).error;
      1 <= e.page <= n && e.url == ListingUrl(e.page) && e.url !in site
      && forall i :: 1 <= i < e.page ==> ListingUrl(i) in site
    decreases n
  {
    if Scrape(site, n - 1).Err? {
      ScrapeFailsAtFirstMissing(site, n - 1);
    } else {
      ScrapeSucceeds(site, n - 1);
    }
  }

  /** The containers of page `i`, or none when it is not available. */
  function PageAt(site: Site, i: nat): seq<Container>
  {
    var url := ListingUrl(i);
    if url in site then site[url] else []
  }

  /** The containers of pages 1..n, one list per page, in page order. */
  function Pages(site: Site, n: nat): (ps: seq<seq<Container>>)
    ensures |ps| == n
  {
    if n == 0 then [] else Pages(site, n - 1) + [PageAt(site, n)]
  }

  /** All containers of pages 1..n, page after page, in DOM order. */
  function AllContainers(site: Site, n: nat): seq<Container>
  {
    Flatten(Pages(site, n))
  }

  /** When every page loads, the dataset is the concatenation, in ascending
      page order, of each page's records. */
  lemma {:induction false} ScrapeConcat(site: Site, n: nat)
    requires forall i :: 1 <= i <= n ==> ListingUrl(i) in site
    ensures Scrape(site, n) == Ok(Flatten(KeepEach(ContainerRecord, Pages(site, n))))
  {
    if n > 0 {
      ScrapeConcat(site, n - 1);
      var p, p' := Pages(site, n), Pages(site, n - 1);
      assert p == p' + [PageAt(site, n)];
      assert p[..n - 1] == p';
      var k, k' := KeepEach(ContainerRecord, p), KeepEach(ContainerRecord, p');
      assert k == k' + [PageRecords(site[ListingUrl(n)])];
      assert k[..n - 1] == k';
    }
  }

  /** Equivalently, the dataset is the records of all containers of all
      pages, taken page after page in DOM order. */
  lemma ScrapeOrder(site: Site, n: nat)
    requires forall i :: 1 <= i <= n ==> ListingUrl(i) in site
    ensures Scrape(site, n) == Ok(PageRecords(AllContainers(site, n)))
  {
    ScrapeConcat(site, n);
    KeepFlatten(ContainerRecord, Pages(site, n));
  }

  /** Exactly one record per container, across all pages, that has both a
      title and a date element, holding that container's stripped texts, in
      the order the containers were encountered; containers missing either
      element contribute nothing. */
  lemma DatasetIsQualifyingContainers(site: Site, n: nat)
    requires forall i :: 1 <= i <= n ==> ListingUrl(i) in site
    ensures Scrape(site, n).Ok?
    ensures var cs, rs := AllContainers(site, n), Scrape(site, n).value;
      var idx := KeptIndices(ContainerRecord, cs);
      && |rs| == |idx|
      && (forall k :: 0 <= k < |idx| ==>
            idx[k] < |cs| && cs[idx[k]].title.Some? && cs[idx[k]].date.Some?
            && rs[k] == NewsRecord(Strip(cs[idx[k]].title.value), Strip(cs[idx[k]].date.value)))
      && (forall k, l :: 0 <= k < l < |idx| ==> idx[k] < idx[l])
      && (forall j :: 0 <= j < |cs| ==> (cs[j].title.Some? && cs[j].date.Some? <==> j in idx))
  {
    ScrapeOrder(site, n);
    var cs := AllContainers(site, n);
    KeepIndexed(ContainerRecord, cs);
  }

  /** Every stored field, on every page, has no surrounding whitespace. */
  lemma ScrapeFieldsStripped(site: Site, n: int)
    requires Scrape(site, n).Ok?
    ensures forall rec :: rec in Scrape(site, n).value ==>
      IsStripped(rec.title) && IsStripped(rec.published)
    decreases n
  {
    if n > 0 {
      ScrapeFieldsStripped(site, n - 1);
      var items := site[ListingUrl(n)];
      KeepIndexed(ContainerRecord, items);
    }
  }
}
