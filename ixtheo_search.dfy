/**
 * Searching IxTheo: the query parameters of `IxTheoClient.search`, the
 * records it builds from the scraped result list, the page loop of
 * `search_all_pages`, and the choice of search type in
 * `IxTheoSearchHandler.search`.
 *
 * The HTTP session and the HTML scraping of the result page are not
 * modelled: the endpoint is a function from the request parameters to the
 * scraped page.
 */
module IxTheoSearch {
  import opened Wrappers
  import opened Text
  import opened Biblio

  // ---------------------------------------------------------------- the request

  /**
   * The `params` dictionary `search` sends.  Keys whose value is `None`
   * (a missing query) are dropped by the HTTP library, which `lookfor`
   * records as `None`.
   */
  datatype SearchRequest = SearchRequest(
    lookfor: Option<string>,
    searchType: string,
    limit: int,
    sort: string,
    botprotect: string,
    filters: Option<seq<string>>,
    page: Option<int>,
    csrf: Option<string>)

  /** The `filter[]` values, in the order format, language, topic. */
  function FilterParams(format: Option<string>, language: Option<string>, topic: Option<string>): (r: seq<string>)
    ensures |r| == (if Truthy(format) then 1 else 0) + (if Truthy(language) then 1 else 0) + (if Truthy(topic) then 1 else 0)
    ensures Truthy(format) ==> r[0] == "format:" + format.value
    ensures Truthy(language) ==> r[if Truthy(format) then 1 else 0] == "language:" + language.value
    ensures Truthy(topic) ==> r[|r| - 1] == "topic:" + topic.value
  {
    (if Truthy(format) then ["format:" + format.value] else [])
    + (if Truthy(language) then ["language:" + language.value] else [])
    + (if Truthy(topic) then ["topic:" + topic.value] else [])
  }

  /** The parameters for one page of a search. */
  function RequestFor(query: Option<string>, searchType: string, page: int, limit: int, sort: string,
                      format: Option<string>, language: Option<string>, topic: Option<string>,
                      csrf: Option<string>): (r: SearchRequest)
    ensures r.lookfor == query && r.searchType == searchType && r.limit == limit && r.sort == sort && r.botprotect == ""
    ensures r.filters.Some? <==> Truthy(format) || Truthy(language) || Truthy(topic)
    ensures r.filters.Some? ==> r.filters.value == FilterParams(format, language, topic)
    ensures r.page.Some? <==> page > 1
    ensures r.page.Some? ==> r.page.value == page
    ensures r.csrf.Some? <==> Truthy(csrf)
  {
    var filters := FilterParams(format, language, topic);
    SearchRequest(query, searchType, limit, sort, "",
      if filters != [] then Some(filters) else None,
      if page > 1 then Some(page) else None,
      if Truthy(csrf) then csrf else None)
  }

  // ---------------------------------------------------------------- the response

  /** One entry of the scraped result list; `title` is `None` when the entry has no title key. */
  datatype Hit = Hit(
    id: Option<string>,
    title: Option<string>,
    authors: seq<string>,
    year: Option<string>,
    subjects: seq<string>,
    formats: seq<string>,
    text: string)

  /** A failed request (any status but 200, or a request exception), or the scraped result page. */
  datatype SearchResponse = Failed | Scraped(success: bool, totalResults: int, hits: seq<Hit>)

  /** The stripped, non-blank authors of a hit, in order. */
  function CleanAuthors(authors: seq<string>): seq<string> {
    if authors == [] then []
    else
      var last := authors[|authors| - 1];
      CleanAuthors(authors[..|authors| - 1]) + (if Strip(last) != "" then [Strip(last)] else [])
  }

  /** Each kept author is a stripped input author, and every non-blank input author is kept. */
  lemma {:induction false} CleanAuthorsSpec(authors: seq<string>)
    ensures |CleanAuthors(authors)| <= |authors|
    ensures forall a :: a in CleanAuthors(authors) <==> a != "" && exists j :: 0 <= j < |authors| && a == Strip(authors[j])
  {
    if authors != [] {
      var init := authors[..|authors| - 1];
      var last := authors[|authors| - 1];
      CleanAuthorsSpec(init);
      var kept := CleanAuthors(init);
      var tail := if Strip(last) != "" then [Strip(last)] else [];
      assert CleanAuthors(authors) == kept + tail;
      forall a ensures a in kept + tail <==> a != "" && exists j :: 0 <= j < |authors| && a == Strip(authors[j]) {
        KeptOrTail(a, kept, tail);
        if a in kept {
          var j :| 0 <= j < |init| && a == Strip(init[j]);
          assert authors[j] == init[j];
        } else if a in tail {
          assert a == Strip(authors[|authors| - 1]);
        } else {
          assert forall j :: 0 <= j < |init| ==> authors[j] == init[j];
        }
      }
    }
  }

  /** Membership in a concatenation. */
  lemma KeptOrTail(a: string, kept: seq<string>, tail: seq<string>)
    ensures a in kept + tail <==> a in kept || a in tail
  {
  }

  /** The `BiblioRecord` built from one hit. */
  function HitRecord(h: Hit): (r: Record)
    ensures r.id == h.id && r.year == h.year && r.subjects == h.subjects && r.rawData == h.text
    ensures r.title == (if h.title.Some? then h.title.value else "Unknown Title")
    ensures r.format == Some(Join(", ", h.formats)) && r.editors.None?
  {
    Minimal(h.id, if h.title.Some? then h.title.value else "Unknown Title", h.text).(
      authors := CleanAuthors(h.authors), year := h.year, subjects := h.subjects,
      format := Some(Join(", ", h.formats)))
  }

  function HitRecords(hits: seq<Hit>): (r: seq<Record>)
    ensures |r| == |hits|
  {
    if hits == [] then [] else HitRecords(hits[..|hits| - 1]) + [HitRecord(hits[|hits| - 1])]
  }

  /** Record `i` is built from hit `i`. */
  lemma {:induction false} HitRecordsEach(hits: seq<Hit>)
    ensures forall i :: 0 <= i < |hits| ==> HitRecords(hits)[i] == HitRecord(hits[i])
  {
    if hits != [] {
      var init := hits[..|hits| - 1];
      HitRecordsEach(init);
      forall i | 0 <= i < |hits| ensures HitRecords(hits)[i] == HitRecord(hits[i]) {
        if i < |init| {
          assert hits[i] == init[i];
        }
      }
    }
  }

  /** What `search` returns for a response: `(0, [])` on any failure. */
  function SearchResult(response: SearchResponse): (int, seq<Record>) {
    match response
    case Failed => (0, [])
    case Scraped(success, total, hits) => if success then (total, HitRecords(hits)) else (0, [])
  }

  /** `IxTheoClient.search` against the endpoint `server`. */
  function SearchOf(server: SearchRequest -> SearchResponse, query: Option<string>, searchType: string, page: int,
                    limit: int, sort: string, format: Option<string>, language: Option<string>, topic: Option<string>,
                    csrf: Option<string>): (r: (int, seq<Record>))
    ensures var response := server(RequestFor(query, searchType, page, limit, sort, format, language, topic, csrf));
      && (response.Failed? || !response.success ==> r == (0, []))
      && (response.Scraped? && response.success ==> r.0 == response.totalResults && |r.1| == |response.hits|)
  {
    SearchResult(server(RequestFor(query, searchType, page, limit, sort, format, language, topic, csrf)))
  }

  /** The loop over the authors of one hit. */
  method CleanAuthorsLoop(authors: seq<string>) returns (r: seq<string>)
    ensures r == CleanAuthors(authors)
  {
    r := [];
    for i := 0 to |authors|
      invariant r == CleanAuthors(authors[..i])
    {
      assert authors[..i + 1][..i] == authors[..i];
      var author := authors[i];
      if Strip(author) != "" {
        r := r + [Strip(author)];
      }
    }
    assert authors[..|authors|] == authors;
  }

  /** The loop over the hits of a result page. */
  method BuildRecords(hits: seq<Hit>) returns (records: seq<Record>)
    ensures records == HitRecords(hits)
  {
    records := [];
    for i := 0 to |hits|
      invariant records == HitRecords(hits[..i])
    {
      assert hits[..i + 1][..i] == hits[..i];
      var h := hits[i];
      var authors := CleanAuthorsLoop(h.authors);
      var title := if h.title.Some? then h.title.value else "Unknown Title";
      var record := Minimal(h.id, title, h.text).(
        authors := authors, year := h.year, subjects := h.subjects, format := Some(Join(", ", h.formats)));
      records := records + [record];
    }
    assert hits[..|hits|] == hits;
  }

  /** `IxTheoClient.search`. */
  method Search(server: SearchRequest -> SearchResponse, query: Option<string>, searchType: string, page: int,
                limit: int, sort: string, format: Option<string>, language: Option<string>, topic: Option<string>,
                csrf: Option<string>) returns (total: int, records: seq<Record>)
    ensures (total, records) == SearchOf(server, query, searchType, page, limit, sort, format, language, topic, csrf)
  {
    var response := server(RequestFor(query, searchType, page, limit, sort, format, language, topic, csrf));
    if response.Failed? || !response.success {
      return 0, [];
    }
    total := response.totalResults;
    records := BuildRecords(response.hits);
  }

  // ---------------------------------------------------------------- all pages

  /** Python's `a // b`: division rounding toward negative infinity. */
  function FloorDiv(a: int, b: int): (q: int)
    requires b != 0
    ensures b > 0 ==> q * b <= a < q * b + b
    ensures b < 0 ==> q * b >= a > q * b + b
  {
    if b > 0 then a / b else (-a) / (-b)
  }

  /**
   * The number of pages `search_all_pages` may fetch.  With a positive
   * page size it is the least number of pages that hold the results wanted.
   */
  function MaxPages(total: int, limit: int, maxResults: Option<int>): (n: int)
    requires limit != 0
    ensures var want := if maxResults.None? || total <= maxResults.value then total else maxResults.value;
      limit > 0 && want > 0 ==> (n - 1) * limit < want <= n * limit
  {
    if maxResults.None? then FloorDiv(total + limit - 1, limit)
    else FloorDiv((if maxResults.value < total then maxResults.value else total) - 1, limit) + 1
  }

  /**
   * The loop over pages `page` to `maxPages`: it stops before a page once
   * `maxResults` records are collected and at the first empty page.
   */
  function Rest(fetch: int -> (int, seq<Record>), maxResults: Option<int>, page: int, maxPages: int,
                acc: seq<Record>): seq<Record>
    decreases maxPages - page + 1
  {
    if page > maxPages then acc
    else if maxResults.Some? && |acc| >= maxResults.value then acc
    else if fetch(page).1 == [] then acc
    else Rest(fetch, maxResults, page + 1, maxPages, acc + fetch(page).1)
  }

  /** The first page the loop does not add. */
  function Stop(fetch: int -> (int, seq<Record>), maxResults: Option<int>, page: int, maxPages: int, count: int): int
    decreases maxPages - page + 1
  {
    if page > maxPages then page
    else if maxResults.Some? && count >= maxResults.value then page
    else if fetch(page).1 == [] then page
    else Stop(fetch, maxResults, page + 1, maxPages, count + |fetch(page).1|)
  }

  /** The records of pages `lo` to `hi - 1`, concatenated in order. */
  function PagesFrom(fetch: int -> (int, seq<Record>), lo: int, hi: int): seq<Record>
    decreases hi - lo
  {
    if lo >= hi then [] else fetch(lo).1 + PagesFrom(fetch, lo + 1, hi)
  }

  /** The final trim to `max_results`. */
  function Trim(records: seq<Record>, maxResults: Option<int>): seq<Record> {
    if maxResults.Some? && |records| > maxResults.value then PyPrefix(records, maxResults.value) else records
  }

  /**
   * What `search_all_pages` returns, given `fetch(p)`, the result of
   * `search` for page `p`: a page size of zero raises `ZeroDivisionError`
   * once the first page has records.
   */
  function AllPagesOf(fetch: int -> (int, seq<Record>), maxResults: Option<int>, limit: int): (r: Attempt<(int, seq<Record>)>)
    ensures r.Threw? <==> fetch(1).1 != [] && limit == 0
    ensures fetch(1).1 == [] ==> r == Returned((0, []))
  {
    var (total, first) := fetch(1);
    if first == [] then Returned((0, []))
    else if limit == 0 then Threw
    else Returned((total, Trim(Rest(fetch, maxResults, 2, MaxPages(total, limit, maxResults), first), maxResults)))
  }

  /**
   * The loop collects whole pages, from `page` up to the page where it
   * stops, every one of them non-empty, and never goes past `maxPages`.
   */
  lemma {:induction false} RestPages(fetch: int -> (int, seq<Record>), maxResults: Option<int>, page: int,
                                     maxPages: int, acc: seq<Record>)
    ensures var stop := Stop(fetch, maxResults, page, maxPages, |acc|);
      && Rest(fetch, maxResults, page, maxPages, acc) == acc + PagesFrom(fetch, page, stop)
      && page <= stop && (stop == page || stop <= maxPages + 1)
      && (forall p :: page <= p < stop ==> fetch(p).1 != [])
    decreases maxPages - page + 1
  {
    if page <= maxPages && !(maxResults.Some? && |acc| >= maxResults.value) && fetch(page).1 != [] {
      var recs := fetch(page).1;
      RestPages(fetch, maxResults, page + 1, maxPages, acc + recs);
      var stop := Stop(fetch, maxResults, page + 1, maxPages, |acc| + |recs|);
      assert |acc + recs| == |acc| + |recs|;
      assert (acc + recs) + PagesFrom(fetch, page + 1, stop) == acc + (recs + PagesFrom(fetch, page + 1, stop));
    }
  }

  /** An empty first page gives `(0, [])`. */
  lemma AllPagesEmpty(fetch: int -> (int, seq<Record>), maxResults: Option<int>, limit: int)
    requires fetch(1).1 == []
    ensures AllPagesOf(fetch, maxResults, limit) == Returned((0, []))
  {
  }

  /**
   * Otherwise, with a non-zero page size, the total is that of page 1 and
   * the records are a prefix of pages 1, 2, ... up to the stopping page, at
   * most `max_results` of them when that is given and not negative.
   */
  lemma AllPagesShape(fetch: int -> (int, seq<Record>), maxResults: Option<int>, limit: int)
    requires fetch(1).1 != [] && limit != 0
    ensures var r := AllPagesOf(fetch, maxResults, limit);
      var maxPages := MaxPages(fetch(1).0, limit, maxResults);
      var stop := Stop(fetch, maxResults, 2, maxPages, |fetch(1).1|);
      && r.Returned? && r.value.0 == fetch(1).0
      && |r.value.1| <= |fetch(1).1 + PagesFrom(fetch, 2, stop)|
      && r.value.1 == (fetch(1).1 + PagesFrom(fetch, 2, stop))[..|r.value.1|]
      && (maxResults.Some? && maxResults.value >= 0 ==> |r.value.1| <= maxResults.value)
      && (maxResults.None? ==> |r.value.1| == |fetch(1).1 + PagesFrom(fetch, 2, stop)|)
  {
    var maxPages := MaxPages(fetch(1).0, limit, maxResults);
    RestPages(fetch, maxResults, 2, maxPages, fetch(1).1);
  }

  /** Without `max_results`, the loop stops only past the last page or at an empty page. */
  lemma {:induction false} StopUnbounded(fetch: int -> (int, seq<Record>), page: int, maxPages: int, count: int)
    ensures var stop := Stop(fetch, None, page, maxPages, count);
      stop > maxPages || fetch(stop).1 == []
    decreases maxPages - page + 1
  {
    if page <= maxPages && fetch(page).1 != [] {
      StopUnbounded(fetch, page + 1, maxPages, count + |fetch(page).1|);
    }
  }

  /** `search_all_pages`, calling `search` once per page. */
  method SearchAllPages(server: SearchRequest -> SearchResponse, query: Option<string>, searchType: string,
                        maxResults: Option<int>, limit: int, sort: string, format: Option<string>,
                        language: Option<string>, topic: Option<string>, csrf: Option<string>)
    returns (r: Attempt<(int, seq<Record>)>)
    ensures r == AllPagesOf(p => SearchOf(server, query, searchType, p, limit, sort, format, language, topic, csrf),
                            maxResults, limit)
  {
    ghost var fetch := p => SearchOf(server, query, searchType, p, limit, sort, format, language, topic, csrf);
    var total, records := Search(server, query, searchType, 1, limit, sort, format, language, topic, csrf);
    assert (total, records) == fetch(1);
    if records == [] {
      return Returned((0, []));
    }
    if limit == 0 {
      return Threw;
    }
    var allRecords := records;
    var maxPages := MaxPages(total, limit, maxResults);
    var page := 2;
    while page <= maxPages
      invariant Rest(fetch, maxResults, page, maxPages, allRecords) == Rest(fetch, maxResults, 2, maxPages, records)
      decreases maxPages - page
    {
      if maxResults.Some? && |allRecords| >= maxResults.value {
        break;
      }
      var _, pageRecords := Search(server, query, searchType, page, limit, sort, format, language, topic, csrf);
      assert pageRecords == fetch(page).1;
      if pageRecords == [] {
        break;
      }
      allRecords := allRecords + pageRecords;
      page := page + 1;
    }
    if maxResults.Some? && |allRecords| > maxResults.value {
      allRecords := PyPrefix(allRecords, maxResults.value);
    }
    return Returned((total, allRecords));
  }

  // ---------------------------------------------------------------- the handler

  /** The search type and query: title, else author, else subject, else all fields with the general query. */
  function SearchTypeFor(query: Option<string>, title: Option<string>, author: Option<string>,
                         subject: Option<string>): (r: (string, Option<string>))
    ensures Truthy(title) ==> r == ("Title", title)
    ensures !Truthy(title) && Truthy(author) ==> r == ("Author", author)
    ensures !Truthy(title) && !Truthy(author) && Truthy(subject) ==> r == ("Subject", subject)
    ensures !Truthy(title) && !Truthy(author) && !Truthy(subject) ==> r == ("AllFields", query)
  {
    if Truthy(title) then ("Title", title)
    else if Truthy(author) then ("Author", author)
    else if Truthy(subject) then ("Subject", subject)
    else ("AllFields", query)
  }

  const DefaultLimit := 20
  const DefaultSort := "relevance, year desc"

  /** `IxTheoSearchHandler.search`: every page of the chosen search, with the client's defaults. */
  method HandlerSearch(server: SearchRequest -> SearchResponse, csrf: Option<string>, query: Option<string>,
                       title: Option<string>, author: Option<string>, subject: Option<string>,
                       maxResults: Option<int>, formatFilter: Option<string>, languageFilter: Option<string>)
    returns (r: Attempt<(int, seq<Record>)>)
    ensures var (searchType, searchQuery) := SearchTypeFor(query, title, author, subject);
      r == AllPagesOf(p => SearchOf(server, searchQuery, searchType, p, DefaultLimit, DefaultSort, formatFilter,
                                    languageFilter, None, csrf), maxResults, DefaultLimit)
  {
    var (searchType, searchQuery) := SearchTypeFor(query, title, author, subject);
    r := SearchAllPages(server, searchQuery, searchType, maxResults, DefaultLimit, DefaultSort, formatFilter,
                        languageFilter, None, csrf);
  }
}
