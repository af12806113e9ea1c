/**
 * The request side of the OAI-PMH client without the Sickle library: the
 * query string, the resumption-token loop (flow control, section 3.5 of the
 * OAI-PMH 2.0 protocol), and the `ListIdentifiers`, `GetRecord` and
 * `ListRecords` requests on one page each.
 *
 * The repository is a pure function from a request URL to a `Response`:
 * `Failed` stands for every way the request, the HTTP status check or the
 * XML parse can raise, `Received` for the parsed document.
 */
module OaiHarvest {
  import opened Wrappers
  import opened Text
  import opened Xml
  import opened Biblio
  import opened OaiRecords
  import opened OaiDispatch

  datatype Response = Failed | Received(root: Element)

  /** The client's settings: base URL, default metadata prefix, and the `record_parser` argument. */
  datatype ClientConfig = ClientConfig(baseUrl: string, defaultPrefix: string, custom: Option<Parser>)

  // ---------------------------------------------------------------- query strings

  /** The `k=v` items of a parameter dictionary, in insertion order. */
  function QueryItems(params: seq<(string, string)>): (r: seq<string>)
    ensures |r| == |params|
    ensures forall i :: 0 <= i < |r| ==> r[i] == params[i].0 + "=" + params[i].1
  {
    if params == [] then [] else QueryItems(params[..|params| - 1]) + [params[|params| - 1].0 + "=" + params[|params| - 1].1]
  }

  /** `_build_query_string`: `"&".join(f"{k}={v}" ...)`. */
  function BuildQueryString(params: seq<(string, string)>): string {
    Join("&", QueryItems(params))
  }

  /** No key or value holds `&`. */
  predicate AmpersandFree(params: seq<(string, string)>) {
    forall i, j :: 0 <= i < |params| && 0 <= j < |params[i].0 + "=" + params[i].1| ==> (params[i].0 + "=" + params[i].1)[j] != '&'
  }

  /** When no key or value holds `&`, the query string splits back into exactly its `k=v` items. */
  lemma QueryStringSplits(params: seq<(string, string)>)
    requires params != [] && AmpersandFree(params)
    ensures Split(BuildQueryString(params), "&") == QueryItems(params)
  {
    var items := QueryItems(params);
    assert forall i, j :: 0 <= i < |items| && 0 <= j < |items[i]| ==> items[i][j] != '&';
    SplitJoinChar('&', items);
  }

  /** The request arguments: `verb`, `metadataPrefix`, then `set`, `from` and `until` when given and non-empty. */
  function ListParams(verb: string, prefix: string, setSpec: Option<string>, from: Option<string>, until: Option<string>): (r: seq<(string, string)>)
    ensures |r| >= 2 && r[0] == ("verb", verb) && r[1] == ("metadataPrefix", prefix)
    ensures Truthy(setSpec) ==> ("set", setSpec.value) in r
    ensures !Truthy(setSpec) ==> forall i :: 0 <= i < |r| ==> r[i].0 != "set"
    ensures Truthy(from) ==> ("from", from.value) in r
    ensures !Truthy(from) ==> forall i :: 0 <= i < |r| ==> r[i].0 != "from"
    ensures Truthy(until) ==> ("until", until.value) in r
    ensures !Truthy(until) ==> forall i :: 0 <= i < |r| ==> r[i].0 != "until"
  {
    [("verb", verb), ("metadataPrefix", prefix)]
    + (if Truthy(setSpec) then [("set", setSpec.value)] else [])
    + (if Truthy(from) then [("from", from.value)] else [])
    + (if Truthy(until) then [("until", until.value)] else [])
  }

  /** `f"{self.base_url}?{self._build_query_string(params)}"`. */
  function RequestUrl(base: string, params: seq<(string, string)>): string {
    base + "?" + BuildQueryString(params)
  }

  /** `metadata_prefix or self.default_metadata_prefix`. */
  function ResolvePrefix(arg: Option<string>, dflt: string): string {
    if Truthy(arg) then arg.value else dflt
  }

  // ---------------------------------------------------------------- resumption tokens

  /** The elements a page contributes, chosen by the verb named in the URL. */
  function Items(url: string, root: Element): seq<Element> {
    if Contains(url, "verb=ListSets") then Select(root, [Desc(Oai("set"))])
    else if Contains(url, "verb=ListIdentifiers") then Select(root, [Desc(Oai("header"))])
    else if Contains(url, "verb=ListRecords") then Select(root, [Desc(Oai("record"))])
    else []
  }

  /** The text of the first `oai:resumptionToken`, when it has any. */
  function ResumptionToken(root: Element): (r: Option<string>)
    ensures r.Some? ==> r.value != ""
  {
    var t := FirstDesc(root, Oai("resumptionToken"));
    if HasText(t) then t.value.text else None
  }

  /** `url.split('?')[0]`. */
  function BaseOf(url: string): string {
    Split(url, "?")[0]
  }

  /** `url.split('verb=')[1].split('&')[0]`, or `None` where the index raises. */
  function VerbOf(url: string): Option<string> {
    var pieces := Split(url, "verb=");
    if |pieces| < 2 then None else Some(Split(pieces[1], "&")[0])
  }

  /** The next URL of the loop; `None` when there is no token or when building the URL raises. */
  function NextUrl(url: string, root: Element): Option<string> {
    match ResumptionToken(root)
    case None => None
    case Some(token) =>
      match VerbOf(url)
      case None => None
      case Some(verb) => Some(BaseOf(url) + "?verb=" + verb + "&resumptionToken=" + token)
  }

  /** Building the follow-up URL raises `IndexError`: there is a token but no `verb=` in the URL. */
  predicate FollowUpRaises(url: string, root: Element) {
    ResumptionToken(root).Some? && VerbOf(url).None?
  }

  /** What one request of the loop yields when it does not raise: the page's items and the next URL, if any. */
  datatype Page = Page(items: seq<Element>, next: Option<string>, raised: bool) {
    /** The URL the loop requests next: none once building it has raised. */
    function Following(): Option<string> {
      if raised then None else next
    }
  }

  /** One request: `None` when it raises, else the items for the URL's verb and the follow-up URL. */
  function Fetch(server: string -> Response, url: string): Option<Page> {
    match server(url)
    case Failed => None
    case Received(root) => Some(Page(Items(url, root), NextUrl(url, root), FollowUpRaises(url, root)))
  }

  /** `Fetch` against one server, as a function of the URL. */
  function Fetcher(server: string -> Response): string -> Option<Page> {
    u => Fetch(server, u)
  }

  /**
   * What the loop collects from `url` on, with `remaining` requests still
   * allowed, for any way `fetch` of answering one request: each page's items,
   * in order, until a request raises, a page gives no next URL, or the budget
   * is spent.
   */
  function FollowWith(fetch: string -> Option<Page>, url: Option<string>, remaining: int): seq<Element>
    decreases remaining
  {
    if !Truthy(url) || remaining <= 0 then []
    else
      match fetch(url.value)
      case None => []
      case Some(page) => page.items + if page.Following().Some? then FollowWith(fetch, page.Following(), remaining - 1) else []
  }

  /** The URLs the loop requests, in order. */
  function RequestsWith(fetch: string -> Option<Page>, url: Option<string>, remaining: int): seq<string>
    decreases remaining
  {
    if !Truthy(url) || remaining <= 0 then []
    else
      [url.value] + match fetch(url.value)
        case None => []
        case Some(page) => if page.Following().Some? then RequestsWith(fetch, page.Following(), remaining - 1) else []
  }

  /** What `_follow_resumption_token(url, max_requests)` returns. */
  function Follow(server: string -> Response, url: Option<string>, maxRequests: int): seq<Element> {
    FollowWith(Fetcher(server), url, maxRequests)
  }

  /** The URLs `_follow_resumption_token(url, max_requests)` requests. */
  function Requests(server: string -> Response, url: Option<string>, maxRequests: int): seq<string> {
    RequestsWith(Fetcher(server), url, maxRequests)
  }

  /** The items a single request contributes. */
  function PageItems(fetch: string -> Option<Page>, url: string): seq<Element> {
    match fetch(url)
    case None => []
    case Some(page) => page.items
  }

  function ConcatPages(fetch: string -> Option<Page>, urls: seq<string>): seq<Element> {
    if urls == [] then [] else PageItems(fetch, urls[0]) + ConcatPages(fetch, urls[1..])
  }

  /** The URL the loop holds after `k` turns that each returned a page. */
  function Chain(fetch: string -> Option<Page>, start: Option<string>, k: nat): Option<string> {
    if k == 0 then start
    else
      var prev := Chain(fetch, start, k - 1);
      if !Truthy(prev) then None
      else match fetch(prev.value)
        case None => None
        case Some(page) => page.Following()
  }

  /** The first `k` turns each requested a URL that returned a page. */
  predicate ChainValid(fetch: string -> Option<Page>, start: Option<string>, k: nat) {
    k == 0 || (ChainValid(fetch, start, k - 1) && Truthy(Chain(fetch, start, k - 1))
               && fetch(Chain(fetch, start, k - 1).value).Some?)
  }

  /** The items collected in the first `k` turns. */
  function Collected(fetch: string -> Option<Page>, start: Option<string>, k: nat): seq<Element> {
    if k == 0 then []
    else
      var prev := Chain(fetch, start, k - 1);
      Collected(fetch, start, k - 1) + if Truthy(prev) then PageItems(fetch, prev.value) else []
  }

  /** After `k` turns along the chain, the rest of the result is what the loop collects from the `k`-th URL on. */
  lemma {:induction false} FollowChain(fetch: string -> Option<Page>, start: Option<string>, max: int, k: nat)
    requires k <= max || k == 0
    requires ChainValid(fetch, start, k)
    ensures FollowWith(fetch, start, max) == Collected(fetch, start, k) + FollowWith(fetch, Chain(fetch, start, k), max - k)
  {
    if k > 0 {
      FollowChain(fetch, start, max, k - 1);
      var prev := Chain(fetch, start, k - 1);
      var page := fetch(prev.value).value;
      assert FollowWith(fetch, prev, max - (k - 1)) == page.items + FollowWith(fetch, Chain(fetch, start, k), max - k);
    }
  }

  /**
   * The loop of `_follow_resumption_token` for any way `fetch` of answering
   * one request: collect the page's items, follow the token. A failed request
   * stops without counting; so does a page from whose URL the follow-up cannot
   * be built, after its items are kept.
   */
  method FollowPages(fetch: string -> Option<Page>, start: Option<string>, maxRequests: int) returns (allResults: seq<Element>)
    ensures allResults == FollowWith(fetch, start, maxRequests)
  {
    ghost var done := false;
    allResults := [];
    var requestCount := 0;
    var url := start;
    while Truthy(url) && requestCount < maxRequests
      invariant 0 <= requestCount && (requestCount <= maxRequests || requestCount == 0)
      invariant done ==> url.None? && allResults == FollowWith(fetch, start, maxRequests)
      invariant !done ==> ChainValid(fetch, start, requestCount) && url == Chain(fetch, start, requestCount)
                          && allResults == Collected(fetch, start, requestCount)
      decreases maxRequests - requestCount, if Truthy(url) then 1 else 0
    {
      FollowChain(fetch, start, maxRequests, requestCount);
      var page := fetch(url.value);
      match page
      case None =>
        url := None;
        done := true;
      case Some(Page(results, next, raised)) =>
        allResults := allResults + results;
        url := next;
        if raised {
          url := None;
          done := true;
        } else {
          requestCount := requestCount + 1;
        }
    }
    if !done {
      FollowChain(fetch, start, maxRequests, requestCount);
    }
  }

  /** `_follow_resumption_token(url, max_requests)` against `server`. */
  method FollowResumptionToken(server: string -> Response, start: Option<string>, maxRequests: int) returns (allResults: seq<Element>)
    ensures allResults == Follow(server, start, maxRequests)
  {
    allResults := FollowPages(Fetcher(server), start, maxRequests);
  }

  /** The loop never issues more than `max_requests` requests. */
  lemma {:induction false} RequestsBounded(fetch: string -> Option<Page>, url: Option<string>, remaining: int)
    ensures |RequestsWith(fetch, url, remaining)| <= if remaining < 0 then 0 else remaining
    decreases remaining
  {
    if Truthy(url) && remaining > 0 && fetch(url.value).Some? && fetch(url.value).value.Following().Some? {
      RequestsBounded(fetch, fetch(url.value).value.Following(), remaining - 1);
    }
  }

  /** The results are the items of the requested pages, concatenated in request order. */
  lemma {:induction false} FollowIsConcatenation(fetch: string -> Option<Page>, url: Option<string>, remaining: int)
    ensures FollowWith(fetch, url, remaining) == ConcatPages(fetch, RequestsWith(fetch, url, remaining))
    decreases remaining
  {
    if Truthy(url) && remaining > 0 {
      var rs := RequestsWith(fetch, url, remaining);
      assert rs[0] == url.value;
      match fetch(url.value)
      case None =>
        assert rs == [url.value];
      case Some(page) =>
        if page.Following().Some? {
          FollowIsConcatenation(fetch, page.Following(), remaining - 1);
          assert rs[1..] == RequestsWith(fetch, page.Following(), remaining - 1);
        } else {
          assert rs == [url.value];
        }
    }
  }

  /** `_follow_resumption_token(url, max_requests)` makes at most `max_requests` requests and returns their pages' items in order. */
  lemma FollowBounded(server: string -> Response, url: Option<string>, maxRequests: int)
    ensures |Requests(server, url, maxRequests)| <= if maxRequests < 0 then 0 else maxRequests
    ensures Follow(server, url, maxRequests) == ConcatPages(Fetcher(server), Requests(server, url, maxRequests))
  {
    RequestsBounded(Fetcher(server), url, maxRequests);
    FollowIsConcatenation(Fetcher(server), url, maxRequests);
  }

  /**
   * A follow-up URL keeps the base URL (everything before the first `?`),
   * the verb (up to the next `&`) and the token, and drops every other
   * argument: the exclusive `resumptionToken` argument of section 4.5 of the OAI-PMH 2.0
   * specification.
   */
  lemma NextUrlShape(url: string, root: Element)
    requires NextUrl(url, root).Some?
    ensures VerbOf(url).Some? && ResumptionToken(root).Some?
    ensures NextUrl(url, root).value == BaseOf(url) + "?verb=" + VerbOf(url).value + "&resumptionToken=" + ResumptionToken(root).value
    ensures StartsWith(url, BaseOf(url)) && !Contains(BaseOf(url), "?")
    ensures !Contains(VerbOf(url).value, "&")
    ensures Contains(url, "verb=")
  {
    FirstPiece(url, "?");
    var pieces := Split(url, "verb=");
    FirstPiece(pieces[1], "&");
    if !Contains(url, "verb=") {
      SplitPiecesFree(url, "verb=");
    }
  }

  /** A missing or empty token ends the loop after that page. */
  lemma NoTokenStops(server: string -> Response, url: string, maxRequests: int)
    requires url != "" && maxRequests > 0 && server(url).Received? && ResumptionToken(server(url).root).None?
    ensures Follow(server, Some(url), maxRequests) == Items(url, server(url).root)
    ensures Requests(server, Some(url), maxRequests) == [url]
  {
    assert Fetch(server, url) == Some(Page(Items(url, server(url).root), None, false));
  }

  // ---------------------------------------------------------------- ListIdentifiers

  /** An entry of the `list_identifiers` result. */
  datatype IdEntry =
    | Header(identifier: Option<string>, datestamp: Option<string>, setSpec: seq<string>)
    | OaiError(code: string, message: string)
    | Failure

  /** How many leading elements the `if max_results and i >= max_results: break` loop visits. */
  function Cap(maxResults: Option<int>, n: nat): (k: nat)
    ensures k <= n
    ensures maxResults.None? || maxResults.value == 0 ==> k == n
    ensures maxResults.Some? && maxResults.value > 0 ==> k == if maxResults.value < n then maxResults.value else n
    ensures maxResults.Some? && maxResults.value < 0 ==> k == 0
  {
    if maxResults.None? || maxResults.value == 0 then n
    else if maxResults.value < 0 then 0
    else if maxResults.value < n then maxResults.value
    else n
  }

  /** The entry for one `oai:header`; headers without an identifier are skipped. */
  function HeaderEntry(h: Element): (r: seq<IdEntry>)
    ensures |r| <= 1 && forall i :: 0 <= i < |r| ==> r[i].Header?
  {
    var identifier := FirstChild(h, Oai("identifier"));
    if identifier.None? then []
    else [Header(identifier.value.text, TextOr(FirstChild(h, Oai("datestamp")), ""), TruthyTexts(ChildrenNamed(h, Oai("setSpec"))))]
  }

  function HeaderEntries(headers: seq<Element>): (r: seq<IdEntry>)
    ensures |r| <= |headers| && forall i :: 0 <= i < |r| ==> r[i].Header?
  {
    if headers == [] then [] else HeaderEntries(headers[..|headers| - 1]) + HeaderEntry(headers[|headers| - 1])
  }

  /** The `oai:error` entry: `[]` for `noRecordsMatch`, else one entry with the code and message. */
  function ErrorEntries(err: Element): (r: seq<IdEntry>)
    ensures r == [] <==> Attr(err, Plain("code")) == Some("noRecordsMatch")
  {
    var code := Attr(err, Plain("code")).GetOr("unknown");
    if code == "noRecordsMatch" then []
    else [OaiError(code, if Truthy(err.text) then err.text.value else "Unknown error")]
  }

  /** `list_identifiers` without Sickle. */
  function ListIdentifiersOf(server: string -> Response, cfg: ClientConfig, prefixArg: Option<string>,
                             setSpec: Option<string>, from: Option<string>, until: Option<string>,
                             maxResults: Option<int>): (r: seq<IdEntry>)
    ensures maxResults.Some? && maxResults.value > 0 ==> |r| <= maxResults.value
    ensures maxResults.Some? && maxResults.value < 0 ==> forall i :: 0 <= i < |r| ==> !r[i].Header?
  {
    var prefix := ResolvePrefix(prefixArg, cfg.defaultPrefix);
    match server(RequestUrl(cfg.baseUrl, ListParams("ListIdentifiers", prefix, setSpec, from, until)))
    case Failed => [Failure]
    case Received(root) =>
      var err := FirstDesc(root, Oai("error"));
      if err.Some? then ErrorEntries(err.value)
      else
        var headers := Select(root, [Desc(Oai("header"))]);
        HeaderEntries(headers[..Cap(maxResults, |headers|)])
  }

  /** Without an error, the result holds headers only, at most `max_results` of them when that is positive. */
  lemma ListIdentifiersShape(server: string -> Response, cfg: ClientConfig, prefixArg: Option<string>,
                             setSpec: Option<string>, from: Option<string>, until: Option<string>, maxResults: Option<int>)
    ensures var url := RequestUrl(cfg.baseUrl, ListParams("ListIdentifiers", ResolvePrefix(prefixArg, cfg.defaultPrefix), setSpec, from, until));
      var r := ListIdentifiersOf(server, cfg, prefixArg, setSpec, from, until, maxResults);
      && (server(url).Failed? ==> r == [Failure])
      && (server(url).Received? && FirstDesc(server(url).root, Oai("error")).None? ==>
            (forall i :: 0 <= i < |r| ==> r[i].Header?)
            && (maxResults.Some? && maxResults.value > 0 ==> |r| <= maxResults.value))
  {
  }

  /** The header loop of `list_identifiers`. */
  method CollectHeaders(headers: seq<Element>, maxResults: Option<int>) returns (identifiers: seq<IdEntry>)
    ensures identifiers == HeaderEntries(headers[..Cap(maxResults, |headers|)])
  {
    identifiers := [];
    var limit := Cap(maxResults, |headers|);
    var i := 0;
    while i < |headers|
      invariant 0 <= i <= limit
      invariant identifiers == HeaderEntries(headers[..i])
    {
      if maxResults.Some? && maxResults.value != 0 && i >= maxResults.value {
        CapReached(maxResults, |headers|, i);
        break;
      }
      CapNotReached(maxResults, |headers|, i);
      HeaderEntriesSnoc(headers, i);
      var entry := ReadHeader(headers[i]);
      identifiers := identifiers + entry;
      i := i + 1;
    }
  }

  /** The body of the header loop: the entry of one header, none when it has no identifier. */
  method ReadHeader(h: Element) returns (entry: seq<IdEntry>)
    ensures entry == HeaderEntry(h)
  {
    var identifier := FirstChild(h, Oai("identifier"));
    var datestamp := FirstChild(h, Oai("datestamp"));
    if identifier.Some? {
      var sets := CollectTruthy(ChildrenNamed(h, Oai("setSpec")));
      HeaderKept(h, identifier.value, datestamp, sets);
      entry := [Header(identifier.value.text, TextOr(datestamp, ""), sets)];
    } else {
      entry := [];
    }
  }

  /** The loop stops at the cap once `max_results` is reached. */
  lemma CapReached(maxResults: Option<int>, n: nat, i: nat)
    requires maxResults.Some? && maxResults.value != 0 && i >= maxResults.value && i <= Cap(maxResults, n)
    ensures i == Cap(maxResults, n)
  {
  }

  /** Below `max_results`, or without one, the cap lies past every header the loop reaches. */
  lemma CapNotReached(maxResults: Option<int>, n: nat, i: nat)
    requires i < n && !(maxResults.Some? && maxResults.value != 0 && i >= maxResults.value)
    ensures i < Cap(maxResults, n)
  {
  }

  /** The entry of a header with an identifier, from the pieces the loop reads. */
  lemma HeaderKept(h: Element, identifier: Element, datestamp: Option<Element>, sets: seq<string>)
    requires FirstChild(h, Oai("identifier")) == Some(identifier) && FirstChild(h, Oai("datestamp")) == datestamp
    requires sets == TruthyTexts(ChildrenNamed(h, Oai("setSpec")))
    ensures HeaderEntry(h) == [Header(identifier.text, TextOr(datestamp, ""), sets)]
  {
  }

  lemma HeaderEntriesSnoc(headers: seq<Element>, i: nat)
    requires i < |headers|
    ensures HeaderEntries(headers[..i + 1]) == HeaderEntries(headers[..i]) + HeaderEntry(headers[i])
  {
    assert headers[..i + 1][..i] == headers[..i];
  }

  /** `list_identifiers`. */
  method ListIdentifiers(server: string -> Response, cfg: ClientConfig, prefixArg: Option<string>,
                         setSpec: Option<string>, from: Option<string>, until: Option<string>,
                         maxResults: Option<int>) returns (r: seq<IdEntry>)
    ensures r == ListIdentifiersOf(server, cfg, prefixArg, setSpec, from, until, maxResults)
  {
    var prefix := ResolvePrefix(prefixArg, cfg.defaultPrefix);
    var params := ListParams("ListIdentifiers", prefix, setSpec, from, until);
    var response := server(RequestUrl(cfg.baseUrl, params));
    if response.Failed? {
      return [Failure];
    }
    var err := FirstDesc(response.root, Oai("error"));
    if err.Some? {
      var code := Attr(err.value, Plain("code")).GetOr("unknown");
      var message := if Truthy(err.value.text) then err.value.text.value else "Unknown error";
      if code == "noRecordsMatch" {
        return [];
      }
      return [OaiError(code, message)];
    }
    r := CollectHeaders(Select(response.root, [Desc(Oai("header"))]), maxResults);
  }

  // ---------------------------------------------------------------- GetRecord

  /** `get_record` without Sickle: `None` on a failed request, an OAI error or a missing record. */
  function GetRecordOf(server: string -> Response, cfg: ClientConfig, identifier: string, prefixArg: Option<string>,
                       toXml: Element -> string): (r: Option<Harvested>)
    ensures r.Some? ==> r.value.prefix == ResolvePrefix(prefixArg, cfg.defaultPrefix)
  {
    var prefix := ResolvePrefix(prefixArg, cfg.defaultPrefix);
    var params := [("verb", "GetRecord"), ("identifier", identifier), ("metadataPrefix", prefix)];
    match server(RequestUrl(cfg.baseUrl, params))
    case Failed => None
    case Received(root) =>
      if FirstDesc(root, Oai("error")).Some? then None
      else
        match FirstDesc(root, Oai("record"))
        case None => None
        case Some(rec) => RecordOf(rec, prefix, toXml)
  }

  method GetRecord(server: string -> Response, cfg: ClientConfig, identifier: string, prefixArg: Option<string>,
                   toXml: Element -> string) returns (r: Option<Harvested>)
    ensures r == GetRecordOf(server, cfg, identifier, prefixArg, toXml)
  {
    var prefix := ResolvePrefix(prefixArg, cfg.defaultPrefix);
    var params := [("verb", "GetRecord"), ("identifier", identifier), ("metadataPrefix", prefix)];
    var response := server(RequestUrl(cfg.baseUrl, params));
    if response.Failed? || FirstDesc(response.root, Oai("error")).Some? {
      return None;
    }
    var recordElem := FirstDesc(response.root, Oai("record"));
    if recordElem.None? {
      return None;
    }
    r := ProcessRecordElement(recordElem.value, prefix, toXml);
  }

  // ---------------------------------------------------------------- ListRecords

  /** The records converted from the visited `oai:record` elements, skipping the ones that give `None`. */
  function Converted(cfg: ClientConfig, parsers: map<string, Parser>, prefix: string, toXml: Element -> string,
                     els: seq<Element>): (r: seq<Record>)
    ensures |r| <= |els|
  {
    if els == [] then []
    else Converted(cfg, parsers, prefix, toXml, els[..|els| - 1]) + ConvertedOne(cfg, parsers, prefix, toXml, els[|els| - 1])
  }

  /** The records one `<record>` element contributes: none when it has no header or the parser yields none. */
  function ConvertedOne(cfg: ClientConfig, parsers: map<string, Parser>, prefix: string, toXml: Element -> string,
                        e: Element): (r: seq<Record>)
    ensures |r| <= 1
  {
    match RecordOf(e, prefix, toXml)
    case None => []
    case Some(h) => ToBiblioRecord(cfg.custom, parsers, prefix, h).ToSeq()
  }

  /** Converting one more element appends that element's records. */
  lemma ConvertedSnoc(cfg: ClientConfig, parsers: map<string, Parser>, prefix: string, toXml: Element -> string,
                      els: seq<Element>, i: nat)
    requires i < |els|
    ensures Converted(cfg, parsers, prefix, toXml, els[..i + 1])
         == Converted(cfg, parsers, prefix, toXml, els[..i]) + ConvertedOne(cfg, parsers, prefix, toXml, els[i])
  {
    assert els[..i + 1][..i] == els[..i];
  }

  /** The count `list_records` reports: `completeListSize` when there is a token and it parses, else `n`. */
  function ReportedCount(root: Element, n: nat): int {
    var token := FirstDesc(root, Oai("resumptionToken"));
    if HasText(token) && Plain("completeListSize") in token.value.attrs
       && ParseInt(token.value.attrs[Plain("completeListSize")]).Some?
    then ParseInt(token.value.attrs[Plain("completeListSize")]).value
    else n
  }

  /** `list_records` without Sickle. */
  function ListRecordsOf(server: string -> Response, cfg: ClientConfig, parsers: map<string, Parser>,
                         prefixArg: Option<string>, setSpec: Option<string>, from: Option<string>, until: Option<string>,
                         maxResults: Option<int>, toXml: Element -> string): (r: (int, seq<Record>))
    ensures maxResults.Some? && maxResults.value > 0 ==> |r.1| <= maxResults.value
    ensures maxResults.Some? && maxResults.value < 0 ==> r.1 == []
  {
    var prefix := ResolvePrefix(prefixArg, cfg.defaultPrefix);
    match server(RequestUrl(cfg.baseUrl, ListParams("ListRecords", prefix, setSpec, from, until)))
    case Failed => (0, [])
    case Received(root) =>
      if FirstDesc(root, Oai("error")).Some? then (0, [])
      else
        var els := Select(root, [Desc(Oai("record"))]);
        (ReportedCount(root, |els|), Converted(cfg, parsers, prefix, toXml, els[..Cap(maxResults, |els|)]))
  }

  /**
   * Any failure or OAI error gives `(0, [])`; otherwise at most `max_results`
   * records (when positive), and the count is the number of record elements
   * unless the token carries a `completeListSize` that parses.
   */
  lemma ListRecordsShape(server: string -> Response, cfg: ClientConfig, parsers: map<string, Parser>,
                         prefixArg: Option<string>, setSpec: Option<string>, from: Option<string>, until: Option<string>,
                         maxResults: Option<int>, toXml: Element -> string)
    ensures var url := RequestUrl(cfg.baseUrl, ListParams("ListRecords", ResolvePrefix(prefixArg, cfg.defaultPrefix), setSpec, from, until));
      var r := ListRecordsOf(server, cfg, parsers, prefixArg, setSpec, from, until, maxResults, toXml);
      && (server(url).Failed? ==> r == (0, []))
      && (server(url).Received? && FirstDesc(server(url).root, Oai("error")).Some? ==> r == (0, []))
      && (server(url).Received? && FirstDesc(server(url).root, Oai("error")).None? ==>
            var els := Select(server(url).root, [Desc(Oai("record"))]);
            && |r.1| <= Cap(maxResults, |els|)
            && (ResumptionToken(server(url).root).None? ==> r.0 == |els|))
  {
    var prefix := ResolvePrefix(prefixArg, cfg.defaultPrefix);
    var url := RequestUrl(cfg.baseUrl, ListParams("ListRecords", prefix, setSpec, from, until));
    var r := ListRecordsOf(server, cfg, parsers, prefixArg, setSpec, from, until, maxResults, toXml);
    if server(url).Received? && FirstDesc(server(url).root, Oai("error")).None? {
      var root := server(url).root;
      var els := Select(root, [Desc(Oai("record"))]);
      assert r == (ReportedCount(root, |els|), Converted(cfg, parsers, prefix, toXml, els[..Cap(maxResults, |els|)]));
      NoTokenCount(root, |els|);
    }
  }

  /** Without a resumption token the count reported is the number of record elements. */
  lemma NoTokenCount(root: Element, n: nat)
    ensures ResumptionToken(root).None? ==> ReportedCount(root, n) == n
  {
  }

  /** `completeListSize` written as a decimal integer is the count reported. */
  lemma CompleteListSizeCounts(root: Element, n: nat, size: int)
    requires HasText(FirstDesc(root, Oai("resumptionToken")))
    requires FirstDesc(root, Oai("resumptionToken")).value.attrs == map[Plain("completeListSize") := IntToString(size)]
    ensures ReportedCount(root, n) == size
  {
    IntToStringRoundTrip(size);
  }

  /** The record loop of `list_records`. */
  method ConvertRecords(registry: ParserRegistry, cfg: ClientConfig, prefix: string, toXml: Element -> string,
                        els: seq<Element>, maxResults: Option<int>) returns (records: seq<Record>)
    ensures records == Converted(cfg, registry.parsers, prefix, toXml, els[..Cap(maxResults, |els|)])
  {
    ghost var parsers := registry.parsers;
    records := [];
    var limit := Cap(maxResults, |els|);
    var i := 0;
    while i < |els|
      invariant 0 <= i <= limit
      invariant records == Converted(cfg, parsers, prefix, toXml, els[..i])
    {
      if maxResults.Some? && maxResults.value != 0 && i >= maxResults.value {
        CapReached(maxResults, |els|, i);
        break;
      }
      CapNotReached(maxResults, |els|, i);
      ConvertedSnoc(cfg, parsers, prefix, toXml, els, i);
      var converted := ConvertElement(registry, cfg, prefix, toXml, els[i]);
      records := records + converted;
      i := i + 1;
    }
  }

  /** The body of the record loop: the record of one element, none when it is skipped or its parser fails. */
  method ConvertElement(registry: ParserRegistry, cfg: ClientConfig, prefix: string, toXml: Element -> string,
                        e: Element) returns (converted: seq<Record>)
    ensures converted == ConvertedOne(cfg, registry.parsers, prefix, toXml, e)
  {
    converted := [];
    var record := ProcessRecordElement(e, prefix, toXml);
    if record.Some? {
      var biblioRecord := registry.Convert(cfg.custom, prefix, record.value);
      if biblioRecord.Some? {
        converted := [biblioRecord.value];
      }
    }
  }

  /** `list_records`. */
  method ListRecords(server: string -> Response, cfg: ClientConfig, registry: ParserRegistry,
                     prefixArg: Option<string>, setSpec: Option<string>, from: Option<string>, until: Option<string>,
                     maxResults: Option<int>, toXml: Element -> string) returns (count: int, records: seq<Record>)
    ensures (count, records) == ListRecordsOf(server, cfg, registry.parsers, prefixArg, setSpec, from, until, maxResults, toXml)
  {
    var prefix := ResolvePrefix(prefixArg, cfg.defaultPrefix);
    var params := ListParams("ListRecords", prefix, setSpec, from, until);
    var response := server(RequestUrl(cfg.baseUrl, params));
    if response.Failed? || FirstDesc(response.root, Oai("error")).Some? {
      return 0, [];
    }
    var recordElements := Select(response.root, [Desc(Oai("record"))]);
    records := ConvertRecords(registry, cfg, prefix, toXml, recordElements, maxResults);
    count := CompleteListSize(response.root, |recordElements|);
  }

  /** The `completeListSize` update at the end of `list_records`. */
  method CompleteListSize(root: Element, n: nat) returns (count: int)
    ensures count == ReportedCount(root, n)
  {
    count := n;
    var token := FirstDesc(root, Oai("resumptionToken"));
    if token.Some? && Truthy(token.value.text) && Plain("completeListSize") in token.value.attrs {
      var parsed := ParseInt(token.value.attrs[Plain("completeListSize")]);
      if parsed.Some? {
        count := parsed.value;
      }
    }
  }
}
