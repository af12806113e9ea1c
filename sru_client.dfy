/**
 * The SRU client's request and envelope handling: the `searchRetrieve` URL of
 * SRU 1.1/1.2, the raw records `execute_query` extracts from a response, and
 * the first-match lookup helpers `_extract_text` and `_find_elements`.
 *
 * The endpoint is a pure function from a request URL to a `Response`:
 * `Failed` stands for every way the request, the HTTP status check or the XML
 * parse can raise. `urllib.parse.quote` is the parameter `quote` and
 * `ET.tostring` the parameter `toXml`.
 */
module SruClient {
  import opened Wrappers
  import opened Text
  import opened Xml

  function Srw(local: string): QName { QName(SrwNs, local) }
  function Diag(local: string): QName { QName(DiagNs, local) }

  datatype Response = Failed | Received(root: Element)

  // ---------------------------------------------------------------- dictionaries

  /** A Python `dict[str, str]` as its items in insertion order. */
  type Dict = seq<(string, string)>

  predicate HasKey(d: Dict, k: string) {
    exists i :: 0 <= i < |d| && d[i].0 == k
  }

  predicate DistinctKeys(d: Dict) {
    forall i, j :: 0 <= i < j < |d| ==> d[i].0 != d[j].0
  }

  /** `d.get(k)`. */
  function Lookup(d: Dict, k: string): (r: Option<string>)
    ensures r.Some? <==> HasKey(d, k)
  {
    if d == [] then None
    else if d[0].0 == k then Some(d[0].1)
    else
      var r := Lookup(d[1..], k);
      assert forall i :: 1 <= i < |d| ==> d[i] == d[1..][i - 1];
      assert HasKey(d[1..], k) ==> HasKey(d, k);
      r
  }

  /** `d[k] = v`: an existing key keeps its place and takes the new value; a new key goes last. */
  function DictSet(d: Dict, k: string, v: string): (r: Dict)
    ensures |r| == if HasKey(d, k) then |d| else |d| + 1
    ensures forall i :: 0 <= i < |d| ==> r[i].0 == d[i].0
    ensures !HasKey(d, k) ==> r[|d|] == (k, v)
  {
    if d == [] then [(k, v)]
    else if d[0].0 == k then [(k, v)] + d[1..]
    else
      var rest := DictSet(d[1..], k, v);
      assert HasKey(d, k) <==> HasKey(d[1..], k) by {
        if HasKey(d, k) {
          var i :| 0 <= i < |d| && d[i].0 == k;
          assert i > 0 && d[1..][i - 1].0 == k;
        }
        if HasKey(d[1..], k) {
          var i :| 0 <= i < |d[1..]| && d[1..][i].0 == k;
          assert d[i + 1].0 == k;
        }
      }
      [d[0]] + rest
  }

  /** Setting a key adds that key and no other. */
  lemma DictSetKeys(d: Dict, k: string, v: string)
    ensures forall j :: HasKey(DictSet(d, k, v), j) <==> HasKey(d, j) || j == k
  {
    var r := DictSet(d, k, v);
    forall j ensures HasKey(r, j) <==> HasKey(d, j) || j == k {
      if HasKey(r, j) {
        var i :| 0 <= i < |r| && r[i].0 == j;
        if i < |d| {
          assert d[i].0 == j;
        }
      }
      if HasKey(d, j) {
        var i :| 0 <= i < |d| && d[i].0 == j;
        assert r[i].0 == j;
      }
      if j == k && HasKey(d, k) {
        var i :| 0 <= i < |d| && d[i].0 == k;
        assert r[i].0 == j;
      }
      if j == k && !HasKey(d, k) {
        assert r[|d|].0 == j;
      }
    }
  }

  /** `d.update(e)`: `e`'s items set one after the other. */
  function DictUpdate(d: Dict, e: Dict): Dict
    decreases |e|
  {
    if e == [] then d else DictUpdate(DictSet(d, e[0].0, e[0].1), e[1..])
  }

  /** Setting a key changes the value under that key only. */
  lemma {:induction false} DictSetLookup(d: Dict, k: string, v: string, j: string)
    ensures Lookup(DictSet(d, k, v), j) == if j == k then Some(v) else Lookup(d, j)
  {
    if d != [] && d[0].0 != k {
      DictSetLookup(d[1..], k, v, j);
      assert DictSet(d, k, v)[1..] == DictSet(d[1..], k, v);
    }
  }

  /** After an update the keys already present keep their places, ahead of the new ones. */
  lemma {:induction false} DictUpdateKeeps(d: Dict, e: Dict)
    ensures var r := DictUpdate(d, e);
      |d| <= |r| && (forall i :: 0 <= i < |d| ==> r[i].0 == d[i].0)
      && (forall j :: HasKey(r, j) <==> HasKey(d, j) || HasKey(e, j))
    decreases |e|
  {
    if e != [] {
      var d1 := DictSet(d, e[0].0, e[0].1);
      DictSetKeys(d, e[0].0, e[0].1);
      DictUpdateKeeps(d1, e[1..]);
      forall j ensures HasKey(e, j) <==> j == e[0].0 || HasKey(e[1..], j) {
        if HasKey(e, j) && j != e[0].0 {
          var i :| 0 <= i < |e| && e[i].0 == j;
          assert e[1..][i - 1].0 == j;
        }
        if HasKey(e[1..], j) {
          var i :| 0 <= i < |e[1..]| && e[1..][i].0 == j;
          assert e[i + 1].0 == j;
        }
      }
    }
  }

  /** After an update, a key of `e` maps to `e`'s value and every other key to its old value. */
  lemma {:induction false} DictUpdateLookup(d: Dict, e: Dict, j: string)
    requires DistinctKeys(e)
    ensures Lookup(DictUpdate(d, e), j) == if HasKey(e, j) then Lookup(e, j) else Lookup(d, j)
    decreases |e|
  {
    if e != [] {
      var d1 := DictSet(d, e[0].0, e[0].1);
      DictSetLookup(d, e[0].0, e[0].1, j);
      assert DistinctKeys(e[1..]);
      DictUpdateLookup(d1, e[1..], j);
      if j == e[0].0 {
        forall i | 0 <= i < |e[1..]| ensures e[1..][i].0 != j {
          assert e[1..][i] == e[i + 1];
        }
      } else {
        assert HasKey(e, j) <==> HasKey(e[1..], j) by {
          if HasKey(e, j) {
            var i :| 0 <= i < |e| && e[i].0 == j;
            assert e[1..][i - 1].0 == j;
          }
          if HasKey(e[1..], j) {
            var i :| 0 <= i < |e[1..]| && e[1..][i].0 == j;
            assert e[i + 1].0 == j;
          }
        }
      }
    }
  }

  // ---------------------------------------------------------------- build_query_url

  /** The client's settings used by `build_query_url`. */
  datatype SruConfig = SruConfig(baseUrl: string, version: string, defaultSchema: Option<string>, queryParams: Dict)

  /** `schema or self.default_schema`. */
  function EffectiveSchema(arg: Option<string>, dflt: Option<string>): Option<string> {
    if Truthy(arg) then arg else dflt
  }

  /** The fixed parameters, with `recordSchema` when a schema is given. */
  function BaseParams(version: string, query: string, maxRecords: int, startRecord: int, schema: Option<string>): (r: Dict)
    ensures |r| == if Truthy(schema) then 6 else 5
    ensures HasKey(r, "recordSchema") <==> Truthy(schema)
  {
    var fixed := [("version", version), ("operation", "searchRetrieve"), ("query", query),
                  ("maximumRecords", IntToString(maxRecords)), ("startRecord", IntToString(startRecord))];
    var r := fixed + if Truthy(schema) then [("recordSchema", schema.value)] else [];
    assert !HasKey(fixed, "recordSchema") by {
      assert forall i :: 0 <= i < 5 ==> fixed[i].0 != "recordSchema";
    }
    assert Truthy(schema) ==> r[5].0 == "recordSchema";
    r
  }

  /** The parameters after `params.update(self.query_params)`. */
  function SearchParams(cfg: SruConfig, query: string, schemaArg: Option<string>, maxRecords: int, startRecord: int): Dict {
    DictUpdate(BaseParams(cfg.version, query, maxRecords, startRecord, EffectiveSchema(schemaArg, cfg.defaultSchema)), cfg.queryParams)
  }

  /** `[f"{k}={quote(str(v))}" for k, v in params.items()]`. */
  function EncodedItems(params: Dict, quote: string -> string): (r: seq<string>)
    ensures |r| == |params|
    ensures forall i :: 0 <= i < |r| ==> r[i] == params[i].0 + "=" + quote(params[i].1)
  {
    if params == [] then []
    else EncodedItems(params[..|params| - 1], quote) + [params[|params| - 1].0 + "=" + quote(params[|params| - 1].1)]
  }

  /**
   * `build_query_url`: the base URL, then `&` when it already has a query
   * part and `?` otherwise, then the encoded parameters joined by `&`.  The
   * URL always has a query part.
   */
  function BuildQueryUrl(cfg: SruConfig, quote: string -> string, query: string, schemaArg: Option<string>,
                         maxRecords: int, startRecord: int): (url: string)
    ensures StartsWith(url, cfg.baseUrl) && |url| > |cfg.baseUrl|
    ensures url[|cfg.baseUrl|] == if Contains(cfg.baseUrl, "?") then '&' else '?'
    ensures url[|cfg.baseUrl| + 1..] == Join("&", EncodedItems(SearchParams(cfg, query, schemaArg, maxRecords, startRecord), quote))
    ensures Contains(url, "?")
  {
    var paramString := Join("&", EncodedItems(SearchParams(cfg, query, schemaArg, maxRecords, startRecord), quote));
    var sep := if Contains(cfg.baseUrl, "?") then "&" else "?";
    UrlShape(cfg.baseUrl, sep, paramString);
    cfg.baseUrl + sep + paramString
  }

  lemma UrlShape(base: string, sep: string, params: string)
    requires sep == if Contains(base, "?") then "&" else "?"
    ensures var url := base + sep + params;
      && StartsWith(url, base) && |url| > |base| && url[|base|] == sep[0] && url[|base| + 1..] == params
      && Contains(url, "?")
  {
    var url := base + sep + params;
    assert url[..|base|] == base && url[|base|] == sep[0] && url[|base| + 1..] == params;
    if Contains(base, "?") {
      PrefixContains(base, sep + params, "?");
      assert base + (sep + params) == url;
    } else {
      assert url[|base|..|base| + 1] == "?";
      ContainsAt(url, "?", |base|);
    }
  }

  /** What a string contains, it still contains with more text after it. */
  lemma PrefixContains(a: string, b: string, pat: string)
    requires Contains(a, pat)
    ensures Contains(a + b, pat)
  {
    var k := Find(a, pat).value;
    assert (a + b)[k..k + |pat|] == a[k..k + |pat|];
    ContainsAt(a + b, pat, k);
  }

  /**
   * The parameters start with `version`, `operation`, `query`,
   * `maximumRecords` and `startRecord`, in that order, and `recordSchema` is
   * present exactly when a schema is given or `query_params` sets one.
   */
  lemma SearchParamsKeys(cfg: SruConfig, query: string, schemaArg: Option<string>, maxRecords: int, startRecord: int)
    ensures var p := SearchParams(cfg, query, schemaArg, maxRecords, startRecord);
      && |p| >= 5
      && p[0].0 == "version" && p[1].0 == "operation" && p[2].0 == "query"
      && p[3].0 == "maximumRecords" && p[4].0 == "startRecord"
      && (HasKey(p, "recordSchema") <==> Truthy(EffectiveSchema(schemaArg, cfg.defaultSchema)) || HasKey(cfg.queryParams, "recordSchema"))
  {
    var b := BaseParams(cfg.version, query, maxRecords, startRecord, EffectiveSchema(schemaArg, cfg.defaultSchema));
    DictUpdateKeeps(b, cfg.queryParams);
  }

  /** A key of `query_params` takes its value from there; every other key keeps its fixed value. */
  lemma SearchParamsValues(cfg: SruConfig, query: string, schemaArg: Option<string>, maxRecords: int, startRecord: int, k: string)
    requires DistinctKeys(cfg.queryParams)
    ensures Lookup(SearchParams(cfg, query, schemaArg, maxRecords, startRecord), k)
         == if HasKey(cfg.queryParams, k) then Lookup(cfg.queryParams, k)
            else Lookup(BaseParams(cfg.version, query, maxRecords, startRecord, EffectiveSchema(schemaArg, cfg.defaultSchema)), k)
  {
    var b := BaseParams(cfg.version, query, maxRecords, startRecord, EffectiveSchema(schemaArg, cfg.defaultSchema));
    DictUpdateLookup(b, cfg.queryParams, k);
  }

  // ---------------------------------------------------------------- execute_query

  /** One entry of the list `execute_query` returns: `id`, `schema`, `data` and `raw_xml`. */
  datatype RawRecord = RawRecord(id: string, schema: Option<string>, data: Element, rawXml: string)

  /** The raw record for one `srw:record`, `kept` records having been kept before it; none without `srw:recordData`. */
  function RawRecordOf(e: Element, kept: nat, toXml: Element -> string): (r: Option<RawRecord>)
    ensures r.Some? <==> FirstDesc(e, Srw("recordData")).Some?
    ensures r.Some? ==> r.value.id != "" && r.value.rawXml == toXml(r.value.data)
  {
    match FirstDesc(e, Srw("recordData"))
    case None => None
    case Some(data) =>
      var ident := TextOf(FirstDesc(e, Srw("recordIdentifier")));
      var position := TextOf(FirstDesc(e, Srw("recordPosition")));
      var id := if Truthy(ident) then ident.value
                else if Truthy(position) then position.value
                else "record-" + IntToString(kept + 1);
      Some(RawRecord(id, TextOf(FirstDesc(e, Srw("recordSchema"))), data, toXml(data)))
  }

  /** The raw records of a list of `srw:record` elements, in order. */
  function RawRecords(els: seq<Element>, toXml: Element -> string): (r: seq<RawRecord>)
    ensures |r| <= |els|
  {
    if els == [] then []
    else
      var prev := RawRecords(els[..|els| - 1], toXml);
      prev + RawRecordOf(els[|els| - 1], |prev|, toXml).ToSeq()
  }

  /** The record has neither a truthy `recordIdentifier` nor a truthy `recordPosition`. */
  predicate Anonymous(e: Element) {
    !Truthy(TextOf(FirstDesc(e, Srw("recordIdentifier")))) && !Truthy(TextOf(FirstDesc(e, Srw("recordPosition"))))
  }

  /** The number of elements that carry `srw:recordData`. */
  function WithData(els: seq<Element>): nat {
    if els == [] then 0
    else WithData(els[..|els| - 1]) + if FirstDesc(els[|els| - 1], Srw("recordData")).Some? then 1 else 0
  }

  /** Exactly the elements with `srw:recordData` give a raw record, and every id is non-empty. */
  lemma {:induction false} RawRecordsKept(els: seq<Element>, toXml: Element -> string)
    ensures |RawRecords(els, toXml)| == WithData(els)
    ensures forall k :: 0 <= k < |RawRecords(els, toXml)| ==> RawRecords(els, toXml)[k].id != ""
  {
    if els != [] {
      RawRecordsKept(els[..|els| - 1], toXml);
    }
  }

  /** Without identifiers or positions, the ids are `record-1`, `record-2`, ... in order. */
  lemma {:induction false} RawRecordsNumbered(els: seq<Element>, toXml: Element -> string)
    requires forall i :: 0 <= i < |els| ==> Anonymous(els[i])
    ensures forall k :: 0 <= k < |RawRecords(els, toXml)| ==> RawRecords(els, toXml)[k].id == "record-" + IntToString(k + 1)
  {
    if els != [] {
      RawRecordsNumbered(els[..|els| - 1], toXml);
    }
  }

  /** The body of the record loop of `execute_query` for one element. */
  method RecordFromElement(recordElem: Element, kept: nat, toXml: Element -> string) returns (r: Option<RawRecord>)
    ensures r == RawRecordOf(recordElem, kept, toXml)
  {
    var schemaElem := FirstDesc(recordElem, Srw("recordSchema"));
    var recordSchema := if schemaElem.Some? then schemaElem.value.text else None;
    var recordDataElem := FirstDesc(recordElem, Srw("recordData"));
    if recordDataElem.None? {
      return None;
    }
    var recordXml := toXml(recordDataElem.value);
    var recordIdElem := FirstDesc(recordElem, Srw("recordIdentifier"));
    var recordId := if recordIdElem.Some? then recordIdElem.value.text else None;
    var positionElem := FirstDesc(recordElem, Srw("recordPosition"));
    var position := if positionElem.Some? then positionElem.value.text else None;
    var id := if Truthy(recordId) then recordId.value
              else if Truthy(position) then position.value
              else "record-" + IntToString(kept + 1);
    r := Some(RawRecord(id, recordSchema, recordDataElem.value, recordXml));
  }

  /** The record loop of `execute_query`. */
  method ExtractRecords(els: seq<Element>, toXml: Element -> string) returns (records: seq<RawRecord>)
    ensures records == RawRecords(els, toXml)
  {
    records := [];
    var i := 0;
    while i < |els|
      invariant 0 <= i <= |els|
      invariant records == RawRecords(els[..i], toXml)
    {
      assert els[..i + 1][..i] == els[..i];
      var record := RecordFromElement(els[i], |records|, toXml);
      if record.Some? {
        records := records + [record.value];
      }
      i := i + 1;
    }
    assert els[..i] == els;
  }

  /** The `sd:details` text of a diagnostic reports an unknown schema, in the French server's words. */
  predicate SchemaUnknown(diag: Element) {
    var details := FirstChild(diag, Diag("details"));
    details.Some? && Truthy(details.value.text) && Contains(details.value.text.value, "Schéma inconnu")
  }

  /** Some diagnostic of the list reports an unknown schema. */
  predicate AnySchemaUnknown(diags: seq<Element>) {
    diags != [] && (AnySchemaUnknown(diags[..|diags| - 1]) || SchemaUnknown(diags[|diags| - 1]))
  }

  /** A diagnostic found in a prefix of the list is found in the list. */
  lemma {:induction false} AnySchemaUnknownPrefix(diags: seq<Element>, i: nat)
    requires i <= |diags| && AnySchemaUnknown(diags[..i])
    ensures AnySchemaUnknown(diags)
    decreases |diags|
  {
    if i < |diags| {
      assert diags[..|diags| - 1][..i] == diags[..i];
      AnySchemaUnknownPrefix(diags[..|diags| - 1], i);
    } else {
      assert diags[..i] == diags;
    }
  }

  const MarcxchangeArg := "recordSchema=marcxchange"
  const DublincoreArg := "recordSchema=dublincore"

  /**
   * The document `execute_query` goes on with: the answer to the URL with
   * `recordSchema=dublincore` when a diagnostic reports an unknown schema and
   * the URL asked for `marcxchange`, else the first answer.
   */
  function AfterRetry(server: string -> Response, url: string, root: Element): Response {
    if AnySchemaUnknown(Select(root, [Desc(Diag("diagnostic"))])) && Contains(url, MarcxchangeArg)
    then server(Replace(url, MarcxchangeArg, DublincoreArg))
    else Received(root)
  }

  /** The diagnostics loop: every diagnostic reporting an unknown schema repeats the corrected request. */
  method RetryOnUnknownSchema(server: string -> Response, url: string, root: Element) returns (r: Response)
    ensures r == AfterRetry(server, url, root)
  {
    var diags := Select(root, [Desc(Diag("diagnostic"))]);
    var corrected := Replace(url, MarcxchangeArg, DublincoreArg);
    r := Received(root);
    ghost var retried := false;
    var i := 0;
    while i < |diags|
      invariant 0 <= i <= |diags|
      invariant retried == (AnySchemaUnknown(diags[..i]) && Contains(url, MarcxchangeArg))
      invariant r == if retried then server(corrected) else Received(root)
    {
      assert diags[..i + 1][..i] == diags[..i];
      if SchemaUnknown(diags[i]) && Contains(url, MarcxchangeArg) {
        r := server(corrected);
        retried := true;
        if r.Failed? {
          AnySchemaUnknownPrefix(diags, i + 1);
          return;
        }
      }
      i := i + 1;
    }
    assert diags[..i] == diags;
  }

  /** `int(root.find('.//srw:numberOfRecords').text)`, or `None` where that raises or the element is missing. */
  function RecordCount(root: Element): Option<int> {
    var el := FirstDesc(root, Srw("numberOfRecords"));
    if el.None? || el.value.text.None? then None else ParseInt(el.value.text.value)
  }

  /** What `execute_query` returns. */
  function ExecuteQueryOf(server: string -> Response, cfg: SruConfig, quote: string -> string, toXml: Element -> string,
                          query: string, schemaArg: Option<string>, maxRecords: int, startRecord: int): (int, seq<RawRecord>)
  {
    var url := BuildQueryUrl(cfg, quote, query, schemaArg, maxRecords, startRecord);
    match server(url)
    case Failed => (0, [])
    case Received(first) =>
      match AfterRetry(server, url, first)
      case Failed => (0, [])
      case Received(root) =>
        match RecordCount(root)
        case None => (0, [])
        case Some(n) =>
          if n == 0 then (0, []) else (n, RawRecords(Select(root, [Desc(Srw("record"))]), toXml))
  }

  /** Without a parsable, non-zero `numberOfRecords` the answer is `(0, [])`; otherwise the count is passed on. */
  lemma ExecuteQueryCount(server: string -> Response, cfg: SruConfig, quote: string -> string, toXml: Element -> string,
                          query: string, schemaArg: Option<string>, maxRecords: int, startRecord: int, root: Element)
    requires var url := BuildQueryUrl(cfg, quote, query, schemaArg, maxRecords, startRecord);
      server(url).Received? && AfterRetry(server, url, server(url).root) == Received(root)
    ensures var r := ExecuteQueryOf(server, cfg, quote, toXml, query, schemaArg, maxRecords, startRecord);
      && (RecordCount(root).None? || RecordCount(root) == Some(0) ==> r == (0, []))
      && (RecordCount(root).Some? && RecordCount(root) != Some(0) ==>
            r.0 == RecordCount(root).value && |r.1| == WithData(Select(root, [Desc(Srw("record"))])))
  {
    RawRecordsKept(Select(root, [Desc(Srw("record"))]), toXml);
  }

  /** `execute_query`. */
  method ExecuteQuery(server: string -> Response, cfg: SruConfig, quote: string -> string, toXml: Element -> string,
                      query: string, schemaArg: Option<string>, maxRecords: int, startRecord: int)
    returns (total: int, records: seq<RawRecord>)
    ensures (total, records) == ExecuteQueryOf(server, cfg, quote, toXml, query, schemaArg, maxRecords, startRecord)
  {
    var url := BuildQueryUrl(cfg, quote, query, schemaArg, maxRecords, startRecord);
    var response := server(url);
    if response.Failed? {
      return 0, [];
    }
    response := RetryOnUnknownSchema(server, url, response.root);
    if response.Failed? {
      return 0, [];
    }
    var numRecordsElem := FirstDesc(response.root, Srw("numberOfRecords"));
    if numRecordsElem.None? || numRecordsElem.value.text.None? {
      return 0, [];
    }
    var numRecords := ParseInt(numRecordsElem.value.text.value);
    if numRecords.None? || numRecords.value == 0 {
      return 0, [];
    }
    total := numRecords.value;
    records := ExtractRecords(Select(response.root, [Desc(Srw("record"))]), toXml);
  }

  // ---------------------------------------------------------------- first-match helpers

  /** The first match of the path has non-blank text. */
  predicate Hit(e: Element, path: seq<Step>) {
    var f := FindPath(e, path);
    f.Some? && NonBlank(f.value)
  }

  /** What `_extract_text` returns. */
  function ExtractText(e: Element, paths: seq<seq<Step>>): Option<string> {
    if paths == [] then None
    else if Hit(e, paths[0]) then Some(Strip(FindPath(e, paths[0]).value.text.value))
    else ExtractText(e, paths[1..])
  }

  /** What `_find_elements` returns. */
  function FindElements(e: Element, paths: seq<seq<Step>>): seq<Element> {
    if paths == [] then []
    else if Select(e, paths[0]) != [] then Select(e, paths[0])
    else FindElements(e, paths[1..])
  }

  /** `_extract_text` gives the stripped text of the first path that hits, and `None` when none does. */
  lemma {:induction false} ExtractTextFirst(e: Element, paths: seq<seq<Step>>)
    ensures ExtractText(e, paths).None? <==> forall i :: 0 <= i < |paths| ==> !Hit(e, paths[i])
    ensures ExtractText(e, paths).Some? ==>
      exists i :: 0 <= i < |paths| && Hit(e, paths[i]) && (forall j :: 0 <= j < i ==> !Hit(e, paths[j]))
        && ExtractText(e, paths).value == Strip(FindPath(e, paths[i]).value.text.value)
  {
    if paths != [] && !Hit(e, paths[0]) {
      ExtractTextFirst(e, paths[1..]);
      assert forall i :: 1 <= i < |paths| ==> paths[i] == paths[1..][i - 1];
      if ExtractText(e, paths).Some? {
        var i :| 0 <= i < |paths[1..]| && Hit(e, paths[1..][i]) && (forall j :: 0 <= j < i ==> !Hit(e, paths[1..][j]))
          && ExtractText(e, paths[1..]).value == Strip(FindPath(e, paths[1..][i]).value.text.value);
        assert forall j :: 0 <= j < i + 1 ==> !Hit(e, paths[j]);
      }
    }
  }

  /** `_find_elements` gives the matches of the first path that has any, and `[]` when none has. */
  lemma {:induction false} FindElementsFirst(e: Element, paths: seq<seq<Step>>)
    ensures FindElements(e, paths) == [] <==> forall i :: 0 <= i < |paths| ==> Select(e, paths[i]) == []
    ensures FindElements(e, paths) != [] ==>
      exists i :: 0 <= i < |paths| && FindElements(e, paths) == Select(e, paths[i])
        && forall j :: 0 <= j < i ==> Select(e, paths[j]) == []
  {
    if paths != [] && Select(e, paths[0]) == [] {
      FindElementsFirst(e, paths[1..]);
      assert forall i :: 1 <= i < |paths| ==> paths[i] == paths[1..][i - 1];
      if FindElements(e, paths) != [] {
        var i :| 0 <= i < |paths[1..]| && FindElements(e, paths[1..]) == Select(e, paths[1..][i])
          && forall j :: 0 <= j < i ==> Select(e, paths[1..][j]) == [];
        assert forall j :: 0 <= j < i + 1 ==> Select(e, paths[j]) == [];
      }
    }
  }

  /** `_extract_text`: try each path in turn, return at the first hit. */
  method ExtractTextLoop(e: Element, paths: seq<seq<Step>>) returns (r: Option<string>)
    ensures r == ExtractText(e, paths)
  {
    var i := 0;
    while i < |paths|
      invariant 0 <= i <= |paths|
      invariant ExtractText(e, paths[i..]) == ExtractText(e, paths)
    {
      assert paths[i..][1..] == paths[i + 1..];
      var result := FindPath(e, paths[i]);
      if result.Some? && result.value.text.Some? && Strip(result.value.text.value) != "" {
        return Some(Strip(result.value.text.value));
      }
      i := i + 1;
    }
    return None;
  }

  /** `_find_elements`: try each path in turn, return the first non-empty list. */
  method FindElementsLoop(e: Element, paths: seq<seq<Step>>) returns (r: seq<Element>)
    ensures r == FindElements(e, paths)
  {
    var i := 0;
    while i < |paths|
      invariant 0 <= i <= |paths|
      invariant FindElements(e, paths[i..]) == FindElements(e, paths)
    {
      assert paths[i..][1..] == paths[i + 1..];
      var results := Select(e, paths[i]);
      if results != [] {
        return results;
      }
      i := i + 1;
    }
    return [];
  }
}
