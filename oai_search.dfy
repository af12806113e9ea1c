/**
 * `OAIClient.search`: OAI-PMH has no search verb, so the client harvests twice
 * as many records as asked for with `list_records` and keeps the ones that
 * satisfy every criterion of the query dictionary.
 */
module OaiSearch {
  import opened Wrappers
  import opened Text
  import opened Xml
  import opened Biblio
  import opened OaiDispatch
  import opened OaiHarvest

  /** `query.items()`: field name and search term, in insertion order. */
  type Query = seq<(string, string)>

  /** `term in s` for some element of `xs`, both sides lower-cased. */
  predicate AnyContains(xs: seq<string>, term: string) {
    exists i :: 0 <= i < |xs| && Contains(Lower(xs[i]), Lower(term))
  }

  /** ISBN and ISSN comparison: `re.sub(r'[^0-9X]', '', ...)` on both sides, then containment. */
  predicate NumberContains(value: string, term: string) {
    Contains(KeepDigitsX(value), KeepDigitsX(term))
  }

  /**
   * One criterion of the query. A field the record lacks (empty title, no
   * authors, no year, ...) and a field name the filter does not know never
   * reject the record.
   */
  predicate CriterionHolds(rec: Record, field: string, term: string) {
    var f := Lower(field);
    if f == "title" && rec.title != "" then Contains(Lower(rec.title), Lower(term))
    else if f == "author" && rec.authors != [] then AnyContains(rec.authors, term)
    else if f == "subject" && rec.subjects != [] then AnyContains(rec.subjects, term)
    else if f == "year" && Truthy(rec.year) then term == rec.year.value
    else if f == "isbn" && Truthy(rec.isbn) then NumberContains(rec.isbn.value, term)
    else if f == "issn" && Truthy(rec.issn) then NumberContains(rec.issn.value, term)
    else true
  }

  /** A record is kept when every criterion holds. */
  predicate Matches(rec: Record, query: Query) {
    forall i :: 0 <= i < |query| ==> CriterionHolds(rec, query[i].0, query[i].1)
  }

  /** The records that match, in their original order. */
  function Filtered(records: seq<Record>, query: Query): (r: seq<Record>)
    ensures |r| <= |records|
  {
    if records == [] then []
    else
      Filtered(records[..|records| - 1], query)
      + if Matches(records[|records| - 1], query) then [records[|records| - 1]] else []
  }

  /** `len(filtered_records) >= max_results` is checked after an append, so at least one record is kept. */
  function Limit(maxResults: int): (k: nat)
    ensures k >= 1 && k >= maxResults
  {
    if maxResults < 1 then 1 else maxResults
  }

  /** The first `k` elements, or all of them when there are fewer. */
  function Take<T>(xs: seq<T>, k: nat): (r: seq<T>)
    ensures |r| == if k < |xs| then k else |xs|
    ensures r == xs[..|r|]
  {
    if k < |xs| then xs[..k] else xs
  }

  function Min(a: int, b: int): int { if a < b then a else b }

  /** What `search` returns: its harvest of twice `max_results` records, then the cut or the filter. */
  function SearchOf(server: string -> Response, cfg: ClientConfig, parsers: map<string, Parser>, query: Query,
                    prefixArg: Option<string>, setSpec: Option<string>, from: Option<string>, until: Option<string>,
                    maxResults: int, toXml: Element -> string): (int, seq<Record>)
  {
    SearchHarvested(ListRecordsOf(server, cfg, parsers, prefixArg, setSpec, from, until, Some(maxResults * 2), toXml), query, maxResults)
  }

  /** What `search` makes of the harvested `(count, records)`. */
  function SearchHarvested(harvest: (int, seq<Record>), query: Query, maxResults: int): (int, seq<Record>) {
    var (count, records) := harvest;
    if records == [] then (0, [])
    else if query == [] then (Min(count, maxResults), PyPrefix(records, maxResults))
    else
      var kept := Take(Filtered(records, query), Limit(maxResults));
      (|kept|, kept)
  }

  // ---------------------------------------------------------------- the loops

  /** The `for author in record.authors` loop: stops at the first element holding the term. */
  method AnyElementContains(xs: seq<string>, term: string) returns (found: bool)
    ensures found == AnyContains(xs, term)
  {
    found := false;
    var i := 0;
    while i < |xs|
      invariant 0 <= i <= |xs|
      invariant forall j :: 0 <= j < i ==> !Contains(Lower(xs[j]), Lower(term))
    {
      if Contains(Lower(xs[i]), Lower(term)) {
        found := true;
        return;
      }
      i := i + 1;
    }
  }

  /** The test of one criterion in the body of the `for field, term in query.items()` loop. */
  method CheckCriterion(rec: Record, field: string, term: string) returns (ok: bool)
    ensures ok == CriterionHolds(rec, field, term)
  {
    var f := Lower(field);
    ok := true;
    if f == "title" && rec.title != "" {
      ok := Contains(Lower(rec.title), Lower(term));
    } else if f == "author" && rec.authors != [] {
      ok := AnyElementContains(rec.authors, term);
    } else if f == "subject" && rec.subjects != [] {
      ok := AnyElementContains(rec.subjects, term);
    } else if f == "year" && Truthy(rec.year) {
      ok := term == rec.year.value;
    } else if f == "isbn" && Truthy(rec.isbn) {
      ok := Contains(KeepDigitsX(rec.isbn.value), KeepDigitsX(term));
    } else if f == "issn" && Truthy(rec.issn) {
      ok := Contains(KeepDigitsX(rec.issn.value), KeepDigitsX(term));
    }
  }

  /** The criteria loop: `matches` turns false at the first failing criterion, which ends the loop. */
  method RecordMatches(rec: Record, query: Query) returns (matches: bool)
    ensures matches == Matches(rec, query)
  {
    matches := true;
    var i := 0;
    while i < |query|
      invariant 0 <= i <= |query|
      invariant forall j :: 0 <= j < i ==> CriterionHolds(rec, query[j].0, query[j].1)
    {
      var ok := CheckCriterion(rec, query[i].0, query[i].1);
      if !ok {
        matches := false;
        return;
      }
      i := i + 1;
    }
  }

  /** The record loop: append each match, stop once `max_results` are kept. */
  method FilterRecords(records: seq<Record>, query: Query, maxResults: int) returns (filtered: seq<Record>)
    ensures filtered == Take(Filtered(records, query), Limit(maxResults))
  {
    filtered := [];
    var i := 0;
    while i < |records|
      invariant 0 <= i <= |records|
      invariant filtered == Filtered(records[..i], query)
      invariant |filtered| < Limit(maxResults)
    {
      assert records[..i + 1][..i] == records[..i];
      var matches := RecordMatches(records[i], query);
      if matches {
        filtered := filtered + [records[i]];
        if |filtered| >= maxResults {
          FilteredPrefix(records, query, i + 1);
          return;
        }
      }
      i := i + 1;
    }
    assert records[..i] == records;
  }

  /** `search`. */
  method Search(server: string -> Response, cfg: ClientConfig, registry: ParserRegistry, query: Query,
                prefixArg: Option<string>, setSpec: Option<string>, from: Option<string>, until: Option<string>,
                maxResults: int, toXml: Element -> string) returns (count: int, records: seq<Record>)
    ensures (count, records) == SearchOf(server, cfg, registry.parsers, query, prefixArg, setSpec, from, until, maxResults, toXml)
  {
    var total, harvested := ListRecords(server, cfg, registry, prefixArg, setSpec, from, until, Some(maxResults * 2), toXml);
    if harvested == [] {
      return 0, [];
    }
    if query == [] {
      return Min(total, maxResults), PyPrefix(harvested, maxResults);
    }
    records := FilterRecords(harvested, query, maxResults);
    count := |records|;
  }

  // ---------------------------------------------------------------- lemmas

  /** The filtered list holds exactly the harvested records that match. */
  lemma {:induction false} FilteredMembers(records: seq<Record>, query: Query)
    ensures forall x :: x in Filtered(records, query) <==> x in records && Matches(x, query)
  {
    if records != [] {
      var init := records[..|records| - 1];
      FilteredMembers(init, query);
      assert records == init + [records[|records| - 1]];
    }
  }

  /** Filtering a prefix gives a prefix of the filtered list. */
  lemma {:induction false} FilteredPrefix(records: seq<Record>, query: Query, j: nat)
    requires j <= |records|
    ensures var p := Filtered(records[..j], query);
      |p| <= |Filtered(records, query)| && Filtered(records, query)[..|p|] == p
    decreases |records|
  {
    if j < |records| {
      var init := records[..|records| - 1];
      assert init[..j] == records[..j];
      FilteredPrefix(init, query, j);
    } else {
      assert records[..j] == records;
    }
  }

  /** Filtering distributes over concatenation: the kept records keep their relative order. */
  lemma {:induction false} FilteredConcat(a: seq<Record>, b: seq<Record>, query: Query)
    ensures Filtered(a + b, query) == Filtered(a, query) + Filtered(b, query)
    decreases |b|
  {
    if b == [] {
      assert a + b == a;
    } else {
      var init := b[..|b| - 1];
      assert (a + b)[..|a + b| - 1] == a + init;
      FilteredConcat(a, init, query);
    }
  }

  /**
   * With a non-empty query: every returned record is a harvested record that
   * matches, at most `max_results` (at least one) come back, and the count is
   * the length of the list.
   */
  lemma SearchFilters(count: int, harvested: seq<Record>, query: Query, maxResults: int)
    requires query != []
    ensures var r := SearchHarvested((count, harvested), query, maxResults);
      && r.0 == |r.1|
      && |r.1| <= Limit(maxResults)
      && r.1 == Filtered(harvested, query)[..|r.1|]
      && (forall x :: x in r.1 ==> x in harvested && Matches(x, query))
  {
    var r := SearchHarvested((count, harvested), query, maxResults);
    if harvested != [] {
      var f := Filtered(harvested, query);
      FilteredMembers(harvested, query);
      forall x | x in r.1 ensures x in harvested && Matches(x, query) {
        assert x in f;
      }
    }
  }

  /** With no query: `(0, [])` when nothing was harvested, else the first `max_results` records and `min(count, max_results)`. */
  lemma SearchWithoutQuery(count: int, harvested: seq<Record>, maxResults: int)
    requires maxResults > 0
    ensures var r := SearchHarvested((count, harvested), [], maxResults);
      && (harvested == [] ==> r == (0, []))
      && (harvested != [] ==> r.0 == Min(count, maxResults)
                              && r.1 == harvested[..Min(|harvested|, maxResults)])
  {
  }

  /** `list_records` is asked for twice `max_results`, so at most that many records are filtered. */
  lemma SearchHarvestsDouble(server: string -> Response, cfg: ClientConfig, parsers: map<string, Parser>,
                             prefixArg: Option<string>, setSpec: Option<string>, from: Option<string>, until: Option<string>,
                             maxResults: int, toXml: Element -> string)
    requires maxResults > 0
    ensures |ListRecordsOf(server, cfg, parsers, prefixArg, setSpec, from, until, Some(maxResults * 2), toXml).1| <= 2 * maxResults
  {
    ListRecordsShape(server, cfg, parsers, prefixArg, setSpec, from, until, Some(maxResults * 2), toXml);
  }

  /** A criterion on a field name the filter does not know never drops a record. */
  lemma UnknownFieldNeverDrops(rec: Record, field: string, term: string)
    requires Lower(field) !in ["title", "author", "subject", "year", "isbn", "issn"]
    ensures CriterionHolds(rec, field, term)
  {
  }

  /** A criterion on a field the record does not have never drops it. */
  lemma EmptyFieldNeverDrops(rec: Record, field: string, term: string)
    requires Lower(field) == "title" ==> rec.title == ""
    requires Lower(field) == "author" ==> rec.authors == []
    requires Lower(field) == "subject" ==> rec.subjects == []
    requires Lower(field) == "year" ==> !Truthy(rec.year)
    requires Lower(field) == "isbn" ==> !Truthy(rec.isbn)
    requires Lower(field) == "issn" ==> !Truthy(rec.issn)
    ensures CriterionHolds(rec, field, term)
  {
  }

  /**
   * Field names are compared case-insensitively; title and author criteria are
   * case-insensitive substring tests, a year criterion is exact equality.
   */
  lemma CriterionMeaning(rec: Record, field: string, term: string)
    ensures Lower(field) == "title" && rec.title != "" ==>
      (CriterionHolds(rec, field, term) <==> Contains(Lower(rec.title), Lower(term)))
    ensures Lower(field) == "author" && rec.authors != [] ==>
      (CriterionHolds(rec, field, term) <==> exists i :: 0 <= i < |rec.authors| && Contains(Lower(rec.authors[i]), Lower(term)))
    ensures Lower(field) == "year" && Truthy(rec.year) ==> (CriterionHolds(rec, field, term) <==> term == rec.year.value)
  {
  }

  /**
   * Separators do not matter to an ISBN or ISSN criterion: with or without a
   * hyphen (or any character other than a digit and `X`), the term selects the
   * same records, so "978-3-658-31084-4" and "9783658310844" are one criterion.
   */
  lemma SeparatorIgnored(rec: Record, a: string, c: char, b: string)
    requires !IsDigit(c) && c != 'X'
    ensures CriterionHolds(rec, "isbn", a + [c] + b) <==> CriterionHolds(rec, "isbn", a + b)
    ensures CriterionHolds(rec, "issn", a + [c] + b) <==> CriterionHolds(rec, "issn", a + b)
  {
    KeepDigitsXSkips(a, c, b);
    IsbnCriterion(rec, a + [c] + b);
    IsbnCriterion(rec, a + b);
    IssnCriterion(rec, a + [c] + b);
    IssnCriterion(rec, a + b);
  }

  /** The `isbn` criterion compares the digits and `X` of the term with the record's ISBN. */
  lemma IsbnCriterion(rec: Record, term: string)
    ensures CriterionHolds(rec, "isbn", term) <==> (Truthy(rec.isbn) ==> NumberContains(rec.isbn.value, term))
  {
    LowerFixed("isbn");
  }

  /** The `issn` criterion compares the digits and `X` of the term with the record's ISSN. */
  lemma IssnCriterion(rec: Record, term: string)
    ensures CriterionHolds(rec, "issn", term) <==> (Truthy(rec.issn) ==> NumberContains(rec.issn.value, term))
  {
    LowerFixed("issn");
  }

  /** The field names the filter knows are already lower case. */
  lemma LowerFixed(f: string)
    requires forall i :: 0 <= i < |f| ==> IsLower(f[i])
    ensures Lower(f) == f
  {
  }
}
