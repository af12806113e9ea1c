/**
 * `parse_dublin_core`, the parser the OAI-PMH client registers for the
 * `oai_dc` and `dc` metadata prefixes (unqualified Dublin Core, one level of
 * `dc:` children under the metadata root).
 */
module OaiDublinCore {
  import opened Wrappers
  import opened Text
  import opened Xml
  import opened Biblio
  import opened OaiRecords

  // ---------------------------------------------------------------- dates

  /** The two values the `dc:date` loop keeps: the first year found and the first date. */
  datatype DateScan = DateScan(year: Option<string>, created: Option<string>)

  /** One turn of the `dc:date` loop. */
  function DateStep(st: DateScan, e: Element): DateScan {
    if NonBlank(e) then
      var t := Strip(e.text.value);
      var y := FindYear(t);
      DateScan(if y.Some? && !Truthy(st.year) then y else st.year,
               if !Truthy(st.created) then Some(t) else st.created)
    else st
  }

  /** The state after the loop has seen `els`. */
  function DatesScan(els: seq<Element>): (r: DateScan)
    ensures r.year.Some? ==> |r.year.value| == 4
    ensures r.created.Some? ==> r.created.value != ""
  {
    if els == [] then DateScan(None, None) else DateStep(DatesScan(els[..|els| - 1]), els[|els| - 1])
  }

  /** The year of the first date, in document order, that has one. */
  function FirstYear(els: seq<Element>): Option<string> {
    if els == [] then None
    else if NonBlank(els[0]) && FindYear(Strip(els[0].text.value)).Some? then FindYear(Strip(els[0].text.value))
    else FirstYear(els[1..])
  }

  /** The stripped text of the first element that has non-blank text. */
  function FirstNonBlank(els: seq<Element>): (r: Option<string>)
    ensures r.Some? <==> exists i :: 0 <= i < |els| && NonBlank(els[i])
  {
    if els == [] then None
    else if NonBlank(els[0]) then Some(Strip(els[0].text.value))
    else
      var r := FirstNonBlank(els[1..]);
      assert forall i :: 0 < i < |els| ==> els[i] == els[1..][i - 1];
      r
  }

  lemma {:induction false} FirstYearSnoc(init: seq<Element>, e: Element)
    ensures FirstYear(init + [e]) ==
      if FirstYear(init).Some? then FirstYear(init)
      else if NonBlank(e) && FindYear(Strip(e.text.value)).Some? then FindYear(Strip(e.text.value))
      else None
  {
    if init == [] {
      assert [e][1..] == [];
    } else {
      assert (init + [e])[0] == init[0] && (init + [e])[1..] == init[1..] + [e];
      FirstYearSnoc(init[1..], e);
    }
  }

  lemma {:induction false} FirstNonBlankSnoc(init: seq<Element>, e: Element)
    ensures FirstNonBlank(init + [e]) ==
      if FirstNonBlank(init).Some? then FirstNonBlank(init)
      else if NonBlank(e) then Some(Strip(e.text.value))
      else None
  {
    if init == [] {
      assert [e][1..] == [];
    } else {
      assert (init + [e])[0] == init[0] && (init + [e])[1..] == init[1..] + [e];
      FirstNonBlankSnoc(init[1..], e);
    }
  }

  /** The date loop keeps the first year found across all dates and the first non-blank date. */
  lemma {:induction false} DatesScanFirst(els: seq<Element>)
    ensures DatesScan(els).year == FirstYear(els)
    ensures DatesScan(els).created == FirstNonBlank(els)
  {
    if els != [] {
      var init := els[..|els| - 1];
      var e := els[|els| - 1];
      assert els == init + [e];
      DatesScanFirst(init);
      FirstYearSnoc(init, e);
      FirstNonBlankSnoc(init, e);
    }
  }

  // ---------------------------------------------------------------- identifiers

  /** What the `dc:identifier` loop keeps. */
  datatype IdScan = IdScan(identifier: Option<string>, urls: seq<string>, isbn: Option<string>, issn: Option<string>)

  /** Every URL kept starts with "http", the primary identifier is not empty, and an ISBN is a digit run. */
  predicate IdScanValid(st: IdScan) {
    && (forall i :: 0 <= i < |st.urls| ==> StartsWith(st.urls[i], "http"))
    && (st.identifier.Some? ==> st.identifier.value != "")
    && (st.isbn.Some? ==> |st.isbn.value| >= 2 && IsDigit(st.isbn.value[0])
                          && forall i :: 0 <= i < |st.isbn.value| ==> IsbnChar(st.isbn.value[i], true))
  }

  /** One turn of the `dc:identifier` loop: URLs, then ISBN, then ISSN; the first identifier is remembered. */
  function IdStep(st: IdScan, e: Element): (r: IdScan)
    ensures IdScanValid(st) ==> IdScanValid(r)
    ensures |r.urls| <= |st.urls| + 1
  {
    if NonBlank(e) then
      var t := Strip(e.text.value);
      var st1 := if !Truthy(st.identifier) then st.(identifier := Some(t)) else st;
      if StartsWith(t, "http") then st1.(urls := st1.urls + [t])
      else if Contains(Lower(t), "isbn") then
        (if IsbnRun(t, true).Some? then st1.(isbn := IsbnRun(t, true)) else st1)
      else if Contains(Lower(t), "issn") then
        (if IsbnRun(t, true).Some? then st1.(issn := IsbnRun(t, true)) else st1)
      else st1
    else st
  }

  function IdsScan(els: seq<Element>): (r: IdScan)
    ensures IdScanValid(r)
    ensures |r.urls| <= |els|
  {
    if els == [] then IdScan(None, [], None, None) else IdStep(IdsScan(els[..|els| - 1]), els[|els| - 1])
  }

  lemma IdStepIdentifier(st: IdScan, e: Element)
    ensures IdStep(st, e).identifier ==
      if NonBlank(e) && !Truthy(st.identifier) then Some(Strip(e.text.value)) else st.identifier
  {
  }

  /** The primary identifier is the first non-blank `dc:identifier`. */
  lemma {:induction false} IdsScanIdentifier(els: seq<Element>)
    ensures IdsScan(els).identifier == FirstNonBlank(els)
  {
    if els != [] {
      var init := els[..|els| - 1];
      var e := els[|els| - 1];
      assert els == init + [e];
      IdsScanIdentifier(init);
      FirstNonBlankSnoc(init, e);
      IdStepIdentifier(IdsScan(init), e);
    }
  }

  // ---------------------------------------------------------------- source

  /** `re.search(r'^([^:]+):', t).group(1).strip()`: the stripped text before the first colon, if it is not empty. */
  function SourcePlace(t: string): (r: Option<string>)
    ensures r.Some? <==> t != "" && t[0] != ':' && Contains(t, ":")
    ensures r.Some? ==> r.value == Strip(SplitOnce(t, ":").value.0)
  {
    match SplitOnce(t, ":")
    case None => None
    case Some((b, a)) =>
      if b == "" then None
      else
        assert t[0] == b[0];
        Some(Strip(b))
  }

  // ---------------------------------------------------------------- the parser

  function DcChildren(m: Element, local: string): seq<Element> {
    ChildrenNamed(m, Dc(local))
  }

  /** `x.text.strip() if x is not None and x.text else None` for the first `./dc:<local>`. */
  function DcText(m: Element, local: string): Option<string> {
    StrippedText(FirstChild(m, Dc(local)))
  }

  /** The record `parse_dublin_core` returns for a harvested record. */
  function DublinCore(h: Harvested): (r: Record)
    ensures r.id == h.identifier && r.rawData == h.raw
    ensures h.metadataRoot.None? ==> r == Unparseable(h)
    ensures h.metadataRoot.Some? ==>
      var m := h.metadataRoot.value;
      && (!HasText(FirstChild(m, Dc("title"))) ==> r.title == "Untitled")
      && (HasText(FirstChild(m, Dc("title"))) ==> r.title == Strip(FirstChild(m, Dc("title")).value.text.value))
      && r.authors == NonBlankTexts(DcChildren(m, "creator")) + NonBlankTexts(DcChildren(m, "contributor"))
      && r.year == FirstYear(DcChildren(m, "date"))
      && r.dateCreated == FirstNonBlank(DcChildren(m, "date"))
      && r.identifier == FirstNonBlank(DcChildren(m, "identifier"))
      && (forall i :: 0 <= i < |r.urls| ==> StartsWith(r.urls[i], "http"))
      && (r.placeOfPublication.Some? ==> HasText(FirstChild(m, Dc("source"))))
  {
    if h.metadataRoot.None? then Unparseable(h)
    else
      var m := h.metadataRoot.value;
      var dates := DatesScan(DcChildren(m, "date"));
      var ids := IdsScan(DcChildren(m, "identifier"));
      var source := FirstChild(m, Dc("source"));
      DatesScanFirst(DcChildren(m, "date"));
      IdsScanIdentifier(DcChildren(m, "identifier"));
      Minimal(h.identifier, DcText(m, "title").GetOr("Untitled"), h.raw).(
        authors := NonBlankTexts(DcChildren(m, "creator")) + NonBlankTexts(DcChildren(m, "contributor")),
        year := dates.year,
        publisherName := DcText(m, "publisher"),
        placeOfPublication := if HasText(source) then SourcePlace(Strip(source.value.text.value)) else None,
        isbn := ids.isbn,
        issn := ids.issn,
        urls := ids.urls,
        abstractText := DcText(m, "description"),
        language := DcText(m, "language"),
        format := DcText(m, "format"),
        subjects := NonBlankTexts(DcChildren(m, "subject")),
        dateCreated := dates.created,
        dateModified := StrippedText(FirstChild(m, Dcterms("modified"))),
        identifier := ids.identifier)
  }

  /** The `dc:date` loop of `parse_dublin_core`. */
  method ScanDates(dates: seq<Element>) returns (r: DateScan)
    ensures r == DatesScan(dates)
  {
    var year: Option<string> := None;
    var dateCreated: Option<string> := None;
    var i := 0;
    while i < |dates|
      invariant 0 <= i <= |dates|
      invariant DatesScan(dates[..i]) == DateScan(year, dateCreated)
    {
      assert dates[..i + 1][..i] == dates[..i];
      if NonBlank(dates[i]) {
        var dateText := Strip(dates[i].text.value);
        var yearMatch := FindYear(dateText);
        if yearMatch.Some? && !Truthy(year) {
          year := yearMatch;
        }
        if !Truthy(dateCreated) {
          dateCreated := Some(dateText);
        }
      }
      i := i + 1;
    }
    assert dates[..i] == dates;

    r := DateScan(year, dateCreated);
  }

  /** The `dc:identifier` loop of `parse_dublin_core`. */
  method ScanIdentifiers(idElems: seq<Element>) returns (r: IdScan)
    ensures r == IdsScan(idElems)
  {
    var isbn: Option<string> := None;
    var issn: Option<string> := None;
    var urls: seq<string> := [];
    var identifier: Option<string> := None;
    var i := 0;
    while i < |idElems|
      invariant 0 <= i <= |idElems|
      invariant IdsScan(idElems[..i]) == IdScan(identifier, urls, isbn, issn)
    {
      assert idElems[..i + 1][..i] == idElems[..i];
      if NonBlank(idElems[i]) {
        var idText := Strip(idElems[i].text.value);
        if !Truthy(identifier) {
          identifier := Some(idText);
        }
        if StartsWith(idText, "http") {
          urls := urls + [idText];
        } else if Contains(Lower(idText), "isbn") {
          var isbnMatch := IsbnRun(idText, true);
          if isbnMatch.Some? {
            isbn := isbnMatch;
          }
        } else if Contains(Lower(idText), "issn") {
          var issnMatch := IsbnRun(idText, true);
          if issnMatch.Some? {
            issn := issnMatch;
          }
        }
      }
      i := i + 1;
    }
    assert idElems[..i] == idElems;

    r := IdScan(identifier, urls, isbn, issn);
  }

  /** `parse_dublin_core`, loop by loop. */
  method ParseDublinCore(h: Harvested) returns (r: Record)
    ensures r == DublinCore(h)
  {
    if h.metadataRoot.None? {
      return Unparseable(h);
    }
    var m := h.metadataRoot.value;
    var title := DcText(m, "title").GetOr("Untitled");
    var creators := CollectNonBlank(DcChildren(m, "creator"));
    var contributors := CollectNonBlank(DcChildren(m, "contributor"));
    var authors := creators + contributors;

    var dates := ScanDates(DcChildren(m, "date"));
    var subjects := CollectNonBlank(DcChildren(m, "subject"));

    var ids := ScanIdentifiers(DcChildren(m, "identifier"));
    var source := FirstChild(m, Dc("source"));
    var place: Option<string> := None;
    if HasText(source) {
      place := SourcePlace(Strip(source.value.text.value));
    }

    r := Minimal(h.identifier, title, h.raw).(
      authors := authors,
      year := dates.year,
      publisherName := DcText(m, "publisher"),
      placeOfPublication := place,
      isbn := ids.isbn,
      issn := ids.issn,
      urls := ids.urls,
      abstractText := DcText(m, "description"),
      language := DcText(m, "language"),
      format := DcText(m, "format"),
      subjects := subjects,
      dateCreated := dates.created,
      dateModified := StrippedText(FirstChild(m, Dcterms("modified"))),
      identifier := ids.identifier);
  }
}
