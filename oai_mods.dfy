/** `parse_mods`, the parser the OAI-PMH client registers for the `mods` prefix (MODS 3). */
module OaiMods {
  import opened Wrappers
  import opened Text
  import opened Xml
  import opened Biblio
  import opened OaiRecords

  /** `root.find('.//mods:titleInfo/mods:<local>')`. */
  function TitleInfo(m: Element, local: string): Option<Element> {
    FindPath(m, [Desc(Mods("titleInfo")), Child(Mods(local))])
  }

  /** The title, with ": subtitle" when both have text; "Untitled" without a title. */
  function ModsTitle(m: Element): (r: string)
    ensures !HasText(TitleInfo(m, "title")) ==> r == "Untitled"
    ensures HasText(TitleInfo(m, "title")) && !HasText(TitleInfo(m, "subTitle")) ==> r == Strip(TitleInfo(m, "title").value.text.value)
    ensures HasText(TitleInfo(m, "title")) && HasText(TitleInfo(m, "subTitle")) ==>
      r == Strip(TitleInfo(m, "title").value.text.value) + ": " + Strip(TitleInfo(m, "subTitle").value.text.value)
  {
    var t := TitleInfo(m, "title");
    if HasText(t) then
      var base := Strip(t.value.text.value);
      var sub := TitleInfo(m, "subTitle");
      if HasText(sub) then base + ": " + Strip(sub.value.text.value) else base
    else "Untitled"
  }

  const AuthorRoles: seq<string> := ["author", "creator", "aut", "cre"]

  /**
   * A `mods:name` counts as an author when it has no `roleTerm` at all, or
   * when the first one's text, lower-cased, is one of the author roles; a
   * `roleTerm` without text makes it no author.
   */
  predicate IsAuthorName(name: Element) {
    var role := FirstDesc(name, Mods("roleTerm"));
    role.None? || (Truthy(role.value.text) && Lower(role.value.text.value) in AuthorRoles)
  }

  /** The stripped, non-blank `namePart`s of a name. */
  function NameParts(name: Element): seq<string> {
    NonBlankTexts(Select(name, [Desc(Mods("namePart"))]))
  }

  /** The author a name contributes: its parts joined by spaces. */
  function NameAuthor(name: Element): (r: seq<string>)
    ensures |r| <= 1 && (r != [] ==> r[0] != "")
    ensures r != [] <==> IsAuthorName(name) && NameParts(name) != []
  {
    if IsAuthorName(name) && NameParts(name) != [] then
      JoinNonEmpty(" ", NameParts(name));
      [Join(" ", NameParts(name))]
    else []
  }

  /** The authors of a list of `mods:name` elements, in order. */
  function NameAuthors(names: seq<Element>): (r: seq<string>)
    ensures |r| <= |names|
    ensures forall i :: 0 <= i < |r| ==> r[i] != ""
  {
    if names == [] then [] else NameAuthors(names[..|names| - 1]) + NameAuthor(names[|names| - 1])
  }

  /** The subject headings of one `mods:subject`: topic, geographic, name part. */
  function SubjectEntries(s: Element): seq<string> {
    var topic := FirstChild(s, Mods("topic"));
    var geo := FirstChild(s, Mods("geographic"));
    var name := FindPath(s, [Child(Mods("name")), Child(Mods("namePart"))]);
    StrippedText(topic).ToSeq() + Labelled("Geographic: ", geo) + Labelled("Name: ", name)
  }

  /** `[tagline + el.text.strip()]` when the element exists and has text, else nothing. */
  function Labelled(tagline: string, el: Option<Element>): (r: seq<string>)
    ensures |r| <= 1
  {
    if HasText(el) then [tagline + Strip(el.value.text.value)] else []
  }

  function SubjectsOf(subjects: seq<Element>): (r: seq<string>)
    ensures |r| <= 3 * |subjects|
  {
    if subjects == [] then [] else SubjectsOf(subjects[..|subjects| - 1]) + SubjectEntries(subjects[|subjects| - 1])
  }

  /** What the identifier loop keeps. */
  datatype ModsIds = ModsIds(isbn: Option<string>, issn: Option<string>, urls: seq<string>)

  function IdType(e: Element): string {
    Lower(Attr(e, Plain("type")).GetOr(""))
  }

  /** One turn of the `mods:identifier` loop (type compared case-insensitively). */
  function ModsIdStep(st: ModsIds, e: Element): (r: ModsIds)
    ensures |r.urls| <= |st.urls| + 1
    ensures r.urls == st.urls || (NonBlank(e) && IdType(e) != "isbn" && IdType(e) != "issn")
  {
    if NonBlank(e) then
      var t := Strip(e.text.value);
      if IdType(e) == "isbn" then st.(isbn := Some(t))
      else if IdType(e) == "issn" then st.(issn := Some(t))
      else if IdType(e) == "uri" || StartsWith(t, "http") then st.(urls := st.urls + [t])
      else st
    else st
  }

  function ModsIdsScan(els: seq<Element>): (r: ModsIds)
    ensures |r.urls| <= |els|
  {
    if els == [] then ModsIds(None, None, []) else ModsIdStep(ModsIdsScan(els[..|els| - 1]), els[|els| - 1])
  }

  /** The origin-information fields: year, publisher, place, edition. */
  datatype Origin = Origin(year: Option<string>, publisher: Option<string>, place: Option<string>, edition: Option<string>)

  function OriginOf(m: Element): (r: Origin)
    ensures FirstDesc(m, Mods("originInfo")).None? ==> r == Origin(None, None, None, None)
  {
    match FirstDesc(m, Mods("originInfo"))
    case None => Origin(None, None, None, None)
    case Some(o) =>
      var issued := FirstChild(o, Mods("dateIssued"));
      Origin(if HasText(issued) then FindYear(issued.value.text.value) else None,
             StrippedText(FirstChild(o, Mods("publisher"))),
             StrippedText(FindPath(o, [Child(Mods("place")), Child(Mods("placeTerm"))])),
             StrippedText(FirstChild(o, Mods("edition"))))
  }

  function ExtentOf(m: Element): Option<string> {
    match FirstDesc(m, Mods("physicalDescription"))
    case None => None
    case Some(p) => StrippedText(FirstChild(p, Mods("extent")))
  }

  function SeriesOf(m: Element): Option<string> {
    match FindPath(m, [DescWith(Mods("relatedItem"), Plain("type"), "series")])
    case None => None
    case Some(item) => StrippedText(FirstDesc(item, Mods("title")))
  }

  function ModsNames(m: Element): seq<Element> { Select(m, [Desc(Mods("name"))]) }
  function ModsSubjects(m: Element): seq<Element> { Select(m, [Desc(Mods("subject"))]) }
  function ModsIdentifiers(m: Element): seq<Element> { Select(m, [Desc(Mods("identifier"))]) }
  function LocationUrls(m: Element): seq<Element> { Select(m, [Desc(Mods("location")), Child(Mods("url"))]) }

  /** The record `parse_mods` returns. */
  function ModsRecordOf(h: Harvested): (r: Record)
    ensures r.id == h.identifier && r.rawData == h.raw
    ensures h.metadataRoot.None? ==> r == Unparseable(h)
    ensures h.metadataRoot.Some? ==>
      var m := h.metadataRoot.value;
      && r.title == ModsTitle(m)
      && r.authors == NameAuthors(ModsNames(m))
      && (forall i :: 0 <= i < |r.authors| ==> r.authors[i] != "")
      && |r.urls| <= |ModsIdentifiers(m)| + |LocationUrls(m)|
  {
    if h.metadataRoot.None? then Unparseable(h)
    else
      var m := h.metadataRoot.value;
      var origin := OriginOf(m);
      var ids := ModsIdsScan(ModsIdentifiers(m));
      Minimal(h.identifier, ModsTitle(m), h.raw).(
        authors := NameAuthors(ModsNames(m)),
        year := origin.year,
        publisherName := origin.publisher,
        placeOfPublication := origin.place,
        isbn := ids.isbn,
        issn := ids.issn,
        urls := ids.urls + NonBlankTexts(LocationUrls(m)),
        abstractText := StrippedText(FirstDesc(m, Mods("abstract"))),
        language := StrippedText(FindPath(m, [Desc(Mods("language")), Child(Mods("languageTerm"))])),
        subjects := SubjectsOf(ModsSubjects(m)),
        series := SeriesOf(m),
        extent := ExtentOf(m),
        edition := origin.edition)
  }

  /** The body of the `mods:name` loop for one name. */
  method NameAuthorOf(name: Element) returns (r: seq<string>)
    ensures r == NameAuthor(name)
  {
    r := [];
    var role := FirstDesc(name, Mods("roleTerm"));
    var isAuthor := false;
    if role.None? {
      isAuthor := true;
    } else if Truthy(role.value.text) {
      isAuthor := Lower(role.value.text.value) in AuthorRoles;
    }
    if isAuthor {
      var nameParts := CollectNonBlank(Select(name, [Desc(Mods("namePart"))]));
      if nameParts != [] {
        r := [Join(" ", nameParts)];
      }
    }
  }

  /** The `mods:name` loop. */
  method ScanNames(names: seq<Element>) returns (authors: seq<string>)
    ensures authors == NameAuthors(names)
  {
    authors := [];
    var i := 0;
    while i < |names|
      invariant 0 <= i <= |names|
      invariant authors == NameAuthors(names[..i])
    {
      assert names[..i + 1][..i] == names[..i];
      var author := NameAuthorOf(names[i]);
      authors := authors + author;
      i := i + 1;
    }
    assert names[..i] == names;
  }

  /** The body of the `mods:subject` loop for one subject. */
  method SubjectHeadings(s: Element) returns (entries: seq<string>)
    ensures entries == SubjectEntries(s)
  {
    var topic := FirstChild(s, Mods("topic"));
    entries := [];
    if HasText(topic) {
      entries := entries + [Strip(topic.value.text.value)];
    }
    assert entries == StrippedText(topic).ToSeq();
    var geographic := FirstChild(s, Mods("geographic"));
    if HasText(geographic) {
      entries := entries + ["Geographic: " + Strip(geographic.value.text.value)];
    }
    assert entries == StrippedText(topic).ToSeq() + Labelled("Geographic: ", geographic);
    var name := FindPath(s, [Child(Mods("name")), Child(Mods("namePart"))]);
    if HasText(name) {
      entries := entries + ["Name: " + Strip(name.value.text.value)];
    }
  }

  /** The `mods:subject` loop. */
  method ScanSubjects(subjectElems: seq<Element>) returns (subjects: seq<string>)
    ensures subjects == SubjectsOf(subjectElems)
  {
    subjects := [];
    var i := 0;
    while i < |subjectElems|
      invariant 0 <= i <= |subjectElems|
      invariant subjects == SubjectsOf(subjectElems[..i])
    {
      assert subjectElems[..i + 1][..i] == subjectElems[..i];
      var entries := SubjectHeadings(subjectElems[i]);
      subjects := subjects + entries;
      i := i + 1;
    }
    assert subjectElems[..i] == subjectElems;
  }

  /** The `mods:identifier` loop. */
  method ScanIdentifiers(els: seq<Element>) returns (r: ModsIds)
    ensures r == ModsIdsScan(els)
  {
    var isbn: Option<string> := None;
    var issn: Option<string> := None;
    var urls: seq<string> := [];
    var i := 0;
    while i < |els|
      invariant 0 <= i <= |els|
      invariant ModsIdsScan(els[..i]) == ModsIds(isbn, issn, urls)
    {
      assert els[..i + 1][..i] == els[..i];
      var idType := IdType(els[i]);
      if NonBlank(els[i]) {
        var idText := Strip(els[i].text.value);
        if idType == "isbn" {
          isbn := Some(idText);
        } else if idType == "issn" {
          issn := Some(idText);
        } else if idType == "uri" || StartsWith(idText, "http") {
          urls := urls + [idText];
        }
      }
      i := i + 1;
    }
    assert els[..i] == els;
    r := ModsIds(isbn, issn, urls);
  }

  /** `parse_mods`. */
  method ParseMods(h: Harvested) returns (r: Record)
    ensures r == ModsRecordOf(h)
  {
    if h.metadataRoot.None? {
      return Unparseable(h);
    }
    var m := h.metadataRoot.value;
    var title := ModsTitle(m);
    var authors := ScanNames(ModsNames(m));
    var origin := OriginOf(m);
    var subjects := ScanSubjects(ModsSubjects(m));
    var ids := ScanIdentifiers(ModsIdentifiers(m));
    var locationUrls := CollectNonBlank(LocationUrls(m));
    r := Minimal(h.identifier, title, h.raw).(
      authors := authors,
      year := origin.year,
      publisherName := origin.publisher,
      placeOfPublication := origin.place,
      isbn := ids.isbn,
      issn := ids.issn,
      urls := ids.urls + locationUrls,
      abstractText := StrippedText(FirstDesc(m, Mods("abstract"))),
      language := StrippedText(FindPath(m, [Desc(Mods("language")), Child(Mods("languageTerm"))])),
      subjects := subjects,
      series := SeriesOf(m),
      extent := ExtentOf(m),
      edition := origin.edition);
  }
}
