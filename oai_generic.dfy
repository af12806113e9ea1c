/**
 * `OAIClient._generic_parse`, the fallback parser for a metadata prefix no
 * registered parser claims.  It knows three shapes (Dublin Core, MODS and
 * MARC XML), each read more loosely than by the dedicated parsers, and
 * cleans the title at the end.
 *
 * The Python function binds the local names `isbn` and `issn` only inside
 * the Dublin Core and MODS branches and, in the MARC branch, only when a 020
 * or 022 field supplies a value.  Every other path reaches the final
 * `BiblioRecord(..., isbn=isbn, issn=issn, ...)` with an unbound name and
 * raises; the model returns `Raised` there.
 */
module OaiGeneric {
  import opened Wrappers
  import opened Text
  import opened Xml
  import opened Biblio
  import opened OaiRecords
  import opened OaiDublinCore
  import opened OaiMods
  import opened OaiMarc

  /** The locals the branches fill before the record is built. */
  datatype Fields = Fields(
    title: string,
    authors: seq<string>,
    year: Option<string>,
    publisher: Option<string>,
    place: Option<string>,
    isbn: Option<string>,
    issn: Option<string>,
    subjects: seq<string>,
    urls: seq<string>)

  const GenericStart := Fields("Untitled Record", [], None, None, None, None, None, [], [])

  const DcPrefixes: seq<string> := ["oai_dc", "dc"]
  const MarcPrefixes: seq<string> := ["marc", "marc21", "marcxml"]

  /** The final `BiblioRecord(...)`, with the title cleaned of trailing `/`, `:`, `.` and white space. */
  function Assemble(h: Harvested, f: Fields): (r: Record)
    ensures r.id == h.identifier && r.rawData == h.raw && r.editors.None?
    ensures r.authors == f.authors && r.urls == f.urls && r.subjects == f.subjects
    ensures r.title == [] || !IsJunk(TitleJunk, r.title[|r.title| - 1])
  {
    CleanTitleEnds(f.title);
    Minimal(h.identifier, CleanTitle(f.title), h.raw).(
      authors := f.authors,
      year := f.year,
      publisherName := f.publisher,
      placeOfPublication := f.place,
      isbn := f.isbn,
      issn := f.issn,
      urls := f.urls,
      subjects := f.subjects)
  }

  /** A year the pattern `\b(1\d{3}|20\d{2})\b` finds in the raw text of an element that has text. */
  function RawYear(el: Option<Element>): (r: Option<string>)
    ensures r.Some? ==> |r.value| == 4
  {
    if HasText(el) then FindYear(el.value.text.value) else None
  }

  // ---------------------------------------------------------------- Dublin Core

  /** The Dublin Core branch: one level of `dc:` children; only the first `dc:date` is looked at. */
  function GenericDc(m: Element): (r: Fields)
    ensures HasText(FirstChild(m, Dc("title"))) ==> r.title == Strip(FirstChild(m, Dc("title")).value.text.value)
    ensures !HasText(FirstChild(m, Dc("title"))) ==> r.title == "Untitled Record"
    ensures r.authors == NonBlankTexts(DcChildren(m, "creator"))
    ensures r.year == RawYear(FirstChild(m, Dc("date")))
    ensures forall i :: 0 <= i < |r.urls| ==> StartsWith(r.urls[i], "http")
  {
    var ids := IdsScan(DcChildren(m, "identifier"));
    GenericStart.(
      title := DcText(m, "title").GetOr("Untitled Record"),
      authors := NonBlankTexts(DcChildren(m, "creator")),
      year := RawYear(FirstChild(m, Dc("date"))),
      publisher := DcText(m, "publisher"),
      subjects := NonBlankTexts(DcChildren(m, "subject")),
      isbn := ids.isbn,
      issn := ids.issn,
      urls := ids.urls)
  }

  // ---------------------------------------------------------------- MODS

  /** One `mods:name`: its first `namePart`, stripped (possibly to ""), when the name is an author's. */
  function GenericModsName(name: Element): (r: seq<string>)
    ensures r != [] <==> IsAuthorName(name) && HasText(FirstDesc(name, Mods("namePart")))
  {
    if IsAuthorName(name) then StrippedText(FirstDesc(name, Mods("namePart"))).ToSeq() else []
  }

  function GenericModsNames(names: seq<Element>): (r: seq<string>)
    ensures |r| <= |names|
  {
    if names == [] then [] else GenericModsNames(names[..|names| - 1]) + GenericModsName(names[|names| - 1])
  }

  /** The stripped first `mods:topic` of each subject that has one with text. */
  function GenericModsTopics(subjects: seq<Element>): (r: seq<string>)
    ensures |r| <= |subjects|
  {
    if subjects == [] then []
    else GenericModsTopics(subjects[..|subjects| - 1]) + StrippedText(FirstDesc(subjects[|subjects| - 1], Mods("topic"))).ToSeq()
  }

  /** One turn of the identifier loop: the `type` attribute is compared exactly. */
  function GenericModsIdStep(st: ModsIds, e: Element): (r: ModsIds)
    ensures |r.urls| <= |st.urls| + 1
    ensures r.urls != st.urls ==> Attr(e, Plain("type")) == Some("uri")
    ensures r.isbn != st.isbn ==> Attr(e, Plain("type")) == Some("isbn")
    ensures r.issn != st.issn ==> Attr(e, Plain("type")) == Some("issn")
  {
    var ty := Attr(e, Plain("type"));
    if !Truthy(e.text) then st
    else if ty == Some("isbn") then st.(isbn := Some(Strip(e.text.value)))
    else if ty == Some("issn") then st.(issn := Some(Strip(e.text.value)))
    else if ty == Some("uri") then st.(urls := st.urls + [Strip(e.text.value)])
    else st
  }

  function GenericModsIds(els: seq<Element>): (r: ModsIds)
    ensures |r.urls| <= |els|
  {
    if els == [] then ModsIds(None, None, []) else GenericModsIdStep(GenericModsIds(els[..|els| - 1]), els[|els| - 1])
  }

  /** The MODS branch: first descendants for title, date, publisher and place. */
  function GenericMods(m: Element): (r: Fields)
    ensures HasText(FirstDesc(m, Mods("title"))) ==> r.title == Strip(FirstDesc(m, Mods("title")).value.text.value)
    ensures !HasText(FirstDesc(m, Mods("title"))) ==> r.title == "Untitled Record"
    ensures |r.authors| <= |ModsNames(m)| && |r.urls| <= |ModsIdentifiers(m)|
    ensures r.year == RawYear(FirstDesc(m, Mods("dateIssued")))
  {
    var ids := GenericModsIds(ModsIdentifiers(m));
    GenericStart.(
      title := StrippedText(FirstDesc(m, Mods("title"))).GetOr("Untitled Record"),
      authors := GenericModsNames(ModsNames(m)),
      year := RawYear(FirstDesc(m, Mods("dateIssued"))),
      publisher := StrippedText(FirstDesc(m, Mods("publisher"))),
      place := StrippedText(FirstDesc(m, Mods("placeTerm"))),
      subjects := GenericModsTopics(ModsSubjects(m)),
      isbn := ids.isbn,
      issn := ids.issn,
      urls := ids.urls)
  }

  // ---------------------------------------------------------------- MARC

  /** The year of the last non-blank element whose raw text holds one: what overwriting `year` in a loop leaves. */
  function LastRawYear(els: seq<Element>): (r: Option<string>)
    ensures r.Some? ==> |r.value| == 4
  {
    if els == [] then None
    else
      var e := els[|els| - 1];
      if NonBlank(e) && FindYear(e.text.value).Some? then FindYear(e.text.value)
      else LastRawYear(els[..|els| - 1])
  }

  /** The `(\d[\d\-X]+)` match of the last non-blank element whose raw text has one. */
  function LastIsbn(els: seq<Element>): (r: Option<string>)
    ensures r.Some? ==> |r.value| >= 2 && IsDigit(r.value[0])
  {
    if els == [] then None
    else
      var e := els[|els| - 1];
      if NonBlank(e) && IsbnRun(e.text.value, false).Some? then IsbnRun(e.text.value, false)
      else LastIsbn(els[..|els| - 1])
  }

  /** `v` after a loop that overwrites it with every value found: the last one, or `v` itself. */
  function Overwrite(found: Option<string>, v: Option<string>): Option<string> {
    if found.Some? then found else v
  }

  /** A 260/264 field: the last non-blank `$a` is the place, `$b` the publisher, and a year in `$c` the year. */
  function GenericPublication(st: Fields, f: Element): Fields {
    st.(place := Overwrite(LastNonBlank(CodedSubfields(f, "a")), st.place),
        publisher := Overwrite(LastNonBlank(CodedSubfields(f, "b")), st.publisher),
        year := Overwrite(LastRawYear(CodedSubfields(f, "c")), st.year))
  }

  /** A 245 field: the truthy `$a` then `$b` texts, stripped and joined by spaces, when there are any. */
  function GenericTitle(st: Fields, f: Element): (r: Fields)
    ensures r.title != st.title ==> r.title == Join(" ", TruthyStripped(CodedSubfields(f, "a")) + TruthyStripped(CodedSubfields(f, "b")))
    ensures r == st.(title := r.title)
  {
    var parts := TruthyStripped(CodedSubfields(f, "a")) + TruthyStripped(CodedSubfields(f, "b"));
    if parts != [] then st.(title := Join(" ", parts)) else st
  }

  /** One data field of the MARC branch; a field without a `tag` attribute raises at `tag.startswith('6')`. */
  function GenericMarcField(st: Fields, f: Element): (r: Attempt<Fields>)
    ensures r.Threw? <==> FieldTag(f).None?
    ensures r.Returned? && r.value.isbn != st.isbn ==> FieldTag(f) == Some("020")
    ensures r.Returned? && r.value.issn != st.issn ==> FieldTag(f) == Some("022")
    ensures r.Returned? && r.value.title != st.title ==> FieldTag(f) == Some("245")
  {
    match FieldTag(f)
    case None => Threw
    case Some(tag) =>
      if tag == "245" then Returned(GenericTitle(st, f))
      else if tag == "100" || tag == "700" then Returned(st.(authors := st.authors + NonBlankTexts(CodedSubfields(f, "a"))))
      else if tag == "260" || tag == "264" then Returned(GenericPublication(st, f))
      else if tag == "020" then Returned(st.(isbn := Overwrite(LastIsbn(CodedSubfields(f, "a")), st.isbn)))
      else if tag == "022" then Returned(st.(issn := Overwrite(LastNonBlank(CodedSubfields(f, "a")), st.issn)))
      else if StartsWith(tag, "6") then Returned(st.(subjects := st.subjects + NonBlankTexts(CodedSubfields(f, "a"))))
      else if tag == "856" then Returned(st.(urls := st.urls + NonBlankTexts(CodedSubfields(f, "u"))))
      else Returned(st)
  }

  /** The MARC loop over the fields seen so far; it raises at the first field without a tag. */
  function GenericMarcFields(fields: seq<Element>): (r: Attempt<Fields>)
  {
    if fields == [] then Returned(GenericStart)
    else
      match GenericMarcFields(fields[..|fields| - 1])
      case Threw => Threw
      case Returned(st) => GenericMarcField(st, fields[|fields| - 1])
  }

  /**
   * The MARC branch.  With no namespaced data field the `local-name()` path
   * raises; otherwise the record is built only when both `isbn` and `issn`
   * were bound by the loop.
   */
  function GenericMarc(h: Harvested, m: Element): (r: ParseOutcome)
    ensures Datafields(m) == [] ==> r.Raised?
    ensures r.Parsed? ==> r.record.isbn.Some? && r.record.issn.Some?
    ensures r.Parsed? ==> r.record.id == h.identifier && r.record.rawData == h.raw && r.record.editors.None?
    ensures r.Parsed? ==> r.record.year.None? || |r.record.year.value| == 4
  {
    var fields := Datafields(m);
    GenericMarcFieldsYear(fields);
    if fields == [] then Raised
    else
      match GenericMarcFields(fields)
      case Threw => Raised
      case Returned(st) => if st.isbn.Some? && st.issn.Some? then Parsed(Assemble(h, st)) else Raised
  }

  /** `_generic_parse`: branch on the metadata prefix, then build the cleaned record. */
  function GenericParse(h: Harvested): (r: ParseOutcome)
    ensures h.metadataRoot.None? ==> r.Raised?
    ensures h.prefix !in DcPrefixes + ["mods"] + MarcPrefixes ==> r.Raised?
    ensures h.metadataRoot.Some? && h.prefix in DcPrefixes + ["mods"] ==> r.Parsed?
    ensures r.Parsed? ==> r.record.id == h.identifier && r.record.rawData == h.raw && r.record.editors.None?
    ensures r.Parsed? ==> r.record.year.None? || |r.record.year.value| == 4
  {
    if h.metadataRoot.None? then Raised
    else
      var m := h.metadataRoot.value;
      if h.prefix in DcPrefixes then Parsed(Assemble(h, GenericDc(m)))
      else if h.prefix == "mods" then Parsed(Assemble(h, GenericMods(m)))
      else if h.prefix in MarcPrefixes then GenericMarc(h, m)
      else Raised
  }

  // ---------------------------------------------------------------- lemmas

  /** Every year the MARC loop keeps came from `LastRawYear`, so it is four characters long. */
  lemma {:induction false} GenericMarcFieldsYear(fields: seq<Element>)
    ensures GenericMarcFields(fields).Returned? ==>
      var y := GenericMarcFields(fields).value.year; y.None? || |y.value| == 4
  {
    if fields != [] {
      var prev := GenericMarcFields(fields[..|fields| - 1]);
      GenericMarcFieldsYear(fields[..|fields| - 1]);
      if prev.Returned? {
        GenericMarcFieldYear(prev.value, fields[|fields| - 1]);
        assert GenericMarcFields(fields) == GenericMarcField(prev.value, fields[|fields| - 1]);
      }
    }
  }

  /** One field keeps the year either unset or four characters long. */
  lemma GenericMarcFieldYear(st: Fields, f: Element)
    requires st.year.None? || |st.year.value| == 4
    ensures GenericMarcField(st, f).Returned? ==>
      var y := GenericMarcField(st, f).value.year; y.None? || |y.value| == 4
  {
  }

  /**
   * The MARC branch binds `isbn` only at a 020 field and `issn` only at a 022
   * field: a record lacking either tag always ends in the exception.
   */
  lemma {:induction false} GenericMarcFieldsBind(fields: seq<Element>)
    ensures GenericMarcFields(fields).Returned? && GenericMarcFields(fields).value.isbn.Some? ==>
      exists i :: 0 <= i < |fields| && FieldTag(fields[i]) == Some("020")
    ensures GenericMarcFields(fields).Returned? && GenericMarcFields(fields).value.issn.Some? ==>
      exists i :: 0 <= i < |fields| && FieldTag(fields[i]) == Some("022")
  {
    if fields != [] {
      var init := fields[..|fields| - 1];
      GenericMarcFieldsBind(init);
      assert forall i :: 0 <= i < |init| ==> init[i] == fields[i];
    }
  }

  lemma GenericMarcNeedsBothTags(h: Harvested, m: Element)
    ensures GenericMarc(h, m).Parsed? ==>
      && (exists i :: 0 <= i < |Datafields(m)| && FieldTag(Datafields(m)[i]) == Some("020"))
      && (exists i :: 0 <= i < |Datafields(m)| && FieldTag(Datafields(m)[i]) == Some("022"))
  {
    GenericMarcFieldsBind(Datafields(m));
  }

  /** The MARC loop raises exactly when some data field has no `tag` attribute. */
  lemma {:induction false} GenericMarcFieldsThrew(fields: seq<Element>)
    ensures GenericMarcFields(fields).Threw? <==> exists i :: 0 <= i < |fields| && FieldTag(fields[i]).None?
  {
    if fields != [] {
      var init := fields[..|fields| - 1];
      GenericMarcFieldsThrew(init);
      GenericMarcThrewStep(fields);
      UntaggedSnoc(init, fields[|fields| - 1]);
      assert fields == init + [fields[|fields| - 1]];
    }
  }

  /** A field list with one more field is untagged somewhere exactly when the list is or that field is. */
  lemma UntaggedSnoc(init: seq<Element>, f: Element)
    ensures (exists i :: 0 <= i < |init + [f]| && FieldTag((init + [f])[i]).None?) <==>
      (exists i :: 0 <= i < |init| && FieldTag(init[i]).None?) || FieldTag(f).None?
  {
    assert forall i :: 0 <= i < |init| ==> (init + [f])[i] == init[i];
    assert (init + [f])[|init|] == f;
  }

  /** One more field raises the loop exactly when the loop so far raised or that field has no tag. */
  lemma GenericMarcThrewStep(fields: seq<Element>)
    requires fields != []
    ensures GenericMarcFields(fields).Threw? <==>
      GenericMarcFields(fields[..|fields| - 1]).Threw? || FieldTag(fields[|fields| - 1]).None?
  {
    var prev := GenericMarcFields(fields[..|fields| - 1]);
    if prev.Returned? {
      assert GenericMarcFields(fields) == GenericMarcField(prev.value, fields[|fields| - 1]);
    }
  }

  /** Once a field has raised, the whole loop has raised. */
  lemma {:induction false} GenericMarcThrewStays(fields: seq<Element>, k: nat)
    requires k <= |fields| && GenericMarcFields(fields[..k]).Threw?
    ensures GenericMarcFields(fields).Threw?
    decreases |fields| - k
  {
    if k < |fields| {
      var pre := fields[..k + 1];
      assert pre[..|pre| - 1] == fields[..k];
      GenericMarcThrewStays(fields, k + 1);
    } else {
      assert fields[..k] == fields;
    }
  }

  /** Once a title is set by a 245 field, later fields of other tags keep it. */
  lemma GenericMarcTitleOnly245(st: Fields, f: Element)
    requires FieldTag(f).Some? && FieldTag(f) != Some("245")
    ensures GenericMarcField(st, f).Returned? && GenericMarcField(st, f).value.title == st.title
  {
  }

  // ---------------------------------------------------------------- the loops

  /** The `mods:name` loop of the MODS branch. */
  method ScanGenericModsNames(names: seq<Element>) returns (authors: seq<string>)
    ensures authors == GenericModsNames(names)
  {
    authors := [];
    var i := 0;
    while i < |names|
      invariant 0 <= i <= |names|
      invariant authors == GenericModsNames(names[..i])
    {
      assert names[..i + 1][..i] == names[..i];
      var author := ReadModsName(names[i]);
      AppendStep(authors, author, GenericModsNames(names[..i]), GenericModsName(names[i]), GenericModsNames(names[..i + 1]));
      authors := authors + author;
      i := i + 1;
    }
    assert names[..i] == names;
  }

  /** The body of that loop: the stripped name part of an author, nothing for another role or an empty part. */
  method ReadModsName(name: Element) returns (author: seq<string>)
    ensures author == GenericModsName(name)
  {
    author := [];
    var role := FirstDesc(name, Mods("roleTerm"));
    var namePart := FirstDesc(name, Mods("namePart"));
    if role.None? || (Truthy(role.value.text) && Lower(role.value.text.value) in AuthorRoles) {
      if namePart.Some? && Truthy(namePart.value.text) {
        author := [Strip(namePart.value.text.value)];
      }
    }
  }

  /** The `mods:subject` loop of the MODS branch. */
  method ScanGenericModsTopics(subjects: seq<Element>) returns (topics: seq<string>)
    ensures topics == GenericModsTopics(subjects)
  {
    topics := [];
    var i := 0;
    while i < |subjects|
      invariant 0 <= i <= |subjects|
      invariant topics == GenericModsTopics(subjects[..i])
    {
      assert subjects[..i + 1][..i] == subjects[..i];
      var topic := FirstDesc(subjects[i], Mods("topic"));
      if topic.Some? && Truthy(topic.value.text) {
        topics := topics + [Strip(topic.value.text.value)];
      }
      i := i + 1;
    }
    assert subjects[..i] == subjects;
  }

  /** The `mods:identifier` loop of the MODS branch. */
  method ScanGenericModsIds(els: seq<Element>) returns (r: ModsIds)
    ensures r == GenericModsIds(els)
  {
    var isbn: Option<string> := None;
    var issn: Option<string> := None;
    var urls: seq<string> := [];
    var i := 0;
    while i < |els|
      invariant 0 <= i <= |els|
      invariant GenericModsIds(els[..i]) == ModsIds(isbn, issn, urls)
    {
      assert els[..i + 1][..i] == els[..i];
      var ty := Attr(els[i], Plain("type"));
      if ty == Some("isbn") && Truthy(els[i].text) {
        isbn := Some(Strip(els[i].text.value));
      } else if ty == Some("issn") && Truthy(els[i].text) {
        issn := Some(Strip(els[i].text.value));
      } else if ty == Some("uri") && Truthy(els[i].text) {
        urls := urls + [Strip(els[i].text.value)];
      }
      i := i + 1;
    }
    assert els[..i] == els;
    r := ModsIds(isbn, issn, urls);
  }

  /** The `$c` loop of a 260/264 field. */
  method ScanRawYears(els: seq<Element>, year0: Option<string>) returns (year: Option<string>)
    ensures year == Overwrite(LastRawYear(els), year0)
  {
    year := year0;
    var i := 0;
    while i < |els|
      invariant 0 <= i <= |els|
      invariant year == Overwrite(LastRawYear(els[..i]), year0)
    {
      assert els[..i + 1][..i] == els[..i];
      if NonBlank(els[i]) {
        var yearMatch := FindYear(els[i].text.value);
        if yearMatch.Some? {
          year := yearMatch;
        }
      }
      i := i + 1;
    }
    assert els[..i] == els;
  }

  /** The `$a` loop of a 020 field. */
  method ScanIsbns(els: seq<Element>, isbn0: Option<string>) returns (isbn: Option<string>)
    ensures isbn == Overwrite(LastIsbn(els), isbn0)
  {
    isbn := isbn0;
    var i := 0;
    while i < |els|
      invariant 0 <= i <= |els|
      invariant isbn == Overwrite(LastIsbn(els[..i]), isbn0)
    {
      assert els[..i + 1][..i] == els[..i];
      if NonBlank(els[i]) {
        var isbnMatch := IsbnRun(els[i].text.value, false);
        if isbnMatch.Some? {
          isbn := isbnMatch;
        }
      }
      i := i + 1;
    }
    assert els[..i] == els;
  }

  /** The 245 branch: collect the `$a` and `$b` texts, join them when there are any. */
  method ProcessGenericTitle(st: Fields, f: Element) returns (r: Fields)
    ensures r == GenericTitle(st, f)
  {
    var partsA := CollectTruthyStripped(CodedSubfields(f, "a"));
    var partsB := CollectTruthyStripped(CodedSubfields(f, "b"));
    var titleParts := partsA + partsB;
    r := st;
    if titleParts != [] {
      r := st.(title := Join(" ", titleParts));
    }
  }

  /** The 260/264 branch. */
  method ProcessGenericPublication(st: Fields, f: Element) returns (r: Fields)
    ensures r == GenericPublication(st, f)
  {
    var place := OverwriteNonBlank(CodedSubfields(f, "a"), st.place);
    var publisher := OverwriteNonBlank(CodedSubfields(f, "b"), st.publisher);
    var year := ScanRawYears(CodedSubfields(f, "c"), st.year);
    r := st.(place := place, publisher := publisher, year := year);
  }

  /** The body of the MARC field loop. */
  method ProcessGenericField(st: Fields, f: Element) returns (r: Attempt<Fields>)
    ensures r == GenericMarcField(st, f)
  {
    var tag := FieldTag(f);
    if tag == Some("245") {
      var t := ProcessGenericTitle(st, f);
      return Returned(t);
    } else if tag == Some("100") || tag == Some("700") {
      var more := CollectNonBlank(CodedSubfields(f, "a"));
      return Returned(st.(authors := st.authors + more));
    } else if tag == Some("260") || tag == Some("264") {
      var p := ProcessGenericPublication(st, f);
      return Returned(p);
    } else if tag == Some("020") {
      var isbn := ScanIsbns(CodedSubfields(f, "a"), st.isbn);
      return Returned(st.(isbn := isbn));
    } else if tag == Some("022") {
      var issn := OverwriteNonBlank(CodedSubfields(f, "a"), st.issn);
      return Returned(st.(issn := issn));
    } else if tag.None? {
      return Threw;
    } else if StartsWith(tag.value, "6") {
      var more := CollectNonBlank(CodedSubfields(f, "a"));
      return Returned(st.(subjects := st.subjects + more));
    } else if tag == Some("856") {
      var more := CollectNonBlank(CodedSubfields(f, "u"));
      return Returned(st.(urls := st.urls + more));
    }
    return Returned(st);
  }

  /** The MARC branch: the field loop, stopped by the first field that raises, then the unbound-name check. */
  method ParseGenericMarc(h: Harvested, m: Element) returns (r: ParseOutcome)
    ensures r == GenericMarc(h, m)
  {
    var fields := Datafields(m);
    if fields == [] {
      return Raised;
    }
    var st := GenericStart;
    var i := 0;
    while i < |fields|
      invariant 0 <= i <= |fields|
      invariant GenericMarcFields(fields[..i]) == Returned(st)
    {
      assert fields[..i + 1][..i] == fields[..i];
      var next := ProcessGenericField(st, fields[i]);
      if next.Threw? {
        assert GenericMarcFields(fields[..i + 1]).Threw?;
        GenericMarcThrewStays(fields, i + 1);
        return Raised;
      }
      st := next.value;
      i := i + 1;
    }
    assert fields[..i] == fields;
    if st.isbn.None? || st.issn.None? {
      return Raised;
    }
    r := Parsed(Assemble(h, st));
  }

  /** The Dublin Core branch. */
  method ParseGenericDc(m: Element) returns (r: Fields)
    ensures r == GenericDc(m)
  {
    var title := DcText(m, "title").GetOr("Untitled Record");
    var authors := CollectNonBlank(DcChildren(m, "creator"));
    var year := RawYear(FirstChild(m, Dc("date")));
    var subjects := CollectNonBlank(DcChildren(m, "subject"));
    var ids := OaiDublinCore.ScanIdentifiers(DcChildren(m, "identifier"));
    r := GenericStart.(title := title, authors := authors, year := year, publisher := DcText(m, "publisher"),
                       subjects := subjects, isbn := ids.isbn, issn := ids.issn, urls := ids.urls);
  }

  /** The MODS branch. */
  method ParseGenericMods(m: Element) returns (r: Fields)
    ensures r == GenericMods(m)
  {
    var title := StrippedText(FirstDesc(m, Mods("title"))).GetOr("Untitled Record");
    var authors := ScanGenericModsNames(ModsNames(m));
    var subjects := ScanGenericModsTopics(ModsSubjects(m));
    var ids := ScanGenericModsIds(ModsIdentifiers(m));
    r := GenericStart.(title := title, authors := authors, year := RawYear(FirstDesc(m, Mods("dateIssued"))),
                       publisher := StrippedText(FirstDesc(m, Mods("publisher"))),
                       place := StrippedText(FirstDesc(m, Mods("placeTerm"))),
                       subjects := subjects, isbn := ids.isbn, issn := ids.issn, urls := ids.urls);
  }

  /** `_generic_parse`. */
  method ParseGeneric(h: Harvested) returns (r: ParseOutcome)
    ensures r == GenericParse(h)
  {
    if h.metadataRoot.None? {
      return Raised;
    }
    var m := h.metadataRoot.value;
    if h.prefix in DcPrefixes {
      var f := ParseGenericDc(m);
      r := Parsed(Assemble(h, f));
    } else if h.prefix == "mods" {
      var f := ParseGenericMods(m);
      r := Parsed(Assemble(h, f));
    } else if h.prefix in MarcPrefixes {
      r := ParseGenericMarc(h, m);
    } else {
      r := Raised;
    }
  }
}
