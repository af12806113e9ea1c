/**
 * `parse_marcxml`, the parser the OAI-PMH client registers for the `marcxml`
 * and `marc21` prefixes.  It walks the MARC 21 bibliographic data fields in
 * document order and dispatches on the tag (245, 100/700, 260/264, 020, 022,
 * 041, 250, 300, 490/830, 520, 6XX, 856).
 *
 * Its helper `get_subfield` falls back to a path with a `local-name()`
 * predicate, which ElementTree rejects with `SyntaxError`; so asking for a
 * subfield that is missing (or has no text) raises, and so does a record
 * with no namespaced data field at all.
 */
module OaiMarc {
  import opened Wrappers
  import opened Text
  import opened Xml
  import opened Biblio
  import opened OaiRecords

  /** `field.findall('.//marc:subfield[@code="<code>"]')`. */
  function CodedSubfields(field: Element, code: string): seq<Element> {
    Select(field, [DescWith(Marc("subfield"), Plain("code"), code)])
  }

  /** `root.findall('.//marc:datafield')`. */
  function Datafields(root: Element): seq<Element> {
    Select(root, [Desc(Marc("datafield"))])
  }

  /** The stripped text of the first element whose text is truthy, or `Threw` when there is none. */
  function FirstTruthyStripped(els: seq<Element>): (r: Attempt<string>)
    ensures r.Threw? <==> forall i :: 0 <= i < |els| ==> !Truthy(els[i].text)
  {
    if els == [] then Threw
    else if Truthy(els[0].text) then Returned(Strip(els[0].text.value))
    else
      var r := FirstTruthyStripped(els[1..]);
      assert forall i :: 0 < i < |els| ==> els[i] == els[1..][i - 1];
      r
  }

  /**
   * What `get_subfield(field, code)` does: the stripped text of the first
   * coded subfield with text; without one, the `local-name()` search raises.
   */
  function Subfield(field: Element, code: string): Attempt<string> {
    FirstTruthyStripped(CodedSubfields(field, code))
  }

  /** `get_subfield`: an early-return search loop, then the path ElementTree refuses. */
  method GetSubfield(field: Element, code: string) returns (r: Attempt<string>)
    ensures r == Subfield(field, code)
  {
    var els := CodedSubfields(field, code);
    var i := 0;
    while i < |els|
      invariant 0 <= i <= |els|
      invariant FirstTruthyStripped(els[i..]) == FirstTruthyStripped(els)
    {
      if Truthy(els[i].text) {
        return Returned(Strip(els[i].text.value));
      }
      assert els[i..][1..] == els[i + 1..];
      i := i + 1;
    }
    assert els[i..] == [];
    return Threw;
  }

  /** The parser's local variables. */
  datatype MarcState = MarcState(
    title: string, authors: seq<string>, year: Option<string>, publisher: Option<string>,
    place: Option<string>, isbn: Option<string>, issn: Option<string>, subjects: seq<string>,
    urls: seq<string>, abstractText: Option<string>, language: Option<string>, series: Option<string>,
    edition: Option<string>, extent: Option<string>)

  const MarcStart := MarcState("Untitled", [], None, None, None, None, None, [], [], None, None, None, None, None)

  /** The subdivision codes a 6XX field is asked for, in order. */
  const SubdivisionCodes: seq<string> := ["b", "c", "d", "v", "x", "y", "z"]

  function FieldTag(f: Element): Option<string> {
    Attr(f, Plain("tag"))
  }

  /** The author a field contributes: the `$a` of a 100 or 700 field, when it has text. */
  function FieldAuthors(f: Element): seq<string> {
    if (FieldTag(f) == Some("100") || FieldTag(f) == Some("700"))
       && Subfield(f, "a").Returned? && Subfield(f, "a").value != ""
    then [Subfield(f, "a").value] else []
  }

  /** The `a -- subvalue` entries of a 6XX field for `codes`; raises as soon as one code is missing. */
  function Subdivisions(f: Element, a: string, codes: seq<string>): (r: Attempt<seq<string>>)
    ensures r.Returned? <==> forall i :: 0 <= i < |codes| ==> Subfield(f, codes[i]).Returned?
  {
    if codes == [] then Returned([])
    else
      var init := codes[..|codes| - 1];
      assert forall i :: 0 <= i < |init| ==> init[i] == codes[i];
      match Subdivisions(f, a, init)
      case Threw => Threw
      case Returned(acc) =>
        match Subfield(f, codes[|codes| - 1])
        case Threw => Threw
        case Returned(sv) => Returned(acc + (if sv != "" then [a + " -- " + sv] else []))
  }

  lemma SubdivisionsStep(f: Element, a: string, codes: seq<string>, i: nat)
    requires i < |codes|
    ensures Subdivisions(f, a, codes[..i + 1]) ==
      match Subdivisions(f, a, codes[..i])
      case Threw => Threw
      case Returned(acc) =>
        match Subfield(f, codes[i])
        case Threw => Threw
        case Returned(sv) => Returned(acc + (if sv != "" then [a + " -- " + sv] else []))
  {
    var pre := codes[..i + 1];
    assert pre[..|pre| - 1] == codes[..i] && pre[|pre| - 1] == codes[i];
  }

  lemma SubdivisionsThrew(f: Element, a: string, codes: seq<string>, i: nat)
    requires i < |codes| && Subfield(f, codes[i]).Threw?
    ensures Subdivisions(f, a, codes).Threw?
  {
  }

  /** A 6XX field: `$a`, then one entry per non-empty subdivision. */
  function SubjectField(st: MarcState, f: Element): (r: Attempt<MarcState>)
    ensures r.Returned? <==> Subfield(f, "a").Returned? && forall c :: c in SubdivisionCodes ==> Subfield(f, c).Returned?
    ensures r.Returned? ==> r.value.authors == st.authors && r.value.title == st.title
  {
    match Subfield(f, "a")
    case Threw => Threw
    case Returned(a) =>
      var st1 := if a != "" then st.(subjects := st.subjects + [a]) else st;
      match Subdivisions(f, a, SubdivisionCodes)
      case Threw =>
        assert !forall i :: 0 <= i < |SubdivisionCodes| ==> Subfield(f, SubdivisionCodes[i]).Returned?;
        Threw
      case Returned(extra) => Returned(st1.(subjects := st1.subjects + extra))
  }

  /** A 260 or 264 field: place from `$a`, publisher from `$b`, year from `$c`. */
  function PublicationField(st: MarcState, f: Element): (r: Attempt<MarcState>)
    ensures r.Returned? <==> Subfield(f, "a").Returned? && Subfield(f, "b").Returned? && Subfield(f, "c").Returned?
    ensures r.Returned? ==> r.value.authors == st.authors && r.value.title == st.title
  {
    match Subfield(f, "a")
    case Threw => Threw
    case Returned(a) =>
      var st1 := if a != "" then st.(place := Some(Strip(RStripClass(a, PlaceJunk)))) else st;
      match Subfield(f, "b")
      case Threw => Threw
      case Returned(b) =>
        var st2 := if b != "" then st1.(publisher := Some(Strip(RStripClass(b, PublisherJunk)))) else st1;
        match Subfield(f, "c")
        case Threw => Threw
        case Returned(c) =>
          Returned(if c != "" && FindYear(c).Some? then st2.(year := FindYear(c)) else st2)
  }

  /** A 245 field: `$a` and `$b` joined by a space, trailing punctuation cut. */
  function TitleField(st: MarcState, f: Element): (r: Attempt<MarcState>)
    ensures r.Returned? <==> Subfield(f, "a").Returned? && Subfield(f, "b").Returned?
    ensures r.Returned? ==> r.value.authors == st.authors
  {
    match Subfield(f, "a")
    case Threw => Threw
    case Returned(a) =>
      match Subfield(f, "b")
      case Threw => Threw
      case Returned(b) =>
        var parts := (if a != "" then [a] else []) + (if b != "" then [b] else []);
        Returned(if parts != [] then st.(title := CleanTitle(Join(" ", parts))) else st)
  }

  /** A 100 or 700 field: a non-empty `$a` is one more author. */
  function AuthorField(st: MarcState, f: Element): (r: Attempt<MarcState>)
    ensures r.Returned? <==> Subfield(f, "a").Returned?
    ensures r.Returned? ==> r.value.title == st.title
    ensures r.Returned? ==> r.value.authors == st.authors + (if r.value.authors == st.authors then [] else [Subfield(f, "a").value])
  {
    match Subfield(f, "a")
    case Threw => Threw
    case Returned(a) => Returned(if a != "" then st.(authors := st.authors + [a]) else st)
  }

  /** A field whose non-empty `$a` (or `$u` for 856) sets or extends one variable: 020, 022, 041, 250, 300, 490/830, 520, 856. */
  function SingleField(st: MarcState, f: Element, tag: string): (r: Attempt<MarcState>)
    ensures r.Returned? ==> r.value.authors == st.authors && r.value.title == st.title
  {
    var code := if tag == "856" then "u" else "a";
    match Subfield(f, code)
    case Threw => Threw
    case Returned(a) =>
      if a == "" then Returned(st)
      else if tag == "020" then Returned(if IsbnRun(a, false).Some? then st.(isbn := IsbnRun(a, false)) else st)
      else if tag == "022" then Returned(st.(issn := Some(a)))
      else if tag == "041" then Returned(st.(language := Some(a)))
      else if tag == "250" then Returned(st.(edition := Some(a)))
      else if tag == "300" then Returned(st.(extent := Some(a)))
      else if tag == "490" || tag == "830" then Returned(if !Truthy(st.series) then st.(series := Some(a)) else st)
      else if tag == "520" then Returned(st.(abstractText := Some(a)))
      else Returned(st.(urls := st.urls + [a]))
  }

  /** The tags `SingleField` handles. */
  predicate SingleTag(tag: string) {
    tag in ["020", "022", "041", "250", "300", "490", "830", "520", "856"]
  }

  /**
   * One turn of the data-field loop.  A field without a `tag` attribute fails
   * every comparison and reaches `tag.startswith('6')`, which raises; testing
   * for it first changes nothing.  Every tag the chain compares against is
   * three digits, and the 856 test comes after the 6XX one, which it cannot
   * match.
   */
  function MarcField(st: MarcState, f: Element): (r: Attempt<MarcState>)
    ensures r.Returned? ==> r.value.authors == st.authors + FieldAuthors(f)
    ensures FieldTag(f).None? ==> r.Threw?
  {
    match FieldTag(f)
    case None => Threw
    case Some(tag) =>
      if tag == "245" then
        NoFieldAuthors(f, tag);
        TitleField(st, f)
      else if tag == "100" || tag == "700" then AuthorField(st, f)
      else
        NoFieldAuthors(f, tag);
        if tag == "260" || tag == "264" then PublicationField(st, f)
        else if SingleTag(tag) && tag != "856" then SingleField(st, f, tag)
        else if StartsWith(tag, "6") then SubjectField(st, f)
        else if tag == "856" then SingleField(st, f, tag)
        else Returned(st)
  }

  /** A field with any other tag than 100 and 700 contributes no author. */
  lemma NoFieldAuthors(f: Element, tag: string)
    requires FieldTag(f) == Some(tag) && tag != "100" && tag != "700"
    ensures FieldAuthors(f) == []
  {
  }

  /** A 245 field completes exactly when its `$a` and `$b` do, and no other field changes the title. */
  lemma MarcFieldTitle(st: MarcState, f: Element)
    ensures FieldTag(f) == Some("245") ==>
      (MarcField(st, f).Returned? <==> Subfield(f, "a").Returned? && Subfield(f, "b").Returned?)
    ensures MarcField(st, f).Returned? && MarcField(st, f).value.title != st.title ==> FieldTag(f) == Some("245")
  {
  }

  /** The authors of a list of data fields: the `$a` of each 100 and 700 field, in document order. */
  function MarcAuthors(fields: seq<Element>): seq<string> {
    if fields == [] then [] else MarcAuthors(fields[..|fields| - 1]) + FieldAuthors(fields[|fields| - 1])
  }

  /** The state after the data-field loop, or `Threw` once a field raises. */
  function MarcFields(fields: seq<Element>): (r: Attempt<MarcState>)
    ensures r.Returned? ==> r.value.authors == MarcAuthors(fields)
  {
    if fields == [] then Returned(MarcStart)
    else
      var init := fields[..|fields| - 1];
      match MarcFields(init)
      case Threw => Threw
      case Returned(st) =>
        var r := MarcField(st, fields[|fields| - 1]);
        r
  }

  function MarcRecord(h: Harvested, st: MarcState): Record {
    Minimal(h.identifier, st.title, h.raw).(
      authors := st.authors, year := st.year, publisherName := st.publisher,
      placeOfPublication := st.place, isbn := st.isbn, issn := st.issn, urls := st.urls,
      abstractText := st.abstractText, language := st.language, format := None,
      subjects := st.subjects, series := st.series, extent := st.extent, edition := st.edition)
  }

  /** What `parse_marcxml` does with a harvested record. */
  function MarcXml(h: Harvested): (r: ParseOutcome)
    ensures h.metadataRoot.None? ==> r == Parsed(Unparseable(h))
    ensures h.metadataRoot.Some? && Datafields(h.metadataRoot.value) == [] ==> r == Raised
    ensures h.metadataRoot.Some? && r.Parsed? ==>
      && r.record.authors == MarcAuthors(Datafields(h.metadataRoot.value))
      && r.record.id == h.identifier && r.record.rawData == h.raw && r.record.format.None?
  {
    if h.metadataRoot.None? then Parsed(Unparseable(h))
    else
      var fields := Datafields(h.metadataRoot.value);
      if fields == [] then Raised  // the fallback `findall` uses `local-name()`
      else
        match MarcFields(fields)
        case Threw => Raised
        case Returned(st) => Parsed(MarcRecord(h, st))
  }

  /** The subdivision loop of a 6XX field. */
  method ScanSubdivisions(f: Element, a: string, codes: seq<string>) returns (r: Attempt<seq<string>>)
    ensures r == Subdivisions(f, a, codes)
  {
    var extra: seq<string> := [];
    var i := 0;
    while i < |codes|
      invariant 0 <= i <= |codes|
      invariant Subdivisions(f, a, codes[..i]) == Returned(extra)
    {
      SubdivisionsStep(f, a, codes, i);
      var subvalue := GetSubfield(f, codes[i]);
      if subvalue.Threw? {
        SubdivisionsThrew(f, a, codes, i);
        return Threw;
      }
      assert Subfield(f, codes[i]) == Returned(subvalue.value);
      extra := extra + (if subvalue.value != "" then [a + " -- " + subvalue.value] else []);
      i := i + 1;
    }
    assert codes[..i] == codes;
    r := Returned(extra);
  }

  /** The 245 branch. */
  method ProcessTitle(st: MarcState, f: Element) returns (r: Attempt<MarcState>)
    ensures r == TitleField(st, f)
  {
    var a := GetSubfield(f, "a");
    if a.Threw? { return Threw; }
    var b := GetSubfield(f, "b");
    if b.Threw? { return Threw; }
    var titleParts: seq<string> := [];
    if a.value != "" { titleParts := titleParts + [a.value]; }
    if b.value != "" { titleParts := titleParts + [b.value]; }
    r := Returned(if titleParts != [] then st.(title := CleanTitle(Join(" ", titleParts))) else st);
  }

  /** The 100 and 700 branches. */
  method ProcessAuthor(st: MarcState, f: Element) returns (r: Attempt<MarcState>)
    ensures r == AuthorField(st, f)
  {
    var a := GetSubfield(f, "a");
    if a.Threw? { return Threw; }
    r := Returned(if a.value != "" then st.(authors := st.authors + [a.value]) else st);
  }

  /** The 260 and 264 branch. */
  method ProcessPublication(st: MarcState, f: Element) returns (r: Attempt<MarcState>)
    ensures r == PublicationField(st, f)
  {
    var a := GetSubfield(f, "a");
    if a.Threw? { return Threw; }
    var s := st;
    if a.value != "" { s := s.(place := Some(Strip(RStripClass(a.value, PlaceJunk)))); }
    var b := GetSubfield(f, "b");
    if b.Threw? { return Threw; }
    if b.value != "" { s := s.(publisher := Some(Strip(RStripClass(b.value, PublisherJunk)))); }
    var c := GetSubfield(f, "c");
    if c.Threw? { return Threw; }
    if c.value != "" {
      var yearMatch := FindYear(c.value);
      if yearMatch.Some? { s := s.(year := yearMatch); }
    }
    r := Returned(s);
  }

  /** The branches that read one subfield into one variable. */
  method ProcessSingle(st: MarcState, f: Element, tag: string) returns (r: Attempt<MarcState>)
    ensures r == SingleField(st, f, tag)
  {
    var a := GetSubfield(f, if tag == "856" then "u" else "a");
    if a.Threw? { return Threw; }
    var v := a.value;
    r := Returned(st);
    if v == "" {
      return;
    }
    if tag == "020" {
      var isbnMatch := IsbnRun(v, false);
      if isbnMatch.Some? { r := Returned(st.(isbn := isbnMatch)); }
    } else if tag == "022" {
      r := Returned(st.(issn := Some(v)));
    } else if tag == "041" {
      r := Returned(st.(language := Some(v)));
    } else if tag == "250" {
      r := Returned(st.(edition := Some(v)));
    } else if tag == "300" {
      r := Returned(st.(extent := Some(v)));
    } else if tag == "490" || tag == "830" {
      if !Truthy(st.series) { r := Returned(st.(series := Some(v))); }
    } else if tag == "520" {
      r := Returned(st.(abstractText := Some(v)));
    } else {
      r := Returned(st.(urls := st.urls + [v]));
    }
  }

  /** The 6XX branch. */
  method ProcessSubject(st: MarcState, f: Element) returns (r: Attempt<MarcState>)
    ensures r == SubjectField(st, f)
  {
    var a := GetSubfield(f, "a");
    if a.Threw? { return Threw; }
    var s := st;
    if a.value != "" { s := s.(subjects := s.subjects + [a.value]); }
    var extra := ScanSubdivisions(f, a.value, SubdivisionCodes);
    if extra.Threw? { return Threw; }
    r := Returned(s.(subjects := s.subjects + extra.value));
  }

  /** The body of the data-field loop for one field. */
  method ProcessDatafield(st: MarcState, f: Element) returns (r: Attempt<MarcState>)
    ensures r == MarcField(st, f)
  {
    var tag := FieldTag(f);
    if tag.None? {
      return Threw;
    }
    var t := tag.value;
    if t == "245" {
      r := ProcessTitle(st, f);
    } else if t == "100" || t == "700" {
      r := ProcessAuthor(st, f);
    } else if t == "260" || t == "264" {
      r := ProcessPublication(st, f);
    } else if SingleTag(t) && t != "856" {
      r := ProcessSingle(st, f, t);
    } else if StartsWith(t, "6") {
      r := ProcessSubject(st, f);
    } else if t == "856" {
      r := ProcessSingle(st, f, t);
    } else {
      r := Returned(st);
    }
  }

  /** `parse_marcxml`. */
  method ParseMarcXml(h: Harvested) returns (r: ParseOutcome)
    ensures r == MarcXml(h)
  {
    if h.metadataRoot.None? {
      return Parsed(Unparseable(h));
    }
    var fields := Datafields(h.metadataRoot.value);
    if fields == [] {
      return Raised;
    }
    var st := MarcStart;
    var i := 0;
    while i < |fields|
      invariant 0 <= i <= |fields|
      invariant MarcFields(fields[..i]) == Returned(st)
    {
      assert fields[..i + 1][..i] == fields[..i];
      var next := ProcessDatafield(st, fields[i]);
      if next.Threw? {
        assert MarcFields(fields[..i + 1]).Threw?;
        assert MarcFields(fields) == MarcFields(fields[..i + 1]) by {
          MarcFieldsThrewStays(fields, i + 1);
        }
        return Raised;
      }
      st := next.value;
      i := i + 1;
    }
    assert fields[..i] == fields;
    r := Parsed(MarcRecord(h, st));
  }

  /** Once a field has raised, the whole loop has raised. */
  lemma {:induction false} MarcFieldsThrewStays(fields: seq<Element>, k: nat)
    requires k <= |fields| && MarcFields(fields[..k]).Threw?
    ensures MarcFields(fields).Threw?
    decreases |fields| - k
  {
    if k < |fields| {
      var pre := fields[..k + 1];
      assert pre[..|pre| - 1] == fields[..k];
      assert MarcFields(pre).Threw?;
      MarcFieldsThrewStays(fields, k + 1);
    } else {
      assert fields[..k] == fields;
    }
  }
}
