/**
 * `IxTheoClient._convert_ris_to_bibtex`: reading an RIS export line by line
 * into a handful of fields, then writing those fields out as one BibTeX
 * entry.  The RIS line reader is shared with `get_record_with_export`.
 */
module IxTheoRis {
  import opened Wrappers
  import opened Text

  // ---------------------------------------------------------------- RIS lines

  const RisSep := "  - "

  /**
   * One RIS line: after `line.strip()`, a line holding `"  - "` is split at
   * its first occurrence into a stripped tag and a stripped value; any other
   * line is skipped.
   */
  function RisEntry(line: string): (r: Option<(string, string)>)
    ensures r.Some? <==> Contains(Strip(line), RisSep)
    ensures r.Some? ==> exists a, b :: (Strip(line) == a + RisSep + b && !Contains(a, RisSep)
                                        && r.value == (Strip(a), Strip(b)))
  {
    var t := Strip(line);
    if t == "" then None
    else
      match SplitOnce(t, RisSep)
      case None => None
      case Some((a, b)) => Some((Strip(a), Strip(b)))
  }

  /** A well-formed RIS line `TAG  - value` reads back as its tag and value. */
  lemma RisEntryOfLine(tag: string, value: string)
    requires tag != [] && forall i :: 0 <= i < |tag| ==> IsWordChar(tag[i])
    requires value == Strip(value) && value != []
    ensures RisEntry(tag + RisSep + value) == Some((tag, value))
  {
    var line := tag + RisSep + value;
    LineStripped(tag, value);
    LineSplits(tag, value);
    assert !IsSpace(tag[0]) && !IsSpace(tag[|tag| - 1]);
    LStripIdentity(tag);
    RStripIdentity(tag);
    EntryOfSplit(line, tag, value);
  }

  /** A line with nothing to strip, split at its first separator into stripped parts, reads back as those parts. */
  lemma EntryOfSplit(line: string, tag: string, value: string)
    requires Strip(line) == line && line != []
    requires SplitOnce(line, RisSep) == Some((tag, value))
    requires Strip(tag) == tag && Strip(value) == value
    ensures RisEntry(line) == Some((tag, value))
  {
  }

  /** The line starts with the tag's first character and ends with the value's last, so strip keeps it. */
  lemma LineStripped(tag: string, value: string)
    requires tag != [] && forall i :: 0 <= i < |tag| ==> IsWordChar(tag[i])
    requires value == Strip(value) && value != []
    ensures Strip(tag + RisSep + value) == tag + RisSep + value
  {
    var line := tag + RisSep + value;
    assert !IsSpace(line[0]) by { assert line[0] == tag[0]; }
    StripEnds(value);
    assert line[|line| - 1] == value[|value| - 1];
    LStripIdentity(line);
    RStripIdentity(line);
  }

  /** A tag of word characters holds no separator, so the first one follows it. */
  lemma LineSplits(tag: string, value: string)
    requires forall i :: 0 <= i < |tag| ==> IsWordChar(tag[i])
    ensures SplitOnce(tag + RisSep + value, RisSep) == Some((tag, value))
  {
    var line := tag + RisSep + value;
    assert OccursAt(line, RisSep, |tag|) by {
      assert line[|tag|..|tag| + |RisSep|] == RisSep;
    }
    forall j | 0 <= j < |tag| ensures !OccursAt(line, RisSep, j) {
      assert line[j] == tag[j];
    }
    var k := Find(line, RisSep).value;
    assert k == |tag|;
    assert line[..k] == tag && line[k + |RisSep|..] == value;
  }

  // ---------------------------------------------------------------- fields

  /** What one RIS line sets in the converter. */
  datatype BibKey =
    | Type | Title | Author | Year | Publisher | Place | Isbn | Issn | Journal
    | Volume | Issue | StartPage | EndPage | Doi | Url | Abstract | Ignored

  /** The locals of the converter, with their initial values. */
  datatype BibFields = BibFields(
    entryType: string,
    title: Option<string>,
    authors: seq<string>,
    year: Option<string>,
    publisher: Option<string>,
    place: Option<string>,
    isbn: Option<string>,
    issn: Option<string>,
    journal: Option<string>,
    volume: Option<string>,
    issue: Option<string>,
    startPage: Option<string>,
    endPage: Option<string>,
    doi: Option<string>,
    url: Option<string>,
    abstractText: Option<string>)

  const BibStart := BibFields("misc", None, [], None, None, None, None, None, None, None, None, None, None,
    None, None, None)

  /** The BibTeX entry type for a `TY` value, for the five values the converter knows. */
  function EntryTypeFor(ty: string): (r: Option<string>)
    ensures r.Some? <==> ty in {"JOUR", "BOOK", "CHAP", "CONF", "THES"}
  {
    if ty == "JOUR" then Some("article")
    else if ty == "BOOK" then Some("book")
    else if ty == "CHAP" then Some("incollection")
    else if ty == "CONF" then Some("inproceedings")
    else if ty == "THES" then Some("phdthesis")
    else None
  }

  /**
   * The `if`/`elif` chain on the tag: which field the line sets and the
   * value it stores.  A `TY` value the converter does not know and a year
   * tag whose value holds no year set nothing.
   */
  function Classify(tag: string, value: string): (r: (BibKey, string))
    ensures r.0 == Issn <==> tag == "SN" && HasIssn(value)
    ensures r.0 == Isbn <==> tag == "SN" && !HasIssn(value)
    ensures r.0 == Author <==> tag == "AU"
    ensures r.0 == Type ==> tag == "TY" && EntryTypeFor(value) == Some(r.1)
    ensures r.0 == Year ==> (tag == "PY" || tag == "Y1") && FindYear20th(value) == Some(r.1)
    ensures r.0 != Type && r.0 != Year ==> r.1 == value
  {
    if tag == "TY" then (if EntryTypeFor(value).Some? then (Type, EntryTypeFor(value).value) else (Ignored, value))
    else if tag == "TI" || tag == "T1" then (Title, value)
    else if tag == "AU" then (Author, value)
    else if tag == "PY" || tag == "Y1" then
      (if FindYear20th(value).Some? then (Year, FindYear20th(value).value) else (Ignored, value))
    else if tag == "PB" then (Publisher, value)
    else if tag == "CY" then (Place, value)
    else if tag == "SN" then (if HasIssn(value) then (Issn, value) else (Isbn, value))
    else if tag == "JO" || tag == "T2" then (Journal, value)
    else if tag == "VL" then (Volume, value)
    else if tag == "IS" then (Issue, value)
    else if tag == "SP" then (StartPage, value)
    else if tag == "EP" then (EndPage, value)
    else if tag == "DO" then (Doi, value)
    else if tag == "UR" then (Url, value)
    else if tag == "AB" then (Abstract, value)
    else (Ignored, value)
  }

  /** The classification of a line, `Ignored` for a line the reader skips. */
  function LineKey(line: string): (BibKey, string) {
    match RisEntry(line)
    case None => (Ignored, "")
    case Some((tag, value)) => Classify(tag, value)
  }

  /** Setting one field: authors accumulate, every other field is overwritten. */
  function Apply(f: BibFields, k: BibKey, v: string): BibFields {
    match k
    case Type => f.(entryType := v)
    case Title => f.(title := Some(v))
    case Author => f.(authors := f.authors + [v])
    case Year => f.(year := Some(v))
    case Publisher => f.(publisher := Some(v))
    case Place => f.(place := Some(v))
    case Isbn => f.(isbn := Some(v))
    case Issn => f.(issn := Some(v))
    case Journal => f.(journal := Some(v))
    case Volume => f.(volume := Some(v))
    case Issue => f.(issue := Some(v))
    case StartPage => f.(startPage := Some(v))
    case EndPage => f.(endPage := Some(v))
    case Doi => f.(doi := Some(v))
    case Url => f.(url := Some(v))
    case Abstract => f.(abstractText := Some(v))
    case Ignored => f
  }

  /** The single-valued field `k` (the entry type counts as always set). */
  function Get(f: BibFields, k: BibKey): Option<string> {
    match k
    case Type => Some(f.entryType)
    case Title => f.title
    case Author => None
    case Year => f.year
    case Publisher => f.publisher
    case Place => f.place
    case Isbn => f.isbn
    case Issn => f.issn
    case Journal => f.journal
    case Volume => f.volume
    case Issue => f.issue
    case StartPage => f.startPage
    case EndPage => f.endPage
    case Doi => f.doi
    case Url => f.url
    case Abstract => f.abstractText
    case Ignored => None
  }

  /** Setting a field changes that field only. */
  lemma GetApply(f: BibFields, k: BibKey, v: string, j: BibKey)
    requires j != Author && j != Ignored
    ensures Get(Apply(f, k, v), j) == if j == k then Some(v) else Get(f, j)
  {
  }

  /** The fields after reading `lines` in order. */
  function BibFold(lines: seq<string>): BibFields {
    if lines == [] then BibStart
    else
      var k := LineKey(lines[|lines| - 1]);
      Apply(BibFold(lines[..|lines| - 1]), k.0, k.1)
  }

  /** The value stored by the last line that sets `k`, if any. */
  function LastWith(lines: seq<string>, k: BibKey): Option<string> {
    if lines == [] then None
    else if LineKey(lines[|lines| - 1]).0 == k then Some(LineKey(lines[|lines| - 1]).1)
    else LastWith(lines[..|lines| - 1], k)
  }

  /** The values of every line that sets `k`, in order. */
  function AllWith(lines: seq<string>, k: BibKey): seq<string> {
    if lines == [] then []
    else if LineKey(lines[|lines| - 1]).0 == k then AllWith(lines[..|lines| - 1], k) + [LineKey(lines[|lines| - 1]).1]
    else AllWith(lines[..|lines| - 1], k)
  }

  /** Single-valued tags keep their last occurrence; the initial value stays when there is none. */
  lemma {:induction false} BibFoldLast(lines: seq<string>, k: BibKey)
    requires k != Author && k != Ignored
    ensures Get(BibFold(lines), k) == if LastWith(lines, k).Some? then LastWith(lines, k) else Get(BibStart, k)
  {
    if lines != [] {
      var init := lines[..|lines| - 1];
      var lk := LineKey(lines[|lines| - 1]);
      BibFoldLast(init, k);
      GetApply(BibFold(init), lk.0, lk.1, k);
    }
  }

  /** `AU` lines accumulate in order. */
  lemma {:induction false} BibFoldAuthors(lines: seq<string>)
    ensures BibFold(lines).authors == AllWith(lines, Author)
  {
    if lines != [] {
      BibFoldAuthors(lines[..|lines| - 1]);
    }
  }

  // ---------------------------------------------------------------- the entry

  /** `s.replace("&", "\\&").replace("%", "\\%")`. */
  function EscapeAmpPercent(s: string): string {
    Replace(Replace(s, "&", "\\&"), "%", "\\%")
  }

  /** The citation key when an author and a year exist: surname, lowercased, then the year; `ixtheo` without a surname. */
  function AuthorKey(firstAuthor: string, year: string): (k: string)
    ensures Contains(firstAuthor, ",") || Words(firstAuthor) != [] ==> |year| <= |k| && k[|k| - |year|..] == year
    ensures !Contains(firstAuthor, ",") && Words(firstAuthor) == [] ==> k == "ixtheo"
  {
    var surname :=
      if Contains(firstAuthor, ",") then Some(Lower(Strip(Split(firstAuthor, ",")[0])))
      else if Words(firstAuthor) != [] then Some(Lower(Words(firstAuthor)[|Words(firstAuthor)| - 1]))
      else None;
    if surname.Some? then
      assert (surname.value + year)[|surname.value|..] == year;
      surname.value + year
    else "ixtheo"
  }

  /** The citation key. */
  function CitationKey(f: BibFields, recordId: string): (k: string)
    ensures !(f.authors != [] && Truthy(f.year)) ==> k == "ixtheo_" + recordId
    ensures f.authors != [] && Truthy(f.year) ==>
      k == "ixtheo" || (|f.year.value| <= |k| && k[|k| - |f.year.value|..] == f.year.value)
  {
    if f.authors != [] && Truthy(f.year) then AuthorKey(f.authors[0], f.year.value) else "ixtheo_" + recordId
  }

  /** The page range: `SP--EP` when both are set, else `SP`. */
  function Pages(f: BibFields): (r: Option<string>)
    ensures r.Some? <==> Truthy(f.startPage)
    ensures r.Some? ==> StartsWith(r.value, f.startPage.value)
    ensures r.Some? && Truthy(f.endPage) ==> r.value == f.startPage.value + "--" + f.endPage.value
  {
    if Truthy(f.startPage) && Truthy(f.endPage) then Some(f.startPage.value + "--" + f.endPage.value)
    else if Truthy(f.startPage) then f.startPage
    else None
  }

  /** The title written out: the RIS title, or `Unknown Title`. */
  function TitleOut(f: BibFields): string {
    if Truthy(f.title) then f.title.value else "Unknown Title"
  }

  /** An abstract longer than 1000 characters is cut to its first 997 and `...`. */
  function CutAbstract(a: string): (r: string)
    ensures |r| <= 1000
    ensures |a| <= 1000 ==> r == a
    ensures |a| > 1000 ==> r == a[..997] + "..."
  {
    if |a| > 1000 then a[..997] + "..." else a
  }

  /** `(name, value)` when the value is set, else nothing. */
  function Opt(name: string, v: Option<string>): seq<(string, string)> {
    if Truthy(v) then [(name, v.value)] else []
  }

  /** The fields written before the journal: title, authors and year. */
  function LeadFields(f: BibFields): seq<(string, string)> {
    [("title", EscapeAmpPercent(TitleOut(f)))]
    + (if f.authors != [] then [("author", Join(" and ", f.authors))] else [])
    + Opt("year", f.year)
  }

  /** The journal, as `journal` for an article and as `series` otherwise. */
  function JournalField(f: BibFields): seq<(string, string)> {
    if f.entryType == "article" && Truthy(f.journal) then [("journal", f.journal.value)]
    else if Truthy(f.journal) && f.entryType != "article" then [("series", f.journal.value)]
    else []
  }

  /** The fields written after the journal. */
  function TailFields(f: BibFields): seq<(string, string)> {
    Opt("volume", f.volume)
    + Opt("number", f.issue)
    + Opt("pages", Pages(f))
    + Opt("publisher", f.publisher)
    + Opt("address", f.place)
    + Opt("isbn", f.isbn)
    + Opt("issn", f.issn)
    + Opt("doi", f.doi)
    + Opt("url", f.url)
    + (if Truthy(f.abstractText) then [("abstract", EscapeAmpPercent(CutAbstract(f.abstractText.value)))] else [])
  }

  /** The `name = {value}` fields of the entry, in the order they are written. */
  function EntryFields(f: BibFields): seq<(string, string)> {
    LeadFields(f) + JournalField(f) + TailFields(f)
  }

  function FieldLine(field: (string, string)): string {
    "  " + field.0 + " = {" + field.1 + "},"
  }

  function FieldLines(fields: seq<(string, string)>): (r: seq<string>)
    ensures |r| == |fields|
    ensures forall i :: 0 <= i < |r| ==> r[i] == FieldLine(fields[i])
  {
    if fields == [] then [] else [FieldLine(fields[0])] + FieldLines(fields[1..])
  }

  function Header(f: BibFields, recordId: string): string {
    "@" + f.entryType + "{" + CitationKey(f, recordId) + ","
  }

  function Note(recordId: string): string {
    "  note = {ID: " + recordId + "}"
  }

  /** The lines of the BibTeX entry. */
  function BibtexLines(f: BibFields, recordId: string): seq<string> {
    [Header(f, recordId)] + FieldLines(EntryFields(f)) + [Note(recordId), "}"]
  }

  /** The lines of the RIS export: `ris_data.strip().split("\n")`. */
  function RisLines(ris: string): seq<string> {
    Split(Strip(ris), "\n")
  }

  /** What `_convert_ris_to_bibtex` returns: `None` for empty input, else the joined entry. */
  function RisToBibtex(ris: string, recordId: string): (r: Option<string>)
    ensures r.None? <==> ris == ""
  {
    if ris == "" then None else Some(Join("\n", BibtexLines(BibFold(RisLines(ris)), recordId)))
  }

  // ---------------------------------------------------------------- methods

  /** The loop over the RIS lines. */
  method ReadRisLines(lines: seq<string>) returns (f: BibFields)
    ensures f == BibFold(lines)
  {
    f := BibStart;
    for i := 0 to |lines|
      invariant f == BibFold(lines[..i])
    {
      assert lines[..i + 1][..i] == lines[..i];
      var entry := RisEntry(lines[i]);
      if entry.None? {
        continue;
      }
      var (tag, value) := entry.value;
      var (k, v) := Classify(tag, value);
      f := Apply(f, k, v);
    }
    assert lines[..|lines|] == lines;
  }

  /** `_convert_ris_to_bibtex`. */
  method ConvertRisToBibtex(ris: string, recordId: string) returns (r: Option<string>)
    ensures r == RisToBibtex(ris, recordId)
  {
    if ris == "" {
      return None;
    }
    var f := ReadRisLines(RisLines(ris));
    var bibtex := BibtexLines(f, recordId);
    return Some(Join("\n", bibtex));
  }

  // ---------------------------------------------------------------- properties of the entry

  /**
   * The entry opens with `@<type>{<key>,` on its own line and closes with
   * the note line and `}`.
   */
  lemma BibtexShape(ris: string, recordId: string)
    requires ris != ""
    ensures var f := BibFold(RisLines(ris));
      var out := RisToBibtex(ris, recordId).value;
      StartsWith(out, Header(f, recordId) + "\n") &&
      out == Join("\n", [Header(f, recordId)] + FieldLines(EntryFields(f))) + "\n" + Note(recordId) + "\n}"
  {
    var f := BibFold(RisLines(ris));
    assert RisToBibtex(ris, recordId).value == Join("\n", BibtexLines(f, recordId));
    EntryJoin(Header(f, recordId), FieldLines(EntryFields(f)), Note(recordId));
  }

  /** Joining a head line, field lines, the note and `}`: the head line comes first, the note and `}` last. */
  lemma EntryJoin(head: string, fields: seq<string>, note: string)
    ensures var out := Join("\n", [head] + fields + [note, "}"]);
      StartsWith(out, head + "\n") && out == Join("\n", [head] + fields) + "\n" + note + "\n}"
  {
    var opening := [head] + fields;
    var lines := opening + [note, "}"];
    assert lines == opening + [note] + ["}"];
    JoinSnoc("\n", opening, note);
    JoinSnoc("\n", opening + [note], "}");
    assert |lines| > 1;
    assert Join("\n", lines) == lines[0] + "\n" + Join("\n", lines[1..]);
    var out := Join("\n", lines);
    assert out[..|head + "\n"|] == head + "\n";
  }

  /** The key is the surname and year when an author and a year exist, else `ixtheo_<id>`. */
  lemma CitationKeyRule(f: BibFields, recordId: string)
    ensures !(f.authors != [] && Truthy(f.year)) ==> CitationKey(f, recordId) == "ixtheo_" + recordId
    ensures f.authors != [] && Truthy(f.year) && Contains(f.authors[0], ",") ==>
      exists surname :: (StartsWith(f.authors[0], surname + ",") && !Contains(surname, ",")
                         && CitationKey(f, recordId) == Lower(Strip(surname)) + f.year.value)
    ensures f.authors != [] && Truthy(f.year) && !Contains(f.authors[0], ",") && Words(f.authors[0]) != [] ==>
      CitationKey(f, recordId) == Lower(Words(f.authors[0])[|Words(f.authors[0])| - 1]) + f.year.value
    ensures f.authors != [] && Truthy(f.year) && !Contains(f.authors[0], ",") && Words(f.authors[0]) == [] ==>
      CitationKey(f, recordId) == "ixtheo"
  {
    if f.authors != [] && Truthy(f.year) && Contains(f.authors[0], ",") {
      var name := f.authors[0];
      var (before, after) := SplitOnce(name, ",").value;
      assert Split(name, ",")[0] == before;
      assert name == (before + ",") + after;
      assert StartsWith(name, before + ",");
    }
  }

  /**
   * The journal field is written as `journal` for an article and as
   * `series` for every other entry type, and only when it is set; no other
   * field carries either name.
   */
  lemma JournalPlacement(f: BibFields)
    ensures JournalField(f) == if !Truthy(f.journal) then []
                               else if f.entryType == "article" then [("journal", f.journal.value)]
                               else [("series", f.journal.value)]
    ensures forall i :: 0 <= i < |LeadFields(f)| ==> LeadFields(f)[i].0 in {"title", "author", "year"}
    ensures forall i :: 0 <= i < |TailFields(f)| ==> (TailFields(f)[i].0 in
      {"volume", "number", "pages", "publisher", "address", "isbn", "issn", "doi", "url", "abstract"})
  {
  }

  /** The title field is always first; it is `Unknown Title` when no RIS title was read. */
  lemma TitleFirst(lines: seq<string>)
    ensures var f := BibFold(lines);
      EntryFields(f)[0] == ("title", EscapeAmpPercent(if LastWith(lines, Title).Some? && LastWith(lines, Title).value != ""
                                                       then LastWith(lines, Title).value else "Unknown Title"))
  {
    BibFoldLast(lines, Title);
  }

  /** Pages are written as `SP--EP` from the last `SP` and `EP` lines, or as `SP` alone. */
  lemma PagesRule(lines: seq<string>)
    ensures var sp := LastWith(lines, StartPage);
      var ep := LastWith(lines, EndPage);
      Pages(BibFold(lines)) == if Truthy(sp) && Truthy(ep) then Some(sp.value + "--" + ep.value)
                               else if Truthy(sp) then sp else None
  {
    BibFoldLast(lines, StartPage);
    BibFoldLast(lines, EndPage);
    PagesOfFields(BibFold(lines), LastWith(lines, StartPage), LastWith(lines, EndPage));
  }

  /** `Pages` in terms of the start and end page values. */
  lemma PagesOfFields(f: BibFields, sp: Option<string>, ep: Option<string>)
    requires Get(f, StartPage) == sp && Get(f, EndPage) == ep
    ensures Pages(f) == if Truthy(sp) && Truthy(ep) then Some(sp.value + "--" + ep.value) else if Truthy(sp) then sp else None
  {
  }

  /** The entry type is that of the last `TY` line with a known value, else `misc`. */
  lemma EntryTypeRule(lines: seq<string>)
    ensures BibFold(lines).entryType == if LastWith(lines, Type).Some? then LastWith(lines, Type).value else "misc"
  {
    BibFoldLast(lines, Type);
  }
}
