/**
 * `IxTheoSearchHandler.get_record_with_export`, which enriches a search hit
 * from the record's RIS export and its detail page, and the split of the
 * detail page's "Publisher: Place, Date" string in
 * `IxTheoClient.get_detailed_record`.
 *
 * The record type this module imports (the SRU client's `BiblioRecord`)
 * declares no `journal_title`, `volume` or `issue` field, yet the RIS branch
 * passes all three to its constructor, so that branch raises `TypeError`
 * whenever RIS data arrives.  `RecordWithExport` models the code as
 * written; `RecordWithExportFixed` builds the record the branch evidently
 * means to build, without the three undeclared keywords.
 */
module IxTheoExport {
  import opened Wrappers
  import opened Text
  import opened Biblio
  import IxTheoRis

  // ---------------------------------------------------------------- reading the RIS export

  /** The characters at which `str.splitlines` breaks a line. */
  predicate IsLineBreak(c: char) {
    c == '\n' || c == '\r' || c == '\U{B}' || c == '\U{C}' || c == '\U{1C}' || c == '\U{1D}' || c == '\U{1E}'
    || c == '\U{85}' || c == '\U{2028}' || c == '\U{2029}'
  }

  /** The line-break characters of `s`, in order. */
  function Breaks(s: string): string {
    if s == [] then [] else (if IsLineBreak(s[0]) then [s[0]] else []) + Breaks(s[1..])
  }

  /** The pieces with the breaks put back between them. */
  function Rejoin(pieces: seq<string>, breaks: string): string
    requires |pieces| == |breaks| + 1
    decreases |breaks|
  {
    if breaks == [] then pieces[0] else pieces[0] + [breaks[0]] + Rejoin(pieces[1..], breaks[1..])
  }

  /** Putting a character in front of the first piece puts it in front of the whole text. */
  lemma RejoinCons(c: char, pieces: seq<string>, breaks: string)
    requires |pieces| == |breaks| + 1
    ensures Rejoin([[c] + pieces[0]] + pieces[1..], breaks) == [c] + Rejoin(pieces, breaks)
  {
    if breaks != [] {
      var p := [[c] + pieces[0]] + pieces[1..];
      assert p[1..] == pieces[1..];
    }
  }

  /**
   * The text between line breaks.  Unlike `str.splitlines` this yields an
   * empty piece between `\r` and `\n` and after a final break; the reading
   * loop skips empty lines, so it reads the same lines.
   */
  function SplitLines(s: string): (r: seq<string>)
    ensures |r| == |Breaks(s)| + 1
    ensures forall i, j :: 0 <= i < |r| && 0 <= j < |r[i]| ==> !IsLineBreak(r[i][j])
    ensures Rejoin(r, Breaks(s)) == s
  {
    if s == [] then [""]
    else
      var rest := SplitLines(s[1..]);
      if IsLineBreak(s[0]) then
        assert ([""] + rest)[1..] == rest;
        [""] + rest
      else
        RejoinCons(s[0], rest, Breaks(s[1..]));
        assert Breaks(s) == Breaks(s[1..]) && s == [s[0]] + s[1..];
        [[s[0]] + rest[0]] + rest[1..]
  }

  /** The locals the RIS loop of `get_record_with_export` fills. */
  datatype ExportFields = ExportFields(
    recordType: Option<string>,
    title: Option<string>,
    authors: seq<string>,
    year: Option<string>,
    publisher: Option<string>,
    place: Option<string>,
    isbn: Option<string>,
    issn: Option<string>,
    journal: Option<string>,
    volume: Option<string>,
    issue: Option<string>,
    startPage: Option<string>,
    endPage: Option<string>,
    language: Option<string>,
    doi: Option<string>,
    seriesTitle: Option<string>,
    seriesEditor: Option<string>)

  const ExportStart := ExportFields(None, None, [], None, None, None, None, None, None, None, None, None, None,
    None, None, None, None)

  /**
   * The editor search on a `T2` value that is not a journal title: `None`
   * when `(.+?),\s+(.+?)(?:\s+\d{4}-)?\s+\(edt\)` does not match, else the
   * editor with birth dates removed and the group of `\(edt\),\s+(.+)` when
   * that matches too.  Regular expressions of this kind are not modelled,
   * so the search is a parameter.
   */
  type EditorSearch = string -> Option<(string, Option<string>)>

  /** The `T2` line: a journal title after `TY  - JOUR`, otherwise a series or book title. */
  function SecondaryTitle(f: ExportFields, value: string, editorOf: EditorSearch): (r: ExportFields)
    ensures f.recordType == Some("JOUR") ==> r == f.(journal := Some(value))
    ensures f.recordType != Some("JOUR") ==> r.journal == f.journal && r.seriesTitle.Some?
  {
    if f.recordType == Some("JOUR") then f.(journal := Some(value))
    else
      match editorOf(value)
      case None => f.(seriesTitle := Some(value))
      case Some((editor, book)) =>
        f.(seriesEditor := Some(editor), seriesTitle := if book.Some? then Some(Strip(book.value)) else Some(value))
  }

  /** The tags the RIS loop reads. */
  const ExportTags: set<string> := {"TY", "TI", "T1", "AU", "PY", "Y1", "PB", "CY", "SN", "T2", "JO", "VL", "IS",
                                    "SP", "EP", "LA", "DO"}

  /**
   * The `if`/`elif` chain on one tag: any other tag leaves the fields
   * alone, and only an `AU` line touches the authors, appending its value.
   */
  function ExportStep(f: ExportFields, tag: string, value: string, editorOf: EditorSearch): (r: ExportFields)
    ensures tag !in ExportTags ==> r == f
    ensures r.authors == if tag == "AU" then f.authors + [value] else f.authors
  {
    if tag == "TY" then f.(recordType := Some(value))
    else if tag == "TI" || tag == "T1" then f.(title := Some(value))
    else if tag == "AU" then f.(authors := f.authors + [value])
    else if tag == "PY" || tag == "Y1" then (if FindFourDigits(value).Some? then f.(year := FindFourDigits(value)) else f)
    else if tag == "PB" then f.(publisher := Some(value))
    else if tag == "CY" then f.(place := Some(value))
    else if tag == "SN" then (if HasIssn(value) then f.(issn := Some(value)) else f.(isbn := Some(value)))
    else if tag == "T2" then SecondaryTitle(f, value, editorOf)
    else if tag == "JO" then f.(journal := Some(value))
    else if tag == "VL" then f.(volume := Some(value))
    else if tag == "IS" then f.(issue := Some(value))
    else if tag == "SP" then f.(startPage := Some(value))
    else if tag == "EP" then f.(endPage := Some(value))
    else if tag == "LA" then f.(language := Some(value))
    else if tag == "DO" then f.(doi := Some(value))
    else f
  }

  /** One line of the export: skipped unless it is a `TAG  - value` line. */
  function ExportLine(f: ExportFields, line: string, editorOf: EditorSearch): ExportFields {
    match IxTheoRis.RisEntry(line)
    case None => f
    case Some((tag, value)) => ExportStep(f, tag, value, editorOf)
  }

  /** The fields after reading `lines` in order. */
  function ExportFold(lines: seq<string>, editorOf: EditorSearch): ExportFields {
    if lines == [] then ExportStart
    else ExportLine(ExportFold(lines[..|lines| - 1], editorOf), lines[|lines| - 1], editorOf)
  }

  /** The loop over the lines of the export. */
  method ReadExport(ris: string, editorOf: EditorSearch) returns (f: ExportFields)
    ensures f == ExportFold(SplitLines(ris), editorOf)
  {
    var lines := SplitLines(ris);
    f := ExportStart;
    for i := 0 to |lines|
      invariant f == ExportFold(lines[..i], editorOf)
    {
      assert lines[..i + 1][..i] == lines[..i];
      var entry := IxTheoRis.RisEntry(lines[i]);
      if entry.None? {
        continue;
      }
      var (tag, value) := entry.value;
      f := ExportStep(f, tag, value, editorOf);
    }
    assert lines[..|lines|] == lines;
  }

  /** A `TAG  - value` line with a word-character tag and a stripped value is that step. */
  lemma ExportLineOf(f: ExportFields, tag: string, value: string, editorOf: EditorSearch)
    requires |tag| == 2 && IsWordChar(tag[0]) && IsWordChar(tag[1])
    requires value == Strip(value) && value != []
    ensures ExportLine(f, tag + IxTheoRis.RisSep + value, editorOf) == ExportStep(f, tag, value, editorOf)
  {
    forall j | 0 <= j < |tag| ensures IsWordChar(tag[j]) {
      if j == 1 { assert tag[j] == tag[1]; }
    }
    IxTheoRis.RisEntryOfLine(tag, value);
  }

  lemma StepType(f: ExportFields, value: string, editorOf: EditorSearch)
    ensures ExportStep(f, "TY", value, editorOf) == f.(recordType := Some(value))
  {
  }

  lemma StepSecondary(f: ExportFields, value: string, editorOf: EditorSearch)
    ensures ExportStep(f, "T2", value, editorOf) == SecondaryTitle(f, value, editorOf)
  {
    assert "T2" != "TY" && "T2" != "TI" && "T2" != "T1" && "T2" != "AU" && "T2" != "PY" && "T2" != "Y1";
    assert "T2" != "PB" && "T2" != "CY" && "T2" != "SN";
  }

  /** Where a `T2` line lands depends on the `TY` line read before it. */
  lemma SecondaryTitleOrder(lines: seq<string>, kind: string, value: string, editorOf: EditorSearch)
    requires kind == Strip(kind) && kind != []
    requires value == Strip(value) && value != []
    ensures var f := ExportFold(lines + ["TY" + IxTheoRis.RisSep + kind, "T2" + IxTheoRis.RisSep + value], editorOf);
      && f.recordType == Some(kind)
      && (kind == "JOUR" ==> f.journal == Some(value))
      && (kind != "JOUR" ==> f.seriesTitle.Some? && f.journal == ExportFold(lines, editorOf).journal)
  {
    var ty := "TY" + IxTheoRis.RisSep + kind;
    var t2 := "T2" + IxTheoRis.RisSep + value;
    assert lines + [ty, t2] == (lines + [ty]) + [t2];
    ExportFoldSnoc(lines + [ty], t2, editorOf);
    ExportFoldSnoc(lines, ty, editorOf);
    var f0 := ExportFold(lines, editorOf);
    ExportLineOf(f0, "TY", kind, editorOf);
    StepType(f0, kind, editorOf);
    var f1 := f0.(recordType := Some(kind));
    ExportLineOf(f1, "T2", value, editorOf);
    StepSecondary(f1, value, editorOf);
  }

  /** Reading one more line applies that line to the fields read so far. */
  lemma ExportFoldSnoc(lines: seq<string>, line: string, editorOf: EditorSearch)
    ensures ExportFold(lines + [line], editorOf) == ExportLine(ExportFold(lines, editorOf), line, editorOf)
  {
    assert (lines + [line])[..|lines|] == lines;
  }


  /** The page range of the export: `SP-EP` when both are set, else `SP`. */
  function ExportPages(f: ExportFields): Option<string> {
    if Truthy(f.startPage) && Truthy(f.endPage) then Some(f.startPage.value + "-" + f.endPage.value)
    else if Truthy(f.startPage) then f.startPage
    else None
  }

  /** The display format for the three record types the method names. */
  function FormatFor(recordType: Option<string>): (r: Option<string>)
    ensures recordType == Some("JOUR") ==> r == Some("Journal Article")
    ensures recordType == Some("BOOK") ==> r == Some("Book")
    ensures recordType == Some("CHAP") ==> r == Some("Book Chapter")
    ensures r.None? <==> !(recordType in {Some("JOUR"), Some("BOOK"), Some("CHAP")})
  {
    if recordType == Some("JOUR") then Some("Journal Article")
    else if recordType == Some("BOOK") then Some("Book")
    else if recordType == Some("CHAP") then Some("Book Chapter")
    else None
  }

  // ---------------------------------------------------------------- the method as written

  /**
   * `get_record_with_export` given the detail-page record and the RIS
   * export the client fetched for the record's id.  The RIS branch raises;
   * without RIS data the detail-page record is returned with its raw data
   * back-filled from the hit, else the hit itself.
   */
  function RecordWithExport(record: Record, detailed: Option<Record>, ris: Option<string>): (r: Attempt<Record>)
    ensures r.Threw? <==> Truthy(record.id) && Truthy(ris)
    ensures r.Returned? && detailed.None? ==> r.value == record
  {
    if !Truthy(record.id) then Returned(record)
    else if Truthy(ris) then Threw
    else if detailed.Some? then
      Returned(detailed.value.(rawData := if detailed.value.rawData != "" then detailed.value.rawData else record.rawData))
    else Returned(record)
  }

  /** The fallback branches: a record without id is returned unchanged, and so is one with nothing to add. */
  lemma RecordWithExportFallbacks(record: Record, detailed: Option<Record>, ris: Option<string>)
    ensures !Truthy(record.id) ==> RecordWithExport(record, detailed, ris) == Returned(record)
    ensures Truthy(record.id) && !Truthy(ris) && detailed.None? ==> RecordWithExport(record, detailed, ris) == Returned(record)
    ensures Truthy(record.id) && !Truthy(ris) && detailed.Some? ==>
      && RecordWithExport(record, detailed, ris).Returned?
      && RecordWithExport(record, detailed, ris).value == detailed.value.(rawData := RecordWithExport(record, detailed, ris).value.rawData)
      && RecordWithExport(record, detailed, ris).value.rawData ==
         (if detailed.value.rawData != "" then detailed.value.rawData else record.rawData)
  {
  }

  /** A record `1` with the export `TY  - JOUR` makes the method raise. */
  lemma RisBranchRaises()
    ensures var record := Minimal(Some("1"), "A title", "");
      RecordWithExport(record, None, Some("TY  - JOUR")).Threw?
  {
  }

  /** `get_record_with_export`. */
  method GetRecordWithExport(record: Record, detailed: Option<Record>, ris: Option<string>, editorOf: EditorSearch)
    returns (r: Attempt<Record>)
    ensures r == RecordWithExport(record, detailed, ris)
  {
    if !Truthy(record.id) {
      return Returned(record);
    }
    if Truthy(ris) {
      var fields := ReadExport(ris.value, editorOf);
      // the constructor call with `journal_title`, `volume` and `issue` raises here
      return Threw;
    }
    if detailed.Some? {
      var d := detailed.value;
      d := d.(rawData := if d.rawData != "" then d.rawData else record.rawData);
      return Returned(d);
    }
    return Returned(record);
  }

  // ---------------------------------------------------------------- the record the RIS branch means to build

  /** `a or b` on optional strings. */
  function Or(a: Option<string>, b: Option<string>): Option<string> {
    if Truthy(a) then a else b
  }

  /**
   * The enhanced record the RIS branch builds, without the `journal_title`,
   * `volume` and `issue` keywords the record type does not declare.
   * `rawWithEditor(ris, editor)` is the text of the dictionary stored when
   * an editor was found.
   */
  function Enhanced(record: Record, detailed: Option<Record>, ris: string, f: ExportFields,
                    rawWithEditor: (string, string) -> string): (r: Record)
    ensures r.id == record.id && r.editors.None?
  {
    var fallbackTitle := if detailed.Some? then detailed.value.title else record.title;
    var title := if Truthy(f.title) then f.title.value else if fallbackTitle != "" then fallbackTitle else "Unknown Title";
    var fallbackAuthors := if detailed.Some? then detailed.value.authors else record.authors;
    var pages := ExportPages(f);
    var format := FormatFor(f.recordType);
    Minimal(record.id, title, if Truthy(f.seriesEditor) then rawWithEditor(ris, f.seriesEditor.value) else ris).(
      authors := if f.authors != [] then f.authors else fallbackAuthors,
      year := Or(f.year, if detailed.Some? then detailed.value.year else record.year),
      publisherName := Or(f.publisher, if detailed.Some? then detailed.value.publisherName else None),
      placeOfPublication := Or(f.place, if detailed.Some? then detailed.value.placeOfPublication else None),
      isbn := Or(f.isbn, if detailed.Some? then detailed.value.isbn else None),
      issn := Or(f.issn, if detailed.Some? then detailed.value.issn else None),
      series := f.seriesTitle,
      extent := if Truthy(pages) then Some("Pages " + pages.value) else None,
      subjects := if detailed.Some? && detailed.value.subjects != [] then detailed.value.subjects else [],
      abstractText := if detailed.Some? && Truthy(detailed.value.abstractText) then detailed.value.abstractText else None,
      language := f.language,
      format := if Truthy(format) then format else if Truthy(f.recordType) then f.recordType else None)
  }

  /** `get_record_with_export` with the RIS branch building `Enhanced`. */
  function RecordWithExportFixed(record: Record, detailed: Option<Record>, ris: Option<string>, editorOf: EditorSearch,
                                 rawWithEditor: (string, string) -> string): (r: Record)
    ensures !Truthy(record.id) ==> r == record
    ensures Truthy(record.id) && Truthy(ris) ==> r.id == record.id && r.title != "" && r.editors.None?
  {
    if Truthy(record.id) && Truthy(ris) then
      var f := ExportFold(SplitLines(ris.value), editorOf);
      EnhancedRules(record, detailed, ris.value, f, rawWithEditor);
      Enhanced(record, detailed, ris.value, f, rawWithEditor)
    else
      var r := RecordWithExport(record, detailed, ris);
      if r.Returned? then r.value else record
  }

  /**
   * The enhanced record keeps the hit's id and always has a title; it takes
   * the RIS values first and the detail page's after them, and maps the
   * record type and the page range as the method intends.
   */
  lemma EnhancedRules(record: Record, detailed: Option<Record>, ris: string, f: ExportFields,
                      rawWithEditor: (string, string) -> string)
    ensures var r := Enhanced(record, detailed, ris, f, rawWithEditor);
      && r.id == record.id && r.title != ""
      && (Truthy(f.title) ==> r.title == f.title.value)
      && (!Truthy(f.title) && detailed.Some? && detailed.value.title != "" ==> r.title == detailed.value.title)
      && (f.authors != [] ==> r.authors == f.authors)
      && r.series == f.seriesTitle
      && (!Truthy(f.seriesEditor) ==> r.rawData == ris)
  {
  }

  lemma EnhancedFormat(record: Record, detailed: Option<Record>, ris: string, f: ExportFields,
                       rawWithEditor: (string, string) -> string)
    ensures var r := Enhanced(record, detailed, ris, f, rawWithEditor);
      && (f.recordType == Some("JOUR") ==> r.format == Some("Journal Article"))
      && (f.recordType == Some("BOOK") ==> r.format == Some("Book"))
      && (f.recordType == Some("CHAP") ==> r.format == Some("Book Chapter"))
      && (Truthy(f.startPage) && Truthy(f.endPage) ==> r.extent == Some("Pages " + f.startPage.value + "-" + f.endPage.value))
      && (Truthy(f.startPage) && !Truthy(f.endPage) ==> r.extent == Some("Pages " + f.startPage.value))
      && (!Truthy(f.startPage) ==> r.extent.None?)
  {
    if Truthy(f.startPage) && Truthy(f.endPage) {
      assert "Pages " + (f.startPage.value + "-" + f.endPage.value) == "Pages " + f.startPage.value + "-" + f.endPage.value;
    }
  }

  /** Where the method as written returns, the fixed one returns the same record. */
  lemma FixedAgreesElsewhere(record: Record, detailed: Option<Record>, ris: Option<string>, editorOf: EditorSearch,
                             rawWithEditor: (string, string) -> string)
    requires RecordWithExport(record, detailed, ris).Returned?
    ensures RecordWithExportFixed(record, detailed, ris, editorOf, rawWithEditor) == RecordWithExport(record, detailed, ris).value
  {
  }

  // ---------------------------------------------------------------- the detail page's publication string

  /** Publisher, date and place read from the detail page's publication string. */
  datatype Publication = Publication(publisher: Option<string>, date: Option<string>, place: Option<string>)

  /**
   * The split in `get_detailed_record`: the text after the first `:`,
   * stripped, read by `PublisherPieces`.
   */
  function PublicationOf(pubInfo: string): (p: Publication)
    ensures p.publisher.Some? <==> Contains(pubInfo, ":")
    ensures p.date.Some? <==> Contains(pubInfo, ":") && Contains(AfterColon(pubInfo), ",")
    ensures p.place.Some? ==> p.date.Some?
  {
    match SplitOnce(pubInfo, ":")
    case None => Publication(None, None, None)
    case Some((_, after)) => PublisherPieces(Strip(after))
  }

  /**
   * The text after the colon: when it holds a comma, the publisher is the
   * first comma-separated piece, the date the last and the place the pieces
   * in between, all stripped; otherwise the whole text is the publisher.
   */
  function PublisherPieces(part: string): (p: Publication)
    ensures p.publisher.Some?
    ensures p.date.Some? <==> Contains(part, ",")
    ensures p.place.Some? ==> p.date.Some?
  {
    if Contains(part, ",") then
      var parts := Split(part, ",");
      Publication(Some(Strip(parts[0])),
        if |parts| > 1 then Some(Strip(parts[|parts| - 1])) else None,
        if |parts| > 2 then Some(Strip(Join(",", parts[1..|parts| - 1]))) else None)
    else Publication(Some(part), None, None)
  }

  lemma PublicationViaPieces(pubInfo: string)
    requires Contains(pubInfo, ":")
    ensures PublicationOf(pubInfo) == PublisherPieces(AfterColon(pubInfo))
  {
  }

  /** The year of the detail page, from the date: `\b(19|20)\d{2}\b`. */
  function DetailYear(p: Publication): Option<string> {
    if Truthy(p.date) then FindYear20th(p.date.value) else None
  }

  /**
   * Without a `:` nothing is read.  With one there is a publisher; when a
   * date is read too, the text after the colon is `a,c` or `a,m,c` with
   * comma-free `a` and `c`, and publisher, date and place are `a`, `c` and
   * `m`, stripped.
   */
  lemma PublicationRule(pubInfo: string)
    ensures !Contains(pubInfo, ":") ==> PublicationOf(pubInfo) == Publication(None, None, None)
    ensures Contains(pubInfo, ":") ==> PublicationOf(pubInfo).publisher.Some?
    ensures var p := PublicationOf(pubInfo);
      p.date.Some? ==> p.publisher.Some? && !Contains(p.publisher.value, ",") && !Contains(p.date.value, ",")
    ensures var p := PublicationOf(pubInfo);
      p.date.Some? ==> exists a, c ::
        && !Contains(a, ",") && !Contains(c, ",")
        && ((AfterColon(pubInfo) == a + "," + c && p == Publication(Some(Strip(a)), Some(Strip(c)), None))
            || (exists m :: AfterColon(pubInfo) == a + "," + m + "," + c
                            && p == Publication(Some(Strip(a)), Some(Strip(c)), Some(Strip(m)))))
  {
    if SplitOnce(pubInfo, ":").Some? {
      var part := AfterColon(pubInfo);
      if Contains(part, ",") {
        var parts := Split(part, ",");
        SplitPiecesFree(part, ",");
        LastPieceFree(part, ",");
        JoinSplit(part, ",");
        FirstPiece(part, ",");
        StripNoComma(parts[0]);
        StripNoComma(parts[|parts| - 1]);
        var a, c := parts[0], parts[|parts| - 1];
        if |parts| == 2 {
          assert parts == [a, c];
          assert part == a + "," + c;
          PublicationTwoPieces(pubInfo, a, c);
        } else {
          var m := Join(",", parts[1..|parts| - 1]);
          PiecesThree(parts);
          PublicationThreePieces(pubInfo, a, m, c);
        }
      }
    }
  }

  /** The text after the first `:` of a publication string, stripped. */
  function AfterColon(pubInfo: string): string
    requires Contains(pubInfo, ":")
  {
    Strip(SplitOnce(pubInfo, ":").value.1)
  }

  /** Without a comma after the colon, that whole text is the publisher. */
  lemma PublicationOnePiece(pubInfo: string)
    requires Contains(pubInfo, ":") && !Contains(AfterColon(pubInfo), ",")
    ensures PublicationOf(pubInfo) == Publication(Some(AfterColon(pubInfo)), None, None)
  {
  }

  /** `publisher, date`: the stripped first piece is the publisher and the stripped last one the date. */
  lemma PublicationTwoPieces(pubInfo: string, a: string, c: string)
    requires Contains(pubInfo, ":") && AfterColon(pubInfo) == a + "," + c
    requires !Contains(a, ",") && !Contains(c, ",")
    ensures PublicationOf(pubInfo) == Publication(Some(Strip(a)), Some(Strip(c)), None)
  {
    PublicationViaPieces(pubInfo);
    PiecesOfTwo(a, c);
  }

  lemma PiecesOfTwo(a: string, c: string)
    requires !Contains(a, ",") && !Contains(c, ",")
    ensures PublisherPieces(a + "," + c) == Publication(Some(Strip(a)), Some(Strip(c)), None)
  {
    SplitSnoc(a, ',', c);
    SplitPiecesFree(a, ",");
    CommaAfter(a, c);
  }

  /**
   * `publisher, place, date`: the pieces before the first comma and after
   * the last are publisher and date, and everything between those two
   * commas, stripped, is the place.
   */
  lemma PublicationThreePieces(pubInfo: string, a: string, m: string, c: string)
    requires Contains(pubInfo, ":") && AfterColon(pubInfo) == a + "," + m + "," + c
    requires !Contains(a, ",") && !Contains(c, ",")
    ensures PublicationOf(pubInfo) == Publication(Some(Strip(a)), Some(Strip(c)), Some(Strip(m)))
  {
    PublicationViaPieces(pubInfo);
    PiecesOfThree(a, m, c);
  }

  lemma PiecesOfThree(a: string, m: string, c: string)
    requires !Contains(a, ",") && !Contains(c, ",")
    ensures PublisherPieces(a + "," + m + "," + c) == Publication(Some(Strip(a)), Some(Strip(c)), Some(Strip(m)))
  {
    var part := a + "," + m + "," + c;
    ThreePieces(a, m, c);
    CommaAfter(a, m + "," + c);
    assert part == a + "," + (m + "," + c);
    ThreeFromParts(PublisherPieces(part), Split(part, ","), a, m, c);
  }

  /** The publication read from the pieces `[a] + Split(m, ",") + [c]`. */
  lemma ThreeFromParts(p: Publication, parts: seq<string>, a: string, m: string, c: string)
    requires parts == [a] + Split(m, ",") + [c]
    requires var n := |parts|;
      p == Publication(Some(Strip(parts[0])),
                       if n > 1 then Some(Strip(parts[n - 1])) else None,
                       if n > 2 then Some(Strip(Join(",", parts[1..n - 1]))) else None)
    ensures p == Publication(Some(Strip(a)), Some(Strip(c)), Some(Strip(m)))
  {
    MiddlePieces([a], Split(m, ","), [c]);
    JoinSplit(m, ",");
  }

  /** The pieces of `[a] + ms + [c]`: first, last and those in between. */
  lemma MiddlePieces(a: seq<string>, ms: seq<string>, c: seq<string>)
    requires |a| == 1 && |c| == 1 && |ms| >= 1
    ensures var parts := a + ms + c;
      |parts| > 2 && parts[0] == a[0] && parts[|parts| - 1] == c[0] && parts[1..|parts| - 1] == ms
  {
    var parts := a + ms + c;
    assert parts[1..|parts| - 1] == ms;
  }

  /** A text with a comma after a first piece contains a comma. */
  lemma CommaAfter(a: string, rest: string)
    ensures Contains(a + "," + rest, ",")
  {
    var t := a + "," + rest;
    assert t[|a|..|a| + 1] == ",";
    ContainsAt(t, ",", |a|);
  }

  lemma ThreePieces(a: string, m: string, c: string)
    requires !Contains(a, ",") && !Contains(c, ",")
    ensures Split(a + "," + m + "," + c, ",") == [a] + Split(m, ",") + [c]
  {
    assert a + "," + m + "," + c == (a + [','] + m) + [','] + c;
    SplitSnoc(a + [','] + m, ',', c);
    SplitCons(a, ',', m);
  }

  /** Stripping a string without commas leaves none. */
  lemma StripNoComma(s: string)
    requires !Contains(s, ",")
    ensures !Contains(Strip(s), ",")
  {
    StripInside(s);
    NoCharInside(s, ',');
    var off := |s| - |LStrip(s)|;
    forall k | 0 <= k < |Strip(s)| ensures Strip(s)[k] != ',' {
      assert Strip(s)[k] == s[off + k];
    }
    CharFreeNotContains(Strip(s), ',');
  }


  /** `Strip(s)` is the window of `s` that starts after the leading spaces. */
  lemma StripInside(s: string)
    ensures |LStrip(s)| <= |s| && |Strip(s)| <= |LStrip(s)|
    ensures Strip(s) == s[|s| - |LStrip(s)|..|s| - |LStrip(s)| + |Strip(s)|]
  {
    LStripSpec(s);
    RStripSpec(LStrip(s));
  }

  /** Three or more comma pieces: the first, a comma, the joined middle pieces, a comma and the last. */
  lemma PiecesThree(parts: seq<string>)
    requires |parts| > 2
    ensures Join(",", parts) == parts[0] + "," + Join(",", parts[1..|parts| - 1]) + "," + parts[|parts| - 1]
  {
    var init, last := parts[..|parts| - 1], parts[|parts| - 1];
    assert parts == init + [last];
    JoinSnoc(",", init, last);
    JoinCons(",", init);
    assert init[1..] == parts[1..|parts| - 1];
  }

  /** Two or more parts: the first, the separator, then the rest joined. */
  lemma JoinCons(sep: string, parts: seq<string>)
    requires |parts| > 1
    ensures Join(sep, parts) == parts[0] + sep + Join(sep, parts[1..])
  {
  }

}
