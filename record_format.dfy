/**
 * The record formatters of the command-line tool: `format_record_ris`, the
 * `text` and `zotero` branches of `format_record`, and the page hint that
 * `search_sru_endpoint` prints after the results.
 *
 * Every formatter reads `record.editors`, but neither record class declares
 * that attribute, so each raises `AttributeError` on every record the
 * clients return (`Record.editors` is `None` for them).  The `...AsWritten`
 * members model that; the other members format the record with its editors
 * taken as an empty list when the attribute is missing, which is what the
 * formatters evidently mean.
 */
module RecordFormat {
  import opened Wrappers
  import opened Text
  import opened Biblio

  /** The editors the corrected formatters use: none when the record has no `editors` attribute. */
  function EditorsOf(record: Record): seq<string> {
    record.editors.GetOr([])
  }

  // ---------------------------------------------------------------- names

  /** A name as `Last, First`: names with a comma or a single word are kept, `First Middle Last` is turned around. */
  function LastFirst(name: string): (r: string)
    ensures Contains(name, ",") || |Words(name)| <= 1 ==> r == name
    ensures !Contains(name, ",") && |Words(name)| > 1 ==>
      StartsWith(r, Words(name)[|Words(name)| - 1] + ", ") && Contains(r, ",")
  {
    if Contains(name, ",") then name
    else
      var words := Words(name);
      if |words| > 1 then
        var last := words[|words| - 1];
        var r := last + ", " + Join(" ", words[..|words| - 1]);
        assert r[..|last + ", "|] == last + ", ";
        assert r[|last|..|last| + 1] == ",";
        ContainsAt(r, ",", |last|);
        r
      else name
  }

  /** Turning a name around once is enough: the result is left alone by a second pass. */
  lemma LastFirstIdempotent(name: string)
    ensures LastFirst(LastFirst(name)) == LastFirst(name)
  {
    if !Contains(name, ",") {
      var words := Words(name);
      if |words| > 1 {
        var last := words[|words| - 1];
        var r := last + ", " + Join(" ", words[..|words| - 1]);
        assert r[|last|..|last| + 1] == ",";
        ContainsAt(r, ",", |last|);
      }
    }
  }

  /** The Zotero `lastName` and `firstName` of a name. */
  datatype NameParts = NameParts(lastName: string, firstName: string)

  /**
   * With a comma: the stripped text before the first comma and after it.
   * Otherwise the last word and the words before it; a name of one word (or
   * none) is the last name as given, with an empty first name.
   */
  function ZoteroName(name: string): (r: NameParts)
    ensures !Contains(name, ",") ==> (r.firstName == "" <==> |Words(name)| <= 1)
    ensures !Contains(name, ",") && |Words(name)| > 1 ==> r.lastName == Words(name)[|Words(name)| - 1]
    ensures !Contains(name, ",") && |Words(name)| <= 1 ==> r.lastName == name
  {
    match SplitOnce(name, ",")
    case Some((before, after)) => NameParts(Strip(before), Strip(after))
    case None =>
      var words := Words(name);
      if |words| > 1 then
        JoinNonEmpty(" ", words[..|words| - 1]);
        NameParts(words[|words| - 1], Join(" ", words[..|words| - 1]))
      else NameParts(name, "")
  }

  /**
   * The two formatters split names alike: a name the RIS output turns
   * around reads `lastName, firstName` of the Zotero split, and a name
   * with a comma splits at that comma.
   */
  lemma ZoteroNameRule(name: string)
    ensures !Contains(name, ",") && |Words(name)| > 1 ==>
      LastFirst(name) == ZoteroName(name).lastName + ", " + ZoteroName(name).firstName
    ensures !Contains(name, ",") && |Words(name)| <= 1 ==> ZoteroName(name) == NameParts(name, "")
    ensures forall a, b :: name == a + "," + b && !Contains(a, ",") ==> ZoteroName(name) == NameParts(Strip(a), Strip(b))
  {
    forall a, b | name == a + "," + b && !Contains(a, ",")
      ensures ZoteroName(name) == NameParts(Strip(a), Strip(b))
    {
      NoCharInside(a, ',');
      SplitOnceChar(a, ',', b);
    }
  }

  // ---------------------------------------------------------------- RIS

  /** `JOUR` with an ISSN, else `CHAP` in a series, else `BOOK`. */
  function RisType(record: Record): (t: string)
    ensures t == "JOUR" <==> Truthy(record.issn)
    ensures t == "CHAP" <==> !Truthy(record.issn) && Truthy(record.series)
    ensures t == "BOOK" <==> !Truthy(record.issn) && !Truthy(record.series)
  {
    if Truthy(record.issn) then "JOUR" else if Truthy(record.series) then "CHAP" else "BOOK"
  }

  /** 1 for a set field, 0 for an empty or missing one. */
  function Present(o: Option<string>): nat {
    if Truthy(o) then 1 else 0
  }

  /** `r` starts with `ris`. */
  predicate Extends(r: seq<string>, ris: seq<string>) {
    |ris| <= |r| && r[..|ris|] == ris
  }

  lemma ExtendsTrans(c: seq<string>, b: seq<string>, a: seq<string>)
    requires Extends(c, b) && Extends(b, a)
    ensures Extends(c, a)
  {
    assert c[..|a|] == c[..|b|][..|a|];
  }

  /** `ris` with a `tag` line appended when the field is set. */
  function AddOpt(ris: seq<string>, tag: string, o: Option<string>): (r: seq<string>)
    ensures |r| == |ris| + Present(o) && Extends(r, ris)
    ensures Truthy(o) ==> r[|ris|] == tag + o.value
  {
    if Truthy(o) then ris + [tag + o.value] else ris
  }

  /** `ris` with one `tag` line per name appended, each name turned around. */
  function AddNames(ris: seq<string>, tag: string, names: seq<string>): (r: seq<string>)
    ensures |r| == |ris| + |names| && Extends(r, ris)
  {
    if names == [] then ris
    else
      var init := AddNames(ris, tag, names[..|names| - 1]);
      ExtendsTrans(init + [tag + LastFirst(names[|names| - 1])], init, ris);
      init + [tag + LastFirst(names[|names| - 1])]
  }

  /** The appended lines are the names in order, each turned around. */
  lemma {:induction false} AddNamesIndex(ris: seq<string>, tag: string, names: seq<string>, i: nat)
    requires i < |names|
    ensures AddNames(ris, tag, names)[|ris| + i] == tag + LastFirst(names[i])
    decreases |names|
  {
    var init := AddNames(ris, tag, names[..|names| - 1]);
    if i < |names| - 1 {
      AddNamesIndex(ris, tag, names[..|names| - 1], i);
      assert AddNames(ris, tag, names)[|ris| + i] == init[|ris| + i];
    }
  }

  /** `ris` with one `tag` line per item appended. */
  function AddItems(ris: seq<string>, tag: string, items: seq<string>): (r: seq<string>)
    ensures |r| == |ris| + |items| && Extends(r, ris)
  {
    if items == [] then ris
    else
      var init := AddItems(ris, tag, items[..|items| - 1]);
      ExtendsTrans(init + [tag + items[|items| - 1]], init, ris);
      init + [tag + items[|items| - 1]]
  }

  /** The appended lines are the items in order. */
  lemma {:induction false} AddItemsIndex(ris: seq<string>, tag: string, items: seq<string>, i: nat)
    requires i < |items|
    ensures AddItems(ris, tag, items)[|ris| + i] == tag + items[i]
    decreases |items|
  {
    var init := AddItems(ris, tag, items[..|items| - 1]);
    if i < |items| - 1 {
      AddItemsIndex(ris, tag, items[..|items| - 1], i);
      assert AddItems(ris, tag, items)[|ris| + i] == init[|ris| + i];
    }
  }

  function RisHead(record: Record): seq<string> {
    ["TY  - " + RisType(record), "ID  - " + Show(record.id), "TI  - " + record.title]
  }

  /** The single-valued fields between the editors and the URLs: the year twice (`PY`, `Y1`), then seven more. */
  function MiddleCount(record: Record): nat {
    2 * Present(record.year) + Present(record.publisherName) + Present(record.placeOfPublication)
    + Present(record.isbn) + Present(record.issn) + Present(record.edition) + Present(record.series)
    + Present(record.language)
  }

  function AddYear(ris: seq<string>, record: Record): (r: seq<string>)
    ensures |r| == |ris| + 2 * Present(record.year) && Extends(r, ris)
  {
    if Truthy(record.year) then ris + ["PY  - " + record.year.value] + ["Y1  - " + record.year.value + "///"] else ris
  }

  /** The year, publisher, place, ISBN, ISSN, edition, series and language lines. */
  function AddMiddle(ris: seq<string>, record: Record): (r: seq<string>)
    ensures |r| == |ris| + MiddleCount(record) && Extends(r, ris)
  {
    var r1 := AddYear(ris, record);
    var r2 := AddOpt(r1, "PB  - ", record.publisherName);
    var r3 := AddOpt(r2, "CY  - ", record.placeOfPublication);
    var r4 := AddOpt(r3, "SN  - ", record.isbn);
    var r5 := AddOpt(r4, "SN  - ", record.issn);
    var r6 := AddOpt(r5, "ET  - ", record.edition);
    var r7 := AddOpt(r6, "T2  - ", record.series);
    var r8 := AddOpt(r7, "LA  - ", record.language);
    ExtendsTrans(r2, r1, ris);
    ExtendsTrans(r3, r2, ris);
    ExtendsTrans(r4, r3, ris);
    ExtendsTrans(r5, r4, ris);
    ExtendsTrans(r6, r5, ris);
    ExtendsTrans(r7, r6, ris);
    ExtendsTrans(r8, r7, ris);
    r8
  }

  /** The number of lines from the URLs to the end marker. */
  function TailCount(record: Record): nat {
    |record.urls| + Present(record.abstractText) + |record.subjects| + Present(record.format) + Present(record.extent) + 1
  }

  /** The URL, abstract, keyword and note lines, then `ER  - `. */
  function AddTail(ris: seq<string>, record: Record): (r: seq<string>)
    ensures |r| == |ris| + TailCount(record) && Extends(r, ris) && r[|r| - 1] == "ER  - "
  {
    var t1 := AddItems(ris, "UR  - ", record.urls);
    var t2 := AddOpt(t1, "AB  - ", record.abstractText);
    var t3 := AddItems(t2, "KW  - ", record.subjects);
    var t4 := AddOpt(t3, "N1  - Format: ", record.format);
    var t5 := AddOpt(t4, "N1  - Extent: ", record.extent);
    ExtendsTrans(t2, t1, ris);
    ExtendsTrans(t3, t2, ris);
    ExtendsTrans(t4, t3, ris);
    ExtendsTrans(t5, t4, ris);
    ExtendsTrans(t5 + ["ER  - "], t5, ris);
    t5 + ["ER  - "]
  }

  /** The lines of the RIS entry of `record` with the given editors. */
  function RisLines(record: Record, editors: seq<string>): seq<string> {
    AddTail(AddMiddle(AddNames(AddNames(RisHead(record), "AU  - ", record.authors), "ED  - ", editors), record), record)
  }

  /** A line of a prefix is the same line of the whole. */
  lemma ExtendsIndex(r: seq<string>, ris: seq<string>, k: nat)
    requires Extends(r, ris) && k < |ris|
    ensures r[k] == ris[k]
  {
    assert r[k] == r[..|ris|][k];
  }

  /** Whatever is appended after a name block keeps it in place. */
  lemma NamesInside(lines: seq<string>, ris: seq<string>, tag: string, names: seq<string>)
    requires Extends(lines, AddNames(ris, tag, names))
    ensures forall i :: 0 <= i < |names| ==> lines[|ris| + i] == tag + LastFirst(names[i])
  {
    forall i: nat | i < |names|
      ensures lines[|ris| + i] == tag + LastFirst(names[i])
    {
      AddNamesIndex(ris, tag, names, i);
      ExtendsIndex(lines, AddNames(ris, tag, names), |ris| + i);
    }
  }

  /** The author block follows the three head lines, in order. */
  lemma RisAuthors(record: Record, editors: seq<string>)
    ensures var lines := RisLines(record, editors);
      forall i :: 0 <= i < |record.authors| ==> lines[3 + i] == "AU  - " + LastFirst(record.authors[i])
  {
    var head := RisHead(record);
    var withAuthors := AddNames(head, "AU  - ", record.authors);
    var withEditors := AddNames(withAuthors, "ED  - ", editors);
    var middle := AddMiddle(withEditors, record);
    ExtendsTrans(AddTail(middle, record), middle, withEditors);
    ExtendsTrans(AddTail(middle, record), withEditors, withAuthors);
    NamesInside(AddTail(middle, record), head, "AU  - ", record.authors);
  }

  /** The editor block follows the authors, in order. */
  lemma RisEditors(record: Record, editors: seq<string>)
    ensures forall j :: 0 <= j < |editors| ==>
      RisLines(record, editors)[3 + |record.authors| + j] == "ED  - " + LastFirst(editors[j])
  {
    EditorsExtended(record, editors);
    forall j | 0 <= j < |editors|
      ensures RisLines(record, editors)[3 + |record.authors| + j] == "ED  - " + LastFirst(editors[j])
    {
      EditorLine(RisLines(record, editors), record, editors, j);
    }
  }

  /** Editor `j` is on the line after the three head lines, the authors and the editors before it. */
  lemma {:induction false} EditorLine(lines: seq<string>, record: Record, editors: seq<string>, j: nat)
    requires Extends(lines, AddNames(AddNames(RisHead(record), "AU  - ", record.authors), "ED  - ", editors))
    requires j < |editors|
    ensures lines[3 + |record.authors| + j] == "ED  - " + LastFirst(editors[j])
  {
    assert |RisHead(record)| == 3;
    SecondBlockLine(lines, RisHead(record), "AU  - ", record.authors, "ED  - ", editors, j);
  }

  /** In lines extending two name blocks after `head`, name `j` of the second block follows `head` and the first block. */
  lemma {:induction false} SecondBlockLine(lines: seq<string>, head: seq<string>, tag1: string, first: seq<string>,
                                           tag2: string, second: seq<string>, j: nat)
    requires Extends(lines, AddNames(AddNames(head, tag1, first), tag2, second)) && j < |second|
    ensures lines[|head| + |first| + j] == tag2 + LastFirst(second[j])
  {
    BlockLine(lines, AddNames(head, tag1, first), tag2, second, j, |head| + |first| + j);
  }

  /** Line `k` of lines extending a name block is name `j`'s line when `k` is `j` past the block's start. */
  lemma {:induction false} BlockLine(lines: seq<string>, base: seq<string>, tag: string, names: seq<string>, j: nat, k: nat)
    requires Extends(lines, AddNames(base, tag, names)) && j < |names| && k == |base| + j
    ensures lines[k] == tag + LastFirst(names[j])
  {
    AddNamesIndex(base, tag, names, j);
    ExtendsIndex(lines, AddNames(base, tag, names), k);
  }

  /** The entry starts with the head, the authors and the editors. */
  lemma EditorsExtended(record: Record, editors: seq<string>)
    ensures Extends(RisLines(record, editors), AddNames(AddNames(RisHead(record), "AU  - ", record.authors), "ED  - ", editors))
  {
    var withEditors := AddNames(AddNames(RisHead(record), "AU  - ", record.authors), "ED  - ", editors);
    var middle := AddMiddle(withEditors, record);
    ExtendsTrans(AddTail(middle, record), middle, withEditors);
  }

  /**
   * `format_record_ris`: the entry opens with its type, id and title, lists
   * the authors and then the editors in order, each turned around, and
   * closes with `ER  - `; there is one line per author, editor, URL and
   * subject, two for a year and one for each other set field.
   */
  lemma RisShape(record: Record, editors: seq<string>)
    ensures var lines := RisLines(record, editors);
      && |lines| == 3 + |record.authors| + |editors| + MiddleCount(record) + TailCount(record)
      && lines[0] == "TY  - " + RisType(record)
      && lines[1] == "ID  - " + Show(record.id)
      && lines[2] == "TI  - " + record.title
      && lines[|lines| - 1] == "ER  - "
      && (forall i :: 0 <= i < |record.authors| ==> lines[3 + i] == "AU  - " + LastFirst(record.authors[i]))
      && (forall j :: 0 <= j < |editors| ==> lines[3 + |record.authors| + j] == "ED  - " + LastFirst(editors[j]))
  {
    var head := RisHead(record);
    var withAuthors := AddNames(head, "AU  - ", record.authors);
    var withEditors := AddNames(withAuthors, "ED  - ", editors);
    var middle := AddMiddle(withEditors, record);
    var lines := AddTail(middle, record);
    assert lines == RisLines(record, editors);
    ExtendsTrans(lines, middle, withEditors);
    ExtendsTrans(lines, withEditors, withAuthors);
    ExtendsTrans(lines, withAuthors, head);
    ExtendsIndex(lines, head, 0);
    ExtendsIndex(lines, head, 1);
    ExtendsIndex(lines, head, 2);
    RisAuthors(record, editors);
    RisEditors(record, editors);
  }

  /** An ISBN and an ISSN each give an `SN` line, the ISBN first. */
  lemma RisStandardNumbers(ris: seq<string>, record: Record)
    requires Truthy(record.isbn) && Truthy(record.issn)
    ensures var m := AddMiddle(ris, record);
      var k := |ris| + 2 * Present(record.year) + Present(record.publisherName) + Present(record.placeOfPublication);
      k + 1 < |m| && m[k] == "SN  - " + record.isbn.value && m[k + 1] == "SN  - " + record.issn.value
  {
    var r3 := AddOpt(AddOpt(AddYear(ris, record), "PB  - ", record.publisherName), "CY  - ", record.placeOfPublication);
    var r4 := AddOpt(r3, "SN  - ", record.isbn);
    var r5 := AddOpt(r4, "SN  - ", record.issn);
    var r8 := AddOpt(AddOpt(AddOpt(r5, "ET  - ", record.edition), "T2  - ", record.series), "LA  - ", record.language);
    assert AddMiddle(ris, record) == r8;
    ExtendsTrans(AddOpt(r5, "ET  - ", record.edition), r5, r4);
    ExtendsTrans(AddOpt(AddOpt(r5, "ET  - ", record.edition), "T2  - ", record.series), AddOpt(r5, "ET  - ", record.edition), r4);
    ExtendsTrans(r8, AddOpt(AddOpt(r5, "ET  - ", record.edition), "T2  - ", record.series), r4);
    ExtendsTrans(r8, AddOpt(r5, "ET  - ", record.edition), r5);
    ExtendsTrans(r8, AddOpt(AddOpt(r5, "ET  - ", record.edition), "T2  - ", record.series), r5);
    assert r8[|r3|] == r8[..|r4|][|r3|];
    assert r8[|r4|] == r8[..|r5|][|r4|];
  }

  /** `if field: lines.append(tag + field)`. */
  method AppendOpt(lines: seq<string>, tag: string, o: Option<string>) returns (out: seq<string>)
    ensures out == AddOpt(lines, tag, o)
  {
    out := lines;
    if Truthy(o) {
      out := out + [tag + o.value];
    }
  }

  /** Appends one turned-around `tag` line per name. */
  method AppendNames(ris: seq<string>, tag: string, names: seq<string>) returns (out: seq<string>)
    ensures out == AddNames(ris, tag, names)
  {
    out := ris;
    for i := 0 to |names|
      invariant out == AddNames(ris, tag, names[..i])
    {
      assert names[..i + 1][..i] == names[..i] && names[..i + 1][i] == names[i];
      out := out + [tag + LastFirst(names[i])];
    }
    assert names[..|names|] == names;
  }

  /** Appends one `tag` line per item. */
  method AppendItems(ris: seq<string>, tag: string, items: seq<string>) returns (out: seq<string>)
    ensures out == AddItems(ris, tag, items)
  {
    out := ris;
    for i := 0 to |items|
      invariant out == AddItems(ris, tag, items[..i])
    {
      assert items[..i + 1][..i] == items[..i] && items[..i + 1][i] == items[i];
      out := out + [tag + items[i]];
    }
    assert items[..|items|] == items;
  }

  /** The middle block, appended field by field. */
  method AppendMiddle(ris: seq<string>, record: Record) returns (out: seq<string>)
    ensures out == AddMiddle(ris, record)
  {
    out := ris;
    if Truthy(record.year) {
      out := out + ["PY  - " + record.year.value];
      out := out + ["Y1  - " + record.year.value + "///"];
    }
    out := AppendOpt(out, "PB  - ", record.publisherName);
    out := AppendOpt(out, "CY  - ", record.placeOfPublication);
    out := AppendOpt(out, "SN  - ", record.isbn);
    out := AppendOpt(out, "SN  - ", record.issn);
    out := AppendOpt(out, "ET  - ", record.edition);
    out := AppendOpt(out, "T2  - ", record.series);
    out := AppendOpt(out, "LA  - ", record.language);
  }

  /** The tail block, appended field by field. */
  method AppendTail(ris: seq<string>, record: Record) returns (out: seq<string>)
    ensures out == AddTail(ris, record)
  {
    out := AppendItems(ris, "UR  - ", record.urls);
    out := AppendOpt(out, "AB  - ", record.abstractText);
    out := AppendItems(out, "KW  - ", record.subjects);
    out := AppendOpt(out, "N1  - Format: ", record.format);
    out := AppendOpt(out, "N1  - Extent: ", record.extent);
    out := out + ["ER  - "];
  }

  /** `format_record_ris` for a record whose editors are `editors`. */
  method FormatRis(record: Record, editors: seq<string>) returns (s: string)
    ensures s == Join("\n", RisLines(record, editors))
  {
    var ris := RisHead(record);
    ris := AppendNames(ris, "AU  - ", record.authors);
    ris := AppendNames(ris, "ED  - ", editors);
    ris := AppendMiddle(ris, record);
    ris := AppendTail(ris, record);
    s := Join("\n", ris);
  }

  /** `format_record_ris(record)` as written: it raises unless the record has an `editors` attribute. */
  function RisAsWritten(record: Record): (r: Attempt<string>)
    ensures r.Threw? <==> record.editors.None?
    ensures r.Returned? ==> StartsWith(r.value, "TY  - " + RisType(record))
  {
    if record.editors.None? then Threw
    else
      RisShape(record, record.editors.value);
      JoinStarts("\n", RisLines(record, record.editors.value));
      Returned(Join("\n", RisLines(record, record.editors.value)))
  }

  /** `format_record_ris` with a missing `editors` attribute read as no editors. */
  function RisOf(record: Record): (s: string)
    ensures record.editors.Some? ==> RisAsWritten(record) == Returned(s)
  {
    Join("\n", RisLines(record, EditorsOf(record)))
  }

  /** Every record the clients build raises in the RIS formatter as written, and formats once corrected. */
  lemma RisRaisesForClientRecords(id: Option<string>, title: string, raw: string)
    ensures RisAsWritten(Minimal(id, title, raw)).Threw?
    ensures StartsWith(RisOf(Minimal(id, title, raw)), "TY  - BOOK")
  {
    var r := Minimal(id, title, raw);
    var lines := RisLines(r, []);
    RisShape(r, []);
    JoinStarts("\n", lines);
    assert lines[0] == "TY  - BOOK";
  }

  /** A joined list starts with its first element. */
  lemma JoinStarts(sep: string, parts: seq<string>)
    requires parts != []
    ensures StartsWith(Join(sep, parts), parts[0])
  {
    if |parts| > 1 {
      assert Join(sep, parts)[..|parts[0]|] == parts[0];
    }
  }

  // ---------------------------------------------------------------- Zotero

  datatype Creator = Creator(creatorType: string, lastName: string, firstName: string)

  /** The Zotero item the `zotero` branch serialises (the JSON text itself is not modelled). */
  datatype ZoteroItem = ZoteroItem(
    itemType: string,
    title: string,
    creators: seq<Creator>,
    date: Option<string>,
    publisher: Option<string>,
    place: Option<string>,
    isbn: Option<string>,
    issn: Option<string>,
    series: Option<string>,
    edition: Option<string>,
    language: Option<string>,
    url: string,
    abstractNote: Option<string>,
    tags: seq<string>)

  /** One creator of the given type per name. */
  function Creators(kind: string, names: seq<string>): (r: seq<Creator>)
    ensures |r| == |names|
    ensures forall i :: 0 <= i < |names| ==>
      r[i] == Creator(kind, ZoteroName(names[i]).lastName, ZoteroName(names[i]).firstName)
  {
    if names == [] then []
    else
      var n := ZoteroName(names[|names| - 1]);
      Creators(kind, names[..|names| - 1]) + [Creator(kind, n.lastName, n.firstName)]
  }

  /** The item for a record and its editors: one creator per author and editor, and the record's title. */
  function ZoteroItemOf(record: Record, editors: seq<string>): (z: ZoteroItem)
    ensures z.itemType == "journalArticle" <==> Truthy(record.issn)
    ensures z.title == record.title && |z.creators| == |record.authors| + |editors|
  {
    ZoteroItem(
      if Truthy(record.issn) then "journalArticle" else "book",
      record.title,
      Creators("author", record.authors) + Creators("editor", editors),
      record.year, record.publisherName, record.placeOfPublication, record.isbn, record.issn,
      record.series, record.edition, record.language,
      if record.urls != [] then record.urls[0] else "",
      record.abstractText,
      record.subjects)
  }

  /** The loops over authors and editors, appending one creator each. */
  method ZoteroCreators(authors: seq<string>, editors: seq<string>) returns (creators: seq<Creator>)
    ensures creators == Creators("author", authors) + Creators("editor", editors)
  {
    creators := [];
    for i := 0 to |authors|
      invariant creators == Creators("author", authors[..i])
    {
      CreatorsSnoc("author", authors, i);
      var n := ZoteroName(authors[i]);
      creators := creators + [Creator("author", n.lastName, n.firstName)];
    }
    assert authors[..|authors|] == authors;
    for j := 0 to |editors|
      invariant creators == Creators("author", authors) + Creators("editor", editors[..j])
    {
      CreatorsSnoc("editor", editors, j);
      var n := ZoteroName(editors[j]);
      ConcatAssoc(Creators("author", authors), Creators("editor", editors[..j]), [Creator("editor", n.lastName, n.firstName)]);
      creators := creators + [Creator("editor", n.lastName, n.firstName)];
    }
    assert editors[..|editors|] == editors;
  }

  /**
   * The item is a journal article exactly when the record has an ISSN; the
   * authors come first as `author` creators, then the editors, each split
   * like `ZoteroName`; the URL is the first one or empty.
   */
  lemma ZoteroShape(record: Record, editors: seq<string>)
    ensures var z := ZoteroItemOf(record, editors);
      && (z.itemType == "journalArticle" <==> Truthy(record.issn))
      && |z.creators| == |record.authors| + |editors|
      && (forall i :: 0 <= i < |record.authors| ==>
            (z.creators[i].creatorType == "author" && z.creators[i].lastName == ZoteroName(record.authors[i]).lastName))
      && (forall j :: 0 <= j < |editors| ==>
            (z.creators[|record.authors| + j].creatorType == "editor"
             && z.creators[|record.authors| + j].lastName == ZoteroName(editors[j]).lastName))
      && (record.urls == [] ==> z.url == "")
      && (record.urls != [] ==> z.url == record.urls[0])
  {
    CreatorsSplit(record.authors, editors);
  }

  lemma CreatorsSnoc(kind: string, names: seq<string>, i: nat)
    requires i < |names|
    ensures Creators(kind, names[..i + 1]) ==
      Creators(kind, names[..i]) + [Creator(kind, ZoteroName(names[i]).lastName, ZoteroName(names[i]).firstName)]
  {
    assert names[..i + 1][..i] == names[..i];
  }

  /** The author creators come first, the editor creators after them. */
  lemma CreatorsSplit(authors: seq<string>, editors: seq<string>)
    ensures var c := Creators("author", authors) + Creators("editor", editors);
      && |c| == |authors| + |editors|
      && (forall i :: 0 <= i < |authors| ==>
            (c[i].creatorType == "author" && c[i].lastName == ZoteroName(authors[i]).lastName))
      && (forall j :: 0 <= j < |editors| ==>
            (c[|authors| + j].creatorType == "editor" && c[|authors| + j].lastName == ZoteroName(editors[j]).lastName))
  {
    var a := Creators("author", authors);
    var e := Creators("editor", editors);
    forall j | 0 <= j < |editors|
      ensures (a + e)[|authors| + j] == e[j]
    {
    }
  }

  /** The `zotero` branch as written: it raises at the editors loop unless the record has `editors`. */
  function ZoteroAsWritten(record: Record): (r: Attempt<ZoteroItem>)
    ensures r.Threw? <==> record.editors.None?
    ensures r.Returned? ==> |r.value.creators| == |record.authors| + |record.editors.value|
  {
    if record.editors.None? then Threw else Returned(ZoteroItemOf(record, record.editors.value))
  }

  /** The `zotero` branch with a missing `editors` attribute read as no editors. */
  function ZoteroOf(record: Record): (z: ZoteroItem)
    ensures record.editors.Some? ==> ZoteroAsWritten(record) == Returned(z)
    ensures record.editors.None? ==> z.creators == Creators("author", record.authors)
  {
    ZoteroItemOf(record, EditorsOf(record))
  }

  /** With no `editors` attribute the branch as written raises; corrected, every author is a creator. */
  lemma ZoteroRaisesForClientRecords(record: Record)
    requires record.editors.None?
    ensures ZoteroAsWritten(record).Threw?
    ensures |ZoteroOf(record).creators| == |record.authors|
  {
  }

  // ---------------------------------------------------------------- text

  /** `s`, or its first `limit - 3` characters and `...` when it is longer than `limit`. */
  function Truncate(s: string, limit: nat): (r: string)
    requires limit >= 3
    ensures |s| <= limit ==> r == s
    ensures |s| > limit ==> |r| == limit && r[..limit - 3] == s[..limit - 3] && r[limit - 3..] == "..."
  {
    if |s| > limit then s[..limit - 3] + "..." else s
  }

  /** At most five subjects, and how many more there are. */
  function SubjectsText(subjects: seq<string>): (t: string)
    ensures |subjects| <= 5 ==> t == Join(", ", subjects)
    ensures |subjects| > 5 ==>
      StartsWith(t, Join(", ", subjects[..5])) && t[|Join(", ", subjects[..5])|..] == ", ... (" + IntToString(|subjects| - 5) + " more)"
  {
    if |subjects| > 5 then Join(", ", subjects[..5]) + ", ... (" + IntToString(|subjects| - 5) + " more)"
    else Join(", ", subjects)
  }

  /** The URL lines: one `URL:` line, or a `URLs:` line and one indented line per URL. */
  function AddUrls(lines: seq<string>, urls: seq<string>): (r: seq<string>)
    ensures Extends(r, lines)
    ensures |urls| == 0 ==> r == lines
    ensures |urls| == 1 ==> r == lines + ["URL: " + urls[0]]
    ensures |urls| > 1 ==> |r| == |lines| + 1 + |urls| && r[|lines|] == "URLs:"
  {
    if |urls| == 1 then lines + ["URL: " + urls[0]]
    else if |urls| > 1 then
      var head := lines + ["URLs:"];
      ExtendsTrans(AddItems(head, "  - ", urls), head, lines);
      assert AddItems(head, "  - ", urls)[|lines|] == AddItems(head, "  - ", urls)[..|head|][|lines|];
      AddItems(head, "  - ", urls)
    else lines
  }

  /** The labelled single-valued fields from year to language. */
  function AddFields(lines: seq<string>, record: Record): (r: seq<string>)
    ensures Extends(r, lines)
  {
    var r1 := AddOpt(lines, "Year: ", record.year);
    var r2 := AddOpt(r1, "Place of Publication: ", record.placeOfPublication);
    var r3 := AddOpt(r2, "Publisher: ", record.publisherName);
    var r4 := AddOpt(r3, "Edition: ", record.edition);
    var r5 := AddOpt(r4, "Series: ", record.series);
    var r6 := AddOpt(r5, "Extent: ", record.extent);
    var r7 := AddOpt(r6, "ISBN: ", record.isbn);
    var r8 := AddOpt(r7, "ISSN: ", record.issn);
    var r9 := AddOpt(r8, "Language: ", record.language);
    ExtendsTrans(r2, r1, lines);
    ExtendsTrans(r3, r2, lines);
    ExtendsTrans(r4, r3, lines);
    ExtendsTrans(r5, r4, lines);
    ExtendsTrans(r6, r5, lines);
    ExtendsTrans(r7, r6, lines);
    ExtendsTrans(r8, r7, lines);
    ExtendsTrans(r9, r8, lines);
    r9
  }

  /** The title, author, editor, field and subject lines. */
  function AddHead(record: Record, editors: seq<string>): (r: seq<string>)
    ensures Extends(r, ["Title: " + record.title])
  {
    var r0 := ["Title: " + record.title];
    var r1 := if record.authors != [] then r0 + ["Author(s): " + Join(", ", record.authors)] else r0;
    var r2 := if editors != [] then r1 + ["Editor(s): " + Join(", ", editors)] else r1;
    var r3 := AddFields(r2, record);
    var r4 := if record.subjects != [] then r3 + ["Subjects: " + SubjectsText(record.subjects)] else r3;
    assert Extends(r2, r0) by { ExtendsTrans(r2, r1, r0); }
    ExtendsTrans(r3, r2, r0);
    ExtendsTrans(r4, r3, r0);
    r4
  }

  /** The lines of the `text` format; `showRaw` is `include_raw or verbose`. */
  function TextLines(record: Record, editors: seq<string>, showRaw: bool): seq<string> {
    var r1 := AddUrls(AddHead(record, editors), record.urls);
    var r2 := if Truthy(record.abstractText) then r1 + ["Abstract: " + Truncate(record.abstractText.value, 300)] else r1;
    if showRaw then r2 + ["\nRaw Data:", Truncate(record.rawData, 2000)] else r2
  }

  /**
   * The text starts with the title line; with `showRaw` it ends with the raw
   * data, cut to 2000 characters; an abstract is shown cut to 300.
   */
  lemma TextBounds(record: Record, editors: seq<string>, showRaw: bool)
    ensures var lines := TextLines(record, editors, showRaw);
      && lines != [] && lines[0] == "Title: " + record.title
      && (showRaw ==> |lines| >= 3 && lines[|lines| - 1] == Truncate(record.rawData, 2000)
                      && lines[|lines| - 2] == "\nRaw Data:" && |lines[|lines| - 1]| <= 2000)
      && (Truthy(record.abstractText) ==>
            "Abstract: " + Truncate(record.abstractText.value, 300) in lines
            && |Truncate(record.abstractText.value, 300)| <= 300)
  {
    var head := AddHead(record, editors);
    var r1 := AddUrls(head, record.urls);
    var r2 := if Truthy(record.abstractText) then r1 + ["Abstract: " + Truncate(record.abstractText.value, 300)] else r1;
    var lines := TextLines(record, editors, showRaw);
    ExtendsTrans(r1, head, ["Title: " + record.title]);
    assert Extends(lines, r2);
    assert Extends(r2, r1);
    ExtendsTrans(lines, r2, r1);
    ExtendsTrans(lines, r1, ["Title: " + record.title]);
    assert lines[0] == lines[..1][0];
    if Truthy(record.abstractText) {
      assert lines[|r1|] == lines[..|r2|][|r1|];
    }
  }

  /** The `text` branch, appending line by line. */
  method FormatText(record: Record, editors: seq<string>, showRaw: bool) returns (s: string)
    ensures s == Join("\n", TextLines(record, editors, showRaw))
  {
    var result := ["Title: " + record.title];
    if record.authors != [] {
      result := result + ["Author(s): " + Join(", ", record.authors)];
    }
    if editors != [] {
      result := result + ["Editor(s): " + Join(", ", editors)];
    }
    result := AppendFields(result, record);
    if record.subjects != [] {
      result := result + ["Subjects: " + SubjectsText(record.subjects)];
    }
    if |record.urls| == 1 {
      result := result + ["URL: " + record.urls[0]];
    } else if |record.urls| > 1 {
      result := result + ["URLs:"];
      result := AppendItems(result, "  - ", record.urls);
    }
    if Truthy(record.abstractText) {
      result := result + ["Abstract: " + Truncate(record.abstractText.value, 300)];
    }
    if showRaw {
      result := result + ["\nRaw Data:", Truncate(record.rawData, 2000)];
    }
    s := Join("\n", result);
  }

  /** The labelled fields, appended one by one. */
  method AppendFields(lines: seq<string>, record: Record) returns (out: seq<string>)
    ensures out == AddFields(lines, record)
  {
    out := AppendOpt(lines, "Year: ", record.year);
    out := AppendOpt(out, "Place of Publication: ", record.placeOfPublication);
    out := AppendOpt(out, "Publisher: ", record.publisherName);
    out := AppendOpt(out, "Edition: ", record.edition);
    out := AppendOpt(out, "Series: ", record.series);
    out := AppendOpt(out, "Extent: ", record.extent);
    out := AppendOpt(out, "ISBN: ", record.isbn);
    out := AppendOpt(out, "ISSN: ", record.issn);
    out := AppendOpt(out, "Language: ", record.language);
  }

  /** The `text` branch as written: it raises at `record.editors` unless the record has that attribute. */
  function TextAsWritten(record: Record, showRaw: bool): (r: Attempt<string>)
    ensures r.Threw? <==> record.editors.None?
    ensures r.Returned? ==> StartsWith(r.value, "Title: " + record.title)
  {
    if record.editors.None? then Threw
    else
      TextStarts(record, record.editors.value, showRaw);
      Returned(Join("\n", TextLines(record, record.editors.value, showRaw)))
  }

  /** The `text` branch with a missing `editors` attribute read as no editors. */
  function TextOf(record: Record, showRaw: bool): (s: string)
    ensures record.editors.Some? ==> TextAsWritten(record, showRaw) == Returned(s)
    ensures StartsWith(s, "Title: " + record.title)
  {
    TextStarts(record, EditorsOf(record), showRaw);
    Join("\n", TextLines(record, EditorsOf(record), showRaw))
  }

  lemma TextStarts(record: Record, editors: seq<string>, showRaw: bool)
    ensures StartsWith(Join("\n", TextLines(record, editors, showRaw)), "Title: " + record.title)
  {
    TextBounds(record, editors, showRaw);
    JoinStarts("\n", TextLines(record, editors, showRaw));
  }

  /** With no `editors` attribute the text branch as written raises. */
  lemma TextRaisesForClientRecords(record: Record, showRaw: bool)
    requires record.editors.None?
    ensures TextAsWritten(record, showRaw).Threw?
    ensures TextOf(record, showRaw) == Join("\n", TextLines(record, [], showRaw))
  {
  }

  // ---------------------------------------------------------------- SRU paging hint

  /**
   * After `shown` results starting at `startRecord` out of `total`: how
   * many results remain and the `--start-record` for the next page, when
   * the tool prints that hint.  The next page starts right after the
   * records shown, and the remaining count is what lies from there to the
   * end.  With a start record of at least 1 the hint is printed exactly
   * when results lie beyond the page.
   */
  function MoreResults(total: int, startRecord: int, shown: nat): (r: Option<(int, int)>)
    ensures r.Some? ==> r.value.0 > 0 && r.value.1 == startRecord + shown && (r.value.1 - 1) + r.value.0 == total
    ensures startRecord >= 1 ==> (r.Some? <==> total > startRecord - 1 + shown)
  {
    if total > shown then
      var remaining := total - (startRecord - 1 + shown);
      if remaining > 0 then Some((remaining, startRecord + shown)) else None
    else None
  }
}
