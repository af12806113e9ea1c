/**
 * `SRUClient.search`: the class-level parser registry (`SRUClient.parsers`,
 * filled by the `register_parser` decorator), the choice of parser for each
 * raw record, and the fallbacks that turn a failed parse into a minimal
 * record.
 *
 * The Dublin Core, MARCXML and generic parsers of the SRU client all end by
 * calling `BiblioRecord(..., publisher=...)`, a keyword the dataclass does
 * not declare (its field is `publisher_name`), so each of them raises
 * `TypeError` on every input.  Only the RDF/XML parser, and a parser the
 * caller supplies, can return a record.
 */
module SruDispatch {
  import opened Wrappers
  import opened Text
  import opened Biblio
  import opened SruClient
  import opened Xml
  import SruRdf

  /** A record parser: one of the four the module registers, or a function the caller supplies. */
  datatype SruParser =
    | DublinCoreParser
    | MarcXmlParser
    | RdfXmlParser
    | UserParser(run: RawRecord -> ParseOutcome)

  /** `_generic_parse`: its closing `BiblioRecord(publisher=...)` call raises. */
  function GenericParse(raw: RawRecord): (o: ParseOutcome)
    ensures o.Raised?
  {
    Raised
  }

  /** Calling a parser on a raw record. */
  function RunParser(p: SruParser, raw: RawRecord): ParseOutcome {
    match p
    case DublinCoreParser => Raised
    case MarcXmlParser => Raised
    case RdfXmlParser => SruRdf.RdfXml(raw)
    case UserParser(run) => run(raw)
  }

  /** The registry once the module has run its decorators. */
  const BuiltinParsers: map<string, SruParser> := map[
    "info:srw/schema/1/dc-v1.1" := DublinCoreParser,
    "dc" := DublinCoreParser,
    "dublincore" := DublinCoreParser,
    "marcxml" := MarcXmlParser,
    "info:srw/schema/1/marcxml-v1.1" := MarcXmlParser,
    "MARC21-xml" := MarcXmlParser,
    "RDFxml" := RdfXmlParser]

  /** The parser `search` picks: the custom one, else the registry entry for the record's schema. */
  function Chosen(custom: Option<SruParser>, parsers: map<string, SruParser>, schema: Option<string>): Option<SruParser> {
    if custom.Some? then custom
    else if schema.Some? && schema.value in parsers then Some(parsers[schema.value])
    else None
  }

  /**
   * What parsing produced: a parser that raised is followed by
   * `_generic_parse`, which raises too, so parsing raises exactly when no
   * parser is chosen or the chosen one raises.
   */
  function Outcome(custom: Option<SruParser>, parsers: map<string, SruParser>, raw: RawRecord): (o: ParseOutcome)
    ensures o.Raised? <==> Chosen(custom, parsers, raw.schema).None? || RunParser(Chosen(custom, parsers, raw.schema).value, raw).Raised?
    ensures !o.Raised? ==> o == RunParser(Chosen(custom, parsers, raw.schema).value, raw)
  {
    match Chosen(custom, parsers, raw.schema)
    case None => GenericParse(raw)
    case Some(p) => if RunParser(p, raw).Raised? then GenericParse(raw) else RunParser(p, raw)
  }

  // ---------------------------------------------------------------- the title of last resort

  const TitleOpen := "<dc:title"
  const TitleClose := "</dc:title>"

  /**
   * A match of `<dc:title[^>]*>(.*?)</dc:title>` (with `re.DOTALL`) that
   * starts at `p`: the tag name, then everything up to the first `>` at `q`,
   * then the shortest run of text up to a closing tag at `c`.
   */
  predicate TitleMatchAt(raw: string, p: nat, q: nat, c: nat) {
    && OccursAt(raw, TitleOpen, p)
    && p + |TitleOpen| <= q && OccursAt(raw, ">", q)
    && (forall j :: p + |TitleOpen| <= j < q ==> !OccursAt(raw, ">", j))
    && q + 1 <= c && OccursAt(raw, TitleClose, c)
    && (forall j :: q + 1 <= j < c ==> !OccursAt(raw, TitleClose, j))
  }

  /**
   * `re.search` for the title pattern, trying start positions from `start`
   * on: the positions `(p, q, c)` of the match it finds.
   */
  function MatchFrom(raw: string, start: nat): (r: Option<(nat, nat, nat)>)
    ensures r.Some? ==> start <= r.value.0 && TitleMatchAt(raw, r.value.0, r.value.1, r.value.2)
    decreases |raw| + 1 - start
  {
    match FindFrom(raw, TitleOpen, start)
    case None => None
    case Some(p) =>
      match FindFrom(raw, ">", p + |TitleOpen|)
      case None => MatchFrom(raw, p + 1)
      case Some(q) =>
        match FindFrom(raw, TitleClose, q + 1)
        case None => MatchFrom(raw, p + 1)
        case Some(c) => Some((p, q, c))
  }

  /** The group `(.*?)` of the first match in `raw`, if there is one. */
  function DcTitle(raw: string): Option<string> {
    match MatchFrom(raw, 0)
    case None => None
    case Some((p, q, c)) => Some(raw[q + 1..c])
  }

  /** No match starts in `[start, p)`. */
  ghost predicate NoMatchBefore(raw: string, start: nat, p: nat) {
    forall p', q, c :: start <= p' < p ==> !TitleMatchAt(raw, p', q, c)
  }

  /** A start position at which `[^>]*>` or `(.*?)</dc:title>` cannot be matched has no match at all. */
  lemma NoMatchAt(raw: string, p: nat)
    requires OccursAt(raw, TitleOpen, p)
    requires FindFrom(raw, ">", p + |TitleOpen|).None? ||
      FindFrom(raw, TitleClose, FindFrom(raw, ">", p + |TitleOpen|).value + 1).None?
    ensures forall q, c :: !TitleMatchAt(raw, p, q, c)
  {
  }

  /**
   * The scanner agrees with the regular expression: it finds nothing exactly
   * when no match starts at or after `start`, and what it finds is the
   * leftmost match.
   */
  lemma {:induction false} MatchFromLeftmost(raw: string, start: nat)
    ensures MatchFrom(raw, start).None? ==> forall p, q, c :: start <= p ==> !TitleMatchAt(raw, p, q, c)
    ensures MatchFrom(raw, start).Some? ==> NoMatchBefore(raw, start, MatchFrom(raw, start).value.0)
    decreases |raw| + 1 - start
  {
    match FindFrom(raw, TitleOpen, start)
    case None =>
    case Some(p) =>
      var gt := FindFrom(raw, ">", p + |TitleOpen|);
      if gt.None? || FindFrom(raw, TitleClose, gt.value + 1).None? {
        NoMatchAt(raw, p);
        MatchFromLeftmost(raw, p + 1);
      }
  }

  /** The group holds no closing tag: the lazy `(.*?)` stops at the first one. */
  lemma DcTitleShortest(raw: string)
    ensures DcTitle(raw).Some? ==> !Contains(DcTitle(raw).value, TitleClose)
  {
    if MatchFrom(raw, 0).Some? {
      var (p, q, c) := MatchFrom(raw, 0).value;
      NoneInside(raw, TitleClose, q + 1, c);
    }
  }

  /** A window of `s` in which `pat` starts nowhere does not contain `pat`. */
  lemma NoneInside(s: string, pat: string, lo: nat, hi: nat)
    requires pat != [] && lo <= hi <= |s|
    requires forall j :: lo <= j < hi ==> !OccursAt(s, pat, j)
    ensures !Contains(s[lo..hi], pat)
  {
    if Contains(s[lo..hi], pat) {
      OccursInWindow(s, pat, lo, hi, Find(s[lo..hi], pat).value);
    }
  }

  /** An occurrence in a window of `s` is an occurrence in `s`. */
  lemma OccursInWindow(s: string, pat: string, lo: nat, hi: nat, j: nat)
    requires lo <= hi <= |s| && OccursAt(s[lo..hi], pat, j)
    ensures OccursAt(s, pat, lo + j) && lo + j + |pat| <= hi
  {
    var t := s[lo..hi];
    forall k | 0 <= k < |pat| ensures s[lo + j + k] == pat[k] {
      assert pat[k] == t[j..j + |pat|][k] == t[j + k];
    }
    assert s[lo + j..lo + j + |pat|] == pat;
  }

  // ---------------------------------------------------------------- one raw record

  /** The title of the record built when handling a record raised: the stripped group, else a placeholder. */
  function ErrorTitle(raw: RawRecord): string {
    match DcTitle(raw.rawXml)
    case Some(t) => Strip(t)
    case None => "Error Record " + raw.id
  }

  /** The record `search` appends for one raw record. */
  function Converted(custom: Option<SruParser>, parsers: map<string, SruParser>, raw: RawRecord): (r: Record)
    ensures Outcome(custom, parsers, raw).Parsed? ==> r == Outcome(custom, parsers, raw).record
    ensures Outcome(custom, parsers, raw).NoRecord? ==> r == Minimal(Some(raw.id), "Unparseable Record " + raw.id, raw.rawXml)
    ensures Outcome(custom, parsers, raw).Raised? ==> r == Minimal(Some(raw.id), ErrorTitle(raw), raw.rawXml)
  {
    match Outcome(custom, parsers, raw)
    case Parsed(rec) => rec
    case NoRecord => Minimal(Some(raw.id), "Unparseable Record " + raw.id, raw.rawXml)
    case Raised => Minimal(Some(raw.id), ErrorTitle(raw), raw.rawXml)
  }

  /** The records `search` builds from the raw records, in order. */
  function ConvertAll(custom: Option<SruParser>, parsers: map<string, SruParser>, raws: seq<RawRecord>): (r: seq<Record>)
    ensures |r| == |raws|
  {
    if raws == [] then []
    else ConvertAll(custom, parsers, raws[..|raws| - 1]) + [Converted(custom, parsers, raws[|raws| - 1])]
  }

  /** What `search` returns: the total from `execute_query` and one record per raw record. */
  function SearchOf(server: string -> Response, cfg: SruConfig, quote: string -> string, toXml: Element -> string,
                    custom: Option<SruParser>, parsers: map<string, SruParser>,
                    query: string, schemaArg: Option<string>, maxRecords: int, startRecord: int): (int, seq<Record>)
  {
    var (total, raws) := ExecuteQueryOf(server, cfg, quote, toXml, query, schemaArg, maxRecords, startRecord);
    (total, ConvertAll(custom, parsers, raws))
  }

  // ---------------------------------------------------------------- the registry

  /** The class-level dictionary `SRUClient.parsers`, which `register_parser` updates. */
  class SruRegistry {
    var parsers: map<string, SruParser>

    /** The registry as the module leaves it after its decorators have run. */
    constructor ()
      ensures parsers == BuiltinParsers
    {
      parsers := BuiltinParsers;
    }

    /** The decorator `SRUClient.register_parser(schema)` applied to a parser: the entry for `schema` is replaced. */
    method Register(schema: string, p: SruParser)
      modifies this
      ensures parsers == old(parsers)[schema := p]
    {
      parsers := parsers[schema := p];
    }

    /** `search` on a client whose custom parser is `custom`. */
    method Search(server: string -> Response, cfg: SruConfig, quote: string -> string, toXml: Element -> string,
                  custom: Option<SruParser>, query: string, schemaArg: Option<string>, maxRecords: int, startRecord: int)
      returns (total: int, records: seq<Record>)
      ensures (total, records) == SearchOf(server, cfg, quote, toXml, custom, parsers, query, schemaArg, maxRecords, startRecord)
    {
      var raws;
      total, raws := ExecuteQuery(server, cfg, quote, toXml, query, schemaArg, maxRecords, startRecord);
      if raws == [] {
        return total, [];
      }
      records := ConvertRecords(custom, parsers, raws);
    }
  }

  /** The loop of `search` over the raw records. */
  method ConvertRecords(custom: Option<SruParser>, parsers: map<string, SruParser>, raws: seq<RawRecord>)
    returns (records: seq<Record>)
    ensures records == ConvertAll(custom, parsers, raws)
  {
    records := [];
    for i := 0 to |raws|
      invariant records == ConvertAll(custom, parsers, raws[..i])
    {
      ConvertAllSnoc(custom, parsers, raws, i);
      var rec := ConvertRecord(custom, parsers, raws[i]);
      AppendStep(records, [rec], ConvertAll(custom, parsers, raws[..i]), [Converted(custom, parsers, raws[i])],
                 ConvertAll(custom, parsers, raws[..i + 1]));
      records := records + [rec];
    }
    assert raws[..|raws|] == raws;
  }

  /** Converting one more raw record appends its record. */
  lemma ConvertAllSnoc(custom: Option<SruParser>, parsers: map<string, SruParser>, raws: seq<RawRecord>, i: nat)
    requires i < |raws|
    ensures ConvertAll(custom, parsers, raws[..i + 1]) == ConvertAll(custom, parsers, raws[..i]) + [Converted(custom, parsers, raws[i])]
  {
    assert raws[..i + 1][..i] == raws[..i];
  }

  /** The body of that loop: choose a parser, fall back to `_generic_parse`, and build a minimal record on failure. */
  method ConvertRecord(custom: Option<SruParser>, parsers: map<string, SruParser>, raw: RawRecord) returns (r: Record)
    ensures r == Converted(custom, parsers, raw)
  {
    var parser := custom;
    if parser.None? && raw.schema.Some? && raw.schema.value in parsers {
      parser := Some(parsers[raw.schema.value]);
    }
    var outcome: ParseOutcome;
    if parser.Some? {
      outcome := RunParser(parser.value, raw);
      if outcome.Raised? {
        outcome := GenericParse(raw);
      }
    } else {
      outcome := GenericParse(raw);
    }
    match outcome
    case Parsed(rec) => r := rec;
    case NoRecord => r := Minimal(Some(raw.id), "Unparseable Record " + raw.id, raw.rawXml);
    case Raised =>
      var found := DcTitle(raw.rawXml);
      var title := if found.Some? then Strip(found.value) else "Error Record " + raw.id;
      r := Minimal(Some(raw.id), title, raw.rawXml);
  }

  // ---------------------------------------------------------------- lemmas

  /** Record `i` of the result is the conversion of raw record `i`. */
  lemma {:induction false} ConvertAllEach(custom: Option<SruParser>, parsers: map<string, SruParser>, raws: seq<RawRecord>)
    ensures forall i :: 0 <= i < |raws| ==> ConvertAll(custom, parsers, raws)[i] == Converted(custom, parsers, raws[i])
  {
    if raws != [] {
      var init := raws[..|raws| - 1];
      ConvertAllEach(custom, parsers, init);
      forall i | 0 <= i < |raws| ensures ConvertAll(custom, parsers, raws)[i] == Converted(custom, parsers, raws[i]) {
        if i < |init| {
          assert raws[i] == init[i];
        }
      }
    }
  }

  /** `search` passes the total through unchanged and returns one record per raw record. */
  lemma SearchShape(server: string -> Response, cfg: SruConfig, quote: string -> string, toXml: Element -> string,
                    custom: Option<SruParser>, parsers: map<string, SruParser>,
                    query: string, schemaArg: Option<string>, maxRecords: int, startRecord: int)
    ensures var e := ExecuteQueryOf(server, cfg, quote, toXml, query, schemaArg, maxRecords, startRecord);
      var s := SearchOf(server, cfg, quote, toXml, custom, parsers, query, schemaArg, maxRecords, startRecord);
      s.0 == e.0 && |s.1| == |e.1| &&
      forall i :: 0 <= i < |s.1| ==> s.1[i] == Converted(custom, parsers, e.1[i])
  {
    var e := ExecuteQueryOf(server, cfg, quote, toXml, query, schemaArg, maxRecords, startRecord);
    ConvertAllEach(custom, parsers, e.1);
  }

  /** A custom parser is used for every schema; a failure of it ends in `_generic_parse`, which raises. */
  lemma CustomFirst(p: SruParser, parsers: map<string, SruParser>, raw: RawRecord)
    ensures Outcome(Some(p), parsers, raw) == if RunParser(p, raw).Raised? then Raised else RunParser(p, raw)
  {
  }

  /**
   * With the built-in registry and no custom parser, only records whose
   * schema is `RDFxml` can be parsed; every other record ends as an error
   * record.
   */
  lemma BuiltinOutcome(raw: RawRecord)
    ensures raw.schema == Some("RDFxml") ==> Outcome(None, BuiltinParsers, raw) == SruRdf.RdfXml(raw)
    ensures raw.schema != Some("RDFxml") ==> Outcome(None, BuiltinParsers, raw) == Raised
  {
    BuiltinRdf();
    var ch := Chosen(None, BuiltinParsers, raw.schema);
    if raw.schema == Some("RDFxml") {
      ChosenKept(raw, RdfXmlParser, SruRdf.RdfXml(raw));
    } else if ch.Some? {
      BuiltinRaises(raw.schema.value, raw);
      ChosenOutcome(raw, ch.value);
    }
  }

  /** A chosen parser's outcome is kept, whether or not it raised. */
  lemma ChosenKept(raw: RawRecord, p: SruParser, o: ParseOutcome)
    requires Chosen(None, BuiltinParsers, raw.schema) == Some(p) && RunParser(p, raw) == o
    ensures Outcome(None, BuiltinParsers, raw) == o
  {
  }

  lemma BuiltinRdf()
    ensures "RDFxml" in BuiltinParsers && BuiltinParsers["RDFxml"] == RdfXmlParser
  {
  }

  lemma ChosenOutcome(raw: RawRecord, p: SruParser)
    requires Chosen(None, BuiltinParsers, raw.schema) == Some(p) && RunParser(p, raw).Raised?
    ensures Outcome(None, BuiltinParsers, raw) == GenericParse(raw)
  {
  }

  /** Every built-in entry other than `RDFxml` is a parser that raises. */
  lemma BuiltinRaises(k: string, raw: RawRecord)
    requires k in BuiltinParsers && k != "RDFxml"
    ensures RunParser(BuiltinParsers[k], raw).Raised?
  {
    var p := BuiltinParsers[k];
    assert p.DublinCoreParser? || p.MarcXmlParser?;
  }

  /** With the built-in registry and no custom parser, record `i` carries raw record `i`'s identifier and XML. */
  lemma BuiltinKeepsIdentity(raws: seq<RawRecord>)
    ensures forall i :: 0 <= i < |raws| ==>
      ConvertAll(None, BuiltinParsers, raws)[i].id == Some(raws[i].id) &&
      ConvertAll(None, BuiltinParsers, raws)[i].rawData == raws[i].rawXml
  {
    ConvertAllEach(None, BuiltinParsers, raws);
    forall i | 0 <= i < |raws|
      ensures Converted(None, BuiltinParsers, raws[i]).id == Some(raws[i].id)
      ensures Converted(None, BuiltinParsers, raws[i]).rawData == raws[i].rawXml
    {
      BuiltinOutcome(raws[i]);
      SruRdf.RdfXmlOutcome(raws[i]);
    }
  }

  /** A raised parse whose raw XML has no `dc:title` match is titled after the record's identifier. */
  lemma ErrorTitleFallback(custom: Option<SruParser>, parsers: map<string, SruParser>, raw: RawRecord)
    requires Outcome(custom, parsers, raw).Raised?
    requires forall p, q, c :: !TitleMatchAt(raw.rawXml, p, q, c)
    ensures Converted(custom, parsers, raw).title == "Error Record " + raw.id
  {
  }

  /** Registering a parser changes the dispatch of that schema only. */
  lemma RegisterEffect(parsers: map<string, SruParser>, schema: string, p: SruParser, raw: RawRecord)
    ensures raw.schema == Some(schema) ==>
      Outcome(None, parsers[schema := p], raw) == if RunParser(p, raw).Raised? then Raised else RunParser(p, raw)
    ensures raw.schema != Some(schema) ==> Outcome(None, parsers[schema := p], raw) == Outcome(None, parsers, raw)
  {
  }
}
