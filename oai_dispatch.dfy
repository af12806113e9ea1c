/**
 * The OAI-PMH client's parser registry (`OAIClient.parsers`, filled by the
 * `register_parser` decorator) and `_to_biblio_record`, which picks the
 * parser for a harvested record and turns any exception into an error
 * record.
 */
module OaiDispatch {
  import opened Wrappers
  import opened Text
  import opened Biblio
  import opened OaiRecords
  import opened OaiDublinCore
  import opened OaiMarc
  import opened OaiMods
  import opened OaiGeneric

  /** A record parser: one of the three the module registers, or a function the caller supplies. */
  datatype Parser =
    | DublinCoreParser
    | MarcXmlParser
    | ModsParser
    | UserParser(run: Harvested -> ParseOutcome)

  /** Calling the parser on a harvested record. */
  function RunParser(p: Parser, h: Harvested): ParseOutcome {
    match p
    case DublinCoreParser => Parsed(DublinCore(h))
    case MarcXmlParser => MarcXml(h)
    case ModsParser => Parsed(ModsRecordOf(h))
    case UserParser(run) => run(h)
  }

  /** The registry once the module has run its decorators. */
  const BuiltinParsers: map<string, Parser> := map[
    "oai_dc" := DublinCoreParser,
    "dc" := DublinCoreParser,
    "marcxml" := MarcXmlParser,
    "marc21" := MarcXmlParser,
    "mods" := ModsParser]

  /** The record `_to_biblio_record` builds when the parser raised. */
  function ErrorRecord(h: Harvested): (r: Record)
    ensures r.id == h.identifier && r.title == "Error Processing Record " + IdText(h) && r.rawData == h.raw
  {
    Minimal(h.identifier, "Error Processing Record " + IdText(h), h.raw)
  }

  /** The parser's outcome: the custom parser, else the registry entry for the prefix, else the generic one. */
  function Outcome(custom: Option<Parser>, parsers: map<string, Parser>, prefix: string, h: Harvested): ParseOutcome {
    if custom.Some? then RunParser(custom.value, h)
    else if prefix in parsers then RunParser(parsers[prefix], h)
    else GenericParse(h)
  }

  /** `_to_biblio_record`: `None` when the parser returned `None`, the error record when it raised. */
  function ToBiblioRecord(custom: Option<Parser>, parsers: map<string, Parser>, prefix: string, h: Harvested): (r: Option<Record>)
    ensures r.None? <==> Outcome(custom, parsers, prefix, h).NoRecord?
    ensures Outcome(custom, parsers, prefix, h).Raised? ==> r == Some(ErrorRecord(h))
    ensures Outcome(custom, parsers, prefix, h).Parsed? ==> r == Some(Outcome(custom, parsers, prefix, h).record)
  {
    match Outcome(custom, parsers, prefix, h)
    case Parsed(rec) => Some(rec)
    case NoRecord => None
    case Raised => Some(ErrorRecord(h))
  }

  /** The class-level dictionary `OAIClient.parsers`, which `register_parser` updates. */
  class ParserRegistry {
    var parsers: map<string, Parser>

    /** The registry as the module leaves it after its decorators have run. */
    constructor ()
      ensures parsers == BuiltinParsers
    {
      parsers := BuiltinParsers;
    }

    /** The decorator `OAIClient.register_parser(prefix)` applied to a parser: the entry for `prefix` is replaced. */
    method Register(prefix: string, p: Parser)
      modifies this
      ensures parsers == old(parsers)[prefix := p]
    {
      parsers := parsers[prefix := p];
    }

    /** `_to_biblio_record` on a client whose custom parser is `custom`. */
    method Convert(custom: Option<Parser>, prefix: string, h: Harvested) returns (r: Option<Record>)
      ensures r == ToBiblioRecord(custom, parsers, prefix, h)
    {
      var parser := custom;
      if parser.None? && prefix in parsers {
        parser := Some(parsers[prefix]);
      }
      var outcome: ParseOutcome;
      if parser.Some? {
        outcome := RunParser(parser.value, h);
      } else {
        outcome := ParseGeneric(h);
      }
      match outcome
      case Parsed(rec) => r := Some(rec);
      case NoRecord => r := None;
      case Raised => r := Some(ErrorRecord(h));
    }
  }

  // ---------------------------------------------------------------- lemmas

  /** A custom parser wins over every registry entry. */
  lemma CustomFirst(p: Parser, parsers: map<string, Parser>, prefix: string, h: Harvested)
    ensures ToBiblioRecord(Some(p), parsers, prefix, h) == ToBiblioRecord(None, map[prefix := p], prefix, h)
  {
  }

  /** Without a custom parser, a registered prefix uses its registry entry. */
  lemma RegistryNext(parsers: map<string, Parser>, prefix: string, h: Harvested)
    requires prefix in parsers
    ensures ToBiblioRecord(None, parsers, prefix, h) == ToBiblioRecord(Some(parsers[prefix]), map[], prefix, h)
  {
  }

  /** An unregistered prefix falls back to `_generic_parse`, whose failures give the error record. */
  lemma GenericLast(parsers: map<string, Parser>, prefix: string, h: Harvested)
    requires prefix !in parsers
    ensures GenericParse(h).Raised? ==> ToBiblioRecord(None, parsers, prefix, h) == Some(ErrorRecord(h))
    ensures GenericParse(h).Parsed? ==> ToBiblioRecord(None, parsers, prefix, h) == Some(GenericParse(h).record)
  {
  }

  /**
   * With the built-in registry and no custom parser, every harvested record
   * yields a record carrying its identifier and raw XML.
   */
  lemma BuiltinTotal(prefix: string, h: Harvested)
    ensures var r := ToBiblioRecord(None, BuiltinParsers, prefix, h);
      r.Some? && r.value.id == h.identifier && r.value.rawData == h.raw
  {
    if prefix in BuiltinParsers {
      var p := BuiltinParsers[prefix];
      assert p.DublinCoreParser? || p.MarcXmlParser? || p.ModsParser?;
      if p.MarcXmlParser? {
        var o := MarcXml(h);
        assert o.Parsed? || o.Raised?;
      }
    }
  }

  /** The prefix `marc` has no registered parser; the generic parser's MARC branch handles it. */
  lemma MarcPrefixIsGeneric(h: Harvested)
    ensures Outcome(None, BuiltinParsers, "marc", h) == GenericParse(h)
  {
    MarcNotBuiltin();
  }

  lemma MarcNotBuiltin()
    ensures "marc" !in BuiltinParsers
  {
  }

  /** Registering a parser changes the dispatch of that prefix only. */
  lemma RegisterEffect(parsers: map<string, Parser>, prefix: string, p: Parser, other: string, h: Harvested)
    ensures Outcome(None, parsers[prefix := p], prefix, h) == RunParser(p, h)
    ensures other != prefix ==> Outcome(None, parsers[prefix := p], other, h) == Outcome(None, parsers, other, h)
  {
  }
}
