/**
 * The bibliographic record every parser produces (the `BiblioRecord`
 * dataclasses of the OAI-PMH and SRU clients) and the outcomes of the code that
 * builds one.
 */
module Biblio {
  import opened Wrappers

  /**
   * One record with every field either dataclass declares.  `editors` is
   * `None` when the record's class declares no `editors` attribute at all,
   * which is the case for every record the parsers build; reading it then
   * raises `AttributeError`.
   */
  datatype Record = Record(
    id: Option<string>,
    title: string,
    authors: seq<string>,
    editors: Option<seq<string>>,
    year: Option<string>,
    publisherName: Option<string>,
    placeOfPublication: Option<string>,
    isbn: Option<string>,
    issn: Option<string>,
    urls: seq<string>,
    abstractText: Option<string>,
    language: Option<string>,
    format: Option<string>,
    subjects: seq<string>,
    series: Option<string>,
    extent: Option<string>,
    edition: Option<string>,
    dateCreated: Option<string>,
    dateModified: Option<string>,
    identifier: Option<string>,
    rawData: string)

  /** `BiblioRecord(id=id, title=title, raw_data=raw)`: every other field at its default. */
  function Minimal(id: Option<string>, title: string, raw: string): (r: Record)
    ensures r.id == id && r.title == title && r.rawData == raw
    ensures r.authors == [] && r.subjects == [] && r.urls == [] && r.editors.None?
  {
    Record(id, title, [], None, None, None, None, None, None, [], None, None, None, [], None, None, None,
      None, None, None, raw)
  }

  /** What a record parser does: returns a record, returns `None`, or raises. */
  datatype ParseOutcome = Parsed(record: Record) | NoRecord | Raised

  /** A computation that either returns a value or raises an exception. */
  datatype Attempt<T> = Returned(value: T) | Threw
}
