/**
 * The dictionary `_process_record_element` builds from one OAI-PMH `<record>`
 * element, which every record parser receives.
 */
module OaiRecords {
  import opened Wrappers
  import opened Text
  import opened Xml
  import opened Biblio

  /**
   * `identifier` is the header's identifier text (Python `None` when the
   * element is empty) or `"unknown"` without one; `datestamp` likewise, with
   * `""` when the element is missing.  `raw` and `metadata` are the
   * serialised XML; `metadataRoot` is the first child of `<metadata>`.
   */
  datatype Harvested = Harvested(
    identifier: Option<string>,
    datestamp: Option<string>,
    sets: seq<string>,
    prefix: string,
    raw: string,
    metadata: Option<string>,
    metadataRoot: Option<Element>)

  /** The `.text` of an optional element, or `dflt` when the element is missing. */
  function TextOr(el: Option<Element>, dflt: string): Option<string> {
    if el.Some? then el.value.text else Some(dflt)
  }

  /** What `_process_record_element(rec, prefix)` returns; `toXml` stands for `ET.tostring`. */
  function RecordOf(rec: Element, prefix: string, toXml: Element -> string): (r: Option<Harvested>)
    ensures r.None? <==> FirstChild(rec, Oai("header")).None?
    ensures r.Some? ==> r.value.prefix == prefix && r.value.raw == toXml(rec)
    ensures r.Some? ==> forall i :: 0 <= i < |r.value.sets| ==> r.value.sets[i] != ""
    ensures r.Some? ==>
      var ident := FirstChild(FirstChild(rec, Oai("header")).value, Oai("identifier"));
      r.value.identifier == if ident.Some? then ident.value.text else Some("unknown")
  {
    match FirstChild(rec, Oai("header"))
    case None => None
    case Some(header) =>
      var md := FirstChild(rec, Oai("metadata"));
      Some(Harvested(
        TextOr(FirstChild(header, Oai("identifier")), "unknown"),
        TextOr(FirstChild(header, Oai("datestamp")), ""),
        TruthyTexts(ChildrenNamed(header, Oai("setSpec"))),
        prefix,
        toXml(rec),
        if md.Some? then Some(toXml(md.value)) else None,
        if md.Some? && md.value.children != [] then Some(md.value.children[0]) else None))
  }

  /** `_process_record_element`: header fields, the truthy `setSpec` texts, and the metadata root. */
  method ProcessRecordElement(rec: Element, prefix: string, toXml: Element -> string) returns (r: Option<Harvested>)
    ensures r == RecordOf(rec, prefix, toXml)
  {
    var header := FirstChild(rec, Oai("header"));
    if header.None? {
      return None;
    }
    var identifier := FirstChild(header.value, Oai("identifier"));
    var datestamp := FirstChild(header.value, Oai("datestamp"));
    var sets := CollectTruthy(ChildrenNamed(header.value, Oai("setSpec")));
    var metadata: Option<string> := None;
    var root: Option<Element> := None;
    var md := FirstChild(rec, Oai("metadata"));
    if md.Some? {
      metadata := Some(toXml(md.value));
      if md.value.children != [] {
        root := Some(md.value.children[0]);
      }
    }
    r := Some(Harvested(TextOr(identifier, "unknown"), TextOr(datestamp, ""), sets, prefix, toXml(rec), metadata, root));
  }

  /** `record.get('identifier', 'unknown')` rendered into a title, as the f-strings do. */
  function IdText(h: Harvested): string {
    Show(h.identifier)
  }

  /** The record a parser returns when there is no metadata root. */
  function Unparseable(h: Harvested): (r: Record)
    ensures r.id == h.identifier && r.title == "Unparseable Record " + IdText(h) && r.rawData == h.raw
  {
    Minimal(h.identifier, "Unparseable Record " + IdText(h), h.raw)
  }
}
