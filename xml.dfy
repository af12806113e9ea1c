/**
 * An already-parsed XML tree and the part of ElementTree's path language the
 * parsers use: child and descendant steps, `./a/b` paths, the any-name test and
 * `[@attr="value"]` predicates.
 * Paths are evaluated as ElementTree does: step by step over the list of
 * context nodes, in document order, with `find` giving the first result of
 * `findall`.
 */
module Xml {
  import opened Wrappers
  import opened Text

  /** A tag or attribute name `{ns}local`; an empty `ns` is a name with no namespace. */
  datatype QName = QName(ns: string, local: string)

  datatype Element = Element(tag: QName, attrs: map<QName, string>, text: Option<string>, children: seq<Element>)

  const OaiNs := "http://www.openarchives.org/OAI/2.0/"
  const DcNs := "http://purl.org/dc/elements/1.1/"
  const DctermsNs := "http://purl.org/dc/terms/"
  const MarcNs := "http://www.loc.gov/MARC21/slim"
  const ModsNs := "http://www.loc.gov/mods/v3"
  const SrwNs := "http://www.loc.gov/zing/srw/"
  const DiagNs := "http://www.loc.gov/zing/srw/diagnostic/"
  const RdfNs := "http://www.w3.org/1999/02/22-rdf-syntax-ns#"
  const BiboNs := "http://purl.org/ontology/bibo/"
  const GndoNs := "https://d-nb.info/standards/elementset/gnd#"
  const MarcRoleNs := "http://id.loc.gov/vocabulary/relators/"
  const RdauNs := "http://rdaregistry.info/Elements/u/"
  const FoafNs := "http://xmlns.com/foaf/0.1/"
  const UmbelNs := "http://umbel.org/umbel#"
  const IsbdNs := "http://iflastandards.info/ns/isbd/elements/"

  function Oai(local: string): QName { QName(OaiNs, local) }
  function Dc(local: string): QName { QName(DcNs, local) }
  function Dcterms(local: string): QName { QName(DctermsNs, local) }
  function Marc(local: string): QName { QName(MarcNs, local) }
  function Mods(local: string): QName { QName(ModsNs, local) }

  /** An attribute without a namespace, such as `tag`, `code` or `type`. */
  function Plain(local: string): QName { QName("", local) }

  /** `elem.tag` as ElementTree spells it: `{ns}local`, or `local` without a namespace. */
  function TagString(q: QName): string {
    if q.ns == "" then q.local else "{" + q.ns + "}" + q.local
  }

  /** `elem.get(name)`. */
  function Attr(e: Element, name: QName): Option<string> {
    if name in e.attrs then Some(e.attrs[name]) else None
  }

  /** `elem.iter()` without the element itself: every descendant in document order. */
  function Descendants(e: Element): seq<Element>
    decreases e, 0
  {
    Forest(e.children)
  }

  /** The subtrees of a list of siblings, each in pre-order, one after the other. */
  function Forest(es: seq<Element>): seq<Element>
    decreases es, 1
  {
    if es == [] then [] else [es[0]] + Descendants(es[0]) + Forest(es[1..])
  }

  datatype NameTest = AnyName | Named(q: QName)
  datatype Axis = ChildAxis | DescendantAxis
  /** One path step: `./test` or `.//test`, with an optional `[@attr="value"]`. */
  datatype Step = Step(axis: Axis, test: NameTest, attr: Option<(QName, string)>)

  function Child(q: QName): Step { Step(ChildAxis, Named(q), None) }
  function Desc(q: QName): Step { Step(DescendantAxis, Named(q), None) }
  function DescWith(q: QName, name: QName, value: string): Step { Step(DescendantAxis, Named(q), Some((name, value))) }

  predicate StepMatches(st: Step, e: Element) {
    (st.test.AnyName? || st.test.q == e.tag)
    && (st.attr.None? || Attr(e, st.attr.value.0) == Some(st.attr.value.1))
  }

  function Filter(st: Step, es: seq<Element>): (r: seq<Element>)
    ensures forall i :: 0 <= i < |r| ==> StepMatches(st, r[i]) && r[i] in es
    ensures forall x :: x in es && StepMatches(st, x) ==> x in r
  {
    if es == [] then []
    else (if StepMatches(st, es[0]) then [es[0]] else []) + Filter(st, es[1..])
  }

  function Candidates(e: Element, axis: Axis): seq<Element> {
    match axis
    case ChildAxis => e.children
    case DescendantAxis => Descendants(e)
  }

  /** One step applied to every context node, results concatenated in context order. */
  function ApplyStep(ctx: seq<Element>, st: Step): seq<Element> {
    if ctx == [] then []
    else Filter(st, Candidates(ctx[0], st.axis)) + ApplyStep(ctx[1..], st)
  }

  /** `elem.findall(path)`. */
  function Select(e: Element, path: seq<Step>): seq<Element> {
    SelectFrom([e], path)
  }

  function SelectFrom(ctx: seq<Element>, path: seq<Step>): seq<Element>
    decreases |path|
  {
    if path == [] then ctx else SelectFrom(ApplyStep(ctx, path[0]), path[1..])
  }

  /** `elem.find(path)`: the first element `findall` would return. */
  function FindPath(e: Element, path: seq<Step>): (r: Option<Element>)
    ensures r.Some? <==> Select(e, path) != []
    ensures r.Some? ==> r.value == Select(e, path)[0]
  {
    var all := Select(e, path);
    if all == [] then None else Some(all[0])
  }

  /** `elem.findall('./q')`: the children named q, in order. */
  function ChildrenNamed(e: Element, q: QName): (r: seq<Element>)
    ensures forall i :: 0 <= i < |r| ==> r[i].tag == q && r[i] in e.children
    ensures forall c :: c in e.children && c.tag == q ==> c in r
  {
    var r := Select(e, [Child(q)]);
    assert r == Filter(Child(q), e.children) by {
      assert [e][1..] == [] && [Child(q)][1..] == [];
      assert ApplyStep([e], Child(q)) == Filter(Child(q), e.children) + ApplyStep([], Child(q));
      assert SelectFrom([e], [Child(q)]) == SelectFrom(ApplyStep([e], Child(q)), []);
    }
    r
  }

  /** `elem.find('./q')`. */
  function FirstChild(e: Element, q: QName): Option<Element> {
    FindPath(e, [Child(q)])
  }

  /** `elem.find('.//q')`. */
  function FirstDesc(e: Element, q: QName): Option<Element> {
    FindPath(e, [Desc(q)])
  }

  /** The text of an optional element: `el.text if el is not None else None`. */
  function TextOf(el: Option<Element>): Option<string> {
    if el.Some? then el.value.text else None
  }

  /** `el is not None and el.text` holds. */
  predicate HasText(el: Option<Element>) {
    Truthy(TextOf(el))
  }

  /** `el.text.strip() if el is not None and el.text else None`. */
  function StrippedText(el: Option<Element>): (r: Option<string>)
    ensures r.Some? <==> HasText(el)
  {
    if HasText(el) then Some(Strip(el.value.text.value)) else None
  }

  /** `el.text and el.text.strip()`: the element has text that is not blank. */
  predicate NonBlank(e: Element) {
    e.text.Some? && Strip(e.text.value) != ""
  }

  /** `[el.text.strip() for el in els if el.text and el.text.strip()]`. */
  function NonBlankTexts(els: seq<Element>): (r: seq<string>)
    ensures |r| <= |els|
    ensures forall i :: 0 <= i < |r| ==> r[i] != ""
  {
    if els == [] then [] else NonBlankTexts(els[..|els| - 1]) + NonBlankText(els[|els| - 1])
  }

  /** The stripped text of one element, as a list of zero or one strings. */
  function NonBlankText(e: Element): (r: seq<string>)
    ensures |r| <= 1 && (r != [] ==> r[0] != "")
  {
    if NonBlank(e) then [Strip(e.text.value)] else []
  }

  /** `[el.text for el in els if el.text]`. */
  function TruthyTexts(els: seq<Element>): (r: seq<string>)
    ensures |r| <= |els|
    ensures forall i :: 0 <= i < |r| ==> r[i] != ""
  {
    if els == [] then [] else TruthyTexts(els[..|els| - 1]) + TruthyText(els[|els| - 1])
  }

  function TruthyText(e: Element): (r: seq<string>)
    ensures |r| <= 1 && (r != [] ==> r[0] != "")
  {
    if Truthy(e.text) then [e.text.value] else []
  }

  /** `[el.text.strip() for el in els if el.text]`: stripped, possibly blank. */
  function TruthyStripped(els: seq<Element>): (r: seq<string>)
    ensures |r| <= |els|
  {
    if els == [] then [] else TruthyStripped(els[..|els| - 1]) + StrippedText(Some(els[|els| - 1])).ToSeq()
  }

  /** The stripped text of the last element with non-blank text: what a loop overwriting one variable leaves. */
  function LastNonBlank(els: seq<Element>): (r: Option<string>)
    ensures r.Some? ==> r.value != ""
  {
    if els == [] then None
    else if NonBlank(els[|els| - 1]) then Some(Strip(els[|els| - 1].text.value))
    else LastNonBlank(els[..|els| - 1])
  }

  /** The loop `for el in els: if el.text and el.text.strip(): out.append(el.text.strip())`. */
  method CollectNonBlank(els: seq<Element>) returns (out: seq<string>)
    ensures out == NonBlankTexts(els)
  {
    out := [];
    var i := 0;
    while i < |els|
      invariant 0 <= i <= |els|
      invariant out == NonBlankTexts(els[..i])
    {
      assert els[..i + 1][..i] == els[..i];
      if NonBlank(els[i]) {
        out := out + [Strip(els[i].text.value)];
      }
      i := i + 1;
    }
    assert els[..i] == els;
  }

  /** The loop `for el in els: if el.text: out.append(el.text)`. */
  method CollectTruthy(els: seq<Element>) returns (out: seq<string>)
    ensures out == TruthyTexts(els)
  {
    out := [];
    var i := 0;
    while i < |els|
      invariant 0 <= i <= |els|
      invariant out == TruthyTexts(els[..i])
    {
      assert els[..i + 1][..i] == els[..i];
      if Truthy(els[i].text) {
        out := out + [els[i].text.value];
      }
      i := i + 1;
    }
    assert els[..i] == els;
  }

  /** The loop `for el in els: if el.text: out.append(el.text.strip())`. */
  method CollectTruthyStripped(els: seq<Element>) returns (out: seq<string>)
    ensures out == TruthyStripped(els)
  {
    out := [];
    var i := 0;
    while i < |els|
      invariant 0 <= i <= |els|
      invariant out == TruthyStripped(els[..i])
    {
      assert els[..i + 1][..i] == els[..i];
      if Truthy(els[i].text) {
        out := out + [Strip(els[i].text.value)];
      }
      i := i + 1;
    }
    assert els[..i] == els;
  }

  /** The loop `for el in els: if el.text and el.text.strip(): v = el.text.strip()`. */
  method OverwriteNonBlank(els: seq<Element>, v0: Option<string>) returns (v: Option<string>)
    ensures v == if LastNonBlank(els).Some? then LastNonBlank(els) else v0
  {
    v := v0;
    var i := 0;
    while i < |els|
      invariant 0 <= i <= |els|
      invariant v == if LastNonBlank(els[..i]).Some? then LastNonBlank(els[..i]) else v0
    {
      assert els[..i + 1][..i] == els[..i];
      if NonBlank(els[i]) {
        v := Some(Strip(els[i].text.value));
      }
      i := i + 1;
    }
    assert els[..i] == els;
  }
}
