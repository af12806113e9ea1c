/**
 * `parse_rdfxml`, the parser the SRU client registers for the `RDFxml`
 * schema (the RDF/XML records of the Deutsche Nationalbibliothek).  It is the
 * only SRU parser that returns a record.
 *
 * The record is read from the first `rdf:Description` in the record data.
 * Authors, subjects and URLs are collected into lists whose companion `seen`
 * sets keep every value out of the list a second time.  The parser raises
 * only where it builds an ElementTree path from an attribute value:
 * `[@rdf:about="..."]` with a double quote inside the value is a malformed
 * predicate.
 */
module SruRdf {
  import opened Wrappers
  import opened Text
  import opened Xml
  import opened Biblio
  import SruClient

  function Rdf(local: string): QName { QName(RdfNs, local) }
  function Bibo(local: string): QName { QName(BiboNs, local) }
  function Gndo(local: string): QName { QName(GndoNs, local) }
  function MarcRole(local: string): QName { QName(MarcRoleNs, local) }
  function Rdau(local: string): QName { QName(RdauNs, local) }
  function Foaf(local: string): QName { QName(FoafNs, local) }
  function Umbel(local: string): QName { QName(UmbelNs, local) }
  function Isbd(local: string): QName { QName(IsbdNs, local) }

  // ---------------------------------------------------------------- lists without repeats

  predicate NoRepeats(xs: seq<string>) {
    forall i, j :: 0 <= i < j < |xs| ==> xs[i] != xs[j]
  }

  /** `if x not in seen: items.append(x); seen.add(x)`, where `seen` holds the list's items. */
  function AddNew(items: seq<string>, x: string): seq<string> {
    if x in items then items else items + [x]
  }

  /** Appending a value keeps the old items at the front, adds the value, and adds no repeat. */
  lemma AddNewFacts(items: seq<string>, x: string)
    ensures forall y :: y in AddNew(items, x) <==> y in items || y == x
    ensures NoRepeats(items) ==> NoRepeats(AddNew(items, x))
    ensures |items| <= |AddNew(items, x)| && AddNew(items, x)[..|items|] == items
  {
  }

  /** The list after `AddNew` has been applied to each of `xs` in turn. */
  function AddEach(items: seq<string>, xs: seq<string>): seq<string> {
    if xs == [] then items else AddNew(AddEach(items, xs[..|xs| - 1]), xs[|xs| - 1])
  }

  lemma AddEachSnoc(items: seq<string>, xs: seq<string>, x: string)
    ensures AddEach(items, xs + [x]) == AddNew(AddEach(items, xs), x)
  {
    assert (xs + [x])[..|xs|] == xs;
  }

  /** The list ends up holding exactly the old items and the offered ones. */
  lemma {:induction false} AddEachMembers(items: seq<string>, xs: seq<string>)
    ensures forall y :: y in AddEach(items, xs) <==> y in items || y in xs
  {
    if xs != [] {
      var init := xs[..|xs| - 1];
      AddEachMembers(items, init);
      AddNewFacts(AddEach(items, init), xs[|xs| - 1]);
      assert xs == init + [xs[|xs| - 1]];
    }
  }

  /** No value enters the list twice. */
  lemma {:induction false} AddEachNoRepeats(items: seq<string>, xs: seq<string>)
    requires NoRepeats(items)
    ensures NoRepeats(AddEach(items, xs))
  {
    if xs != [] {
      AddEachNoRepeats(items, xs[..|xs| - 1]);
      AddNewFacts(AddEach(items, xs[..|xs| - 1]), xs[|xs| - 1]);
    }
  }

  /** The items already present keep their places at the front. */
  lemma {:induction false} AddEachPrefix(items: seq<string>, xs: seq<string>)
    ensures |items| <= |AddEach(items, xs)| && AddEach(items, xs)[..|items|] == items
  {
    if xs != [] {
      var p := AddEach(items, xs[..|xs| - 1]);
      AddEachPrefix(items, xs[..|xs| - 1]);
      AddNewFacts(p, xs[|xs| - 1]);
      assert AddEach(items, xs)[..|p|] == p;
      assert AddEach(items, xs)[..|items|] == p[..|items|];
    }
  }

  /** Offering two lists one after the other is offering their concatenation. */
  lemma {:induction false} AddEachConcat(items: seq<string>, xs: seq<string>, ys: seq<string>)
    ensures AddEach(items, xs + ys) == AddEach(AddEach(items, xs), ys)
    decreases |ys|
  {
    if ys == [] {
      assert xs + ys == xs;
    } else {
      assert (xs + ys)[..|xs + ys| - 1] == xs + ys[..|ys| - 1];
      AddEachConcat(items, xs, ys[..|ys| - 1]);
    }
  }

  /** The `seen_*` set holds exactly the items of its list. */
  ghost predicate Tracks(seen: set<string>, items: seq<string>) {
    forall x :: x in seen <==> x in items
  }

  /** The guarded append the parser repeats for every candidate value. */
  method Remember(items0: seq<string>, seen0: set<string>, x: string) returns (items: seq<string>, seen: set<string>)
    requires Tracks(seen0, items0)
    ensures items == AddNew(items0, x) && Tracks(seen, items)
  {
    items, seen := items0, seen0;
    if x !in seen {
      items := items + [x];
      seen := seen + {x};
    }
  }

  /** `Remember` applied to each value of `xs` in order. */
  method RememberEach(items0: seq<string>, seen0: set<string>, xs: seq<string>) returns (items: seq<string>, seen: set<string>)
    requires Tracks(seen0, items0)
    ensures items == AddEach(items0, xs) && Tracks(seen, items)
  {
    items, seen := items0, seen0;
    var i := 0;
    while i < |xs|
      invariant 0 <= i <= |xs|
      invariant items == AddEach(items0, xs[..i]) && Tracks(seen, items)
    {
      assert xs[..i + 1] == xs[..i] + [xs[i]];
      AddEachSnoc(items0, xs[..i], xs[i]);
      items, seen := Remember(items, seen, xs[i]);
      i := i + 1;
    }
    assert xs[..i] == xs;
  }

  // ---------------------------------------------------------------- the author statement

  /** The end of the white-space run that starts at p. */
  function SpaceRun(s: string, p: nat): (q: nat)
    requires p <= |s|
    ensures p <= q <= |s| && (q < |s| ==> !IsSpace(s[q]))
    decreases |s| - p
  {
    if p < |s| && IsSpace(s[p]) then SpaceRun(s, p + 1) else p
  }

  /**
   * Where a match of `,\s*|\s*;\s*|\s+und\s+|\s+and\s+` that starts at p
   * ends, the alternatives tried in order, each white-space run taken whole.
   */
  function SeparatorEnd(s: string, p: nat): (r: Option<nat>)
    requires p < |s|
    ensures r.Some? ==> p < r.value <= |s|
    ensures s[p] == ',' || s[p] == ';' ==> r.Some?
  {
    var w := SpaceRun(s, p);
    if s[p] == ',' then Some(SpaceRun(s, p + 1))
    else if w < |s| && s[w] == ';' then Some(SpaceRun(s, w + 1))
    else if w > p && OccursAt(s, "und", w) && SpaceRun(s, w + 3) > w + 3 then Some(SpaceRun(s, w + 3))
    else if w > p && OccursAt(s, "and", w) && SpaceRun(s, w + 3) > w + 3 then Some(SpaceRun(s, w + 3))
    else None
  }

  /** `re.split` with that pattern, scanning from p; the current piece starts at `start`. */
  function PiecesFrom(s: string, start: nat, p: nat): (r: seq<string>)
    requires start <= p <= |s|
    ensures |r| >= 1
    decreases |s| - p
  {
    if p == |s| then [s[start..]]
    else
      match SeparatorEnd(s, p)
      case Some(q) => [s[start..p]] + PiecesFrom(s, q, q)
      case None => PiecesFrom(s, start, p + 1)
  }

  /** `re.split(r',\s*|\s*;\s*|\s+und\s+|\s+and\s+', s)`. */
  function StatementPieces(s: string): seq<string> {
    PiecesFrom(s, 0, 0)
  }

  /** Every comma and semicolon of the statement falls inside a separator. */
  lemma {:induction false} PiecesFromFree(s: string, start: nat, p: nat)
    requires start <= p <= |s|
    requires forall k :: start <= k < p ==> s[k] != ',' && s[k] != ';'
    ensures forall i :: 0 <= i < |PiecesFrom(s, start, p)| ==>
      ',' !in PiecesFrom(s, start, p)[i] && ';' !in PiecesFrom(s, start, p)[i]
    decreases |s| - p
  {
    var r := PiecesFrom(s, start, p);
    if p == |s| {
      forall c | c in s[start..] ensures c != ',' && c != ';' {
        var k :| 0 <= k < |s[start..]| && s[start..][k] == c;
        assert s[start + k] == c;
      }
    } else {
      match SeparatorEnd(s, p)
      case Some(q) =>
        PiecesFromFree(s, q, q);
        forall c | c in s[start..p] ensures c != ',' && c != ';' {
          var k :| 0 <= k < |s[start..p]| && s[start..p][k] == c;
          assert s[start + k] == c;
        }
        forall i | 0 <= i < |r| ensures ',' !in r[i] && ';' !in r[i] {
          if i > 0 {
            assert r[i] == PiecesFrom(s, q, q)[i - 1];
          }
        }
      case None =>
        PiecesFromFree(s, start, p + 1);
    }
  }

  /** No piece of the split statement holds a comma or a semicolon. */
  lemma StatementPiecesFree(s: string)
    ensures forall i :: 0 <= i < |StatementPieces(s)| ==>
      ',' !in StatementPieces(s)[i] && ';' !in StatementPieces(s)[i]
  {
    PiecesFromFree(s, 0, 0);
  }

  /** The cleaned pieces that are not empty, in order. */
  function Cleaned(pieces: seq<string>): seq<string> {
    if pieces == [] then [] else Cleaned(pieces[..|pieces| - 1]) + CleanedPiece(pieces[|pieces| - 1])
  }

  /** One piece, cleaned, as a list of zero or one names. */
  function CleanedPiece(piece: string): seq<string> {
    var c := CleanAuthorName(piece);
    if c != "" then [c] else []
  }

  lemma CleanedSnoc(pieces: seq<string>, piece: string)
    ensures Cleaned(pieces + [piece]) == Cleaned(pieces) + CleanedPiece(piece)
  {
    assert (pieces + [piece])[..|pieces|] == pieces;
  }

  /** No cleaned name is empty. */
  lemma {:induction false} CleanedNonEmpty(pieces: seq<string>)
    ensures forall x :: x in Cleaned(pieces) ==> x != ""
  {
    if pieces != [] {
      CleanedNonEmpty(pieces[..|pieces| - 1]);
    }
  }

  /** The names the `rdau:P60327` statement of responsibility offers. */
  function StatementNames(desc: Element): seq<string> {
    var st := FirstChild(desc, Rdau("P60327"));
    if HasText(st) then Cleaned(StatementPieces(Strip(st.value.text.value))) else []
  }

  /** The statement loop: each cleaned, non-empty, unseen piece is appended. */
  method ScanStatement(pieces: seq<string>, items0: seq<string>, seen0: set<string>) returns (items: seq<string>, seen: set<string>)
    requires Tracks(seen0, items0)
    ensures items == AddEach(items0, Cleaned(pieces)) && Tracks(seen, items)
  {
    items, seen := items0, seen0;
    var i := 0;
    while i < |pieces|
      invariant 0 <= i <= |pieces|
      invariant items == AddEach(items0, Cleaned(pieces[..i]))
      invariant Tracks(seen, items)
    {
      StatementStep(items0, pieces, i);
      var cleanName := CleanAuthorName(pieces[i]);
      if cleanName != "" {
        items, seen := Remember(items, seen, cleanName);
      }
      i := i + 1;
    }
    assert pieces[..i] == pieces;
  }

  /** One turn of the statement loop. */
  lemma StatementStep(items0: seq<string>, pieces: seq<string>, i: nat)
    requires i < |pieces|
    ensures var c := CleanAuthorName(pieces[i]);
      AddEach(items0, Cleaned(pieces[..i + 1])) == if c != "" then AddNew(AddEach(items0, Cleaned(pieces[..i])), c) else AddEach(items0, Cleaned(pieces[..i]))
  {
    assert pieces[..i + 1] == pieces[..i] + [pieces[i]];
    CleanedSnoc(pieces[..i], pieces[i]);
    var c := CleanAuthorName(pieces[i]);
    if c != "" {
      AddEachSnoc(items0, Cleaned(pieces[..i]), c);
    } else {
      assert Cleaned(pieces[..i]) + CleanedPiece(pieces[i]) == Cleaned(pieces[..i]);
    }
  }

  // ---------------------------------------------------------------- creators and relator roles

  /** `data.find(f'.//rdf:Description[@rdf:{attr}="{value}"]')` for a value without a double quote. */
  function Described(data: Element, attr: string, value: string): Option<Element> {
    FindPath(data, [DescWith(Rdf("Description"), Rdf(attr), value)])
  }

  /** The cleaned `gndo:preferredName` of a description, when that child has text. */
  function PreferredName(d: Element): Option<string> {
    var n := FirstChild(d, Gndo("preferredName"));
    if HasText(n) then Some(CleanAuthorName(n.value.text.value)) else None
  }

  /** Following a reference: the path cannot be built from a value holding `"`; otherwise the name found, if any. */
  function Referenced(data: Element, attr: string, value: string): Attempt<seq<string>> {
    if '"' in value then Threw
    else
      match Described(data, attr, value)
      case None => Returned([])
      case Some(d) => Returned(PreferredName(d).ToSeq())
  }

  /** The first node whose tag mentions `preferredName` and that has text, cleaned. */
  function NestedName(nodes: seq<Element>): Option<string> {
    if nodes == [] then None
    else if Contains(TagString(nodes[0].tag), "preferredName") && Truthy(nodes[0].text) then
      Some(CleanAuthorName(nodes[0].text.value))
    else NestedName(nodes[1..])
  }

  /** The preferred names of the nested `rdf:Description` children, in order. */
  function DescriptionNames(ds: seq<Element>): seq<string> {
    if ds == [] then [] else DescriptionNames(ds[..|ds| - 1]) + PreferredName(ds[|ds| - 1]).ToSeq()
  }

  /** The two kinds of element that name an author. */
  datatype Contributor = Creator | Role

  /** The names one `dcterms:creator`/`dc:creator` (`Creator`) or `marcRole:aut`/`cre`/`edt` (`Role`) element offers. */
  function NamesOf(data: Element, kind: Contributor, e: Element): Attempt<seq<string>> {
    var res := Attr(e, Rdf("resource"));
    if Truthy(res) then Referenced(data, "about", res.value)
    else if kind == Creator then Returned(NestedName(Descendants(e)).ToSeq())
    else
      var nested := DescriptionNames(ChildrenNamed(e, Rdf("Description")));
      var nodeId := Attr(e, Rdf("nodeID"));
      if Truthy(nodeId) then
        match Referenced(data, "nodeID", nodeId.value)
        case Threw => Threw
        case Returned(more) => Returned(nested + more)
      else Returned(nested)
  }

  /** The element holds a reference the parser cannot turn into a path. */
  predicate BadReference(kind: Contributor, e: Element) {
    var res := Attr(e, Rdf("resource"));
    var nodeId := Attr(e, Rdf("nodeID"));
    if Truthy(res) then '"' in res.value
    else kind == Role && Truthy(nodeId) && '"' in nodeId.value
  }

  lemma NamesOfRaises(data: Element, kind: Contributor, e: Element)
    ensures NamesOf(data, kind, e).Threw? <==> BadReference(kind, e)
  {
  }

  /** The names `els` offer, in order, or `Threw` when one of them raises. */
  function Offered(data: Element, kind: Contributor, els: seq<Element>): Attempt<seq<string>> {
    if els == [] then Returned([]) else Then(Offered(data, kind, els[..|els| - 1]), NamesOf(data, kind, els[|els| - 1]))
  }

  /** The names of two computations one after the other; `Threw` if either raises. */
  function Then(x: Attempt<seq<string>>, y: Attempt<seq<string>>): Attempt<seq<string>> {
    if x.Threw? || y.Threw? then Threw else Returned(x.value + y.value)
  }

  lemma ThenAssociative(x: Attempt<seq<string>>, y: Attempt<seq<string>>, z: Attempt<seq<string>>)
    ensures Then(Then(x, y), z) == Then(x, Then(y, z))
  {
    if x.Returned? && y.Returned? && z.Returned? {
      assert x.value + y.value + z.value == x.value + (y.value + z.value);
    }
  }

  /** The names are offered by the elements one after the other. */
  lemma {:induction false} OfferedConcat(data: Element, kind: Contributor, a: seq<Element>, b: seq<Element>)
    ensures Offered(data, kind, a + b) == Then(Offered(data, kind, a), Offered(data, kind, b))
    decreases |b|
  {
    if b == [] {
      assert a + b == a;
      if Offered(data, kind, a).Returned? {
        assert Offered(data, kind, a).value + [] == Offered(data, kind, a).value;
      }
    } else {
      var init := b[..|b| - 1];
      var last := b[|b| - 1];
      assert (a + b)[..|a + b| - 1] == a + init;
      assert (a + b)[|a + b| - 1] == last;
      OfferedConcat(data, kind, a, init);
      ThenAssociative(Offered(data, kind, a), Offered(data, kind, init), NamesOf(data, kind, last));
    }
  }

  /** The loop raises exactly when one of its elements holds a bad reference. */
  lemma {:induction false} OfferedRaises(data: Element, kind: Contributor, els: seq<Element>)
    ensures Offered(data, kind, els).Threw? <==> exists e :: e in els && BadReference(kind, e)
  {
    if els != [] {
      var init := els[..|els| - 1];
      var last := els[|els| - 1];
      OfferedRaises(data, kind, init);
      NamesOfRaises(data, kind, last);
      assert els == init + [last];
      assert forall e :: e in els <==> e in init || e == last;
    }
  }

  /** One loop of authors: the list `items` extended by the names `els` offer, unless one raises. */
  function Stage(prev: Attempt<seq<string>>, data: Element, kind: Contributor, els: seq<Element>): Attempt<seq<string>> {
    match prev
    case Threw => Threw
    case Returned(items) =>
      match Offered(data, kind, els)
      case Threw => Threw
      case Returned(names) => Returned(AddEach(items, names))
  }

  function Creators(desc: Element): seq<Element> {
    ChildrenNamed(desc, Dcterms("creator")) + ChildrenNamed(desc, Dc("creator"))
  }

  function Roles(desc: Element): seq<Element> {
    ChildrenNamed(desc, MarcRole("aut")) + ChildrenNamed(desc, MarcRole("cre")) + ChildrenNamed(desc, MarcRole("edt"))
  }

  /** The author list: statement names, then creators' names, then relators' names, first occurrences only. */
  function AuthorsOf(data: Element, desc: Element): Attempt<seq<string>> {
    Stage(Stage(Returned(AddEach([], StatementNames(desc))), data, Creator, Creators(desc)), data, Role, Roles(desc))
  }

  /** Two loops over the same kind of element act as one loop over both lists. */
  lemma StageConcat(prev: Attempt<seq<string>>, data: Element, kind: Contributor, a: seq<Element>, b: seq<Element>)
    ensures Stage(Stage(prev, data, kind, a), data, kind, b) == Stage(prev, data, kind, a + b)
  {
    OfferedConcat(data, kind, a, b);
    if prev.Returned? && Offered(data, kind, a).Returned? && Offered(data, kind, b).Returned? {
      AddEachConcat(prev.value, Offered(data, kind, a).value, Offered(data, kind, b).value);
    }
  }

  /** The author list is built by the statement loop followed by the five reference loops, in source order. */
  lemma AuthorsInStages(data: Element, desc: Element)
    ensures AuthorsOf(data, desc) ==
      Stage(Stage(Stage(Stage(Stage(Returned(AddEach([], StatementNames(desc))),
        data, Creator, ChildrenNamed(desc, Dcterms("creator"))),
        data, Creator, ChildrenNamed(desc, Dc("creator"))),
        data, Role, ChildrenNamed(desc, MarcRole("aut"))),
        data, Role, ChildrenNamed(desc, MarcRole("cre"))),
        data, Role, ChildrenNamed(desc, MarcRole("edt")))
  {
    var p := Returned(AddEach([], StatementNames(desc)));
    var c1 := ChildrenNamed(desc, Dcterms("creator"));
    var c2 := ChildrenNamed(desc, Dc("creator"));
    var r1 := ChildrenNamed(desc, MarcRole("aut"));
    var r2 := ChildrenNamed(desc, MarcRole("cre"));
    var r3 := ChildrenNamed(desc, MarcRole("edt"));
    StageConcat(p, data, Creator, c1, c2);
    var q := Stage(p, data, Creator, c1 + c2);
    StageConcat(q, data, Role, r1, r2);
    StageConcat(q, data, Role, r1 + r2, r3);
  }

  /** The loop `for node in nested_nodes: if 'preferredName' in node.tag and node.text: ...; break`. */
  method FirstNestedName(nodes: seq<Element>) returns (r: Option<string>)
    ensures r == NestedName(nodes)
  {
    var i := 0;
    while i < |nodes|
      invariant 0 <= i <= |nodes|
      invariant NestedName(nodes[i..]) == NestedName(nodes)
    {
      assert nodes[i..][1..] == nodes[i + 1..];
      if Contains(TagString(nodes[i].tag), "preferredName") && Truthy(nodes[i].text) {
        return Some(CleanAuthorName(nodes[i].text.value));
      }
      i := i + 1;
    }
    return None;
  }

  /** The loop over the nested `rdf:Description` children of a relator element. */
  method NestedDescriptionNames(ds: seq<Element>) returns (names: seq<string>)
    ensures names == DescriptionNames(ds)
  {
    names := [];
    var i := 0;
    while i < |ds|
      invariant 0 <= i <= |ds|
      invariant names == DescriptionNames(ds[..i])
    {
      assert ds[..i + 1][..i] == ds[..i];
      var name := PreferredName(ds[i]);
      if name.Some? {
        names := names + [name.value];
      }
      i := i + 1;
    }
    assert ds[..i] == ds;
  }

  /** The body of one creator or relator loop for one element: the names it would add, in order. */
  method ElementNames(data: Element, kind: Contributor, e: Element) returns (r: Attempt<seq<string>>)
    ensures r == NamesOf(data, kind, e)
  {
    var resource := Attr(e, Rdf("resource"));
    if Truthy(resource) {
      return Referenced(data, "about", resource.value);
    }
    if kind == Creator {
      var name := FirstNestedName(Descendants(e));
      return Returned(name.ToSeq());
    }
    var names := NestedDescriptionNames(ChildrenNamed(e, Rdf("Description")));
    var nodeId := Attr(e, Rdf("nodeID"));
    if Truthy(nodeId) {
      var more := Referenced(data, "nodeID", nodeId.value);
      if more.Threw? {
        return Threw;
      }
      names := names + more.value;
    }
    r := Returned(names);
  }

  /** `Threw` for a prefix means `Threw` for the whole list. */
  lemma {:induction false} OfferedPrefixRaises(data: Element, kind: Contributor, els: seq<Element>, i: nat)
    requires i <= |els| && Offered(data, kind, els[..i]).Threw?
    ensures Offered(data, kind, els).Threw?
    decreases |els| - i
  {
    if i < |els| {
      assert els[..i + 1][..i] == els[..i];
      OfferedPrefixRaises(data, kind, els, i + 1);
    } else {
      assert els[..i] == els;
    }
  }

  /** One creator or relator loop: the names of each element are remembered, and a bad reference raises. */
  method Gather(data: Element, kind: Contributor, els: seq<Element>, items0: seq<string>, seen0: set<string>)
    returns (r: Attempt<seq<string>>, seen: set<string>)
    requires Tracks(seen0, items0)
    ensures r == Stage(Returned(items0), data, kind, els)
    ensures r.Returned? ==> Tracks(seen, r.value)
  {
    var items := items0;
    seen := seen0;
    var i := 0;
    while i < |els|
      invariant 0 <= i <= |els|
      invariant Offered(data, kind, els[..i]).Returned?
      invariant items == AddEach(items0, Offered(data, kind, els[..i]).value) && Tracks(seen, items)
    {
      assert els[..i + 1][..i] == els[..i];
      var names := ElementNames(data, kind, els[i]);
      if names.Threw? {
        OfferedPrefixRaises(data, kind, els, i + 1);
        return Threw, seen;
      }
      AddEachConcat(items0, Offered(data, kind, els[..i]).value, names.value);
      items, seen := RememberEach(items, seen, names.value);
      i := i + 1;
    }
    assert els[..i] == els;
    r := Returned(items);
  }

  // ---------------------------------------------------------------- subjects

  /** `resource.split('/')[-1]`: the last path segment of a URI. */
  function Segment(uri: string): string {
    LastPiece(uri, "/")
  }

  /** One `dcterms:subject`: a new last segment of its resource, otherwise its stripped text if unseen. */
  function SubjectStep(items: seq<string>, e: Element): seq<string> {
    var res := Attr(e, Rdf("resource"));
    if Truthy(res) && Segment(res.value) != "" && Segment(res.value) !in items then items + [Segment(res.value)]
    else if NonBlank(e) then AddNew(items, Strip(e.text.value))
    else items
  }

  function TermSubjects(items: seq<string>, els: seq<Element>): seq<string> {
    if els == [] then items else SubjectStep(TermSubjects(items, els[..|els| - 1]), els[|els| - 1])
  }

  /** The subjects: `dcterms:subject` first, then the non-blank `dc:subject` texts. */
  function SubjectsOf(desc: Element): seq<string> {
    AddEach(TermSubjects([], ChildrenNamed(desc, Dcterms("subject"))), NonBlankTexts(ChildrenNamed(desc, Dc("subject"))))
  }

  /** Every subject is non-empty, and none is kept twice. */
  lemma {:induction false} TermSubjectsValid(items: seq<string>, els: seq<Element>)
    requires NoRepeats(items) && forall x :: x in items ==> x != ""
    ensures NoRepeats(TermSubjects(items, els))
    ensures forall x :: x in TermSubjects(items, els) ==> x != ""
  {
    if els != [] {
      TermSubjectsValid(items, els[..|els| - 1]);
      var p := TermSubjects(items, els[..|els| - 1]);
      var e := els[|els| - 1];
      if NonBlank(e) {
        AddNewFacts(p, Strip(e.text.value));
      }
    }
  }

  lemma SubjectsValid(desc: Element)
    ensures NoRepeats(SubjectsOf(desc))
    ensures forall x :: x in SubjectsOf(desc) ==> x != ""
  {
    var t := TermSubjects([], ChildrenNamed(desc, Dcterms("subject")));
    var d := NonBlankTexts(ChildrenNamed(desc, Dc("subject")));
    TermSubjectsValid([], ChildrenNamed(desc, Dcterms("subject")));
    AddEachNoRepeats(t, d);
    AddEachMembers(t, d);
    assert forall x :: x in d ==> x != "";
  }

  /** The `dcterms:subject` loop. */
  method ScanTermSubjects(els: seq<Element>, items0: seq<string>, seen0: set<string>) returns (items: seq<string>, seen: set<string>)
    requires Tracks(seen0, items0)
    ensures items == TermSubjects(items0, els) && Tracks(seen, items)
  {
    items, seen := items0, seen0;
    var i := 0;
    while i < |els|
      invariant 0 <= i <= |els|
      invariant items == TermSubjects(items0, els[..i]) && Tracks(seen, items)
    {
      assert els[..i + 1][..i] == els[..i];
      var elem := els[i];
      var resource := Attr(elem, Rdf("resource"));
      var taken := false;
      if Truthy(resource) {
        var subject := Segment(resource.value);
        if subject != "" && subject !in seen {
          items := items + [subject];
          seen := seen + {subject};
          taken := true;
        }
      }
      if !taken && NonBlank(elem) {
        items, seen := Remember(items, seen, Strip(elem.text.value));
      }
      i := i + 1;
    }
    assert els[..i] == els;
  }

  /** The `dc:subject` loop. */
  method ScanNonBlank(els: seq<Element>, items0: seq<string>, seen0: set<string>) returns (items: seq<string>, seen: set<string>)
    requires Tracks(seen0, items0)
    ensures items == AddEach(items0, NonBlankTexts(els)) && Tracks(seen, items)
  {
    items, seen := items0, seen0;
    var i := 0;
    while i < |els|
      invariant 0 <= i <= |els|
      invariant items == AddEach(items0, NonBlankTexts(els[..i])) && Tracks(seen, items)
    {
      assert els[..i + 1][..i] == els[..i];
      assert NonBlankTexts(els[..i + 1]) == NonBlankTexts(els[..i]) + NonBlankText(els[i]);
      if NonBlank(els[i]) {
        AddEachSnoc(items0, NonBlankTexts(els[..i]), Strip(els[i].text.value));
        items, seen := Remember(items, seen, Strip(els[i].text.value));
      } else {
        assert NonBlankTexts(els[..i + 1]) == NonBlankTexts(els[..i]);
      }
      i := i + 1;
    }
    assert els[..i] == els;
  }

  // ---------------------------------------------------------------- links

  /** The `rdf:resource` of an element, when it is an `http` link. */
  function Link(e: Element): seq<string> {
    var res := Attr(e, Rdf("resource"));
    if Truthy(res) && StartsWith(res.value, "http") then [res.value] else []
  }

  function Links(els: seq<Element>): seq<string> {
    if els == [] then [] else Links(els[..|els| - 1]) + Link(els[|els| - 1])
  }

  lemma LinksSnoc(els: seq<Element>, i: nat)
    requires i < |els|
    ensures Links(els[..i + 1]) == Links(els[..i]) + Link(els[i])
  {
    assert els[..i + 1][..i] == els[..i];
  }

  /** Offering one element's link: nothing without a link, else the guarded append of that link. */
  lemma LinkStep(items: seq<string>, before: seq<string>, e: Element)
    ensures var res := Attr(e, Rdf("resource"));
      AddEach(items, before + Link(e)) ==
        if Truthy(res) && StartsWith(res.value, "http") then AddNew(AddEach(items, before), res.value)
        else AddEach(items, before)
  {
    var res := Attr(e, Rdf("resource"));
    if Truthy(res) && StartsWith(res.value, "http") {
      AddEachSnoc(items, before, res.value);
    } else {
      assert before + Link(e) == before;
    }
  }

  /** The URLs: `foaf:primaryTopic` links, then `umbel:isLike` links. */
  function UrlsOf(desc: Element): seq<string> {
    AddEach(AddEach([], Links(ChildrenNamed(desc, Foaf("primaryTopic")))), Links(ChildrenNamed(desc, Umbel("isLike"))))
  }

  /** A link is offered exactly when some element's resource is that `http` link. */
  lemma {:induction false} LinksMembers(els: seq<Element>)
    ensures forall u :: u in Links(els) <==>
      exists i :: 0 <= i < |els| && Attr(els[i], Rdf("resource")) == Some(u) && StartsWith(u, "http")
  {
    if els != [] {
      var init := els[..|els| - 1];
      LinksMembers(init);
      forall u ensures u in Links(els) <==>
        exists i :: 0 <= i < |els| && Attr(els[i], Rdf("resource")) == Some(u) && StartsWith(u, "http")
      {
        if u in Links(init) {
          var i :| 0 <= i < |init| && Attr(init[i], Rdf("resource")) == Some(u) && StartsWith(u, "http");
          assert els[i] == init[i];
        }
        if exists i :: 0 <= i < |els| && Attr(els[i], Rdf("resource")) == Some(u) && StartsWith(u, "http") {
          var i :| 0 <= i < |els| && Attr(els[i], Rdf("resource")) == Some(u) && StartsWith(u, "http");
          if i < |init| {
            assert init[i] == els[i];
          }
        }
      }
    }
  }

  /** Every offered link is an `http` link. */
  lemma {:induction false} LinksHttp(els: seq<Element>)
    ensures forall u :: u in Links(els) ==> StartsWith(u, "http")
  {
    if els != [] {
      LinksHttp(els[..|els| - 1]);
    }
  }

  /** The URLs are the links of the `foaf:primaryTopic` and `umbel:isLike` elements, each once, all `http` links. */
  lemma UrlsValid(desc: Element)
    ensures NoRepeats(UrlsOf(desc))
    ensures forall u :: u in UrlsOf(desc) <==>
      u in Links(ChildrenNamed(desc, Foaf("primaryTopic"))) || u in Links(ChildrenNamed(desc, Umbel("isLike")))
    ensures forall u :: u in UrlsOf(desc) ==> StartsWith(u, "http")
  {
    var a := Links(ChildrenNamed(desc, Foaf("primaryTopic")));
    var b := Links(ChildrenNamed(desc, Umbel("isLike")));
    AddEachNoRepeats([], a);
    AddEachNoRepeats(AddEach([], a), b);
    AddEachMembers([], a);
    AddEachMembers(AddEach([], a), b);
    LinksHttp(ChildrenNamed(desc, Foaf("primaryTopic")));
    LinksHttp(ChildrenNamed(desc, Umbel("isLike")));
  }

  /** A `foaf:primaryTopic` or `umbel:isLike` loop. */
  method ScanLinks(els: seq<Element>, items0: seq<string>, seen0: set<string>) returns (items: seq<string>, seen: set<string>)
    requires Tracks(seen0, items0)
    ensures items == AddEach(items0, Links(els)) && Tracks(seen, items)
  {
    items, seen := items0, seen0;
    var i := 0;
    while i < |els|
      invariant 0 <= i <= |els|
      invariant items == AddEach(items0, Links(els[..i])) && Tracks(seen, items)
    {
      LinksSnoc(els, i);
      LinkStep(items0, Links(els[..i]), els[i]);
      var resource := Attr(els[i], Rdf("resource"));
      if Truthy(resource) && StartsWith(resource.value, "http") {
        items, seen := Remember(items, seen, resource.value);
      }
      i := i + 1;
    }
    assert els[..i] == els;
  }

  // ---------------------------------------------------------------- single-valued fields

  /** `dc:title`, else (only when there is no such element) `dcterms:title`; "Untitled" without text. */
  function BaseTitle(desc: Element): string {
    var t := FirstChild(desc, Dc("title"));
    var e := if t.Some? then t else FirstChild(desc, Dcterms("title"));
    if HasText(e) then Strip(e.value.text.value) else "Untitled"
  }

  /** The stripped `dcterms:alternative`, when it is not blank. */
  function Alternative(desc: Element): Option<string> {
    var a := FirstChild(desc, Dcterms("alternative"));
    if HasText(a) && Strip(a.value.text.value) != "" then Some(Strip(a.value.text.value)) else None
  }

  function TitleOf(desc: Element): string {
    var base := BaseTitle(desc);
    var alt := Alternative(desc);
    if alt.Some? && ':' !in base then base + ": " + alt.value else base
  }

  /** The title is the base title, extended by ": " and the alternative title exactly when there is one and the base has no colon. */
  lemma TitleRule(desc: Element)
    ensures ':' in BaseTitle(desc) || Alternative(desc).None? ==> TitleOf(desc) == BaseTitle(desc)
    ensures ':' !in BaseTitle(desc) && Alternative(desc).Some? ==>
      StartsWith(TitleOf(desc), BaseTitle(desc) + ": ") && TitleOf(desc)[|BaseTitle(desc)| + 2..] == Alternative(desc).value
  {
    var base := BaseTitle(desc);
    if ':' !in base && Alternative(desc).Some? {
      assert TitleOf(desc) == (base + ": ") + Alternative(desc).value;
    }
  }

  /** The year found in the `dcterms:issued` text. */
  function YearOf(desc: Element): (r: Option<string>)
    ensures r.Some? ==> |r.value| == 4 && IsDigit(r.value[0])
  {
    var issued := FirstChild(desc, Dcterms("issued"));
    if HasText(issued) then
      var y := FindYear(issued.value.text.value);
      if y.Some? then
        var t := issued.value.text.value;
        var k :| 0 <= k <= |t| && YearAt(t, k) && y.value == t[k..k + 4];
        assert y.value[0] == t[k];
        y
      else None
    else None
  }

  /** The places of publication joined with ", ", or `None` when there are none. */
  function PlaceOf(desc: Element): Option<string> {
    var places := NonBlankTexts(ChildrenNamed(desc, Rdau("P60163")));
    if places == [] then None else Some(Join(", ", places))
  }

  /** The `rdau:P60333` publication statement, split at the first " : ", fills a missing place and a missing publisher. */
  function FromStatement(place: Option<string>, publisher: Option<string>, stmt: Option<Element>): (r: (Option<string>, Option<string>))
    ensures Truthy(place) ==> r.0 == place
    ensures Truthy(publisher) ==> r.1 == publisher
  {
    if HasText(stmt) && (!Truthy(place) || !Truthy(publisher)) then
      match SplitOnce(Strip(stmt.value.text.value), " : ")
      case None => (place, publisher)
      case Some((a, b)) =>
        (if !Truthy(place) then Some(Strip(a)) else place,
         if !Truthy(publisher) then Some(DropBracketYear(Strip(b))) else publisher)
    else (place, publisher)
  }

  /** A filled-in place is the text before the first " : " of the statement, and a filled-in publisher the text after it. */
  lemma StatementFills(place: Option<string>, publisher: Option<string>, stmt: Option<Element>)
    ensures var r := FromStatement(place, publisher, stmt);
      (r.0 != place || r.1 != publisher) ==>
        HasText(stmt) &&
        exists a, b :: Strip(stmt.value.text.value) == a + " : " + b && !Contains(a, " : ")
          && (r.0 != place ==> !Truthy(place) && r.0 == Some(Strip(a)))
          && (r.1 != publisher ==> !Truthy(publisher) && r.1 == Some(DropBracketYear(Strip(b))))
  {
    var r := FromStatement(place, publisher, stmt);
    if r.0 != place || r.1 != publisher {
      var (a, b) := SplitOnce(Strip(stmt.value.text.value), " : ").value;
      assert Strip(stmt.value.text.value) == a + " : " + b && !Contains(a, " : ");
    }
  }

  /** Place and publisher: the separate elements first, the statement for what they leave missing. */
  function Publication(desc: Element): (Option<string>, Option<string>) {
    FromStatement(PlaceOf(desc), StrippedText(FirstChild(desc, Dc("publisher"))), FirstChild(desc, Rdau("P60333")))
  }

  /** `dcterms:isPartOf` (its text, else the last segment of its resource), else `dcterms:bibliographicCitation`. */
  function SeriesOf(desc: Element): Option<string> {
    var s := FirstChild(desc, Dcterms("isPartOf"));
    if s.Some? then
      if Truthy(s.value.text) then Some(Strip(s.value.text.value))
      else
        var res := Attr(s.value, Rdf("resource"));
        if Truthy(res) then Some(Segment(res.value)) else None
    else StrippedText(FirstChild(desc, Dcterms("bibliographicCitation")))
  }

  /** `dcterms:language`: the last segment of its resource, else its non-blank text. */
  function LanguageOf(desc: Element): Option<string> {
    var l := FirstChild(desc, Dcterms("language"));
    if l.None? then None
    else
      var res := Attr(l.value, Rdf("resource"));
      if Truthy(res) then Some(Segment(res.value))
      else if NonBlank(l.value) then Some(Strip(l.value.text.value))
      else None
  }

  /** `dcterms:format`: the last segment of its resource, else its stripped text. */
  function FormatOf(desc: Element): Option<string> {
    var f := FirstChild(desc, Dcterms("format"));
    if f.None? then None
    else
      var res := Attr(f.value, Rdf("resource"));
      if Truthy(res) then Some(Segment(res.value))
      else if Truthy(f.value.text) then Some(Strip(f.value.text.value))
      else None
  }

  /** A value taken from a resource URI is a single path segment. */
  lemma SegmentsHaveNoSlash(desc: Element)
    ensures var l := FirstChild(desc, Dcterms("language"));
      l.Some? && Truthy(Attr(l.value, Rdf("resource"))) ==> !Contains(LanguageOf(desc).value, "/")
    ensures var f := FirstChild(desc, Dcterms("format"));
      f.Some? && Truthy(Attr(f.value, Rdf("resource"))) ==> !Contains(FormatOf(desc).value, "/")
    ensures var s := FirstChild(desc, Dcterms("isPartOf"));
      s.Some? && !Truthy(s.value.text) && Truthy(Attr(s.value, Rdf("resource"))) ==> !Contains(SeriesOf(desc).value, "/")
  {
    var l := FirstChild(desc, Dcterms("language"));
    var f := FirstChild(desc, Dcterms("format"));
    var s := FirstChild(desc, Dcterms("isPartOf"));
    if l.Some? && Truthy(Attr(l.value, Rdf("resource"))) {
      LastPieceFree(Attr(l.value, Rdf("resource")).value, "/");
    }
    if f.Some? && Truthy(Attr(f.value, Rdf("resource"))) {
      LastPieceFree(Attr(f.value, Rdf("resource")).value, "/");
    }
    if s.Some? && !Truthy(s.value.text) && Truthy(Attr(s.value, Rdf("resource"))) {
      LastPieceFree(Attr(s.value, Rdf("resource")).value, "/");
    }
  }

  const IsbnFields: seq<string> := ["isbn13", "isbn10", "isbn", "gtin14"]

  /** The stripped text of the first `bibo:<field>`, in the order of `fields`, that has text. */
  function FirstBiboText(desc: Element, fields: seq<string>): (r: Option<string>)
    ensures r.Some? <==> exists i :: 0 <= i < |fields| && HasText(FirstChild(desc, Bibo(fields[i])))
  {
    if fields == [] then None
    else
      var e := FirstChild(desc, Bibo(fields[0]));
      if HasText(e) then Some(Strip(e.value.text.value))
      else
        var r := FirstBiboText(desc, fields[1..]);
        assert forall i :: 0 < i < |fields| ==> fields[i] == fields[1..][i - 1];
        r
  }

  /** The ISBN loop, which stops at the first field with text. */
  method FindIsbn(desc: Element) returns (isbn: Option<string>)
    ensures isbn == FirstBiboText(desc, IsbnFields)
  {
    var fields := IsbnFields;
    var i := 0;
    while i < |fields|
      invariant 0 <= i <= |fields|
      invariant FirstBiboText(desc, fields[i..]) == FirstBiboText(desc, fields)
    {
      assert fields[i..][1..] == fields[i + 1..];
      var isbnElem := FirstChild(desc, Bibo(fields[i]));
      if HasText(isbnElem) {
        return Some(Strip(isbnElem.value.text.value));
      }
      i := i + 1;
    }
    return None;
  }

  const AbstractTags: seq<string> := ["description", "abstract", "P60493"]
  const AbstractNamespaces: seq<string> := [DcNs, DctermsNs, RdauNs]

  /** The inner abstract loop: the stripped text of the first namespace's `<tag>` that has text. */
  function TagText(desc: Element, nss: seq<string>, tag: string): (r: Option<string>)
    ensures r.Some? ==> exists i :: (0 <= i < |nss| && HasText(FirstChild(desc, QName(nss[i], tag))) &&
      r.value == Strip(FirstChild(desc, QName(nss[i], tag)).value.text.value))
  {
    if nss == [] then None
    else
      var e := FirstChild(desc, QName(nss[0], tag));
      if HasText(e) then Some(Strip(e.value.text.value))
      else
        var r := TagText(desc, nss[1..], tag);
        assert forall i :: 0 < i < |nss| ==> nss[i] == nss[1..][i - 1];
        r
  }

  /** The outer abstract loop: a tag that finds text replaces the value, and a non-empty value ends the loop. */
  function AbstractFrom(desc: Element, tags: seq<string>, prev: Option<string>): Option<string> {
    if tags == [] then prev
    else
      var found := TagText(desc, AbstractNamespaces, tags[0]);
      var cur := if found.Some? then found else prev;
      if Truthy(cur) then cur else AbstractFrom(desc, tags[1..], cur)
  }

  function AbstractOf(desc: Element): Option<string> {
    AbstractFrom(desc, AbstractTags, None)
  }

  /** Element `j` of the abstract namespaces names a `tags[i]` element with text whose stripped text is v. */
  predicate AbstractSource(desc: Element, tags: seq<string>, i: int, j: int, v: string) {
    0 <= i < |tags| && 0 <= j < |AbstractNamespaces|
    && HasText(FirstChild(desc, QName(AbstractNamespaces[j], tags[i])))
    && v == Strip(FirstChild(desc, QName(AbstractNamespaces[j], tags[i])).value.text.value)
  }

  /** The abstract is the value the loop started from or the stripped text of one of the elements it visits. */
  lemma {:induction false} AbstractFromSource(desc: Element, tags: seq<string>, prev: Option<string>)
    ensures var r := AbstractFrom(desc, tags, prev);
      r != prev ==> r.Some? && exists i, j :: AbstractSource(desc, tags, i, j, r.value)
  {
    if tags != [] {
      var found := TagText(desc, AbstractNamespaces, tags[0]);
      var cur := if found.Some? then found else prev;
      var r := AbstractFrom(desc, tags, prev);
      if found.Some? {
        var j :| 0 <= j < |AbstractNamespaces| && HasText(FirstChild(desc, QName(AbstractNamespaces[j], tags[0]))) &&
          found.value == Strip(FirstChild(desc, QName(AbstractNamespaces[j], tags[0])).value.text.value);
        assert AbstractSource(desc, tags, 0, j, found.value);
      }
      if !Truthy(cur) {
        AbstractFromSource(desc, tags[1..], cur);
        if r != cur {
          var i, j :| AbstractSource(desc, tags[1..], i, j, r.value);
          assert AbstractSource(desc, tags, i + 1, j, r.value);
        }
      }
    }
  }

  /** The inner loop over the three namespaces, which stops at the first element with text. */
  method FindTagText(desc: Element, tag: string) returns (r: Option<string>)
    ensures r == TagText(desc, AbstractNamespaces, tag)
  {
    var nss := AbstractNamespaces;
    var i := 0;
    while i < |nss|
      invariant 0 <= i <= |nss|
      invariant TagText(desc, nss[i..], tag) == TagText(desc, nss, tag)
    {
      assert nss[i..][1..] == nss[i + 1..];
      var descElem := FirstChild(desc, QName(nss[i], tag));
      if HasText(descElem) {
        return Some(Strip(descElem.value.text.value));
      }
      i := i + 1;
    }
    return None;
  }

  /** The nested abstract loops. */
  method FindAbstract(desc: Element) returns (abstractText: Option<string>)
    ensures abstractText == AbstractOf(desc)
  {
    var tags := AbstractTags;
    abstractText := None;
    var i := 0;
    while i < |tags|
      invariant 0 <= i <= |tags|
      invariant AbstractFrom(desc, tags[i..], abstractText) == AbstractOf(desc)
    {
      assert tags[i..][1..] == tags[i + 1..];
      var found := FindTagText(desc, tags[i]);
      if found.Some? {
        abstractText := found;
      }
      if Truthy(abstractText) {
        return;
      }
      i := i + 1;
    }
  }

  // ---------------------------------------------------------------- the parser

  /** `data.find('.//rdf:Description')`. */
  function DescriptionOf(data: Element): Option<Element> {
    FirstDesc(data, Rdf("Description"))
  }

  /** The record built from a description once the authors are known. */
  function RdfRecord(raw: SruClient.RawRecord, desc: Element, authors: seq<string>): Record {
    var pub := Publication(desc);
    Minimal(Some(raw.id), TitleOf(desc), raw.rawXml).(
      authors := authors,
      year := YearOf(desc),
      publisherName := pub.1,
      placeOfPublication := pub.0,
      isbn := FirstBiboText(desc, IsbnFields),
      issn := StrippedText(FirstChild(desc, Bibo("issn"))),
      urls := UrlsOf(desc),
      abstractText := AbstractOf(desc),
      language := LanguageOf(desc),
      format := FormatOf(desc),
      subjects := SubjectsOf(desc),
      series := SeriesOf(desc),
      extent := StrippedText(FirstChild(desc, Isbd("P1053"))),
      edition := StrippedText(FirstChild(desc, Bibo("edition"))))
  }

  /** What `parse_rdfxml` does with a raw record. */
  function RdfXml(raw: SruClient.RawRecord): (o: ParseOutcome)
    ensures o.NoRecord? <==> DescriptionOf(raw.data).None?
    ensures o.Parsed? ==> o.record.id == Some(raw.id) && o.record.rawData == raw.rawXml
  {
    match DescriptionOf(raw.data)
    case None => NoRecord
    case Some(desc) =>
      match AuthorsOf(raw.data, desc)
      case Threw => Raised
      case Returned(authors) => Parsed(RdfRecord(raw, desc, authors))
  }

  /**
   * Without an `rdf:Description` there is no record; with one the parser
   * raises exactly when a creator or relator reference holds a double quote;
   * otherwise the record carries the raw record's id and XML.
   */
  lemma RdfXmlOutcome(raw: SruClient.RawRecord)
    ensures RdfXml(raw).NoRecord? <==> DescriptionOf(raw.data).None?
    ensures RdfXml(raw).Raised? <==> (DescriptionOf(raw.data).Some? &&
      ((exists e :: e in Creators(DescriptionOf(raw.data).value) && BadReference(Creator, e)) ||
       (exists e :: e in Roles(DescriptionOf(raw.data).value) && BadReference(Role, e))))
    ensures RdfXml(raw).Parsed? ==> RdfXml(raw).record.id == Some(raw.id) && RdfXml(raw).record.rawData == raw.rawXml
  {
    if DescriptionOf(raw.data).Some? {
      AuthorsRaise(raw.data, DescriptionOf(raw.data).value);
    }
  }

  /** The author loops raise exactly when a creator or relator element holds a bad reference. */
  lemma AuthorsRaise(data: Element, desc: Element)
    ensures AuthorsOf(data, desc).Threw? <==>
      (exists e :: e in Creators(desc) && BadReference(Creator, e)) || (exists e :: e in Roles(desc) && BadReference(Role, e))
  {
    OfferedRaises(data, Creator, Creators(desc));
    OfferedRaises(data, Role, Roles(desc));
  }

  /**
   * The authors are the statement names, the creators' names and the
   * relators' names, first occurrences only: every offered name is kept and
   * no author appears twice.
   */
  lemma AuthorsValid(data: Element, desc: Element)
    requires AuthorsOf(data, desc).Returned?
    ensures NoRepeats(AuthorsOf(data, desc).value)
    ensures forall x :: x in AuthorsOf(data, desc).value <==> (x in StatementNames(desc) ||
      x in Offered(data, Creator, Creators(desc)).value || x in Offered(data, Role, Roles(desc)).value)
  {
    var a := AddEach([], StatementNames(desc));
    var c := Offered(data, Creator, Creators(desc)).value;
    var r := Offered(data, Role, Roles(desc)).value;
    var b := AddEach(a, c);
    AddEachNoRepeats([], StatementNames(desc));
    AddEachNoRepeats(a, c);
    AddEachNoRepeats(b, r);
    AddEachMembers([], StatementNames(desc));
    AddEachMembers(a, c);
    AddEachMembers(b, r);
  }

  /** The statement's names, none of them empty, come first in the author list. */
  lemma StatementAuthorsFirst(data: Element, desc: Element)
    requires AuthorsOf(data, desc).Returned?
    ensures var head := AddEach([], StatementNames(desc));
      && |head| <= |AuthorsOf(data, desc).value|
      && AuthorsOf(data, desc).value[..|head|] == head
      && forall x :: x in head ==> x != ""
  {
    var a := AddEach([], StatementNames(desc));
    var c := Offered(data, Creator, Creators(desc)).value;
    var r := Offered(data, Role, Roles(desc)).value;
    var b := AddEach(a, c);
    var st := FirstChild(desc, Rdau("P60327"));
    if HasText(st) {
      CleanedNonEmpty(StatementPieces(Strip(st.value.text.value)));
    }
    AddEachMembers([], StatementNames(desc));
    AddEachPrefix(a, c);
    AddEachPrefix(b, r);
    assert AddEach(b, r)[..|a|] == b[..|a|];
  }

  /** In a parsed record the subjects and URLs hold no repeats, no subject is empty and every URL is an `http` link. */
  lemma RecordListsValid(raw: SruClient.RawRecord)
    requires RdfXml(raw).Parsed?
    ensures var r := RdfXml(raw).record;
      NoRepeats(r.authors) && NoRepeats(r.subjects) && NoRepeats(r.urls)
      && (forall x :: x in r.subjects ==> x != "")
      && (forall u :: u in r.urls ==> StartsWith(u, "http"))
  {
    var desc := DescriptionOf(raw.data).value;
    AuthorsValid(raw.data, desc);
    SubjectsValid(desc);
    UrlsValid(desc);
  }

  /** The place and publisher loops and the publication statement. */
  method ReadPublication(desc: Element) returns (place: Option<string>, publisher: Option<string>)
    ensures (place, publisher) == Publication(desc)
  {
    publisher := StrippedText(FirstChild(desc, Dc("publisher")));
    var places := CollectNonBlank(ChildrenNamed(desc, Rdau("P60163")));
    place := if places != [] then Some(Join(", ", places)) else None;
    var pubStatement := FirstChild(desc, Rdau("P60333"));
    if HasText(pubStatement) {
      var statement := Strip(pubStatement.value.text.value);
      if !Truthy(place) || !Truthy(publisher) {
        var parts := SplitOnce(statement, " : ");
        if parts.Some? {
          if !Truthy(place) {
            place := Some(Strip(parts.value.0));
          }
          if !Truthy(publisher) {
            publisher := Some(DropBracketYear(Strip(parts.value.1)));
          }
        }
      }
    }
  }

  /** The title and the alternative title. */
  method ReadTitle(desc: Element) returns (title: string)
    ensures title == TitleOf(desc)
  {
    var titleElem := FirstChild(desc, Dc("title"));
    if titleElem.None? {
      titleElem := FirstChild(desc, Dcterms("title"));
    }
    title := if HasText(titleElem) then Strip(titleElem.value.text.value) else "Untitled";
    var altTitleElem := FirstChild(desc, Dcterms("alternative"));
    if HasText(altTitleElem) {
      var altTitle := Strip(altTitleElem.value.text.value);
      if altTitle != "" && ':' !in title {
        title := title + ": " + altTitle;
      }
    }
  }

  /** The author loops: the statement, the two creator paths and the three relator roles. */
  method ReadAuthors(data: Element, desc: Element) returns (r: Attempt<seq<string>>)
    ensures r == AuthorsOf(data, desc)
  {
    AuthorsInStages(data, desc);
    var authors, seenAuthors := ScanStatement(
      if HasText(FirstChild(desc, Rdau("P60327"))) then StatementPieces(Strip(FirstChild(desc, Rdau("P60327")).value.text.value)) else [],
      [], {});
    r := Returned(authors);
    var creatorPaths := [Dcterms("creator"), Dc("creator")];
    r, seenAuthors := Gather(data, Creator, ChildrenNamed(desc, creatorPaths[0]), r.value, seenAuthors);
    if r.Threw? { return; }
    r, seenAuthors := Gather(data, Creator, ChildrenNamed(desc, creatorPaths[1]), r.value, seenAuthors);
    if r.Threw? { return; }
    var authorRoles := ["aut", "cre", "edt"];
    r, seenAuthors := Gather(data, Role, ChildrenNamed(desc, MarcRole(authorRoles[0])), r.value, seenAuthors);
    if r.Threw? { return; }
    r, seenAuthors := Gather(data, Role, ChildrenNamed(desc, MarcRole(authorRoles[1])), r.value, seenAuthors);
    if r.Threw? { return; }
    r, seenAuthors := Gather(data, Role, ChildrenNamed(desc, MarcRole(authorRoles[2])), r.value, seenAuthors);
  }

  /** The subject loops. */
  method ReadSubjects(desc: Element) returns (subjects: seq<string>)
    ensures subjects == SubjectsOf(desc)
  {
    var seenSubjects: set<string>;
    subjects, seenSubjects := ScanTermSubjects(ChildrenNamed(desc, Dcterms("subject")), [], {});
    subjects, seenSubjects := ScanNonBlank(ChildrenNamed(desc, Dc("subject")), subjects, seenSubjects);
  }

  /** The URL loops. */
  method ReadUrls(desc: Element) returns (urls: seq<string>)
    ensures urls == UrlsOf(desc)
  {
    var seenUrls: set<string>;
    urls, seenUrls := ScanLinks(ChildrenNamed(desc, Foaf("primaryTopic")), [], {});
    urls, seenUrls := ScanLinks(ChildrenNamed(desc, Umbel("isLike")), urls, seenUrls);
  }

  /** `parse_rdfxml`, loop by loop. */
  method ParseRdfXml(raw: SruClient.RawRecord) returns (r: ParseOutcome)
    ensures r == RdfXml(raw)
  {
    var data := raw.data;
    var desc := DescriptionOf(data);
    if desc.None? {
      return NoRecord;
    }
    var title := ReadTitle(desc.value);
    var authors := ReadAuthors(data, desc.value);
    if authors.Threw? {
      return Raised;
    }
    var place, publisher := ReadPublication(desc.value);
    var isbn := FindIsbn(desc.value);
    var subjects := ReadSubjects(desc.value);
    var abstractText := FindAbstract(desc.value);
    var urls := ReadUrls(desc.value);
    r := Parsed(Minimal(Some(raw.id), title, raw.rawXml).(
      authors := authors.value,
      year := YearOf(desc.value),
      publisherName := publisher,
      placeOfPublication := place,
      isbn := isbn,
      issn := StrippedText(FirstChild(desc.value, Bibo("issn"))),
      urls := urls,
      abstractText := abstractText,
      language := LanguageOf(desc.value),
      format := FormatOf(desc.value),
      subjects := subjects,
      series := SeriesOf(desc.value),
      extent := StrippedText(FirstChild(desc.value, Isbd("P1053"))),
      edition := StrippedText(FirstChild(desc.value, Bibo("edition")))));
  }
}
