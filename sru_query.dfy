/**
 * `build_sru_query` of the command-line tool: one SRU query string from the
 * search criteria, formatted after the example queries the endpoint table
 * lists for the endpoint.  The endpoint tables are not modelled; the
 * examples of the chosen endpoint are a parameter.
 */
module SruQuery {
  import opened Wrappers
  import opened Text

  /** `--advanced`: a plain query string, or the key/value pairs of a JSON object in their order. */
  datatype Advanced = AdvancedText(text: string) | AdvancedPairs(pairs: seq<(string, string)>)

  /** The search criteria of the command line; `schema` is `--schema`. */
  datatype QueryArgs = QueryArgs(
    isbn: Option<string>,
    issn: Option<string>,
    title: Option<string>,
    author: Option<string>,
    year: Option<string>,
    advanced: Option<Advanced>,
    schema: Option<string>)

  /**
   * An endpoint's `examples`: the template strings by criterion and, when
   * its `advanced` example is a dictionary, that dictionary's keys in order.
   */
  datatype Examples = Examples(templates: map<string, string>, advancedKeys: Option<seq<string>>)

  /** The query and the `--schema` value after the call (the function sets it for `bnf`). */
  datatype Built = Built(query: string, schema: Option<string>)

  predicate StartsWithQuote(s: string) {
    s != [] && (s[0] == '"' || s[0] == '\'')
  }

  function Quoted(v: string): string {
    "\"" + v + "\""
  }

  /**
   * A template holding `=`: its text before the first `=`, then `=` and the
   * value, quoted when the second `=`-separated piece of the template starts
   * with a quote.
   */
  function EqualsTemplate(example: string, v: string): Option<string> {
    if Contains(example, "=") then
      var parts := Split(example, "=");
      var prefix := parts[0];
      Some(if |parts| > 1 && StartsWithQuote(parts[1]) then prefix + "=" + Quoted(v) else prefix + "=" + v)
    else None
  }

  /**
   * What `EqualsTemplate` produces, in terms of the text after the first
   * `=`: the value is quoted exactly when that text starts with a quote.
   */
  lemma EqualsTemplateRule(example: string, v: string)
    ensures EqualsTemplate(example, v).Some? <==> Contains(example, "=")
    ensures Contains(example, "=") ==>
      var (prefix, after) := SplitOnce(example, "=").value;
      && !Contains(prefix, "=")
      && EqualsTemplate(example, v) == Some(if StartsWithQuote(after) then prefix + "=" + Quoted(v) else prefix + "=" + v)
  {
    if Contains(example, "=") {
      var (prefix, after) := SplitOnce(example, "=").value;
      assert Split(example, "=") == [prefix] + Split(after, "=");
      FirstPiece(after, "=");
      var piece := Split(after, "=")[0];
      assert StartsWithQuote(piece) ==> StartsWithQuote(after) by {
        if piece != [] { assert after[0] == piece[0]; }
      }
      if StartsWithQuote(after) && !StartsWithQuote(piece) {
        FirstPieceEmptyStart(after);
      }
    }
  }

  /** An empty first `=`-piece means the text starts with `=`. */
  lemma FirstPieceEmptyStart(s: string)
    requires s != [] && Split(s, "=")[0] == []
    ensures s[0] == '='
  {
    match SplitOnce(s, "=")
    case None =>
    case Some((before, after)) =>
      assert Split(s, "=") == [before] + Split(after, "=");
      assert s == "=" + after;
  }

  /** The text before the first `sep` of a template, then `sep` and the quoted value. */
  function WordTemplate(example: string, sep: string, v: string): Option<string>
    requires sep != []
  {
    if Contains(example, sep) then Some(Split(example, sep)[0] + sep + Quoted(v)) else None
  }

  /** The template form for title and author: `=`, else ` all `, else ` any `. */
  function NameTemplate(example: string, v: string): Option<string> {
    if Contains(example, "=") then EqualsTemplate(example, v)
    else if Contains(example, " all ") then WordTemplate(example, " all ", v)
    else WordTemplate(example, " any ", v)
  }

  /** The example for a criterion, when the endpoint lists one. */
  function Template(ex: Examples, key: string): Option<string> {
    if key in ex.templates then Some(ex.templates[key]) else None
  }

  /** A criterion's query: from its example when that yields one, else the endpoint default. */
  function Formatted(fromExample: Option<string>, default: string): string {
    if fromExample.Some? then fromExample.value else default
  }

  function IsbnQuery(ex: Examples, endpoint: string, v: string): string {
    var t := Template(ex, "isbn");
    Formatted(if t.Some? then EqualsTemplate(t.value, v) else None,
      if endpoint == "dnb" then "ISBN=" + v
      else if endpoint == "bnf" then "bib.isbn any " + Quoted(v)
      else "isbn=" + v)
  }

  function IssnQuery(ex: Examples, endpoint: string, v: string): string {
    var t := Template(ex, "issn");
    Formatted(if t.Some? then EqualsTemplate(t.value, v) else None,
      if endpoint == "dnb" || endpoint == "zdb" then "ISS=" + v
      else if endpoint == "bnf" then "bib.issn any " + Quoted(v)
      else "issn=" + v)
  }

  function TitleQuery(ex: Examples, endpoint: string, v: string): string {
    var t := Template(ex, "title");
    Formatted(if t.Some? then NameTemplate(t.value, v) else None,
      if endpoint == "dnb" then "TIT=" + v
      else if endpoint == "bnf" then "bib.title any " + Quoted(v)
      else "title=" + Quoted(v))
  }

  function AuthorQuery(ex: Examples, endpoint: string, v: string): string {
    var t := Template(ex, "author");
    Formatted(if t.Some? then NameTemplate(t.value, v) else None,
      if endpoint == "dnb" then "PER=" + v
      else if endpoint == "bnf" then "bib.author any " + Quoted(v)
      else "author=" + Quoted(v))
  }

  function YearQuery(endpoint: string, v: string): string {
    if endpoint == "dnb" then "JHR=" + v
    else if endpoint == "bnf" then "bib.date any " + Quoted(v)
    else "date=" + v
  }

  /** Either key, lower-cased, contains the other. */
  predicate KeysMatch(k: string, exKey: string) {
    Contains(Lower(exKey), Lower(k)) || Contains(Lower(k), Lower(exKey))
  }

  /** Where the search for an example key matching `k` stops: the first match from `i` on, or `|keys|`. */
  function MatchingIndex(k: string, keys: seq<string>, i: nat): (r: nat)
    requires i <= |keys|
    ensures i <= r <= |keys|
    ensures r < |keys| ==> KeysMatch(k, keys[r])
    ensures forall l :: i <= l < r ==> !KeysMatch(k, keys[l])
    decreases |keys| - i
  {
    if i == |keys| || KeysMatch(k, keys[i]) then i
    else MatchingIndex(k, keys, i + 1)
  }

  /** The first example key matching `k`, searched from index `i`. */
  function MatchingKey(k: string, keys: seq<string>, i: nat): (r: Option<string>)
    requires i <= |keys|
    ensures r.Some? ==> exists j :: i <= j < |keys| && keys[j] == r.value && KeysMatch(k, keys[j])
                         && forall l :: i <= l < j ==> !KeysMatch(k, keys[l])
    ensures r.None? ==> forall j :: i <= j < |keys| ==> !KeysMatch(k, keys[j])
  {
    var j := MatchingIndex(k, keys, i);
    if j < |keys| then Some(keys[j]) else None
  }

  /** One `key=value` part per pair, the key replaced by the first matching example key. */
  function MappedParts(pairs: seq<(string, string)>, keys: seq<string>): (r: seq<string>)
    ensures |r| == |pairs|
  {
    if pairs == [] then []
    else
      var k := pairs[0].0;
      var key := MatchingKey(k, keys, 0);
      [(if key.Some? && key.value != "" then key.value else k) + "=" + pairs[0].1] + MappedParts(pairs[1..], keys)
  }

  function DefaultParts(endpoint: string, pairs: seq<(string, string)>): (r: seq<string>)
    ensures |r| == |pairs|
  {
    if pairs == [] then []
    else
      var (k, v) := pairs[0];
      [if endpoint == "dnb" then k + "=" + v
       else if endpoint == "bnf" then "bib." + k + " any " + Quoted(v)
       else k + "=" + Quoted(v)] + DefaultParts(endpoint, pairs[1..])
  }

  function AdvancedQuery(ex: Examples, endpoint: string, a: Advanced): string {
    match a
    case AdvancedText(text) => text
    case AdvancedPairs(pairs) =>
      if ex.advancedKeys.Some? then Join(" AND ", MappedParts(pairs, ex.advancedKeys.value))
      else if endpoint == "dnb" then Join(" AND ", DefaultParts(endpoint, pairs))
      else Join(" and ", DefaultParts(endpoint, pairs))
  }

  /** `if args.advanced:` — a non-empty string or a non-empty object. */
  predicate AdvancedGiven(a: Option<Advanced>) {
    a.Some? && match a.value
               case AdvancedText(text) => text != ""
               case AdvancedPairs(pairs) => pairs != []
  }

  /** `build_sru_query(args, endpoint_id)`: the query, and `--schema` after the call. */
  function BuildSruQuery(args: QueryArgs, endpoint: string, ex: Examples): (b: Built)
    ensures b.schema != args.schema ==> endpoint == "bnf" && b.schema == Some("dublincore")
    ensures (!Truthy(args.isbn) && !Truthy(args.issn) && !Truthy(args.title) && !Truthy(args.author) && !Truthy(args.year)
             && !AdvancedGiven(args.advanced)) ==> b.query == ""
  {
    var schema := if endpoint == "bnf" && !Truthy(args.schema) then Some("dublincore") else args.schema;
    var query :=
      if Truthy(args.isbn) then IsbnQuery(ex, endpoint, args.isbn.value)
      else if Truthy(args.issn) then IssnQuery(ex, endpoint, args.issn.value)
      else if Truthy(args.title) then TitleQuery(ex, endpoint, args.title.value)
      else if Truthy(args.author) then AuthorQuery(ex, endpoint, args.author.value)
      else if Truthy(args.year) then YearQuery(endpoint, args.year.value)
      else if AdvancedGiven(args.advanced) then AdvancedQuery(ex, endpoint, args.advanced.value)
      else "";
    Built(query, schema)
  }

  /**
   * The first criterion given, in the order isbn, issn, title, author,
   * year, advanced, decides the query; with none the query is empty.  The
   * only other effect is the `dublincore` schema for `bnf` when no schema
   * is given.
   */
  lemma CriterionOrder(args: QueryArgs, endpoint: string, ex: Examples)
    ensures var b := BuildSruQuery(args, endpoint, ex);
      && (Truthy(args.isbn) ==> b.query == IsbnQuery(ex, endpoint, args.isbn.value))
      && (!Truthy(args.isbn) && Truthy(args.issn) ==> b.query == IssnQuery(ex, endpoint, args.issn.value))
      && (!Truthy(args.isbn) && !Truthy(args.issn) && Truthy(args.title) ==>
            b.query == TitleQuery(ex, endpoint, args.title.value))
      && (!Truthy(args.isbn) && !Truthy(args.issn) && !Truthy(args.title) && Truthy(args.author) ==>
            b.query == AuthorQuery(ex, endpoint, args.author.value))
      && ((!Truthy(args.isbn) && !Truthy(args.issn) && !Truthy(args.title) && !Truthy(args.author) && !Truthy(args.year)
           && !AdvancedGiven(args.advanced)) ==> b.query == "")
      && (b.schema != args.schema <==> endpoint == "bnf" && !Truthy(args.schema))
      && (b.schema != args.schema ==> b.schema == Some("dublincore"))
  {
  }

  /**
   * Defaults: without an example the ISBN and ISSN queries put the bare
   * value after the endpoint's index and `=`, except on `bnf`, which uses
   * `any` and quotes; title and author are quoted everywhere but `dnb`.
   */
  lemma DefaultForms(endpoint: string, v: string)
    ensures IsbnQuery(Examples(map[], None), endpoint, v) ==
      (if endpoint == "dnb" then "ISBN=" + v else if endpoint == "bnf" then "bib.isbn any \"" + v + "\"" else "isbn=" + v)
    ensures TitleQuery(Examples(map[], None), endpoint, v) ==
      (if endpoint == "dnb" then "TIT=" + v else if endpoint == "bnf" then "bib.title any \"" + v + "\"" else "title=\"" + v + "\"")
  {
    assert "bib.isbn any " + Quoted(v) == "bib.isbn any \"" + v + "\"";
    assert "bib.title any " + Quoted(v) == "bib.title any \"" + v + "\"";
    assert "title=" + Quoted(v) == "title=\"" + v + "\"";
  }

  /**
   * With an example holding `=`, the ISBN query is the example's text
   * before the first `=`, then `=` and the value, quoted exactly when the
   * example's text after the `=` starts with a quote.
   */
  lemma IsbnFromExample(ex: Examples, endpoint: string, v: string)
    requires "isbn" in ex.templates && Contains(ex.templates["isbn"], "=")
    ensures var (prefix, after) := SplitOnce(ex.templates["isbn"], "=").value;
      IsbnQuery(ex, endpoint, v) == (if StartsWithQuote(after) then prefix + "=\"" + v + "\"" else prefix + "=" + v)
  {
    EqualsTemplateRule(ex.templates["isbn"], v);
    var (prefix, after) := SplitOnce(ex.templates["isbn"], "=").value;
    assert prefix + "=" + Quoted(v) == prefix + "=\"" + v + "\"";
  }

  /**
   * A title example without `=` but with ` all ` gives the text before the
   * first ` all `, then ` all ` and the quoted value; an example with none
   * of the three forms falls back to the endpoint default.
   */
  lemma TitleFromExample(ex: Examples, endpoint: string, v: string)
    requires "title" in ex.templates
    ensures var t := ex.templates["title"];
      !Contains(t, "=") && Contains(t, " all ") ==>
        TitleQuery(ex, endpoint, v) == SplitOnce(t, " all ").value.0 + " all \"" + v + "\""
    ensures var t := ex.templates["title"];
      !Contains(t, "=") && !Contains(t, " all ") && !Contains(t, " any ") ==>
        TitleQuery(ex, endpoint, v) == TitleQuery(Examples(map[], None), endpoint, v)
  {
    var t := ex.templates["title"];
    if !Contains(t, "=") && Contains(t, " all ") {
      var (before, after) := SplitOnce(t, " all ").value;
      assert Split(t, " all ") == [before] + Split(after, " all ");
      assert before + " all " + Quoted(v) == before + " all \"" + v + "\"";
    }
  }

  /** An object query against an example object: one part per pair, joined with ` AND `, keys mapped. */
  lemma AdvancedMapped(ex: Examples, endpoint: string, pairs: seq<(string, string)>, i: nat)
    requires ex.advancedKeys.Some? && i < |pairs|
    ensures var parts := MappedParts(pairs, ex.advancedKeys.value);
      && AdvancedQuery(ex, endpoint, AdvancedPairs(pairs)) == Join(" AND ", parts)
      && |parts| == |pairs|
      && var key := MatchingKey(pairs[i].0, ex.advancedKeys.value, 0);
         parts[i] == (if key.Some? && key.value != "" then key.value else pairs[i].0) + "=" + pairs[i].1
    decreases i
  {
    if i > 0 {
      AdvancedMapped(ex, endpoint, pairs[1..], i - 1);
      assert pairs[1..][i - 1] == pairs[i];
    }
  }
}
