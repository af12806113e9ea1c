/**
 * The two text helpers of the command-line tool's BibTeX output:
 * `bibtex_escape` and `clean_key`.
 *
 * `bibtex_escape` applies twelve `str.replace` steps one after another.
 * Nine of the replacements insert a backslash, and the tenth step replaces
 * every backslash, so `&` comes out as `\textbackslash{}&` instead of `\&`.
 * `BibtexEscapeAsWritten` models the steps as written; `EscapeBibtex`
 * escapes each character once, as the table means, and is proved to be
 * undone by `Unescape`.
 */
module Citation {
  import opened Wrappers
  import opened Text

  // ---------------------------------------------------------------- bibtex_escape as written

  /** The replacement table in its order. */
  const Replacements: seq<(char, string)> := [
    ('&', "\\&"), ('%', "\\%"), ('$', "\\$"), ('#', "\\#"), ('_', "\\_"), ('{', "\\{"), ('}', "\\}"),
    ('~', "\\textasciitilde{}"), ('^', "\\textasciicircum{}"), ('\\', "\\textbackslash{}"),
    ('<', "\\textless{}"), ('>', "\\textgreater{}")]

  /** The text after the first `n` replacement steps. */
  function ReplaceSteps(text: string, n: nat): string
    requires n <= |Replacements|
  {
    if n == 0 then text
    else Replace(ReplaceSteps(text, n - 1), [Replacements[n - 1].0], Replacements[n - 1].1)
  }

  /** `bibtex_escape(text)` as written. */
  function BibtexEscapeAsWritten(text: string): (r: string)
    ensures text == "" ==> r == ""
    ensures (forall i :: 0 <= i < |text| ==> !IsSpecial(text[i])) ==> r == text
  {
    if text == "" then ""
    else
      PlainPassesSteps(text);
      ReplaceSteps(text, |Replacements|)
  }

  /** All twelve steps leave a text without special characters alone. */
  lemma PlainPassesSteps(text: string)
    ensures (forall i :: 0 <= i < |text| ==> !IsSpecial(text[i])) ==> ReplaceSteps(text, |Replacements|) == text
  {
    if forall i :: 0 <= i < |text| ==> !IsSpecial(text[i]) {
      StepsKeepPlain(text, |Replacements|);
    }
  }

  /** `bibtex_escape`: the empty text is returned at once, any other text goes through the loop. */
  method BibtexEscape(text: string) returns (r: string)
    ensures r == BibtexEscapeAsWritten(text)
  {
    if text == "" {
      return "";
    }
    r := ApplyReplacements(text);
  }

  /** The loop over the table, rebinding the text at each step. */
  method ApplyReplacements(text: string) returns (r: string)
    ensures r == ReplaceSteps(text, |Replacements|)
  {
    r := text;
    for i := 0 to |Replacements|
      invariant r == ReplaceSteps(text, i)
    {
      var c, replacement := Replacements[i].0, Replacements[i].1;
      ReplaceStepsNext(text, i, c, replacement);
      r := Replace(r, [c], replacement);
    }
  }

  /** Step `i + 1` replaces the `i`-th character of the table in the text of step `i`. */
  lemma ReplaceStepsNext(text: string, i: nat, c: char, replacement: string)
    requires i < |Replacements| && Replacements[i] == (c, replacement)
    ensures ReplaceSteps(text, i + 1) == Replace(ReplaceSteps(text, i), [c], replacement)
  {
  }

  predicate IsSpecial(c: char) {
    c in "&%$#_{}~^\\<>"
  }

  /** Text without any of the twelve characters passes every step unchanged. */
  lemma {:induction false} StepsKeepPlain(text: string, n: nat)
    requires n <= |Replacements|
    requires forall i :: 0 <= i < |text| ==> !IsSpecial(text[i])
    ensures ReplaceSteps(text, n) == text
  {
    if n > 0 {
      StepsKeepPlain(text, n - 1);
      var c := Replacements[n - 1].0;
      assert IsSpecial(c);
      assert forall i :: 0 <= i < |text| ==> text[i] != c;
      CharFreeNotContains(text, c);
    }
  }

  /** The escape of `&` as written: the backslash of `\\&` is replaced again at the tenth step. */
  lemma AmpersandEscapedTwice()
    ensures BibtexEscapeAsWritten("&") == "\\textbackslash{}&"
    ensures EscapeBibtex("&") == "\\&"
  {
    AmpersandSteps("&", "\\&", "\\textbackslash{}&");
  }

  lemma AmpersandSteps(amp: string, s1: string, s10: string)
    requires amp == "&" && s1 == "\\&" && s10 == "\\textbackslash{}&"
    ensures ReplaceSteps(amp, 12) == s10
  {
    ReplaceWhole('&', s1);
    AmpersandUntouched(s1);
    assert s1 == ['\\'] + amp;
    ReplaceFirstChar('\\', BackslashEscape, amp);
    BackslashUntouched(s10);
    StepsAround(amp, s1, s10);
  }

  lemma AmpersandUntouched(s1: string)
    requires s1 == "\\&"
    ensures Untouched(s1, 1, 9)
  {
  }

  lemma BackslashUntouched(s10: string)
    requires s10 == "\\textbackslash{}&"
    ensures Untouched(s10, 10, 12)
  {
  }

  /** Steps 1 and 10 change the text, the others leave it alone. */
  lemma StepsAround(text: string, s1: string, s10: string)
    requires Replace(text, [Replacements[0].0], Replacements[0].1) == s1 && Untouched(s1, 1, 9)
    requires Replace(s1, [Replacements[9].0], Replacements[9].1) == s10 && Untouched(s10, 10, 12)
    ensures ReplaceSteps(text, 12) == s10
  {
    KeptSteps(text, s1, 1, 9);
    KeptSteps(text, s10, 10, 12);
  }

  /** None of the characters of steps `lo + 1 .. hi` occurs in `s`. */
  predicate Untouched(s: string, lo: nat, hi: nat)
    requires hi <= |Replacements|
    decreases hi - lo
  {
    lo >= hi || (Replacements[lo].0 !in s && Untouched(s, lo + 1, hi))
  }

  /** Steps `lo + 1 .. hi` leave a text without their characters alone. */
  lemma {:induction false} KeptSteps(text: string, s: string, lo: nat, hi: nat)
    requires lo <= hi <= |Replacements| && ReplaceSteps(text, lo) == s && Untouched(s, lo, hi)
    ensures ReplaceSteps(text, hi) == s
    decreases hi - lo
  {
    if lo < hi {
      NoCharKept(s, Replacements[lo].0, Replacements[lo].1);
      KeptSteps(text, s, lo + 1, hi);
    }
  }

  /** `Replace([c], [c], rep)` is `rep`. */
  lemma ReplaceWhole(c: char, rep: string)
    ensures Replace([c], [c], rep) == rep
  {
    ReplaceHead(c, rep, []);
    assert [c] + [] == [c];
  }

  /** A text starting with `c` has its first `c` at index 0. */
  lemma SplitOnceHead(c: char, rest: string)
    ensures SplitOnce([c] + rest, [c]) == Some(([], rest))
  {
    var s := [c] + rest;
    assert s[0..1] == [c];
    assert Find(s, [c]) == Some(0);
    assert s[..0] == [] && s[1..] == rest;
  }

  lemma ReplaceHead(c: char, rep: string, rest: string)
    ensures Replace([c] + rest, [c], rep) == rep + Replace(rest, [c], rep)
  {
    SplitOnceHead(c, rest);
  }

  /** Replacing the first character `c` of `[c] + rest` when `rest` holds no `c`. */
  lemma ReplaceFirstChar(c: char, rep: string, rest: string)
    requires c !in rest
    ensures Replace([c] + rest, [c], rep) == rep + rest
  {
    ReplaceHead(c, rep, rest);
    NoCharKept(rest, c, rep);
  }

  lemma NoCharKept(s: string, c: char, rep: string)
    requires c !in s
    ensures Replace(s, [c], rep) == s
  {
    forall j | 0 <= j
      ensures !OccursAt(s, [c], j)
    {
      if j + 1 <= |s| {
        assert s[j..j + 1] == [s[j]];
      }
    }
  }

  // ---------------------------------------------------------------- bibtex_escape as intended

  /** The escape of one character. */
  function EscapeChar(c: char): string {
    if c == '&' then "\\&"
    else if c == '%' then "\\%"
    else if c == '$' then "\\$"
    else if c == '#' then "\\#"
    else if c == '_' then "\\_"
    else if c == '{' then "\\{"
    else if c == '}' then "\\}"
    else if c == '~' then TildeEscape
    else if c == '^' then CircumEscape
    else if c == '\\' then BackslashEscape
    else if c == '<' then LessEscape
    else if c == '>' then GreaterEscape
    else [c]
  }

  const TildeEscape := "\\textasciitilde{}"
  const CircumEscape := "\\textasciicircum{}"
  const BackslashEscape := "\\textbackslash{}"
  const LessEscape := "\\textless{}"
  const GreaterEscape := "\\textgreater{}"

  /** Every character replaced by its escape once, left to right. */
  function EscapeBibtex(text: string): (r: string)
    ensures |r| >= |text|
  {
    if text == [] then [] else EscapeChar(text[0]) + EscapeBibtex(text[1..])
  }

  /** The character whose named escape (`\\textasciitilde{}` and the other four) starts `s`. */
  function NamedAt(s: string): (r: Option<char>)
    ensures r.Some? ==> StartsWith(s, EscapeChar(r.value)) && |EscapeChar(r.value)| > 1
  {
    if StartsWith(s, TildeEscape) then Some('~')
    else if StartsWith(s, CircumEscape) then Some('^')
    else if StartsWith(s, BackslashEscape) then Some('\\')
    else if StartsWith(s, LessEscape) then Some('<')
    else if StartsWith(s, GreaterEscape) then Some('>')
    else None
  }

  /** Reading the escapes back: `\\` followed by one of `&%$#_{}`, or one of the five named commands. */
  function Unescape(s: string): string
    decreases |s|
  {
    if s == [] then []
    else if s[0] != '\\' then [s[0]] + Unescape(s[1..])
    else if |s| >= 2 && s[1] in "&%$#_{}" then [s[1]] + Unescape(s[2..])
    else if NamedAt(s).Some? then [NamedAt(s).value] + Unescape(s[|EscapeChar(NamedAt(s).value)|..])
    else [s[0]] + Unescape(s[1..])
  }

  /** A named escape is recognised as its own character. */
  lemma NamedAtEscape(c: char, rest: string)
    requires c in "~^\\<>"
    ensures NamedAt(EscapeChar(c) + rest) == Some(c)
  {
    var e := EscapeChar(c);
    var s := e + rest;
    assert s[..|e|] == e;
    if c == '^' {
      assert s[10] == 'c' != TildeEscape[10];
    } else if c == '\\' {
      assert s[5] == 'b' != TildeEscape[5] && s[5] != CircumEscape[5];
    } else if c == '<' {
      assert s[5] == 'l' != TildeEscape[5] && s[5] != CircumEscape[5] && s[5] != BackslashEscape[5];
    } else if c == '>' {
      assert s[5] == 'g' != TildeEscape[5] && s[5] != CircumEscape[5] && s[5] != BackslashEscape[5] && s[5] != LessEscape[5];
    }
  }

  /** One escaped character followed by anything reads back as that character. */
  lemma UnescapeChar(c: char, rest: string)
    ensures Unescape(EscapeChar(c) + rest) == [c] + Unescape(rest)
  {
    var e := EscapeChar(c);
    var s := e + rest;
    assert s[..|e|] == e && s[|e|..] == rest;
    if c in "&%$#_{}" {
      assert s[0] == '\\' && s[1] == c && s[2..] == rest;
    } else if c in "~^\\<>" {
      NamedAtEscape(c, rest);
      assert s[0] == '\\' && s[1] == 't';
    } else {
      assert e == [c];
      assert s[0] == c && s[1..] == rest;
    }
  }

  /** Unescaping the escaped text gives the text back. */
  lemma {:induction false} EscapeRoundTrip(text: string)
    ensures Unescape(EscapeBibtex(text)) == text
  {
    if text != [] {
      EscapeRoundTrip(text[1..]);
      UnescapeChar(text[0], EscapeBibtex(text[1..]));
      assert text == [text[0]] + text[1..];
    }
  }

  /** Escaping distributes over concatenation. */
  lemma {:induction false} EscapeConcat(a: string, b: string)
    ensures EscapeBibtex(a + b) == EscapeBibtex(a) + EscapeBibtex(b)
  {
    if a != [] {
      EscapeConcat(a[1..], b);
      EscapeConcatStep(a[0], a[1..], b);
      assert a == [a[0]] + a[1..];
    } else {
      assert a + b == b;
    }
  }

  /** The step of `EscapeConcat`: one more character in front of the first part. */
  lemma EscapeConcatStep(c: char, rest: string, b: string)
    requires EscapeBibtex(rest + b) == EscapeBibtex(rest) + EscapeBibtex(b)
    ensures EscapeBibtex([c] + rest + b) == EscapeBibtex([c] + rest) + EscapeBibtex(b)
  {
    assert [c] + rest + b == [c] + (rest + b);
    EscapeCons(c, rest + b);
    EscapeCons(c, rest);
    ConcatAssoc(EscapeChar(c), EscapeBibtex(rest), EscapeBibtex(b));
  }


  lemma EscapeCons(c: char, rest: string)
    ensures EscapeBibtex([c] + rest) == EscapeChar(c) + EscapeBibtex(rest)
  {
    var s := [c] + rest;
    assert s[0] == c && s[1..] == rest;
  }

  /** Text without the twelve characters is unchanged, as written and as intended. */
  lemma PlainUnchanged(text: string)
    requires forall i :: 0 <= i < |text| ==> !IsSpecial(text[i])
    ensures EscapeBibtex(text) == text
    ensures BibtexEscapeAsWritten(text) == text
  {
    PlainEscape(text);
    if text != "" {
      StepsKeepPlain(text, |Replacements|);
    }
  }

  lemma {:induction false} PlainEscape(text: string)
    requires forall i :: 0 <= i < |text| ==> !IsSpecial(text[i])
    ensures EscapeBibtex(text) == text
  {
    if text != [] {
      PlainEscape(text[1..]);
      assert EscapeChar(text[0]) == [text[0]];
    }
  }

  // ---------------------------------------------------------------- clean_key

  /** `re.sub(r'[^\w\s]', '', s)`: keep word characters and white space. */
  function KeepWordsAndSpace(s: string): (r: string)
    ensures |r| <= |s|
    ensures forall i :: 0 <= i < |r| ==> IsWordChar(r[i]) || IsSpace(r[i])
  {
    if s == [] then []
    else (if IsWordChar(s[0]) || IsSpace(s[0]) then [s[0]] else []) + KeepWordsAndSpace(s[1..])
  }

  /** `re.sub(r'\s+', '_', s)`: each run of white space becomes one `_`. */
  function UnderscoreRuns(s: string): (r: string)
    ensures |r| <= |s|
    ensures forall i :: 0 <= i < |r| ==> !IsSpace(r[i])
    ensures forall i :: 0 <= i < |r| ==> r[i] == '_' || exists j :: 0 <= j < |s| && s[j] == r[i]
    decreases |s|
  {
    if s == [] then []
    else if IsSpace(s[0]) then ['_'] + UnderscoreRuns(SkipSpace(s[1..]))
    else
      var rest := UnderscoreRuns(s[1..]);
      assert forall i :: 0 < i < |rest| + 1 ==> ([s[0]] + rest)[i] == rest[i - 1];
      [s[0]] + rest
  }

  /** `s` without its leading white space. */
  function SkipSpace(s: string): (r: string)
    ensures |r| <= |s| && r == s[|s| - |r|..]
    ensures r == [] || !IsSpace(r[0])
  {
    if s != [] && IsSpace(s[0]) then SkipSpace(s[1..]) else s
  }

  /**
   * `clean_key(text)`: `unknown` for empty text; otherwise the text passed
   * through `fold` (NFKD normalisation and removal of combining marks, which
   * are not modelled), stripped of characters that are neither word
   * characters nor white space, lower-cased, with white-space runs turned
   * into `_`, cut to 30 characters.
   */
  function CleanKey(text: string, fold: string -> string): (r: string)
    ensures text == "" ==> r == "unknown"
    ensures |r| <= 30 || text == ""
    ensures text != "" ==> forall i :: 0 <= i < |r| ==> IsWordChar(r[i]) && !IsUpper(r[i])
    ensures text != "" ==>
      var joined := UnderscoreRuns(Lower(KeepWordsAndSpace(fold(text))));
      StartsWith(joined, r) && (r == joined || |r| == 30)
  {
    if text == "" then "unknown"
    else
      var kept := Lower(KeepWordsAndSpace(fold(text)));
      var joined := UnderscoreRuns(kept);
      assert forall i :: 0 <= i < |kept| ==> !IsUpper(kept[i]) && (IsWordChar(kept[i]) || IsSpace(kept[i])) by {
        forall i | 0 <= i < |kept|
          ensures !IsUpper(kept[i]) && (IsWordChar(kept[i]) || IsSpace(kept[i]))
        {
          LowerKeepsClass(KeepWordsAndSpace(fold(text))[i]);
        }
      }
      if |joined| <= 30 then joined else joined[..30]
  }

  /** The cleaning deletes characters one by one: it distributes over concatenation. */
  lemma {:induction false} KeepWordsAndSpaceConcat(a: string, b: string)
    ensures KeepWordsAndSpace(a + b) == KeepWordsAndSpace(a) + KeepWordsAndSpace(b)
    decreases |a|
  {
    if a == [] {
      assert a + b == b;
    } else {
      assert (a + b)[0] == a[0] && (a + b)[1..] == a[1..] + b;
      KeepWordsAndSpaceConcat(a[1..], b);
      ConcatAssoc(if IsWordChar(a[0]) || IsSpace(a[0]) then [a[0]] else [], KeepWordsAndSpace(a[1..]), KeepWordsAndSpace(b));
    }
  }

  /** One character stays exactly when it is a word character or white space. */
  lemma KeepWordsAndSpaceOne(c: char)
    ensures KeepWordsAndSpace([c]) == if IsWordChar(c) || IsSpace(c) then [c] else []
  {
    assert [c][1..] == [];
  }

  /** Skipping white space in front of text that starts with none drops exactly that white space. */
  lemma {:induction false} SkipSpaceOver(sp: string, rest: string)
    requires AllSpace(sp)
    requires rest == [] || !IsSpace(rest[0])
    ensures SkipSpace(sp + rest) == rest
    decreases |sp|
  {
    if sp == [] {
      assert sp + rest == rest;
    } else {
      assert (sp + rest)[1..] == sp[1..] + rest;
      SkipSpaceOver(sp[1..], rest);
    }
  }

  /**
   * A word, a run of white space and the text after the run: the word is
   * kept, the whole run becomes a single `_`, and the rest is treated alike.
   */
  lemma {:induction false} UnderscoreRunsStep(w: string, sp: string, rest: string)
    requires forall i :: 0 <= i < |w| ==> !IsSpace(w[i])
    requires sp != [] && AllSpace(sp)
    requires rest == [] || !IsSpace(rest[0])
    ensures UnderscoreRuns(w + sp + rest) == w + "_" + UnderscoreRuns(rest)
    decreases |w|
  {
    UnderscoreRunsWord(w, sp + rest);
    UnderscoreRunsRun(sp, rest);
    ConcatAssoc(w, sp, rest);
    ConcatAssoc(w, "_", UnderscoreRuns(rest));
  }

  /** Text in front of the rest that holds no white space is kept as it is. */
  lemma {:induction false} UnderscoreRunsWord(w: string, t: string)
    requires forall i :: 0 <= i < |w| ==> !IsSpace(w[i])
    ensures UnderscoreRuns(w + t) == w + UnderscoreRuns(t)
    decreases |w|
  {
    if w == [] {
      assert w + t == t;
    } else {
      var x := w[1..] + t;
      assert w + t == [w[0]] + x;
      UnderscoreRunsCons(w[0], x);
      UnderscoreRunsWord(w[1..], t);
      ConcatAssoc([w[0]], w[1..], UnderscoreRuns(t));
      assert [w[0]] + w[1..] == w;
    }
  }

  lemma UnderscoreRunsCons(c: char, t: string)
    requires !IsSpace(c)
    ensures UnderscoreRuns([c] + t) == [c] + UnderscoreRuns(t)
  {
    assert ([c] + t)[1..] == t;
  }

  lemma UnderscoreRunsRun(sp: string, rest: string)
    requires sp != [] && AllSpace(sp)
    requires rest == [] || !IsSpace(rest[0])
    ensures UnderscoreRuns(sp + rest) == "_" + UnderscoreRuns(rest)
  {
    assert (sp + rest)[1..] == sp[1..] + rest;
    SkipSpaceOver(sp[1..], rest);
  }

  lemma LowerKeepsClass(c: char)
    requires IsWordChar(c) || IsSpace(c)
    ensures IsWordChar(LowerChar(c)) || IsSpace(LowerChar(c))
  {
  }

  /**
   * A key is its own key: text that already consists of at most 30
   * lower-case word characters, and that `fold` leaves alone, comes back
   * unchanged.
   */
  lemma CleanKeyIdempotent(key: string, fold: string -> string)
    requires key != "" && |key| <= 30 && fold(key) == key
    requires forall i :: 0 <= i < |key| ==> IsWordChar(key[i]) && !IsUpper(key[i])
    ensures CleanKey(key, fold) == key
  {
    KeepAll(key);
    LowerIdentity(key);
    NoRuns(key);
  }

  lemma {:induction false} KeepAll(s: string)
    requires forall i :: 0 <= i < |s| ==> IsWordChar(s[i])
    ensures KeepWordsAndSpace(s) == s
  {
    if s != [] {
      KeepAll(s[1..]);
    }
  }

  lemma LowerIdentity(s: string)
    requires forall i :: 0 <= i < |s| ==> !IsUpper(s[i])
    ensures Lower(s) == s
  {
  }

  lemma {:induction false} NoRuns(s: string)
    requires forall i :: 0 <= i < |s| ==> IsWordChar(s[i])
    ensures UnderscoreRuns(s) == s
  {
    if s != [] {
      assert !IsSpace(s[0]);
      NoRuns(s[1..]);
    }
  }
}
