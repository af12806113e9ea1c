/**
 * Python `str` operations the library relies on, and hand-written scanners for
 * the handful of regular expressions it uses.  Character classes follow
 * Python's definitions where they are decidable per code point (`isspace`);
 * `\d` and `\w` are restricted to ASCII and lower-casing is ASCII only.
 */
module Text {
  import opened Wrappers

  /** `str.isspace()` for one code point (also what `\s` matches in `re`). */
  predicate IsSpace(c: char) {
    c == ' ' || ('\t' <= c <= '\r') || ('\U{1c}' <= c <= '\U{1f}') || c == '\U{85}' || c == '\U{a0}'
    || c == '\U{1680}' || ('\U{2000}' <= c <= '\U{200a}') || c == '\U{2028}' || c == '\U{2029}'
    || c == '\U{202f}' || c == '\U{205f}' || c == '\U{3000}'
  }

  predicate IsDigit(c: char) { '0' <= c <= '9' }
  predicate IsUpper(c: char) { 'A' <= c <= 'Z' }
  predicate IsLower(c: char) { 'a' <= c <= 'z' }
  /** `\w` on ASCII text. */
  predicate IsWordChar(c: char) { IsDigit(c) || IsUpper(c) || IsLower(c) || c == '_' }

  predicate AllSpace(s: string) { forall i :: 0 <= i < |s| ==> IsSpace(s[i]) }

  /** Python truthiness of an optional string: present and non-empty. */
  predicate Truthy(o: Option<string>) { o.Some? && o.value != "" }

  /** f-string rendering of an optional string (`None` prints as "None"). */
  function Show(o: Option<string>): string { if o.Some? then o.value else "None" }

  // ---------------------------------------------------------------- strip

  /** `str.lstrip()`; `LStripSpec` says what it returns. */
  function LStrip(s: string): string {
    if s != [] && IsSpace(s[0]) then LStrip(s[1..]) else s
  }

  /** `str.rstrip()`; `RStripSpec` says what it returns. */
  function RStrip(s: string): string {
    if s != [] && IsSpace(s[|s| - 1]) then RStrip(s[..|s| - 1]) else s
  }

  /** lstrip removes exactly the leading white space. */
  lemma {:induction false} LStripSpec(s: string)
    ensures |LStrip(s)| <= |s| && LStrip(s) == s[|s| - |LStrip(s)|..]
    ensures AllSpace(s[..|s| - |LStrip(s)|])
    ensures LStrip(s) == [] || !IsSpace(LStrip(s)[0])
  {
    if s != [] && IsSpace(s[0]) {
      LStripSpec(s[1..]);
      var k := |s| - |LStrip(s)|;
      assert s[..k] == [s[0]] + s[1..][..k - 1];
    }
  }

  /** rstrip removes exactly the trailing white space. */
  lemma {:induction false} RStripSpec(s: string)
    ensures |RStrip(s)| <= |s| && RStrip(s) == s[..|RStrip(s)|]
    ensures AllSpace(s[|RStrip(s)|..])
    ensures RStrip(s) == [] || !IsSpace(RStrip(s)[|RStrip(s)| - 1])
  {
    if s != [] && IsSpace(s[|s| - 1]) {
      var t := s[..|s| - 1];
      RStripSpec(t);
      var k := |RStrip(s)|;
      assert s[k..] == t[k..] + [s[|s| - 1]];
    }
  }

  /** `str.strip()`. */
  function Strip(s: string): string {
    RStrip(LStrip(s))
  }

  /** What strip keeps starts and ends with a non-space. */
  lemma StripEnds(s: string)
    ensures |Strip(s)| <= |s|
    ensures Strip(s) == [] || (!IsSpace(Strip(s)[0]) && !IsSpace(Strip(s)[|Strip(s)| - 1]))
  {
    var l := LStrip(s);
    var r := RStrip(l);
    LStripSpec(s);
    RStripSpec(l);
    if r != [] {
      assert r[0] == l[0];
    }
  }

  /** strip returns the empty string exactly for all-space input. */
  lemma StripEmpty(s: string)
    ensures Strip(s) == [] <==> AllSpace(s)
  {
    var l := LStrip(s);
    var r := RStrip(l);
    LStripSpec(s);
    RStripSpec(l);
    assert l[|r|..] == l || r != [];
  }

  lemma {:induction false} LStripIdentity(s: string)
    requires s == [] || !IsSpace(s[0])
    ensures LStrip(s) == s
  {
  }

  lemma {:induction false} RStripIdentity(s: string)
    requires s == [] || !IsSpace(s[|s| - 1])
    ensures RStrip(s) == s
  {
  }

  /** Stripping twice is stripping once. */
  lemma StripIdempotent(s: string)
    ensures Strip(Strip(s)) == Strip(s)
  {
    StripEnds(s);
    var t := Strip(s);
    LStripIdentity(t);
    RStripIdentity(t);
  }

  // ---------------------------------------------------------------- case

  function LowerChar(c: char): (d: char)
    ensures !IsUpper(d)
    ensures IsUpper(c) || d == c
  {
    if IsUpper(c) then (c as int + 32) as char else c
  }

  /** `str.lower()` on ASCII letters; every other character is left alone. */
  function Lower(s: string): (r: string)
    ensures |r| == |s|
    ensures forall i :: 0 <= i < |s| ==> r[i] == LowerChar(s[i])
  {
    if s == [] then [] else [LowerChar(s[0])] + Lower(s[1..])
  }

  // ---------------------------------------------------------------- search

  predicate OccursAt(s: string, pat: string, k: nat) {
    k + |pat| <= |s| && s[k..k + |pat|] == pat
  }

  /** `s.find(pat, start)` as an optional index: the leftmost occurrence at or after `start`. */
  function FindFrom(s: string, pat: string, start: nat): (r: Option<nat>)
    ensures r.Some? ==> start <= r.value && OccursAt(s, pat, r.value)
    ensures r.Some? ==> forall j :: start <= j < r.value ==> !OccursAt(s, pat, j)
    ensures r.None? ==> forall j :: start <= j ==> !OccursAt(s, pat, j)
    decreases |s| + 1 - start
  {
    if start > |s| then None
    else if OccursAt(s, pat, start) then Some(start)
    else FindFrom(s, pat, start + 1)
  }

  function Find(s: string, pat: string): Option<nat> {
    FindFrom(s, pat, 0)
  }

  /** `pat in s`. */
  predicate Contains(s: string, pat: string) {
    Find(s, pat).Some?
  }

  lemma ContainsAt(s: string, pat: string, k: nat)
    requires OccursAt(s, pat, k)
    ensures Contains(s, pat)
  {
  }

  predicate StartsWith(s: string, pre: string) {
    |pre| <= |s| && s[..|pre|] == pre
  }

  /** `s.split(sep, 1)`: the parts around the first occurrence, when there is one. */
  function SplitOnce(s: string, sep: string): (r: Option<(string, string)>)
    requires sep != []
    ensures r.Some? <==> Contains(s, sep)
    ensures r.Some? ==> s == r.value.0 + sep + r.value.1 && !Contains(r.value.0, sep)
  {
    match Find(s, sep)
    case None => None
    case Some(k) =>
      var before := s[..k];
      assert s == before + sep + s[k + |sep|..];
      FirstOccurrencePrefix(s, sep, k);
      Some((before, s[k + |sep|..]))
  }

  lemma FirstOccurrencePrefix(s: string, sep: string, k: nat)
    requires sep != [] && k <= |s| && forall j :: 0 <= j < k ==> !OccursAt(s, sep, j)
    ensures !Contains(s[..k], sep)
  {
    if Contains(s[..k], sep) {
      var j := Find(s[..k], sep).value;
      assert s[j..j + |sep|] == s[..k][j..j + |sep|];
      assert OccursAt(s, sep, j);
    }
  }

  /** `sep.join(parts)`. */
  function Join(sep: string, parts: seq<string>): string {
    if |parts| == 0 then ""
    else if |parts| == 1 then parts[0]
    else parts[0] + sep + Join(sep, parts[1..])
  }

  lemma JoinNonEmpty(sep: string, parts: seq<string>)
    requires parts != [] && parts[0] != ""
    ensures Join(sep, parts) != ""
  {
    if |parts| > 1 {
      assert Join(sep, parts)[0] == parts[0][0];
    }
  }

  /** Joining one more part appends the separator and that part. */
  lemma {:induction false} JoinSnoc(sep: string, parts: seq<string>, last: string)
    requires parts != []
    ensures Join(sep, parts + [last]) == Join(sep, parts) + sep + last
    decreases |parts|
  {
    if |parts| > 1 {
      JoinSnoc(sep, parts[1..], last);
      assert (parts + [last])[1..] == parts[1..] + [last];
    }
  }

  /** `s.split(sep)` for a non-empty separator. */
  function Split(s: string, sep: string): (r: seq<string>)
    requires sep != []
    ensures |r| >= 1
    decreases |s|
  {
    match SplitOnce(s, sep)
    case None => [s]
    case Some((before, after)) => [before] + Split(after, sep)
  }

  /** Splitting and joining with the same separator round-trips. */
  lemma {:induction false} JoinSplit(s: string, sep: string)
    requires sep != []
    ensures Join(sep, Split(s, sep)) == s
    decreases |s|
  {
    match SplitOnce(s, sep)
    case None =>
    case Some((before, after)) =>
      JoinSplit(after, sep);
      assert Split(s, sep) == [before] + Split(after, sep);
  }

  /** The pieces of a split never contain the separator. */
  lemma {:induction false} SplitPiecesFree(s: string, sep: string)
    requires sep != []
    ensures forall i :: 0 <= i < |Split(s, sep)| - 1 ==> !Contains(Split(s, sep)[i], sep)
    ensures !Contains(s, sep) ==> Split(s, sep) == [s]
    decreases |s|
  {
    match SplitOnce(s, sep)
    case None =>
    case Some((before, after)) =>
      SplitPiecesFree(after, sep);
      var r := Split(s, sep);
      assert r == [before] + Split(after, sep);
      forall i | 0 <= i < |r| - 1 ensures !Contains(r[i], sep) {
        if i > 0 { assert r[i] == Split(after, sep)[i - 1]; }
      }
  }

  /** The first piece of a split is a prefix of the string and holds no separator. */
  lemma FirstPiece(s: string, sep: string)
    requires sep != []
    ensures StartsWith(s, Split(s, sep)[0]) && !Contains(Split(s, sep)[0], sep)
  {
    match SplitOnce(s, sep)
    case None =>
    case Some((before, after)) =>
      assert s[..|before|] == before;
  }

  /** With a one-character separator, the first occurrence in `a + [c] + b` is right after `a` when `a` holds no `c`. */
  lemma SplitOnceChar(a: string, c: char, b: string)
    requires forall i :: 0 <= i < |a| ==> a[i] != c
    ensures SplitOnce(a + [c] + b, [c]) == Some((a, b))
  {
    var s := a + [c] + b;
    assert OccursAt(s, [c], |a|) by {
      assert s[|a|..|a| + 1] == [c];
    }
    forall j | 0 <= j < |a|
      ensures !OccursAt(s, [c], j)
    {
      assert s[j] == a[j];
    }
    var k := Find(s, [c]).value;
    assert s[..k] == a && s[k + 1..] == b;
  }

  /** A string with no character `c` does not contain `[c]`. */
  lemma CharFreeNotContains(a: string, c: char)
    requires forall i :: 0 <= i < |a| ==> a[i] != c
    ensures !Contains(a, [c])
  {
    forall k: nat | k + 1 <= |a|
      ensures !OccursAt(a, [c], k)
    {
      assert a[k..k + 1][0] == a[k];
    }
  }

  /** Splitting on a one-character separator undoes joining parts that hold no such character. */
  lemma {:induction false} SplitJoinChar(c: char, parts: seq<string>)
    requires parts != []
    requires forall i, j :: 0 <= i < |parts| && 0 <= j < |parts[i]| ==> parts[i][j] != c
    ensures Split(Join([c], parts), [c]) == parts
  {
    if |parts| == 1 {
      CharFreeNotContains(parts[0], c);
    } else {
      var rest := parts[1..];
      SplitJoinChar(c, rest);
      assert Join([c], parts) == parts[0] + [c] + Join([c], rest);
      SplitOnceChar(parts[0], c, Join([c], rest));
      assert parts == [parts[0]] + rest;
    }
  }

  /** A string that does not contain `[c]` holds no character `c`. */
  lemma NoCharInside(a: string, c: char)
    requires !Contains(a, [c])
    ensures forall i :: 0 <= i < |a| ==> a[i] != c
  {
    forall i | 0 <= i < |a|
      ensures a[i] != c
    {
      assert !OccursAt(a, [c], i);
      assert a[i..i + 1] == [a[i]];
    }
  }

  /** Splitting on one character at its first occurrence. */
  lemma SplitCons(a: string, c: char, b: string)
    requires !Contains(a, [c])
    ensures Split(a + [c] + b, [c]) == [a] + Split(b, [c])
  {
    NoCharInside(a, c);
    SplitOnceChar(a, c, b);
  }

  /** A last piece without the separator character is split off as the last piece. */
  lemma {:induction false} SplitSnoc(x: string, c: char, z: string)
    requires !Contains(z, [c])
    ensures Split(x + [c] + z, [c]) == Split(x, [c]) + [z]
    decreases |x|
  {
    match SplitOnce(x, [c])
    case None =>
      SplitCons(x, c, z);
      SplitPiecesFree(z, [c]);
      SplitPiecesFree(x, [c]);
    case Some((before, after)) =>
      assert x + [c] + z == before + [c] + (after + [c] + z);
      SplitCons(before, c, after + [c] + z);
      SplitSnoc(after, c, z);
  }

  /** `s.split(sep)[-1]`. */
  function LastPiece(s: string, sep: string): string
    requires sep != []
  {
    var parts := Split(s, sep);
    parts[|parts| - 1]
  }

  /** The last piece of a split holds no separator. */
  lemma {:induction false} LastPieceFree(s: string, sep: string)
    requires sep != []
    ensures !Contains(LastPiece(s, sep), sep)
    decreases |s|
  {
    match SplitOnce(s, sep)
    case None =>
    case Some((before, after)) =>
      LastPieceFree(after, sep);
      var rest := Split(after, sep);
      assert Split(s, sep) == [before] + rest;
      assert ([before] + rest)[|rest|] == rest[|rest| - 1];
  }

  /** `s.replace(old, new)`: every non-overlapping occurrence, left to right. */
  function Replace(s: string, pat: string, rep: string): (r: string)
    requires pat != []
    ensures !Contains(s, pat) ==> r == s
    decreases |s|
  {
    match SplitOnce(s, pat)
    case None => s
    case Some((before, after)) => before + rep + Replace(after, pat, rep)
  }

  /** The prefix of `s` made of non-space characters. */
  function TakeWord(s: string): (w: string)
    ensures |w| <= |s| && w == s[..|w|]
    ensures forall i :: 0 <= i < |w| ==> !IsSpace(w[i])
    ensures |w| == |s| || IsSpace(s[|w|])
  {
    if s == [] || IsSpace(s[0]) then [] else [s[0]] + TakeWord(s[1..])
  }

  /** A non-empty run of non-space characters. */
  predicate IsWord(w: string) {
    w != [] && forall j :: 0 <= j < |w| ==> !IsSpace(w[j])
  }

  /** `s.split()`: the maximal runs of non-space characters, in order. */
  function Words(s: string): (r: seq<string>)
    ensures forall i :: 0 <= i < |r| ==> IsWord(r[i])
    decreases |s|
  {
    if s == [] then []
    else if IsSpace(s[0]) then Words(s[1..])
    else
      var w := TakeWord(s);
      var rest := Words(s[|w|..]);
      assert IsWord(w);
      [w] + rest
  }

  /** A text of non-space characters is its own first word. */
  lemma TakeWordOfWord(s: string)
    requires forall j :: 0 <= j < |s| ==> !IsSpace(s[j])
    ensures TakeWord(s) == s
  {
  }

  /** The first word of `x + y` stops inside `x` unless all of `x` is one word. */
  lemma {:induction false} TakeWordConcat(x: string, y: string)
    ensures TakeWord(x + y) == if TakeWord(x) == x then x + TakeWord(y) else TakeWord(x)
    decreases |x|
  {
    if x == [] {
      assert x + y == y;
    } else if !IsSpace(x[0]) {
      assert (x + y)[0] == x[0] && (x + y)[1..] == x[1..] + y;
      TakeWordConcat(x[1..], y);
      if TakeWord(x[1..]) == x[1..] {
        assert [x[0]] + x[1..] == x;
      } else {
        assert TakeWord(x) != x by {
          assert TakeWord(x)[1..] == TakeWord(x[1..]);
        }
      }
    }
  }

  /** `w.split() == [w]` for a single word. */
  lemma WordsOfWord(w: string)
    requires IsWord(w)
    ensures Words(w) == [w]
  {
    TakeWordOfWord(w);
    assert w[|w|..] == [];
  }

  /** Every white-space character separates: the words of `a + [c] + b` are those of `a` followed by those of `b`. */
  lemma {:induction false} WordsAtSpace(a: string, c: char, b: string)
    requires IsSpace(c)
    ensures Words(a + [c] + b) == Words(a) + Words(b)
    decreases |a|
  {
    var s := a + [c] + b;
    if a == [] {
      assert s == [c] + b && s[1..] == b;
    } else if IsSpace(a[0]) {
      assert s[0] == a[0] && s[1..] == a[1..] + [c] + b;
      WordsAtSpace(a[1..], c, b);
    } else {
      var w := TakeWord(a);
      TakeWordConcat(a, [c] + b);
      assert TakeWord([c] + b) == [];
      assert s == a + ([c] + b);
      assert TakeWord(s) == w;
      assert s[|w|..] == a[|w|..] + [c] + b;
      WordsAtSpace(a[|w|..], c, b);
    }
  }

  /** `" ".join(words).split() == words`: splitting undoes joining single words with blanks. */
  lemma {:induction false} WordsJoin(ws: seq<string>)
    requires forall i :: 0 <= i < |ws| ==> IsWord(ws[i])
    ensures Words(Join(" ", ws)) == ws
    decreases |ws|
  {
    if |ws| == 1 {
      WordsOfWord(ws[0]);
    } else if |ws| > 1 {
      WordsJoin(ws[1..]);
      WordsOfWord(ws[0]);
      WordsAtSpace(ws[0], ' ', Join(" ", ws[1..]));
      assert ws == [ws[0]] + ws[1..];
    }
  }

  /** `re.sub(r'[^0-9X]', '', s)`; `KeepDigitsXConcat` and `KeepDigitsXOne` say which characters stay. */
  function KeepDigitsX(s: string): (r: string)
    ensures forall i :: 0 <= i < |r| ==> IsDigit(r[i]) || r[i] == 'X'
    ensures |r| <= |s|
    ensures (forall i :: 0 <= i < |s| ==> IsDigit(s[i]) || s[i] == 'X') ==> r == s
  {
    if s == [] then []
    else (if IsDigit(s[0]) || s[0] == 'X' then [s[0]] else []) + KeepDigitsX(s[1..])
  }

  lemma {:induction false} KeepDigitsXConcat(a: string, b: string)
    ensures KeepDigitsX(a + b) == KeepDigitsX(a) + KeepDigitsX(b)
  {
    if a == [] {
      assert a + b == b;
    } else {
      var ab := a + b;
      assert ab[0] == a[0] && ab[1..] == a[1..] + b;
      KeepDigitsXConcat(a[1..], b);
      calc {
        KeepDigitsX(ab);
        (if IsDigit(a[0]) || a[0] == 'X' then [a[0]] else []) + KeepDigitsX(a[1..] + b);
        (if IsDigit(a[0]) || a[0] == 'X' then [a[0]] else []) + KeepDigitsX(a[1..]) + KeepDigitsX(b);
      }
    }
  }

  /** One character stays exactly when it is a digit or `X`. */
  lemma KeepDigitsXOne(c: char)
    ensures KeepDigitsX([c]) == if IsDigit(c) || c == 'X' then [c] else []
  {
    assert [c][1..] == [];
  }

  /** A character other than a digit and `X` is deleted wherever it stands. */
  lemma KeepDigitsXSkips(a: string, c: char, b: string)
    requires !IsDigit(c) && c != 'X'
    ensures KeepDigitsX(a + [c] + b) == KeepDigitsX(a + b)
  {
    KeepDigitsXConcat(a + [c], b);
    KeepDigitsXConcat(a, [c]);
    KeepDigitsXConcat(a, b);
    assert KeepDigitsX([c]) == [];
  }

  // ---------------------------------------------------------------- regex scanners

  /** `\b(1\d{3}|20\d{2})\b` matches at k. */
  predicate YearAt(s: string, k: nat) {
    k + 4 <= |s|
    && (k == 0 || !IsWordChar(s[k - 1]))
    && (k + 4 == |s| || !IsWordChar(s[k + 4]))
    && (s[k] == '1' || (s[k] == '2' && s[k + 1] == '0'))
    && IsDigit(s[k + 1]) && IsDigit(s[k + 2]) && IsDigit(s[k + 3])
  }

  /** The leftmost k' >= k where the year pattern matches. */
  function YearFrom(s: string, k: nat): (r: Option<nat>)
    ensures r.Some? ==> k <= r.value && YearAt(s, r.value)
    ensures r.Some? ==> forall j :: k <= j < r.value ==> !YearAt(s, j)
    ensures r.None? ==> forall j :: k <= j ==> !YearAt(s, j)
    decreases |s| - k
  {
    if k + 4 > |s| then None else if YearAt(s, k) then Some(k) else YearFrom(s, k + 1)
  }

  /** `re.search(r'\b(1\d{3}|20\d{2})\b', s).group(1)`, if there is a match. */
  function FindYear(s: string): (r: Option<string>)
    ensures r.Some? <==> exists k :: 0 <= k <= |s| && YearAt(s, k)
    ensures r.Some? ==> exists k :: 0 <= k <= |s| && YearAt(s, k) && r.value == s[k..k + 4]
  {
    match YearFrom(s, 0)
    case None => None
    case Some(k) => Some(s[k..k + 4])
  }

  /** `\b(19|20)\d{2}\b` matches at k. */
  predicate Year20thAt(s: string, k: nat) {
    k + 4 <= |s|
    && (k == 0 || !IsWordChar(s[k - 1]))
    && (k + 4 == |s| || !IsWordChar(s[k + 4]))
    && ((s[k] == '1' && s[k + 1] == '9') || (s[k] == '2' && s[k + 1] == '0'))
    && IsDigit(s[k + 2]) && IsDigit(s[k + 3])
  }

  function Year20thFrom(s: string, k: nat): (r: Option<nat>)
    ensures r.Some? ==> k <= r.value && Year20thAt(s, r.value)
    ensures r.Some? ==> forall j :: k <= j < r.value ==> !Year20thAt(s, j)
    ensures r.None? ==> forall j :: k <= j ==> !Year20thAt(s, j)
    decreases |s| - k
  {
    if k + 4 > |s| then None else if Year20thAt(s, k) then Some(k) else Year20thFrom(s, k + 1)
  }

  /** `re.search(r'\b(19|20)\d{2}\b', s).group(0)`, if there is a match. */
  function FindYear20th(s: string): (r: Option<string>)
    ensures r.Some? <==> exists k :: 0 <= k <= |s| && Year20thAt(s, k)
    ensures r.Some? ==> |r.value| == 4 && (r.value[..2] == "19" || r.value[..2] == "20")
  {
    match Year20thFrom(s, 0)
    case None => None
    case Some(k) => Some(s[k..k + 4])
  }

  predicate FourDigitsAt(s: string, k: nat) {
    k + 4 <= |s| && IsDigit(s[k]) && IsDigit(s[k + 1]) && IsDigit(s[k + 2]) && IsDigit(s[k + 3])
  }

  function FourDigitsFrom(s: string, k: nat): (r: Option<nat>)
    ensures r.Some? ==> k <= r.value && FourDigitsAt(s, r.value)
    ensures r.Some? ==> forall j :: k <= j < r.value ==> !FourDigitsAt(s, j)
    ensures r.None? ==> forall j :: k <= j ==> !FourDigitsAt(s, j)
    decreases |s| - k
  {
    if k + 4 > |s| then None else if FourDigitsAt(s, k) then Some(k) else FourDigitsFrom(s, k + 1)
  }

  /** `re.search(r'(\d{4})', s).group(1)`, if there is a match. */
  function FindFourDigits(s: string): (r: Option<string>)
    ensures r.Some? <==> exists k :: 0 <= k <= |s| && FourDigitsAt(s, k)
    ensures r.Some? ==> |r.value| == 4 && forall i :: 0 <= i < 4 ==> IsDigit(r.value[i])
  {
    match FourDigitsFrom(s, 0)
    case None => None
    case Some(k) => Some(s[k..k + 4])
  }

  /** `\d{4}-\d{3}[\dX]` matches at k. */
  predicate IssnAt(s: string, k: nat) {
    k + 9 <= |s| && FourDigitsAt(s, k) && s[k + 4] == '-'
    && IsDigit(s[k + 5]) && IsDigit(s[k + 6]) && IsDigit(s[k + 7])
    && (IsDigit(s[k + 8]) || s[k + 8] == 'X')
  }

  /** `re.search(r'\d{4}-\d{3}[\dX]', s)` succeeds. */
  predicate HasIssn(s: string) {
    exists k :: 0 <= k < |s| && IssnAt(s, k)
  }

  /** A character of the class `[\d\-X]`, which also takes `x` under IGNORECASE. */
  predicate IsbnChar(c: char, ignoreCase: bool) {
    IsDigit(c) || c == '-' || c == 'X' || (ignoreCase && c == 'x')
  }

  /** `\d[\d\-X]+` can start at q. */
  predicate IsbnStartAt(s: string, ignoreCase: bool, q: nat) {
    q + 1 < |s| && IsDigit(s[q]) && IsbnChar(s[q + 1], ignoreCase)
  }

  function IsbnStartFrom(s: string, ignoreCase: bool, k: nat): (r: Option<nat>)
    ensures r.Some? ==> k <= r.value && IsbnStartAt(s, ignoreCase, r.value)
    ensures r.Some? ==> forall j :: k <= j < r.value ==> !IsbnStartAt(s, ignoreCase, j)
    ensures r.None? ==> forall j :: k <= j ==> !IsbnStartAt(s, ignoreCase, j)
    decreases |s| - k
  {
    if k + 1 >= |s| then None
    else if IsbnStartAt(s, ignoreCase, k) then Some(k)
    else IsbnStartFrom(s, ignoreCase, k + 1)
  }

  /** The end of the greedy run of `[\d\-X]` characters that starts at j. */
  function IsbnRunEnd(s: string, ignoreCase: bool, j: nat): (e: nat)
    requires j <= |s|
    ensures j <= e <= |s|
    ensures forall i :: j <= i < e ==> IsbnChar(s[i], ignoreCase)
    ensures e == |s| || !IsbnChar(s[e], ignoreCase)
    decreases |s| - j
  {
    if j < |s| && IsbnChar(s[j], ignoreCase) then IsbnRunEnd(s, ignoreCase, j + 1) else j
  }

  /**
   * Group 1 of `(?:isbn[:\s]*)?(\d[\d\-X]+)` (found with `re.search`).  The
   * optional prefix never changes the group: the text "isbn" and the class
   * `[:\s]` hold no digit, so a match that starts at the prefix has its group
   * at the leftmost position where `\d[\d\-X]+` matches on its own.
   */
  function IsbnRun(s: string, ignoreCase: bool): (r: Option<string>)
    ensures r.Some? ==> |r.value| >= 2 && IsDigit(r.value[0])
    ensures r.Some? ==> forall i :: 0 <= i < |r.value| ==> IsbnChar(r.value[i], ignoreCase)
    ensures r.None? <==> forall q :: 0 <= q < |s| ==> !IsbnStartAt(s, ignoreCase, q)
    ensures forall q: nat, e: nat ::
      && IsbnStartAt(s, ignoreCase, q) && (forall j :: 0 <= j < q ==> !IsbnStartAt(s, ignoreCase, j))
      && q < e <= |s| && (forall i :: q < i < e ==> IsbnChar(s[i], ignoreCase))
      && (e == |s| || !IsbnChar(s[e], ignoreCase))
      ==> r == Some(s[q..e])
  {
    match IsbnStartFrom(s, ignoreCase, 0)
    case None => None
    case Some(q) =>
      var e := IsbnRunEnd(s, ignoreCase, q + 1);
      IsbnRunUnique(s, ignoreCase, q, e);
      Some(s[q..e])
  }

  /** The leftmost start and the end of the maximal run after it are the only ones. */
  lemma IsbnRunUnique(s: string, ignoreCase: bool, q: nat, e: nat)
    requires IsbnStartAt(s, ignoreCase, q) && forall j :: 0 <= j < q ==> !IsbnStartAt(s, ignoreCase, j)
    requires q < e <= |s| && forall i :: q < i < e ==> IsbnChar(s[i], ignoreCase)
    requires e == |s| || !IsbnChar(s[e], ignoreCase)
    ensures forall q2: nat, e2: nat ::
      && IsbnStartAt(s, ignoreCase, q2) && (forall j :: 0 <= j < q2 ==> !IsbnStartAt(s, ignoreCase, j))
      && q2 < e2 <= |s| && (forall i :: q2 < i < e2 ==> IsbnChar(s[i], ignoreCase))
      && (e2 == |s| || !IsbnChar(s[e2], ignoreCase))
      ==> q2 == q && e2 == e
  {
    forall q2: nat, e2: nat |
      && IsbnStartAt(s, ignoreCase, q2) && (forall j :: 0 <= j < q2 ==> !IsbnStartAt(s, ignoreCase, j))
      && q2 < e2 <= |s| && (forall i :: q2 < i < e2 ==> IsbnChar(s[i], ignoreCase))
      && (e2 == |s| || !IsbnChar(s[e2], ignoreCase))
      ensures q2 == q && e2 == e
    {
      assert !(q2 < q) && !(q < q2);
      assert !(e2 < e) && !(e < e2);
    }
  }

  /** The character classes whose trailing runs the parsers cut off. */
  datatype Junk =
    | TitleJunk      // [/\s:.]
    | PlaceJunk      // [:\s]
    | PublisherJunk  // [,\s]
    | SpaceJunk      // \s

  predicate IsJunk(cls: Junk, c: char) {
    match cls
    case TitleJunk => c == '/' || IsSpace(c) || c == ':' || c == '.'
    case PlaceJunk => IsSpace(c) || c == ':'
    case PublisherJunk => IsSpace(c) || c == ','
    case SpaceJunk => IsSpace(c)
  }

  /** `re.sub('[class]+$', '', s)`: the maximal trailing run of the class goes. */
  function RStripClass(s: string, cls: Junk): (r: string)
    ensures |r| <= |s| && r == s[..|r|]
    ensures forall i :: |r| <= i < |s| ==> IsJunk(cls, s[i])
    ensures r == [] || !IsJunk(cls, r[|r| - 1])
  {
    if s != [] && IsJunk(cls, s[|s| - 1]) then RStripClass(s[..|s| - 1], cls) else s
  }

  /** `re.sub(r'[/\s:.]+$', '', title).strip()`. */
  function CleanTitle(title: string): string {
    Strip(RStripClass(title, TitleJunk))
  }

  /** A cleaned title ends in none of `/`, white space, `:` or `.`. */
  lemma CleanTitleEnds(title: string)
    ensures var t := CleanTitle(title); t == [] || !IsJunk(TitleJunk, t[|t| - 1])
  {
    var c := RStripClass(title, TitleJunk);
    LStripSpec(c);
    var l := LStrip(c);
    if l != [] {
      assert l[|l| - 1] == c[|c| - 1];
    }
    RStripIdentity(l);
  }

  /** The leftmost comma followed only by white space. */
  function TrailingCommaFrom(t: string, k: nat): (r: Option<nat>)
    ensures r.Some? ==> k <= r.value < |t| && t[r.value] == ',' && AllSpace(t[r.value + 1..])
    decreases |t| - k
  {
    if k >= |t| then None
    else if t[k] == ',' && AllSpace(t[k + 1..]) then Some(k)
    else TrailingCommaFrom(t, k + 1)
  }

  /** `re.sub(r',\s*$', '', name.strip())`: a final comma (and any space after it) goes. */
  function CleanAuthorName(name: string): (r: string)
    ensures |r| <= |Strip(name)|
  {
    var t := Strip(name);
    match TrailingCommaFrom(t, 0)
    case None => t
    case Some(p) => t[..p]
  }

  /** `re.sub(r',?\s*\[\d{4}\]$', '', s)`: a bracketed year at the very end, with the space and comma before it. */
  function DropBracketYear(s: string): (r: string)
    ensures |r| <= |s|
  {
    var n := |s|;
    if n >= 6 && s[n - 6] == '[' && FourDigitsAt(s, n - 5) && s[n - 1] == ']' then
      var head := RStripClass(s[..n - 6], SpaceJunk);
      if head != [] && head[|head| - 1] == ',' then head[..|head| - 1] else head
    else s
  }

  // ---------------------------------------------------------------- int() and str()

  function DigitValue(c: char): nat requires IsDigit(c) { c as int - '0' as int }

  /** The value of a run of ASCII digits, most significant first. */
  function DigitsValue(d: string): nat
    requires forall i :: 0 <= i < |d| ==> IsDigit(d[i])
  {
    if d == [] then 0 else 10 * DigitsValue(d[..|d| - 1]) + DigitValue(d[|d| - 1])
  }

  /** Digits with single underscores between them, as `int()` accepts (PEP 515). */
  predicate DigitGroups(t: string) {
    t != [] && IsDigit(t[0]) && IsDigit(t[|t| - 1]) && DigitsOrUnderscores(t)
    && forall i :: 0 < i < |t| ==> t[i - 1] != '_' || t[i] != '_'
  }

  predicate DigitsOrUnderscores(t: string) {
    forall i :: 0 <= i < |t| ==> IsDigit(t[i]) || t[i] == '_'
  }

  function DropUnderscores(t: string): (d: string)
    ensures DigitsOrUnderscores(t) ==> forall i :: 0 <= i < |d| ==> IsDigit(d[i])
  {
    if t == [] then [] else (if t[0] == '_' then [] else [t[0]]) + DropUnderscores(t[1..])
  }

  /** `int(s)` for a base-10 string: surrounding space, an optional sign, digit groups. */
  function ParseInt(s: string): Option<int> {
    ParseSigned(Strip(s))
  }

  /** An optional sign followed by digit groups. */
  function ParseSigned(t: string): Option<int> {
    if t != [] && (t[0] == '-' || t[0] == '+') then
      match ParseDigitGroups(t[1..])
      case None => None
      case Some(v) => Some(if t[0] == '-' then -v else v)
    else ParseDigitGroups(t)
  }

  function ParseDigitGroups(body: string): Option<int> {
    if DigitGroups(body) then Some(DigitsValue(DropUnderscores(body)) as int) else None
  }

  function NatToString(n: nat): (d: string)
    ensures d != [] && forall i :: 0 <= i < |d| ==> IsDigit(d[i])
  {
    var last := ['0' + (n % 10) as char];
    if n < 10 then last else NatToString(n / 10) + last
  }

  /** `str(n)`. */
  function IntToString(n: int): string {
    if n < 0 then "-" + NatToString(-n) else NatToString(n)
  }

  lemma {:induction false} NatToStringValue(n: nat)
    ensures DigitsValue(NatToString(n)) == n
  {
    var d := NatToString(n);
    if n >= 10 {
      NatToStringValue(n / 10);
      assert d[..|d| - 1] == NatToString(n / 10);
    }
  }

  lemma {:induction false} DropUnderscoresDigits(d: string)
    requires forall i :: 0 <= i < |d| ==> IsDigit(d[i])
    ensures DropUnderscores(d) == d
  {
    if d != [] { DropUnderscoresDigits(d[1..]); }
  }

  lemma DigitGroupsValue(d: string)
    requires d != [] && forall i :: 0 <= i < |d| ==> IsDigit(d[i])
    ensures ParseDigitGroups(d) == Some(DigitsValue(d) as int)
  {
    DropUnderscoresDigits(d);
    assert DigitsOrUnderscores(d);
    assert DigitGroups(d);
  }

  lemma StripUnchanged(s: string)
    requires s != [] && !IsSpace(s[0]) && !IsSpace(s[|s| - 1])
    ensures Strip(s) == s
  {
    LStripIdentity(s);
    RStripIdentity(s);
  }

  lemma UnsignedParse(d: string, v: int)
    requires d != [] && IsDigit(d[0]) && IsDigit(d[|d| - 1]) && ParseDigitGroups(d) == Some(v)
    ensures ParseInt(d) == Some(v)
  {
    StripUnchanged(d);
  }

  lemma SignedParse(d: string, v: int)
    requires d != [] && IsDigit(d[|d| - 1]) && ParseDigitGroups(d) == Some(v)
    ensures ParseInt("-" + d) == Some(-v)
  {
    var s := "-" + d;
    assert s[|s| - 1] == d[|d| - 1] && s[1..] == d;
    StripUnchanged(s);
  }

  /** `int(str(n)) == n`. */
  lemma IntToStringRoundTrip(n: int)
    ensures ParseInt(IntToString(n)) == Some(n)
  {
    var m: nat := if n < 0 then -n else n;
    var d := NatToString(m);
    NatToStringValue(m);
    DigitGroupsValue(d);
    if n < 0 {
      SignedParse(d, m);
    } else {
      UnsignedParse(d, m);
    }
  }
}
