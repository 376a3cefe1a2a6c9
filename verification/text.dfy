/** Python string primitives over ASCII text, written out explicitly: the
    whitespace class of `str.split()`/`str.strip()`, ASCII case mapping, word
    splitting and joining, prefix/suffix tests and substring containment. */
module Text {

  /** `str.isspace()` on ASCII: \t, \n, \v, \f, \r (codes 9 to 13), the
      separators \x1c-\x1f and the space (codes 28 to 32). */
  predicate IsSpace(c: char) {
    ('\t' <= c <= '\r') || ('\U{1C}' <= c <= ' ')
  }

  predicate IsUpper(c: char) { 'A' <= c <= 'Z' }
  predicate IsLower(c: char) { 'a' <= c <= 'z' }
  predicate IsDigit(c: char) { '0' <= c <= '9' }
  predicate IsLetter(c: char) { IsUpper(c) || IsLower(c) }

  /** The character class `[a-zA-Z0-9_]`. */
  predicate IsWordChar(c: char) { IsLetter(c) || IsDigit(c) || c == '_' }

  function LowerChar(c: char): char {
    if IsUpper(c) then (c as int + 32) as char else c
  }

  function UpperChar(c: char): char {
    if IsLower(c) then (c as int - 32) as char else c
  }

  /** `s.lower()` */
  function Lower(s: string): string {
    seq(|s|, i requires 0 <= i < |s| => LowerChar(s[i]))
  }

  /** `s.upper()` */
  function Upper(s: string): string {
    seq(|s|, i requires 0 <= i < |s| => UpperChar(s[i]))
  }

  /** `s.replace(a, b)` for one-character `a` and `b`. */
  function ReplaceChar(s: string, a: char, b: char): string {
    seq(|s|, i requires 0 <= i < |s| => if s[i] == a then b else s[i])
  }

  predicate HasNoUpper(s: string) {
    forall i :: 0 <= i < |s| ==> !IsUpper(s[i])
  }

  predicate HasNoLower(s: string) {
    forall i :: 0 <= i < |s| ==> !IsLower(s[i])
  }

  /** Case-insensitive equality: both strings lower-case to the same text. */
  predicate SameIgnoringCase(a: string, b: string) {
    Lower(a) == Lower(b)
  }

  lemma LowerUpperChar(c: char)
    ensures LowerChar(UpperChar(c)) == LowerChar(c)
    ensures UpperChar(LowerChar(c)) == UpperChar(c)
    ensures LowerChar(LowerChar(c)) == LowerChar(c)
    ensures UpperChar(UpperChar(c)) == UpperChar(c)
    ensures !IsUpper(LowerChar(c)) && !IsLower(UpperChar(c))
  {
  }

  /** Lower-casing changes nothing in text without upper-case letters. */
  lemma LowerNoUpper(s: string)
    requires HasNoUpper(s)
    ensures Lower(s) == s
  {
  }

  /** Upper-casing changes nothing in text without lower-case letters. */
  lemma UpperNoLower(s: string)
    requires HasNoLower(s)
    ensures Upper(s) == s
  {
  }

  // ---------------------------------------------------------------------
  // Words: str.split() and ' '.join(...)

  /** One element of `str.split()`: nonempty and free of whitespace. */
  predicate IsWord(w: string) {
    |w| > 0 && forall i :: 0 <= i < |w| ==> !IsSpace(w[i])
  }

  predicate AllWords(ws: seq<string>) {
    forall i :: 0 <= i < |ws| ==> IsWord(ws[i])
  }

  /** Length of the run of non-whitespace characters that starts `s`. */
  function WordLen(s: string): (n: nat)
    ensures n <= |s|
    ensures forall i :: 0 <= i < n ==> !IsSpace(s[i])
    ensures n < |s| ==> IsSpace(s[n])
  {
    if s == [] || IsSpace(s[0]) then 0 else 1 + WordLen(s[1..])
  }

  /** `s.split()`: the maximal runs of non-whitespace characters, in order. */
  function Split(s: string): (ws: seq<string>)
    ensures AllWords(ws)
    decreases |s|
  {
    if s == [] then []
    else if IsSpace(s[0]) then Split(s[1..])
    else
      var n := WordLen(s);
      [s[..n]] + Split(s[n..])
  }

  /** `sep.join(ws)` */
  function Join(sep: string, ws: seq<string>): string {
    if |ws| == 0 then ""
    else if |ws| == 1 then ws[0]
    else ws[0] + sep + Join(sep, ws[1..])
  }

  lemma {:induction false} WordLenConcat(x: string, y: string)
    requires WordLen(x) < |x| || (y != [] && IsSpace(y[0]))
    ensures WordLen(x + y) == WordLen(x)
    decreases |x|
  {
    if x == [] || IsSpace(x[0]) {
    } else {
      assert (x + y)[1..] == x[1..] + y;
      WordLenConcat(x[1..], y);
    }
  }

  /** Splitting at a whitespace character splits the two sides independently. */
  lemma {:induction false} SplitAtSpace(x: string, c: char, y: string)
    requires IsSpace(c)
    ensures Split(x + [c] + y) == Split(x) + Split(y)
    decreases |x|
  {
    var s := x + [c] + y;
    if x == [] {
      assert s == [c] + y;
      assert s[1..] == y;
    } else if IsSpace(x[0]) {
      assert s[1..] == x[1..] + [c] + y;
      SplitAtSpace(x[1..], c, y);
    } else {
      var n := WordLen(x);
      WordLenConcat(x, [c] + y);
      assert s == x + ([c] + y);
      assert WordLen(s) == n;
      assert s[..n] == x[..n];
      if n == |x| {
        assert s[n..] == [c] + y;
        assert ([c] + y)[1..] == y;
        assert x[n..] == [];
      } else {
        assert s[n..] == x[n..] + [c] + y;
        SplitAtSpace(x[n..], c, y);
      }
    }
  }

  lemma SplitOfWord(w: string)
    requires IsWord(w)
    ensures Split(w) == [w]
  {
    assert WordLen(w) == |w|;
    assert w[..|w|] == w;
    assert w[|w|..] == [];
    assert Split(w) == [w[..|w|]] + Split(w[|w|..]);
  }

  /** Joining words with one whitespace character and splitting again gives
      the words back. */
  lemma {:induction false} SplitJoin(c: char, ws: seq<string>)
    requires IsSpace(c)
    requires AllWords(ws)
    ensures Split(Join([c], ws)) == ws
    decreases |ws|
  {
    if |ws| == 0 {
    } else if |ws| == 1 {
      SplitOfWord(ws[0]);
    } else {
      SplitJoin(c, ws[1..]);
      SplitOfWord(ws[0]);
      SplitAtSpace(ws[0], c, Join([c], ws[1..]));
      assert [ws[0]] + ws[1..] == ws;
    }
  }

  /** `Join` over a concatenation, for a separator made of one whitespace character. */
  lemma {:induction false} JoinAppend(c: char, xs: seq<string>, ys: seq<string>)
    requires |xs| > 0 && |ys| > 0
    ensures Join([c], xs + ys) == Join([c], xs) + [c] + Join([c], ys)
    decreases |xs|
  {
    if |xs| == 1 {
      assert (xs + ys)[1..] == ys;
    } else {
      assert (xs + ys)[1..] == xs[1..] + ys;
      JoinAppend(c, xs[1..], ys);
    }
  }

  // ---------------------------------------------------------------------
  // strip()

  predicate AllSpace(s: string) {
    forall i :: 0 <= i < |s| ==> IsSpace(s[i])
  }

  /** Neither end is whitespace. */
  predicate IsStripped(s: string) {
    s == [] || (!IsSpace(s[0]) && !IsSpace(s[|s| - 1]))
  }

  /** `s.lstrip()`: a suffix of `s` that does not start with whitespace. */
  function LStrip(s: string): (r: string)
    ensures |r| <= |s| && r == s[|s| - |r|..]
    ensures r == [] || !IsSpace(r[0])
    decreases |s|
  {
    if s != [] && IsSpace(s[0]) then
      var r := LStrip(s[1..]);
      assert s[1..][|s[1..]| - |r|..] == s[|s| - |r|..];
      r
    else s
  }

  /** `s.rstrip()`: a prefix of `s` that does not end with whitespace. */
  function RStrip(s: string): (r: string)
    ensures |r| <= |s| && r == s[..|r|]
    ensures r == [] || !IsSpace(r[|r| - 1])
    decreases |s|
  {
    if s != [] && IsSpace(s[|s| - 1]) then
      var r := RStrip(s[..|s| - 1]);
      assert s[..|s| - 1][..|r|] == s[..|r|];
      r
    else s
  }

  /** `s.strip()`: the result has no whitespace at either end. */
  function Strip(s: string): (r: string)
    ensures IsStripped(r)
    ensures |r| <= |s|
  {
    var l := LStrip(s);
    var r := RStrip(l);
    assert r == [] || !IsSpace(r[0]) by {
      if r != [] { assert r[0] == l[0]; }
    }
    r
  }

  lemma {:induction false} LStripSpaces(a: string, y: string)
    requires AllSpace(a)
    ensures LStrip(a + y) == LStrip(y)
    decreases |a|
  {
    if a != [] {
      assert (a + y)[1..] == a[1..] + y;
      LStripSpaces(a[1..], y);
    } else {
      assert a + y == y;
    }
  }

  lemma {:induction false} RStripSpaces(y: string, b: string)
    requires AllSpace(b)
    ensures RStrip(y + b) == RStrip(y)
    decreases |b|
  {
    if b != [] {
      assert (y + b)[..|y + b| - 1] == y + b[..|b| - 1];
      RStripSpaces(y, b[..|b| - 1]);
    } else {
      assert y + b == y;
    }
  }

  /** Stripping removes exactly the whitespace around a stripped core. */
  lemma StripPadded(a: string, x: string, b: string)
    requires AllSpace(a) && IsStripped(x) && AllSpace(b)
    ensures Strip(a + x + b) == x
  {
    assert a + x + b == a + (x + b);
    LStripSpaces(a, x + b);
    if x == [] {
      assert x + b == b + [];
      LStripSpaces(b, []);
    } else {
      RStripSpaces(x, b);
    }
  }

  lemma StripStripped(s: string)
    requires IsStripped(s)
    ensures Strip(s) == s
  {
  }

  // ---------------------------------------------------------------------
  // Prefixes, suffixes and substrings

  predicate StartsWith(s: string, p: string) { p <= s }

  predicate EndsWith(s: string, p: string) {
    |p| <= |s| && s[|s| - |p|..] == p
  }

  /** `t in s` for strings (Cypher `s CONTAINS t`); every string contains "". */
  predicate Contains(s: string, t: string)
    decreases |s|
  {
    t <= s || (s != [] && Contains(s[1..], t))
  }

  lemma {:induction false} ContainsExtend(s: string, t: string, u: string)
    requires Contains(s, t)
    ensures Contains(s + u, t)
    decreases |s|
  {
    if t <= s {
      assert t <= s + u;
    } else {
      assert (s + u)[1..] == s[1..] + u;
      ContainsExtend(s[1..], t, u);
    }
  }

  lemma {:induction false} ContainsSuffix(x: string, t: string)
    ensures Contains(x + t, t)
    decreases |x|
  {
    if x == [] {
      assert x + t == t;
    } else {
      assert (x + t)[1..] == x[1..] + t;
      ContainsSuffix(x[1..], t);
    }
  }

  lemma ContainsNonEmpty(s: string, t: string)
    requires Contains(s, t) && t != []
    ensures s != []
  {
  }
}
