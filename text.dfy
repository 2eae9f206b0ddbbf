/**
 * The Python string operations the services rely on: strip, lower, capitalize,
 * `in`, `split`, `splitlines`, `join` and `replace`, plus SQLite's `lower()`
 * used by ILIKE. Strings are sequences of Unicode scalar values.
 */
module Text {
  import opened Wrappers

  // ---------------------------------------------------------------------------
  // Whitespace and strip()

  /** Python's `str.isspace()` for one character. */
  predicate IsSpace(c: char) {
    c == ' ' || ('\U{9}' <= c <= '\U{D}') || ('\U{1C}' <= c <= '\U{1F}')
    || c == '\U{85}' || c == '\U{A0}' || c == '\U{1680}'
    || ('\U{2000}' <= c <= '\U{200A}') || c == '\U{2028}' || c == '\U{2029}'
    || c == '\U{202F}' || c == '\U{205F}' || c == '\U{3000}'
  }

  /** The number of leading whitespace characters of `s`. */
  function Lead(s: string): (n: nat)
    ensures n <= |s|
    ensures forall i :: 0 <= i < n ==> IsSpace(s[i])
    ensures n < |s| ==> !IsSpace(s[n])
  {
    if s != [] && IsSpace(s[0]) then 1 + Lead(s[1..]) else 0
  }

  /** The number of trailing whitespace characters of `s`. */
  function Trail(s: string): (n: nat)
    ensures n <= |s|
    ensures forall i :: |s| - n <= i < |s| ==> IsSpace(s[i])
    ensures n < |s| ==> !IsSpace(s[|s| - n - 1])
  {
    if s != [] && IsSpace(s[|s| - 1]) then 1 + Trail(s[..|s| - 1]) else 0
  }

  /** `s.lstrip()`. */
  function StripLeft(s: string): (r: string)
    ensures r != [] ==> !IsSpace(r[0])
  {
    s[Lead(s)..]
  }

  /** `s.strip()`: the part of `s` between its leading and its trailing whitespace. */
  function Strip(s: string): (r: string)
    ensures |r| <= |s|
    ensures r != [] ==> !IsSpace(r[0]) && !IsSpace(r[|r| - 1])
    ensures Lead(s) + |r| <= |s| && r == s[Lead(s)..Lead(s) + |r|]
    ensures forall k :: Lead(s) + |r| <= k < |s| ==> IsSpace(s[k])
  {
    var t := s[Lead(s)..];
    t[..|t| - Trail(t)]
  }

  /** Stripping twice is stripping once. */
  lemma StripIdempotent(s: string)
    ensures Strip(Strip(s)) == Strip(s)
  {
    var r := Strip(s);
    assert Lead(r) == 0;
    assert Trail(r) == 0;
  }

  /** A string strips to "" exactly when it is made of whitespace only. */
  lemma StripEmptyIffBlank(s: string)
    ensures Strip(s) == "" <==> forall k :: 0 <= k < |s| ==> IsSpace(s[k])
  {
    if forall k :: 0 <= k < |s| ==> IsSpace(s[k]) {
      AllSpaceStripsLeft(s);
    }
  }

  lemma {:induction false} AllSpaceStripsLeft(s: string)
    requires forall k :: 0 <= k < |s| ==> IsSpace(s[k])
    ensures Lead(s) == |s|
  {
    if s != [] {
      AllSpaceStripsLeft(s[1..]);
    }
  }

  /** A string with no whitespace at either end is its own strip. */
  lemma StripUnchanged(s: string)
    requires s == [] || (!IsSpace(s[0]) && !IsSpace(s[|s| - 1]))
    ensures Strip(s) == s
  {
    assert Lead(s) == 0;
    assert s[Lead(s)..] == s;
    assert Trail(s) == 0;
  }

  /** Python truthiness of an optional string: present and non-empty. */
  predicate Truthy(o: Option<string>) {
    o.Some? && o.value != ""
  }

  /** The idiom `x.strip() if x else None`. */
  function StripOrNone(o: Option<string>): (r: Option<string>)
    ensures r.Some? <==> Truthy(o)
    ensures r.Some? ==> r.value == Strip(o.value)
  {
    if Truthy(o) then Some(Strip(o.value)) else None
  }

  // ---------------------------------------------------------------------------
  // Case mapping

  /** Python's `lower()` on one character, for ASCII and Latin-1 letters. */
  function PyLowerChar(c: char): char {
    if 'A' <= c <= 'Z' || ('\U{C0}' <= c <= '\U{DE}' && c != '\U{D7}') then
      (c as int + 32) as char
    else c
  }

  /**
   * The title case Python's `capitalize` gives one character of ASCII or
   * Latin-1 other than the sharp s (which `Capitalize` handles): the
   * lower-case letters move to their capitals, y with diaeresis to U+0178 and
   * the micro sign to the Greek capital mu; other characters stay.
   */
  function PyUpperChar(c: char): char {
    if 'a' <= c <= 'z' || ('\U{E0}' <= c <= '\U{FE}' && c != '\U{F7}') then
      (c as int - 32) as char
    else if c == '\U{FF}' then '\U{178}'
    else if c == '\U{B5}' then '\U{39C}'
    else c
  }

  /** Python's `s.lower()`. */
  function PyLower(s: string): (r: string)
    ensures |r| == |s|
    ensures forall i :: 0 <= i < |s| ==> r[i] == PyLowerChar(s[i])
  {
    seq(|s|, i requires 0 <= i < |s| => PyLowerChar(s[i]))
  }

  /** Lowercasing is idempotent, so a stored lowercased code is its own normal form. */
  lemma PyLowerIdempotent(s: string)
    ensures PyLower(PyLower(s)) == PyLower(s)
  {
  }

  /**
   * Python's `s.capitalize()`: the first character in title case, the rest in
   * lower case; a leading sharp s becomes the two letters "Ss".
   */
  function Capitalize(s: string): (r: string)
    ensures s == "" ==> r == ""
    ensures s != "" && s[0] != '\U{DF}' ==> |r| == |s| && r[0] == PyUpperChar(s[0]) && r[1..] == PyLower(s[1..])
    ensures s != "" && s[0] == '\U{DF}' ==> |r| == |s| + 1 && r[..2] == "Ss" && r[2..] == PyLower(s[1..])
  {
    if s == "" then ""
    else if s[0] == '\U{DF}' then "Ss" + PyLower(s[1..])
    else [PyUpperChar(s[0])] + PyLower(s[1..])
  }

  /** SQLite's built-in `lower()`: ASCII letters only. */
  function SqlLowerChar(c: char): char {
    if 'A' <= c <= 'Z' then (c as int + 32) as char else c
  }

  function SqlLower(s: string): (r: string)
    ensures |r| == |s|
    ensures forall i :: 0 <= i < |s| ==> r[i] == SqlLowerChar(s[i])
  {
    seq(|s|, i requires 0 <= i < |s| => SqlLowerChar(s[i]))
  }

  // ---------------------------------------------------------------------------
  // Substrings

  /** `sub` occurs in `s` at index `i`. */
  predicate OccursAt(s: string, sub: string, i: int) {
    0 <= i && i + |sub| <= |s| && s[i..i + |sub|] == sub
  }

  /** Python's `sub in s`. */
  predicate Contains(s: string, sub: string) {
    exists i | 0 <= i <= |s| :: OccursAt(s, sub, i)
  }

  /** `column ILIKE '%fragment%'` as SQLAlchemy renders it on SQLite: `lower(column) LIKE lower(pattern)`. */
  predicate ILike(value: string, fragment: string) {
    Contains(SqlLower(value), SqlLower(fragment))
  }

  /** Every string contains the empty string, so `ILIKE '%%'` matches any non-NULL value. */
  lemma ILikeEmpty(value: string)
    ensures ILike(value, "")
  {
    assert OccursAt(SqlLower(value), SqlLower(""), 0);
  }

  /** A string matches itself case-insensitively. */
  lemma ILikeSelf(value: string)
    ensures ILike(value, value)
  {
    assert OccursAt(SqlLower(value), SqlLower(value), 0);
  }

  /** The first index at or after `from` where `d` occurs in `s`. */
  function IndexFrom(s: string, d: string, from: nat): (r: Option<nat>)
    requires from <= |s|
    ensures r.Some? ==> from <= r.value && OccursAt(s, d, r.value)
    ensures r.Some? ==> forall j :: from <= j < r.value ==> !OccursAt(s, d, j)
    ensures r.None? ==> forall j :: from <= j ==> !OccursAt(s, d, j)
    decreases |s| - from
  {
    if from + |d| > |s| then None
    else if s[from..from + |d|] == d then Some(from)
    else if from == |s| then None
    else IndexFrom(s, d, from + 1)
  }

  /** Python's `s.find(d)` as an option: the first occurrence of `d` in `s`. */
  function IndexOf(s: string, d: string): (r: Option<nat>)
    ensures r.Some? <==> Contains(s, d)
    ensures r.Some? ==> OccursAt(s, d, r.value)
    ensures r.Some? ==> forall j :: 0 <= j < r.value ==> !OccursAt(s, d, j)
  {
    IndexFrom(s, d, 0)
  }

  /**
   * Python's `s.split(d, 1)` for a string that contains `d`: the parts before and
   * after its first occurrence.
   */
  function SplitOnce(s: string, d: string): (r: (string, string))
    requires Contains(s, d)
    ensures r.0 + d + r.1 == s
    ensures !Contains(r.0, d) || d == ""
  {
    var k := IndexOf(s, d).value;
    var before := s[..k];
    assert before + d + s[k + |d|..] == s;
    PrefixBeforeFirst(s, d, k);
    (before, s[k + |d|..])
  }

  /** The part of `s` before the first occurrence of `d` does not contain `d`. */
  lemma PrefixBeforeFirst(s: string, d: string, k: nat)
    requires k <= |s| && forall j :: 0 <= j < k ==> !OccursAt(s, d, j)
    ensures !Contains(s[..k], d) || d == ""
  {
    if d != "" {
      forall j | 0 <= j <= k
        ensures !OccursAt(s[..k], d, j)
      {
        if j + |d| <= k {
          assert !OccursAt(s, d, j);
          assert s[..k][j..j + |d|] == s[j..j + |d|];
        }
      }
    }
  }

  // ---------------------------------------------------------------------------
  // split(), join(), splitlines()

  /** The length of the leading run of non-whitespace characters. */
  function WordLength(s: string): (n: nat)
    ensures n <= |s|
    ensures forall i :: 0 <= i < n ==> !IsSpace(s[i])
    ensures n < |s| ==> IsSpace(s[n])
  {
    if s == [] || IsSpace(s[0]) then 0 else 1 + WordLength(s[1..])
  }

  /** A non-empty run of non-whitespace characters. */
  predicate IsWord(w: string) {
    w != "" && forall k :: 0 <= k < |w| ==> !IsSpace(w[k])
  }

  /** Python's `s.split()` with no separator: the maximal runs of non-whitespace characters. */
  function Words(s: string): (r: seq<string>)
    ensures forall i :: 0 <= i < |r| ==> IsWord(r[i])
    decreases |s|
  {
    var t := StripLeft(s);
    if t == "" then []
    else
      var n := WordLength(t);
      [t[..n]] + Words(t[n..])
  }

  lemma {:induction false} LeadAllSpace(a: string, x: string)
    requires Lead(a) == |a|
    ensures Lead(a + x) == |a| + Lead(x)
    decreases |a|
  {
    if a == [] {
      assert a + x == x;
    } else {
      assert IsSpace(a[0]) && (a + x)[0] == a[0];
      assert (a + x)[1..] == a[1..] + x;
      LeadAllSpace(a[1..], x);
    }
  }

  lemma {:induction false} LeadPrefix(a: string, x: string)
    requires Lead(a) < |a|
    ensures Lead(a + x) == Lead(a)
    decreases |a|
  {
    assert (a + x)[0] == a[0];
    if IsSpace(a[0]) {
      assert (a + x)[1..] == a[1..] + x;
      LeadPrefix(a[1..], x);
    }
  }

  lemma {:induction false} WordLengthBeforeSpace(x: string, c: char, y: string)
    requires IsSpace(c)
    ensures WordLength(x + [c] + y) == WordLength(x)
    decreases |x|
  {
    if x == [] {
      assert x + [c] + y == [c] + y;
    } else {
      assert (x + [c] + y)[0] == x[0];
      if !IsSpace(x[0]) {
        assert (x + [c] + y)[1..] == x[1..] + [c] + y;
        WordLengthBeforeSpace(x[1..], c, y);
      }
    }
  }

  /** Two strings with the same `lstrip()` have the same words. */
  lemma WordsOfStripLeft(s: string, t: string)
    requires StripLeft(s) == StripLeft(t)
    ensures Words(s) == Words(t)
  {
  }

  /** Leading whitespace does not change the words. */
  lemma WordsSkipSpace(a: string, b: string)
    requires Lead(a) == |a|
    ensures Words(a + b) == Words(b)
  {
    LeadAllSpace(a, b);
    assert (a + b)[Lead(a + b)..] == b[Lead(b)..];
    WordsOfStripLeft(a + b, b);
  }

  /** The words of `t + [c] + b`, `c` whitespace and `t` starting with a word. */
  lemma WordsUnfoldFirst(t: string, c: char, b: string)
    requires IsSpace(c) && t != [] && !IsSpace(t[0])
    ensures WordLength(t) > 0
    ensures Words(t + [c] + b) == [t[..WordLength(t)]] + Words(t[WordLength(t)..] + [c] + b)
  {
    var s := t + [c] + b;
    assert s[0] == t[0];
    assert Lead(s) == 0;
    assert StripLeft(s) == s;
    WordLengthBeforeSpace(t, c, b);
    var n := WordLength(t);
    assert s[..n] == t[..n];
    assert s[n..] == t[n..] + [c] + b;
  }

  /** The words of `t`, `t` starting with a word. */
  lemma WordsUnfold(t: string)
    requires t != [] && !IsSpace(t[0])
    ensures WordLength(t) > 0
    ensures Words(t) == [t[..WordLength(t)]] + Words(t[WordLength(t)..])
  {
    assert Lead(t) == 0;
    assert StripLeft(t) == t;
  }

  lemma WordsSplitAfterSpaces(a: string, c: char, b: string)
    requires IsSpace(c) && Lead(a) == |a|
    ensures Words(a + [c] + b) == Words(a) + Words(b)
  {
    assert a + [c] + b == a + ([c] + b);
    WordsSkipSpace(a, [c] + b);
    assert Lead([c]) == 1;
    WordsSkipSpace([c], b);
    assert a + [] == a;
    WordsSkipSpace(a, []);
  }

  lemma SliceJoin(a: string, k: nat, c: char, b: string)
    requires k <= |a|
    ensures a == a[..k] + a[k..]
    ensures a + [c] + b == a[..k] + (a[k..] + [c] + b)
  {
  }

  lemma SeqAssoc<T>(x: seq<T>, y: seq<T>, z: seq<T>)
    ensures x + (y + z) == (x + y) + z
  {
  }

  lemma WordsSplitAfterWord(a: string, c: char, b: string)
    requires IsSpace(c) && Lead(a) < |a|
    requires Words(a[Lead(a)..][WordLength(a[Lead(a)..])..] + [c] + b)
      == Words(a[Lead(a)..][WordLength(a[Lead(a)..])..]) + Words(b)
    ensures Words(a + [c] + b) == Words(a) + Words(b)
  {
    var lead := Lead(a);
    var t := a[lead..];
    var n := WordLength(t);
    var p := a[..lead];
    AllSpaceStripsLeft(p);
    SliceJoin(a, lead, c, b);
    WordsSkipSpace(p, t + [c] + b);
    WordsSkipSpace(p, t);
    WordsUnfoldFirst(t, c, b);
    WordsUnfold(t);
    SeqAssoc([t[..n]], Words(t[n..]), Words(b));
  }

  /** Splitting at one whitespace character splits the words there. */
  lemma {:induction false} WordsSplitAtSpace(a: string, c: char, b: string)
    requires IsSpace(c)
    ensures Words(a + [c] + b) == Words(a) + Words(b)
    decreases |a|
  {
    if Lead(a) == |a| {
      WordsSplitAfterSpaces(a, c, b);
    } else {
      var t := a[Lead(a)..];
      WordsUnfold(t);
      WordsSplitAtSpace(t[WordLength(t)..], c, b);
      WordsSplitAfterWord(a, c, b);
    }
  }

  lemma {:induction false} WordLengthOfWord(w: string)
    requires forall k :: 0 <= k < |w| ==> !IsSpace(w[k])
    ensures WordLength(w) == |w|
    decreases |w|
  {
    if w != [] {
      WordLengthOfWord(w[1..]);
    }
  }

  /** A string without whitespace is one word. */
  lemma WordsOfWord(w: string)
    requires IsWord(w)
    ensures Words(w) == [w]
  {
    WordLengthOfWord(w);
    WordsUnfold(w);
    assert w[..|w|] == w;
    assert w[|w|..] == "";
  }

  lemma InitLast<T>(s: seq<T>)
    requires s != []
    ensures s[..|s| - 1] + [s[|s| - 1]] == s
  {
  }

  /** Words joined by single spaces split back into the same words. */
  lemma {:induction false} WordsOfJoin(ws: seq<string>)
    requires forall i :: 0 <= i < |ws| ==> IsWord(ws[i])
    ensures Words(Join(ws, " ")) == ws
    decreases |ws|
  {
    if |ws| == 1 {
      WordsOfWord(ws[0]);
    } else if |ws| > 1 {
      var init := ws[..|ws| - 1];
      WordsOfJoin(init);
      WordsSplitAtSpace(Join(init, " "), ' ', ws[|ws| - 1]);
      WordsOfWord(ws[|ws| - 1]);
      assert Join(ws, " ") == Join(init, " ") + [' '] + ws[|ws| - 1];
      InitLast(ws);
    }
  }

  /** Python's `sep.join(parts)`. */
  function Join(parts: seq<string>, sep: string): (r: string)
    ensures |parts| == 1 ==> r == parts[0]
  {
    if parts == [] then ""
    else if |parts| == 1 then parts[0]
    else Join(parts[..|parts| - 1], sep) + sep + parts[|parts| - 1]
  }

  /** The line boundaries of Python's `str.splitlines()`. */
  predicate IsLineBreak(c: char) {
    c == '\n' || c == '\r' || c == '\U{B}' || c == '\U{C}' || ('\U{1C}' <= c <= '\U{1E}')
    || c == '\U{85}' || c == '\U{2028}' || c == '\U{2029}'
  }

  function BreakIndex(s: string): (n: nat)
    ensures n <= |s|
    ensures forall i :: 0 <= i < n ==> !IsLineBreak(s[i])
    ensures n < |s| ==> IsLineBreak(s[n])
  {
    if s == [] || IsLineBreak(s[0]) then 0 else 1 + BreakIndex(s[1..])
  }

  /**
   * Python's `s.splitlines()`: the lines of `s` without their line breaks, `\r\n`
   * counting as one break and a final break not starting another line.
   */
  function SplitLines(s: string): (r: seq<string>)
    ensures forall i :: 0 <= i < |r| ==> forall k :: 0 <= k < |r[i]| ==> !IsLineBreak(r[i][k])
    decreases |s|
  {
    if s == [] then []
    else
      var k := BreakIndex(s);
      if k == |s| then [s]
      else
        var width := if s[k] == '\r' && k + 1 < |s| && s[k + 1] == '\n' then 2 else 1;
        [s[..k]] + SplitLines(s[k + width..])
  }

  // ---------------------------------------------------------------------------
  // replace()

  /** Python's `s.replace(pat, rep)`: every occurrence, scanning left to right, in one pass. */
  function Replace(s: string, pat: string, rep: string): (r: string)
    requires pat != ""
    ensures !Contains(s, pat) ==> r == s
    ensures |rep| <= |pat| ==> |r| <= |s|
    decreases |s|
  {
    if |s| < |pat| then s
    else if s[..|pat|] == pat then
      assert OccursAt(s, pat, 0);
      rep + Replace(s[|pat|..], pat, rep)
    else
      NotContainsTail(s, pat);
      [s[0]] + Replace(s[1..], pat, rep)
  }

  /** One step of `replace` where the pattern matches at the front. */
  lemma ReplaceMatch(s: string, pat: string, rep: string)
    requires pat != "" && |s| >= |pat| && s[..|pat|] == pat
    ensures Replace(s, pat, rep) == rep + Replace(s[|pat|..], pat, rep)
  {
  }

  /** One step of `replace` where the pattern does not match at the front. */
  lemma ReplaceSkip(s: string, pat: string, rep: string)
    requires pat != "" && s != [] && (|s| < |pat| || s[..|pat|] != pat)
    ensures Replace(s, pat, rep) == [s[0]] + Replace(s[1..], pat, rep)
  {
    if |s| < |pat| {
      assert Replace(s[1..], pat, rep) == s[1..];
    }
  }

  /** A replacement never touches a first character that cannot start the pattern. */
  lemma ReplaceKeepsFirst(s: string, pat: string, rep: string)
    requires pat != "" && s != [] && s[0] != pat[0]
    ensures var r := Replace(s, pat, rep); r != [] && r[0] == s[0]
  {
  }

  /** A replacement never touches a last character that cannot end the pattern. */
  lemma {:induction false} ReplaceKeepsLast(s: string, pat: string, rep: string)
    requires pat != "" && s != [] && s[|s| - 1] != pat[|pat| - 1]
    ensures var r := Replace(s, pat, rep); r != [] && r[|r| - 1] == s[|s| - 1]
    decreases |s|
  {
    if |s| >= |pat| {
      if s[..|pat|] == pat {
        assert s[|pat| - 1] == pat[|pat| - 1];
        var t := s[|pat|..];
        assert t[|t| - 1] == s[|s| - 1];
        ReplaceKeepsLast(t, pat, rep);
        var u := Replace(t, pat, rep);
        assert Replace(s, pat, rep) == rep + u;
      } else if |s| > 1 {
        var t := s[1..];
        assert t[|t| - 1] == s[|s| - 1];
        ReplaceKeepsLast(t, pat, rep);
        var u := Replace(t, pat, rep);
        assert Replace(s, pat, rep) == [s[0]] + u;
      } else {
        assert Replace(s, pat, rep) == [s[0]] + Replace([], pat, rep);
      }
    }
  }

  /** A string lacking some character of `sub` does not contain `sub`. */
  lemma NotContainsMissingChar(s: string, sub: string, k: nat)
    requires k < |sub| && sub[k] !in s
    ensures !Contains(s, sub)
  {
    forall i | 0 <= i <= |s|
      ensures !OccursAt(s, sub, i)
    {
      if i + |sub| <= |s| {
        assert s[i..i + |sub|][k] == s[i + k];
      }
    }
  }

  lemma NotContainsTail(s: string, sub: string)
    requires s != []
    ensures !Contains(s, sub) ==> !Contains(s[1..], sub)
  {
    if Contains(s[1..], sub) {
      var i :| 0 <= i <= |s| - 1 && OccursAt(s[1..], sub, i);
      assert i + |sub| <= |s| - 1;
      assert s[i + 1..i + 1 + |sub|] == s[1..][i..i + |sub|];
      assert OccursAt(s, sub, i + 1);
    }
  }

  // ---------------------------------------------------------------------------
  // Decimal numerals

  function DigitChar(d: nat): char
    requires d < 10
  {
    ('0' as int + d) as char
  }

  predicate IsDigit(c: char) {
    '0' <= c <= '9'
  }

  /** Python's `str(n)` for a natural number. */
  function NatToString(n: nat): (r: string)
    ensures r != "" && forall i :: 0 <= i < |r| ==> IsDigit(r[i])
    decreases n
  {
    if n < 10 then [DigitChar(n)] else NatToString(n / 10) + [DigitChar(n % 10)]
  }

  /** Python's `str(i)` for an integer: a minus sign before a negative number's digits. */
  function IntToString(i: int): (r: string)
    ensures r != ""
    ensures i >= 0 ==> r == NatToString(i)
    ensures i < 0 ==> r[0] == '-' && r[1..] == NatToString(-i)
  {
    if i < 0 then "-" + NatToString(-i) else NatToString(i)
  }

  /** Python's `s.isdigit()` for ASCII digits: non-empty and all digits. */
  predicate IsDigits(s: string) {
    s != "" && forall i :: 0 <= i < |s| ==> IsDigit(s[i])
  }

  function DigitValue(c: char): nat
    requires IsDigit(c)
  {
    c as int - '0' as int
  }

  /** Python's `int(s)` on a string of ASCII digits. */
  function ParseDigits(s: string): nat
    requires forall i :: 0 <= i < |s| ==> IsDigit(s[i])
  {
    if s == [] then 0 else 10 * ParseDigits(s[..|s| - 1]) + DigitValue(s[|s| - 1])
  }

  /** Reading back a printed number gives the number. */
  lemma {:induction false} ParseNatToString(n: nat)
    ensures ParseDigits(NatToString(n)) == n
  {
    if n >= 10 {
      var s := NatToString(n);
      assert s[..|s| - 1] == NatToString(n / 10);
      ParseNatToString(n / 10);
    }
  }

  /** Different numbers print differently. */
  lemma NatToStringInjective(a: nat, b: nat)
    requires NatToString(a) == NatToString(b)
    ensures a == b
  {
    ParseNatToString(a);
    ParseNatToString(b);
  }

  /** Different integers print differently, so error messages name their id unambiguously. */
  lemma IntToStringInjective(a: int, b: int)
    requires IntToString(a) == IntToString(b)
    ensures a == b
  {
    if a < 0 && b < 0 {
      NatToStringInjective(-a, -b);
    } else if a >= 0 && b >= 0 {
      NatToStringInjective(a, b);
    }
  }
}
