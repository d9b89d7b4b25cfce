/**
  Strings as the dashboard's form handling sees them: the whitespace that
  ECMAScript's `String.prototype.trim` removes, prefixes as `startsWith`
  tests them, and `trim` itself.
*/
module Text {

  /** LineTerminator of ECMAScript: LF, CR, LINE SEPARATOR, PARAGRAPH SEPARATOR.
      These are also the characters a regular-expression `.` does not match. */
  predicate IsLineTerminator(c: char) {
    c == '\n' || c == '\r' || c == '\U{2028}' || c == '\U{2029}'
  }

  /** WhiteSpace or LineTerminator of ECMAScript: the characters `trim` removes.
      WhiteSpace is tab, vertical tab, form feed, space, no-break space, the
      zero-width no-break space and the other space separators (category Zs). */
  predicate IsWhitespace(c: char) {
    || c == '\t' || c == '\U{000B}' || c == '\U{000C}' || c == ' '
    || c == '\U{00A0}' || c == '\U{FEFF}' || c == '\U{1680}'
    || ('\U{2000}' <= c <= '\U{200A}')
    || c == '\U{202F}' || c == '\U{205F}' || c == '\U{3000}'
    || IsLineTerminator(c)
  }

  predicate AllWhitespace(s: string) {
    forall i :: 0 <= i < |s| ==> IsWhitespace(s[i])
  }

  /** Neither begins nor ends with whitespace. */
  predicate IsTrimmed(s: string) {
    s == [] || (!IsWhitespace(s[0]) && !IsWhitespace(s[|s| - 1]))
  }

  /** `s.startsWith(p)`. */
  predicate HasPrefix(s: string, p: string) {
    |p| <= |s| && s[..|p|] == p
  }

  /** `r` is what is left of `s` once the whitespace at both ends is cut away:
      a slice s[i..j] with only whitespace before and after it, itself trimmed. */
  ghost predicate IsTrimOf(r: string, s: string) {
    exists i, j ::
      0 <= i <= j <= |s| && r == s[i..j] &&
      AllWhitespace(s[..i]) && AllWhitespace(s[j..]) && IsTrimmed(r)
  }

  /** The number of whitespace characters `s` begins with. */
  function LeadingWhitespace(s: string): (n: nat)
    ensures n <= |s| && AllWhitespace(s[..n])
    ensures n < |s| ==> !IsWhitespace(s[n])
  {
    if s != [] && IsWhitespace(s[0]) then
      var m := LeadingWhitespace(s[1..]);
      1 + m
    else 0
  }

  /** The length of `s` once its trailing whitespace is cut away. */
  function TrailingStart(s: string): (n: nat)
    ensures n <= |s| && AllWhitespace(s[n..])
    ensures n > 0 ==> !IsWhitespace(s[n - 1])
  {
    if s != [] && IsWhitespace(s[|s| - 1]) then
      var m := TrailingStart(s[..|s| - 1]);
      m
    else |s|
  }

  /** `s.trim()`. */
  function Trim(s: string): (r: string)
    ensures IsTrimOf(r, s)
  {
    var i := LeadingWhitespace(s);
    var t := s[i..];
    var j := TrailingStart(t);
    assert t[..j] == s[i..i + j];
    assert s[i + j..] == t[j..];
    assert j > 0 ==> t[0] == s[i];
    t[..j]
  }

  /** Only one string is the trim of `s`, so IsTrimOf defines `trim` completely. */
  lemma TrimOfIsUnique(s: string, r1: string, r2: string)
    requires IsTrimOf(r1, s) && IsTrimOf(r2, s)
    ensures r1 == r2
  {
    var i1, j1 :| 0 <= i1 <= j1 <= |s| && r1 == s[i1..j1] &&
      AllWhitespace(s[..i1]) && AllWhitespace(s[j1..]) && IsTrimmed(r1);
    var i2, j2 :| 0 <= i2 <= j2 <= |s| && r2 == s[i2..j2] &&
      AllWhitespace(s[..i2]) && AllWhitespace(s[j2..]) && IsTrimmed(r2);
    TrimSlicesAgree(s, i1, j1, i2, j2);
  }

  lemma TrimSlicesAgree(s: string, i1: int, j1: int, i2: int, j2: int)
    requires 0 <= i1 <= j1 <= |s| && AllWhitespace(s[..i1]) && AllWhitespace(s[j1..]) && IsTrimmed(s[i1..j1])
    requires 0 <= i2 <= j2 <= |s| && AllWhitespace(s[..i2]) && AllWhitespace(s[j2..]) && IsTrimmed(s[i2..j2])
    ensures s[i1..j1] == s[i2..j2]
  {
    if i1 < j1 && i2 < j2 {
      assert s[i1..j1][0] == s[i1] && s[i1..j1][j1 - i1 - 1] == s[j1 - 1];
      assert s[i2..j2][0] == s[i2] && s[i2..j2][j2 - i2 - 1] == s[j2 - 1];
      SameStart(s, i1, i2);
      SameEnd(s, j1, j2);
    } else if i1 < j1 {
      assert s[i1..j1][0] == s[i1];
      BlankEverywhere(s, i2, j2, i1);
    } else if i2 < j2 {
      assert s[i2..j2][0] == s[i2];
      BlankEverywhere(s, i1, j1, i2);
    }
  }

  /** Two positions of first non-whitespace coincide. */
  lemma SameStart(s: string, i1: int, i2: int)
    requires 0 <= i1 < |s| && 0 <= i2 < |s|
    requires AllWhitespace(s[..i1]) && AllWhitespace(s[..i2])
    requires !IsWhitespace(s[i1]) && !IsWhitespace(s[i2])
    ensures i1 == i2
  {
    WhitespaceBefore(s, i1);
    WhitespaceBefore(s, i2);
  }

  /** Two positions just past the last non-whitespace coincide. */
  lemma SameEnd(s: string, j1: int, j2: int)
    requires 0 < j1 <= |s| && 0 < j2 <= |s|
    requires AllWhitespace(s[j1..]) && AllWhitespace(s[j2..])
    requires !IsWhitespace(s[j1 - 1]) && !IsWhitespace(s[j2 - 1])
    ensures j1 == j2
  {
    WhitespaceFrom(s, j1);
    WhitespaceFrom(s, j2);
  }

  /** With only whitespace before i and from i on, every character is whitespace. */
  lemma BlankEverywhere(s: string, i: int, j: int, k: int)
    requires 0 <= i == j <= |s| && 0 <= k < |s|
    requires AllWhitespace(s[..i]) && AllWhitespace(s[j..])
    ensures IsWhitespace(s[k])
  {
    if k < i { assert s[..i][k] == s[k]; } else { assert s[j..][k - j] == s[k]; }
  }

  lemma WhitespaceBefore(s: string, n: int)
    requires 0 <= n <= |s| && AllWhitespace(s[..n])
    ensures forall m :: 0 <= m < n ==> IsWhitespace(s[m])
  {
    forall m | 0 <= m < n ensures IsWhitespace(s[m]) { assert s[..n][m] == s[m]; }
  }

  lemma WhitespaceFrom(s: string, n: int)
    requires 0 <= n <= |s| && AllWhitespace(s[n..])
    ensures forall m :: n <= m < |s| ==> IsWhitespace(s[m])
  {
    forall m | n <= m < |s| ensures IsWhitespace(s[m]) { assert s[n..][m - n] == s[m]; }
  }

  lemma TrimCharacterized(s: string, r: string)
    ensures IsTrimOf(r, s) <==> r == Trim(s)
  {
    if IsTrimOf(r, s) { TrimOfIsUnique(s, r, Trim(s)); }
  }

  /** Trimming a trimmed string changes nothing; in particular `trim` is idempotent. */
  lemma TrimOfTrimmed(s: string)
    requires IsTrimmed(s)
    ensures Trim(s) == s
  {
    assert s[0..|s|] == s && s[..0] == [] && s[|s|..] == [];
    assert IsTrimOf(s, s);
    TrimOfIsUnique(s, s, Trim(s));
  }

  /** A prefix without whitespace survives trimming. */
  lemma TrimKeepsPrefix(s: string, p: string)
    requires HasPrefix(s, p) && p != []
    requires forall q :: 0 <= q < |p| ==> !IsWhitespace(p[q])
    ensures HasPrefix(Trim(s), p)
  {
    var r := Trim(s);
    var i, j :| 0 <= i <= j <= |s| && r == s[i..j] &&
      AllWhitespace(s[..i]) && AllWhitespace(s[j..]) && IsTrimmed(r);
    KeptPrefix(s, p, i, j);
  }

  lemma KeptPrefix(s: string, p: string, i: int, j: int)
    requires HasPrefix(s, p) && p != []
    requires forall q :: 0 <= q < |p| ==> !IsWhitespace(p[q])
    requires 0 <= i <= j <= |s| && AllWhitespace(s[..i]) && AllWhitespace(s[j..])
    ensures HasPrefix(s[i..j], p)
  {
    assert s[0] == p[0] && s[|p| - 1] == p[|p| - 1];
    WhitespaceBefore(s, i);
    WhitespaceFrom(s, j);
    assert i == 0 && j >= |p|;
    assert s[i..j][..|p|] == s[..|p|];
  }

  /** `trim()` yields the empty string exactly when every character is whitespace. */
  lemma TrimEmptyIffBlank(s: string)
    ensures Trim(s) == [] <==> AllWhitespace(s)
  {
    var r := Trim(s);
    var i, j :| 0 <= i <= j <= |s| && r == s[i..j] &&
      AllWhitespace(s[..i]) && AllWhitespace(s[j..]) && IsTrimmed(r);
    if r == [] {
      forall k | 0 <= k < |s| ensures IsWhitespace(s[k]) {
        if k < i { assert s[..i][k] == s[k]; } else { assert s[j..][k - j] == s[k]; }
      }
    }
  }
}
