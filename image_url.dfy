/**
  The `isImageUrl` test: the regular expression
  `^https?:\/\/.+\.(png|jpe?g|gif|svg|webp)(\?.*)?$` with the `i` flag.
  `IsImageUrl` decides it by a scan; `MatchesImagePattern` says what the
  expression accepts, as a way of cutting the string into its parts; the two
  are proved to agree on every string.
*/
module ImageUrl {
  import opened Text

  /** The alternatives of `(png|jpe?g|gif|svg|webp)`. */
  const ImageExtensions: seq<string> := ["png", "jpg", "jpeg", "gif", "svg", "webp"]

  /** `c` matches the pattern character `p` under the `i` flag of an expression
      without the `u` flag: an ASCII letter matches itself in either case and
      every other character only itself. Pattern characters here are lower case. */
  predicate CharMatches(c: char, p: char) {
    c == p || ('a' <= p <= 'z' && c as int == p as int - 32)
  }

  predicate MatchesIgnoringCase(s: string, p: string) {
    |s| == |p| && forall i :: 0 <= i < |s| ==> CharMatches(s[i], p[i])
  }

  /** `https?:\/\/` */
  predicate IsScheme(s: string) {
    MatchesIgnoringCase(s, "http://") || MatchesIgnoringCase(s, "https://")
  }

  /** `(png|jpe?g|gif|svg|webp)` */
  predicate IsImageExtension(s: string) {
    exists k :: 0 <= k < |ImageExtensions| && MatchesIgnoringCase(s, ImageExtensions[k])
  }

  /** Every character is one that `.` matches. */
  predicate NoLineTerminator(s: string) {
    forall i :: 0 <= i < |s| ==> !IsLineTerminator(s[i])
  }

  /** `(\?.*)?` followed by the end of the input. */
  predicate IsQuery(q: string) {
    q == [] || (q[0] == '?' && NoLineTerminator(q[1..]))
  }

  /** The expression matches `s` with the scheme s[..i], the run `.+` s[i..j],
      the dot s[j], the extension s[j+1..k] and the optional query s[k..]. */
  ghost predicate IsImageSplit(s: string, i: int, j: int, k: int) {
    && 0 <= i < j < k <= |s|
    && IsScheme(s[..i])
    && NoLineTerminator(s[i..j])
    && s[j] == '.'
    && IsImageExtension(s[j + 1..k])
    && IsQuery(s[k..])
  }

  ghost predicate MatchesImagePattern(s: string) {
    exists i, j, k :: IsImageSplit(s, i, j, k)
  }

  /** Position m of `r` can end the extension: the end of `r`, or a `?`. */
  predicate IsQueryStart(r: string, m: nat)
    requires m <= |r|
  {
    m == |r| || r[m] == '?'
  }

  /** `p` ends in a dot and extension `x`, with at least one character before the dot. */
  predicate EndsWithDotExtension(p: string, x: string) {
    |p| >= |x| + 2 && p[|p| - |x| - 1] == '.' && MatchesIgnoringCase(p[|p| - |x|..], x)
  }

  predicate EndsWithExtension(p: string) {
    exists k :: 0 <= k < |ImageExtensions| && EndsWithDotExtension(p, ImageExtensions[k])
  }

  /** Some position m <= k of `r` ends an extension and begins the query part. */
  predicate ExtensionEndsBy(r: string, k: nat)
    requires k <= |r|
    decreases k
  {
    || (IsQueryStart(r, k) && EndsWithExtension(r[..k]))
    || (k > 0 && ExtensionEndsBy(r, k - 1))
  }

  /** What may follow the scheme. */
  predicate HasImageTail(r: string) {
    NoLineTerminator(r) && ExtensionEndsBy(r, |r|)
  }

  /** `isImageUrl(url)`: `https?` tries the longer scheme first, as the
      regular-expression engine does. */
  predicate IsImageUrl(url: string) {
    || (|url| >= 8 && MatchesIgnoringCase(url[..8], "https://") && HasImageTail(url[8..]))
    || (|url| >= 7 && MatchesIgnoringCase(url[..7], "http://") && HasImageTail(url[7..]))
  }

  /** The scan and the pattern accept the same strings. */
  lemma IsImageUrlIffPattern(url: string)
    ensures IsImageUrl(url) <==> MatchesImagePattern(url)
  {
    if IsImageUrl(url) {
      if |url| >= 8 && MatchesIgnoringCase(url[..8], "https://") && HasImageTail(url[8..]) {
        SplitFromTail(url, 8);
      } else {
        SplitFromTail(url, 7);
      }
    }
    if MatchesImagePattern(url) {
      var i, j, k :| IsImageSplit(url, i, j, k);
      TailFromSplit(url, i, j, k);
      assert |url[..i]| == i;
    }
  }

  /** Every string built from the pattern's parts matches it. */
  lemma PartsMatchPattern(scheme: string, run: string, ext: string, query: string)
    requires IsScheme(scheme) && run != [] && NoLineTerminator(run)
    requires IsImageExtension(ext) && IsQuery(query)
    ensures MatchesImagePattern(scheme + run + "." + ext + query)
  {
    var a := scheme + run;
    var b := a + ".";
    var c := b + ext;
    var s := c + query;
    var i, j := |scheme|, |scheme| + |run|;
    var k := j + 1 + |ext|;
    assert s[..k] == c && c[..j + 1] == b && b[..j] == a;
    assert s[..i] == a[..i] == scheme;
    assert s[i..j] == a[i..] == run;
    assert s[j] == '.';
    assert s[j + 1..k] == c[j + 1..] == ext;
    assert s[k..] == query;
    assert IsImageSplit(s, i, j, k);
  }

  lemma {:induction false} ExtensionEndsByWitness(r: string, k: nat) returns (m: nat)
    requires k <= |r| && ExtensionEndsBy(r, k)
    ensures m <= k && IsQueryStart(r, m) && EndsWithExtension(r[..m])
    decreases k
  {
    if IsQueryStart(r, k) && EndsWithExtension(r[..k]) {
      m := k;
    } else {
      m := ExtensionEndsByWitness(r, k - 1);
    }
  }

  lemma {:induction false} ExtensionEndsByFrom(r: string, m: nat, k: nat)
    requires m <= k <= |r| && IsQueryStart(r, m) && EndsWithExtension(r[..m])
    ensures ExtensionEndsBy(r, k)
    decreases k
  {
    if m < k {
      ExtensionEndsByFrom(r, m, k - 1);
    }
  }

  /** A scheme of length n followed by an accepted tail gives a split. */
  lemma SplitFromTail(url: string, n: nat)
    requires n <= |url| && IsScheme(url[..n]) && HasImageTail(url[n..])
    ensures MatchesImagePattern(url)
  {
    var r := url[n..];
    var m := ExtensionEndsByWitness(r, |r|);
    var t :| 0 <= t < |ImageExtensions| && EndsWithDotExtension(r[..m], ImageExtensions[t]);
    var x := ImageExtensions[t];
    SplitAt(url, n, m, x);
  }

  lemma SplitAt(url: string, n: nat, m: nat, x: string)
    requires n <= |url| && IsScheme(url[..n]) && NoLineTerminator(url[n..])
    requires m <= |url| - n && IsQueryStart(url[n..], m)
    requires x in ImageExtensions && EndsWithDotExtension(url[n..][..m], x)
    ensures IsImageSplit(url, n, n + m - |x| - 1, n + m)
  {
    var r := url[n..];
    var j := n + m - |x| - 1;
    assert n == |url[..n]| && n > 0;
    NoLineTerminatorSlice(r, 0, m - |x| - 1);
    SliceOfSuffix(url, n, n, j);
    ExtensionAt(url, n, m, x);
    QueryAt(url, n, m);
  }

  /** The dot and the extension of the tail, located in the whole string. */
  lemma ExtensionAt(url: string, n: nat, m: nat, x: string)
    requires n <= |url| && m <= |url| - n
    requires x in ImageExtensions && EndsWithDotExtension(url[n..][..m], x)
    ensures url[n + m - |x| - 1] == '.'
    ensures IsImageExtension(url[n + m - |x|..n + m])
  {
    var r := url[n..];
    var a := m - |x|;
    SliceOfSuffix(url, n, n + a, n + m);
    assert r[..m][a..] == r[a..m];
    assert r[..m][a - 1] == url[n + a - 1];
    var t :| 0 <= t < |ImageExtensions| && ImageExtensions[t] == x;
  }

  /** The part after the extension is an optional query. */
  lemma QueryAt(url: string, n: nat, m: nat)
    requires n <= |url| && NoLineTerminator(url[n..])
    requires m <= |url| - n && IsQueryStart(url[n..], m)
    ensures IsQuery(url[n + m..])
  {
    var r := url[n..];
    assert url[n + m..] == r[m..];
    if m < |r| {
      NoLineTerminatorSlice(r, m + 1, |r|);
      assert url[n + m..][1..] == r[m + 1..|r|];
    }
  }

  /** A slice of a suffix is the matching slice of the whole string. */
  lemma SliceOfSuffix(s: string, n: nat, a: nat, b: nat)
    requires n <= a <= b <= |s|
    ensures s[n..][a - n..b - n] == s[a..b]
  {
  }

  lemma NoLineTerminatorSlice(r: string, a: int, b: int)
    requires 0 <= a <= b <= |r| && NoLineTerminator(r)
    ensures NoLineTerminator(r[a..b])
  {
    forall q | 0 <= q < b - a ensures !IsLineTerminator(r[a..b][q]) { assert r[a..b][q] == r[a + q]; }
  }

  /** Every character of an image extension is an ASCII letter. */
  lemma ExtensionCharIsLetter(s: string, q: int)
    requires IsImageExtension(s) && 0 <= q < |s|
    ensures ('a' <= s[q] <= 'z') || ('A' <= s[q] <= 'Z')
  {
    var t :| 0 <= t < |ImageExtensions| && MatchesIgnoringCase(s, ImageExtensions[t]);
    assert CharMatches(s[q], ImageExtensions[t][q]);
  }

  /** The characters after a split's scheme form an accepted tail. */
  lemma TailFromSplit(url: string, i: int, j: int, k: int)
    requires IsImageSplit(url, i, j, k)
    ensures HasImageTail(url[i..])
  {
    var r := url[i..];
    forall q | 0 <= q < |r| ensures !IsLineTerminator(r[q]) {
      if i + q < j {
        assert r[q] == url[i..j][q];
      } else if i + q == j {
      } else if i + q < k {
        assert r[q] == url[j + 1..k][i + q - j - 1];
        ExtensionCharIsLetter(url[j + 1..k], i + q - j - 1);
      } else {
        assert r[q] == url[k..][i + q - k];
        if i + q > k { assert r[q] == url[k..][1..][i + q - k - 1]; }
      }
    }
    var m := k - i;
    var t :| 0 <= t < |ImageExtensions| && MatchesIgnoringCase(url[j + 1..k], ImageExtensions[t]);
    SliceOfSuffix(url, i, j + 1, k);
    assert |ImageExtensions[t]| == k - j - 1;
    assert r[..m][m - |ImageExtensions[t]|..] == url[j + 1..k];
    assert EndsWithDotExtension(r[..m], ImageExtensions[t]);
    ExtensionEndsByFrom(r, m, |r|);
  }
}
