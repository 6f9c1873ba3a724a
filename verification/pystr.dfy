/** The parts of Python's `str` methods the model relies on. */
module PyStr {

  /**
   * Python's whitespace test used by `str.strip()`: the ASCII controls
   * TAB..CR, the separators U+001C..U+001F, SPACE, NEL, NBSP and the
   * Unicode space separators.
   */
  predicate IsSpace(c: char) {
    || ('\t' <= c <= '\r')
    || ('\U{1C}' <= c <= ' ')
    || c == '\U{85}' || c == '\U{A0}' || c == '\U{1680}'
    || ('\U{2000}' <= c <= '\U{200A}')
    || c == '\U{2028}' || c == '\U{2029}' || c == '\U{202F}'
    || c == '\U{205F}' || c == '\U{3000}'
  }

  predicate AllSpace(s: string) {
    forall k :: 0 <= k < |s| ==> IsSpace(s[k])
  }

  /** Neither end of `s` is whitespace: what `strip()` leaves behind. */
  predicate Trimmed(s: string) {
    s == [] || (!IsSpace(s[0]) && !IsSpace(s[|s| - 1]))
  }

  /** Only whitespace lies outside `s[i..n]`, and `s[i..n]` has none at either end. */
  predicate CoreAt(s: string, i: nat, n: nat) {
    && i <= n <= |s|
    && (forall k :: 0 <= k < i ==> IsSpace(s[k]))
    && (forall k :: n <= k < |s| ==> IsSpace(s[k]))
    && Trimmed(s[i..n])
  }

  /** `r` is `s` with some whitespace prefix and some whitespace suffix removed, and nothing more can go. */
  ghost predicate IsStripOf(s: string, r: string) {
    exists i: nat, n: nat :: CoreAt(s, i, n) && s[i..n] == r
  }

  predicate StartsWith(s: string, prefix: string) {
    |prefix| <= |s| && s[..|prefix|] == prefix
  }

  predicate EndsWith(s: string, suffix: string) {
    |suffix| <= |s| && s[|s| - |suffix|..] == suffix
  }

  /** The first position at or after `i` that does not hold whitespace (`|s|` if there is none). */
  function SkipLeft(s: string, i: nat): (j: nat)
    requires i <= |s|
    ensures i <= j <= |s|
    ensures forall k :: i <= k < j ==> IsSpace(s[k])
    ensures j == |s| || !IsSpace(s[j])
    decreases |s| - i
  {
    if i < |s| && IsSpace(s[i]) then SkipLeft(s, i + 1) else i
  }

  /** The end of `s[i..j]` once its trailing whitespace is dropped. */
  function SkipRight(s: string, i: nat, j: nat): (m: nat)
    requires i <= j <= |s|
    ensures i <= m <= j
    ensures forall k :: m <= k < j ==> IsSpace(s[k])
    ensures m == i || !IsSpace(s[m - 1])
    decreases j
  {
    if i < j && IsSpace(s[j - 1]) then SkipRight(s, i, j - 1) else j
  }

  /** `str.strip()` with no argument. */
  function Strip(s: string): (r: string)
    ensures Trimmed(r)
    ensures |r| <= |s|
  {
    var i := SkipLeft(s, 0);
    var j := SkipRight(s, i, |s|);
    s[i..j]
  }

  /** `strip()` removes a whitespace prefix and a whitespace suffix and leaves a trimmed core. */
  lemma StripIsStripOf(s: string)
    ensures IsStripOf(s, Strip(s))
  {
    var i := SkipLeft(s, 0);
    var n := SkipRight(s, i, |s|);
    assert CoreAt(s, i, n);
  }

  /** The left scan stops at the first visible character, wherever that is proved to be. */
  lemma SkipLeftAt(s: string, i: nat, n: nat)
    requires i <= n <= |s|
    requires forall k :: i <= k < n ==> IsSpace(s[k])
    requires n == |s| || !IsSpace(s[n])
    ensures SkipLeft(s, i) == n
  {
  }

  /** The right scan stops after the last visible character, wherever that is proved to be. */
  lemma SkipRightAt(s: string, i: nat, j: nat, m: nat)
    requires i <= m <= j <= |s|
    requires forall k :: m <= k < j ==> IsSpace(s[k])
    requires m == i || !IsSpace(s[m - 1])
    ensures SkipRight(s, i, j) == m
  {
  }

  /** When `s[i..n]` is trimmed and only whitespace lies outside it, `strip()` returns exactly `s[i..n]`. */
  lemma StripAt(s: string, i: nat, n: nat)
    requires CoreAt(s, i, n)
    ensures Strip(s) == s[i..n]
  {
    if i == n {
      SkipLeftAt(s, 0, |s|);
    } else {
      assert s[i] == s[i..n][0] && s[n - 1] == s[i..n][n - 1 - i];
      SkipLeftAt(s, 0, i);
      SkipRightAt(s, i, |s|, n);
    }
  }

  /** Whitespace around a trimmed text is exactly what `strip()` removes. */
  lemma StripPadded(a: string, r: string, b: string)
    requires AllSpace(a) && AllSpace(b) && Trimmed(r)
    ensures Strip(a + r + b) == r
  {
    var s := a + r + b;
    var n := |a| + |r|;
    assert forall k :: 0 <= k < |a| ==> s[k] == a[k];
    assert forall k :: n <= k < |s| ==> s[k] == b[k - n];
    assert s[|a|..n] == r;
    assert CoreAt(s, |a|, n);
    StripAt(s, |a|, n);
  }

  /** A text that opens with a visible character keeps it in front after `strip()`. */
  lemma StripKeepsFirst(s: string)
    requires s != [] && !IsSpace(s[0])
    ensures Strip(s) != [] && Strip(s)[0] == s[0]
  {
    assert SkipLeft(s, 0) == 0;
  }

  /** `strip()` is determined by its characterisation: it is the unique trimmed core. */
  lemma StripUnique(s: string, r: string)
    requires IsStripOf(s, r)
    ensures Strip(s) == r
  {
    var i: nat, n: nat :| CoreAt(s, i, n) && s[i..n] == r;
    StripAt(s, i, n);
  }

  lemma StripIdempotent(s: string)
    ensures Strip(Strip(s)) == Strip(s)
  {
    var r := Strip(s);
    assert r == [] + r + [];
    StripPadded([], r, []);
  }

  /** A text with no whitespace at either end is left alone by `strip()`. */
  lemma StripTrimmed(s: string)
    requires Trimmed(s)
    ensures Strip(s) == s
  {
    assert s == [] + s + [];
    StripPadded([], s, []);
  }

  function LowerChar(c: char): char {
    if 'A' <= c <= 'Z' then (c as int + 32) as char else c
  }

  /** `str.lower()` on the ASCII letters; other characters are kept. */
  function Lower(s: string): (r: string)
    ensures |r| == |s|
    ensures forall k :: 0 <= k < |s| ==> r[k] == LowerChar(s[k])
  {
    seq(|s|, k requires 0 <= k < |s| => LowerChar(s[k]))
  }

  lemma ConcatAssoc(a: string, b: string, c: string)
    ensures a + b + c == a + (b + c)
  {
  }

  /** A text that ends with `a + b` ends with `b`. */
  lemma EndsWithShorter(s: string, a: string, b: string)
    requires EndsWith(s, a + b)
    ensures EndsWith(s, b)
  {
    assert s[|s| - |b|..] == s[|s| - |a + b|..][|a|..] == (a + b)[|a|..] == b;
  }
}
