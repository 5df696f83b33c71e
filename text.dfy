/**
 * The parts of Python's `str` behaviour that the mailer relies on:
 * `str.strip()` with no argument, `str.lower()` and `str.endswith()`.
 */
module Text {

  /** Python's `str.isspace()` for one character: the ASCII controls
      TAB..CR and FS..US, SPACE, NEL, NO-BREAK SPACE and the Unicode
      space separators, LINE and PARAGRAPH SEPARATOR. */
  predicate IsSpace(c: char)
    ensures c == ' ' || c == '\t' || c == '\n' || c == '\r' ==> IsSpace(c)
    ensures '0' <= c <= '9' || 'a' <= c <= 'z' || 'A' <= c <= 'Z' || c == '<' || c == '>' || c == '@' ==> !IsSpace(c)
  {
    var n := c as int;
    (0x09 <= n <= 0x0D) || (0x1C <= n <= 0x20) || n == 0x85 || n == 0xA0 ||
    n == 0x1680 || (0x2000 <= n <= 0x200A) || n == 0x2028 || n == 0x2029 ||
    n == 0x202F || n == 0x205F || n == 0x3000
  }

  predicate AllSpace(s: string) {
    forall k :: 0 <= k < |s| ==> IsSpace(s[k])
  }

  /** Neither the first nor the last character is whitespace. */
  predicate Trimmed(s: string) {
    s == [] || (!IsSpace(s[0]) && !IsSpace(s[|s| - 1]))
  }

  /** Where `s.lstrip()` starts: the first index at or after `k` that is
      not whitespace, or `|s|` when there is none. */
  function SkipSpace(s: string, k: nat): (r: nat)
    requires k <= |s|
    ensures k <= r <= |s|
    ensures forall m :: k <= m < r ==> IsSpace(s[m])
    ensures r < |s| ==> !IsSpace(s[r])
    decreases |s| - k
  {
    if k == |s| || !IsSpace(s[k]) then k else SkipSpace(s, k + 1)
  }

  /** Where `s[a..e].rstrip()` ends: `e` with the trailing whitespace of
      `s[a..e]` taken off. */
  function TrimEnd(s: string, a: nat, e: nat): (r: nat)
    requires a <= e <= |s|
    ensures a <= r <= e
    ensures forall m :: r <= m < e ==> IsSpace(s[m])
    ensures a < r ==> !IsSpace(s[r - 1])
    decreases e
  {
    if e == a || !IsSpace(s[e - 1]) then e else TrimEnd(s, a, e - 1)
  }

  /** `s.strip()`: `s` without its leading and trailing whitespace. */
  function Strip(s: string): (r: string)
    ensures Trimmed(r)
    ensures |r| <= |s|
  {
    var a := SkipSpace(s, 0);
    s[a..TrimEnd(s, a, |s|)]
  }

  /** `strip` keeps every character that is not whitespace, at the offset
      of the leading whitespace it drops. */
  lemma StripKeeps(s: string, k: nat)
    requires k < |s| && !IsSpace(s[k])
    ensures var a := SkipSpace(s, 0);
      a <= k < TrimEnd(s, a, |s|) && Strip(s)[k - a] == s[k]
  {
    var a := SkipSpace(s, 0);
    SkipSpaceStops(s, 0, k);
    var b := TrimEnd(s, a, |s|);
    TrimEndKeeps(s, a, |s|, k);
    assert s[a..b][k - a] == s[k];
  }

  /** Skipping whitespace stops at or before any non-space character. */
  lemma SkipSpaceStops(s: string, k: nat, j: nat)
    requires k <= j < |s| && !IsSpace(s[j])
    ensures SkipSpace(s, k) <= j
  {
  }

  /** Trimming the end keeps every non-space character. */
  lemma TrimEndKeeps(s: string, a: nat, e: nat, j: nat)
    requires a <= j < e <= |s| && !IsSpace(s[j])
    ensures j < TrimEnd(s, a, e)
  {
  }

  /** Every character of `s.strip()` occurs in `s`. */
  lemma StripChars(s: string)
    ensures forall c :: c in Strip(s) ==> c in s
  {
    var a := SkipSpace(s, 0);
    var r := Strip(s);
    assert forall k :: 0 <= k < |r| ==> r[k] == s[a + k];
  }

  /** `strip` is the unique trimmed core: whatever whitespace surrounds a
      trimmed string, `strip` gives back exactly that string. */
  lemma StripUnique(p: string, t: string, q: string)
    requires AllSpace(p) && AllSpace(q) && Trimmed(t)
    ensures Strip(p + t + q) == t
  {
    var s := p + t + q;
    assert forall m :: 0 <= m < |p| ==> s[m] == p[m];
    assert forall m :: |p| + |t| <= m < |s| ==> s[m] == q[m - |p| - |t|];
    var a := SkipSpace(s, 0);
    if t == [] {
      assert a == |s|;
    } else {
      assert s[|p|] == t[0] && s[|p| + |t| - 1] == t[|t| - 1];
      assert a == |p|;
      var b := TrimEnd(s, a, |s|);
      assert b == |p| + |t|;
      assert s[a..b] == t;
    }
  }

  /** A trimmed string is its own `strip`. */
  lemma StripTrimmed(t: string)
    requires Trimmed(t)
    ensures Strip(t) == t
  {
    StripUnique([], t, []);
    assert [] + t + [] == t;
  }

  /** `c.lower()` for ASCII letters: each capital becomes its own small
      letter; every other character is kept. */
  function LowerChar(c: char): (r: char)
    ensures 'A' <= c <= 'Z' ==> 'a' <= r <= 'z' && r as int - 'a' as int == c as int - 'A' as int
    ensures !('A' <= c <= 'Z') ==> r == c
  {
    if 'A' <= c <= 'Z' then (c as int + 32) as char else c
  }

  /** `s.lower()`, character by character. */
  function Lower(s: string): (r: string)
    ensures |r| == |s|
    ensures forall k :: 0 <= k < |s| ==> r[k] == LowerChar(s[k])
  {
    seq(|s|, k requires 0 <= k < |s| => LowerChar(s[k]))
  }

  /** Lowering twice is lowering once. */
  lemma LowerIdempotent(s: string)
    ensures Lower(Lower(s)) == Lower(s)
  {
    assert forall k :: 0 <= k < |s| ==> LowerChar(LowerChar(s[k])) == LowerChar(s[k]);
  }

  /** Lowering commutes with taking a suffix. */
  lemma LowerSuffix(s: string, n: nat)
    requires n <= |s|
    ensures Lower(s)[n..] == Lower(s[n..])
  {
  }

  /** `a.endswith(suffix)`. */
  predicate EndsWith(a: string, suffix: string)
    ensures |suffix| > |a| ==> !EndsWith(a, suffix)
    ensures |suffix| <= |a| ==> (EndsWith(a, suffix) <==> a == a[..|a| - |suffix|] + suffix)
  {
    |suffix| <= |a| && a[|a| - |suffix|..] == suffix
  }
}
