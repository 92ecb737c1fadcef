/**
 * The two Python string operations the webhook relies on: `str.strip()` with
 * no argument and `str.startswith(prefix)`. Strings are sequences of Unicode
 * scalar values, as Python's `len` and slicing count code points.
 */
module Text {

  /** The characters Python's `str.isspace()` accepts, which are the ones `str.strip()` removes. */
  predicate IsWs(c: char): (b: bool)
    ensures c == ' ' || ('\t' <= c <= '\r') ==> b
    ensures '!' <= c <= '~' ==> !b
  {
    || ('\t' <= c <= '\r')
    || ('\U{1C}' <= c <= '\U{1F}')
    || c == ' '
    || c == '\U{85}'
    || c == '\U{A0}'
    || c == '\U{1680}'
    || ('\U{2000}' <= c <= '\U{200A}')
    || c == '\U{2028}'
    || c == '\U{2029}'
    || c == '\U{202F}'
    || c == '\U{205F}'
    || c == '\U{3000}'
  }

  /** The first index at or after `i` whose character is not whitespace, or `|s|` if there is none. */
  function SkipWsForward(s: string, i: nat): (n: nat)
    requires i <= |s|
    ensures i <= n <= |s|
    ensures forall k :: i <= k < n ==> IsWs(s[k])
    ensures n < |s| ==> !IsWs(s[n])
    decreases |s| - i
  {
    if i < |s| && IsWs(s[i]) then SkipWsForward(s, i + 1) else i
  }

  /** Moving back from `j`, but not below `lo`, the first end of `s[..j]` whose last character is not whitespace. */
  function SkipWsBackward(s: string, lo: nat, j: nat): (n: nat)
    requires lo <= j <= |s|
    ensures lo <= n <= j
    ensures forall k :: n <= k < j ==> IsWs(s[k])
    ensures lo < n ==> !IsWs(s[n - 1])
  {
    if lo < j && IsWs(s[j - 1]) then SkipWsBackward(s, lo, j - 1) else j
  }

  /**
   * `s[i..j]` is what stripping leaves of `s`: everything outside it is
   * whitespace, and when it is not empty it neither begins nor ends with
   * whitespace.
   */
  ghost predicate IsStripOf(s: string, i: int, j: int) {
    && 0 <= i <= j <= |s|
    && (forall k :: 0 <= k < i ==> IsWs(s[k]))
    && (forall k :: j <= k < |s| ==> IsWs(s[k]))
    && (i < j ==> !IsWs(s[i]) && !IsWs(s[j - 1]))
  }

  /** Python's `s.strip()`: scan forward past the leading whitespace, then back past the trailing whitespace. */
  function Strip(s: string): (r: string)
    ensures exists i, j :: IsStripOf(s, i, j) && r == s[i..j]
    ensures r == [] || (!IsWs(r[0]) && !IsWs(r[|r| - 1]))
  {
    var i := SkipWsForward(s, 0);
    var j := SkipWsBackward(s, i, |s|);
    assert IsStripOf(s, i, j);
    s[i..j]
  }

  /** The characterisation of `Strip` determines its result: any slice that meets it is the stripped string. */
  lemma StripCharacterised(s: string, i: int, j: int)
    requires IsStripOf(s, i, j)
    ensures Strip(s) == s[i..j]
  {
    var i0, j0 :| IsStripOf(s, i0, j0) && Strip(s) == s[i0..j0];
    SameStripBounds(s, i, j, i0, j0);
  }

  /** Two slices that both meet the characterisation of `Strip` are equal. */
  lemma SameStripBounds(s: string, i: int, j: int, i': int, j': int)
    requires IsStripOf(s, i, j) && IsStripOf(s, i', j')
    ensures s[i..j] == s[i'..j']
  {
    if i < j {
      assert i' <= i by { assert !IsWs(s[i]); }
      assert i <= j' && j - 1 < j' by { assert !IsWs(s[j - 1]); }
      assert i' < j';
      assert i <= i' by { assert !IsWs(s[i']); }
      assert j' <= j by { assert !IsWs(s[j' - 1]); }
    } else if i' < j' {
      assert false;
    }
  }

  /** Stripping twice is stripping once. */
  lemma StripIdempotent(s: string)
    ensures Strip(Strip(s)) == Strip(s)
  {
    var r := Strip(s);
    var i, j :| IsStripOf(s, i, j) && r == s[i..j];
    assert IsStripOf(r, 0, |r|);
    StripCharacterised(r, 0, |r|);
  }

  /** A string of whitespace only strips to the empty string, and only such a string does. */
  lemma StripEmptyIff(s: string)
    ensures Strip(s) == [] <==> forall k :: 0 <= k < |s| ==> IsWs(s[k])
  {
    if forall k :: 0 <= k < |s| ==> IsWs(s[k]) {
      assert IsStripOf(s, 0, 0);
      StripCharacterised(s, 0, 0);
    }
  }

  /** Python's `s.startswith(p)`. */
  predicate StartsWith(s: string, p: string): (b: bool)
    ensures b <==> |p| <= |s| && forall k :: 0 <= k < |p| ==> s[k] == p[k]
  {
    |p| <= |s| && s[..|p|] == p
  }
}
