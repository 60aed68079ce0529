/** Whitespace trimming as done by Python's `str.lstrip()` and `str.rstrip()`
    called without arguments. */
module Text {

  /** The characters Python's `str.isspace` accepts, and so the ones
      `strip()` removes: the ASCII controls 9-13 and 28-31, the space, NEL,
      NO-BREAK SPACE, OGHAM SPACE MARK, the spaces U+2000-U+200A, the line
      and paragraph separators, NARROW NO-BREAK SPACE, MEDIUM MATHEMATICAL
      SPACE and IDEOGRAPHIC SPACE. */
  predicate IsSpace(c: char)
  {
    || '\U{9}' <= c <= '\U{D}'
    || '\U{1C}' <= c <= '\U{20}'
    || c == '\U{85}' || c == '\U{A0}' || c == '\U{1680}'
    || '\U{2000}' <= c <= '\U{200A}'
    || c == '\U{2028}' || c == '\U{2029}' || c == '\U{202F}'
    || c == '\U{205F}' || c == '\U{3000}'
  }

  /** Every character of `s` from position `lo` up to `hi` is whitespace. */
  predicate SpaceBetween(s: string, lo: int, hi: int)
    requires 0 <= lo && hi <= |s|
  {
    forall k :: lo <= k < hi ==> IsSpace(s[k])
  }

  /** The length of the whitespace run of `s` that starts at position
      `i`: the first non-whitespace position at or after `i`, or `|s|`. */
  function SpaceRunFrom(s: string, i: nat): (n: nat)
    requires i <= |s|
    ensures i <= n <= |s| && SpaceBetween(s, i, n)
    ensures n == |s| || !IsSpace(s[n])
    decreases |s| - i
  {
    if i == |s| || !IsSpace(s[i]) then i else SpaceRunFrom(s, i + 1)
  }

  /** The start of the whitespace run of `s` that ends at position `j`:
      the position just after the last non-whitespace character before
      `j`, or 0. */
  function SpaceRunTo(s: string, j: nat): (m: nat)
    requires j <= |s|
    ensures m <= j && SpaceBetween(s, m, j)
    ensures m == 0 || !IsSpace(s[m - 1])
  {
    if j == 0 || !IsSpace(s[j - 1]) then j else SpaceRunTo(s, j - 1)
  }

  /** How many whitespace characters `s` starts with. */
  function LeadingSpace(s: string): nat
  {
    SpaceRunFrom(s, 0)
  }

  /** `s.lstrip()`: the suffix left after dropping the leading whitespace. */
  function TrimLeft(s: string): (r: string)
    ensures |r| <= |s| && r == s[|s| - |r|..]
    ensures SpaceBetween(s, 0, |s| - |r|)
    ensures r == [] || !IsSpace(r[0])
  {
    s[LeadingSpace(s)..]
  }

  /** `s.rstrip()`: the prefix left after dropping the trailing whitespace. */
  function TrimRight(s: string): (r: string)
    ensures |r| <= |s| && r == s[..|r|]
    ensures SpaceBetween(s, |r|, |s|)
    ensures r == [] || !IsSpace(r[|r| - 1])
  {
    s[..SpaceRunTo(s, |s|)]
  }

  /** `s.lstrip().rstrip()`: the infix of `s` that starts after its leading
      whitespace and is followed only by whitespace, and that itself
      neither starts nor ends with whitespace. */
  function Strip(s: string): (r: string)
    ensures r == [] || (!IsSpace(r[0]) && !IsSpace(r[|r| - 1]))
    ensures LeadingSpace(s) + |r| <= |s|
    ensures r == s[LeadingSpace(s)..LeadingSpace(s) + |r|]
    ensures SpaceBetween(s, LeadingSpace(s) + |r|, |s|)
  {
    var i := LeadingSpace(s);
    var r := TrimRight(s[i..]);
    SpaceBetweenShift(s, i, |r|, |s| - i);
    r
  }

  /** Whitespace found in a suffix of `s` is whitespace of `s`, `i`
      positions further on. */
  lemma {:induction false} SpaceBetweenShift(s: string, i: nat, lo: nat, hi: nat)
    requires i <= |s| && lo <= hi <= |s| - i
    requires SpaceBetween(s[i..], lo, hi)
    ensures SpaceBetween(s, i + lo, i + hi)
  {
    forall k | i + lo <= k < i + hi
      ensures IsSpace(s[k])
    {
      assert s[k] == s[i..][k - i];
    }
  }

  /** `Strip` is `lstrip()` followed by `rstrip()`. */
  lemma {:induction false} StripIsTrimLeftThenRight(s: string)
    ensures Strip(s) == TrimRight(TrimLeft(s))
  {
    assert TrimLeft(s) == s[LeadingSpace(s)..];
  }

  /** Stripping only removes characters: one absent before is absent
      after. */
  lemma {:induction false} StripContents(s: string, c: char)
    requires c !in s
    ensures c !in Strip(s)
  {
    var r := Strip(s);
    forall j | 0 <= j < |r|
      ensures r[j] != c
    {
      assert r[j] == s[LeadingSpace(s) + j];
    }
  }

  /** Stripping a stripped string changes nothing. */
  lemma {:induction false} StripIdempotent(s: string)
    ensures Strip(Strip(s)) == Strip(s)
  {
  }
}
