/** Decimal digit strings: Python's `str` on integers, and the inverse
    reading used to state what those strings mean. */
module Digits {

  predicate IsDigit(c: char)
  {
    '0' <= c <= '9'
  }

  predicate AllDigits(s: string)
  {
    forall i :: 0 <= i < |s| ==> IsDigit(s[i])
  }

  function DigitValue(c: char): (d: nat)
    requires IsDigit(c)
    ensures d < 10
  {
    c as int - '0' as int
  }

  function DigitChar(d: nat): (c: char)
    requires d < 10
    ensures IsDigit(c) && DigitValue(c) == d
  {
    ('0' as int + d) as char
  }

  function Pow10(n: nat): (p: nat)
    ensures p >= 1
  {
    if n == 0 then 1 else 10 * Pow10(n - 1)
  }

  lemma {:induction false} Pow10Add(a: nat, b: nat)
    ensures Pow10(a + b) == Pow10(a) * Pow10(b)
  {
    if b > 0 {
      Pow10Add(a, b - 1);
    }
  }

  /** The number a digit string denotes, most significant digit first. */
  function DigitsValue(s: string): (n: nat)
    requires AllDigits(s)
    ensures n < Pow10(|s|)
  {
    if s == [] then 0
    else 10 * DigitsValue(s[..|s| - 1]) + DigitValue(s[|s| - 1])
  }

  lemma {:induction false} AllDigitsAppend(a: string, b: string)
    requires AllDigits(a) && AllDigits(b)
    ensures AllDigits(a + b)
  {
  }

  lemma {:induction false} ShiftDigit(x: nat, p: nat, y: nat, d: nat)
    ensures 10 * (x * p + y) + d == x * (10 * p) + (10 * y + d)
  {
  }

  /** Reading `a + b` shifts the value of `a` by the length of `b`. */
  lemma {:induction false} DigitsValueAppend(a: string, b: string)
    requires AllDigits(a) && AllDigits(b)
    ensures AllDigits(a + b)
    ensures DigitsValue(a + b) == DigitsValue(a) * Pow10(|b|) + DigitsValue(b)
  {
    AllDigitsAppend(a, b);
    if b == [] {
      assert a + b == a;
    } else {
      var b' := b[..|b| - 1];
      var ab := a + b;
      assert ab[..|ab| - 1] == a + b';
      assert ab[|ab| - 1] == b[|b| - 1];
      AllDigitsAppend(a, b');
      DigitsValueAppend(a, b');
      var x, y, d := DigitsValue(a), DigitsValue(b'), DigitValue(b[|b| - 1]);
      assert DigitsValue(ab) == 10 * (x * Pow10(|b'|) + y) + d;
      assert DigitsValue(b) == 10 * y + d;
      assert Pow10(|b|) == 10 * Pow10(|b'|);
      ShiftDigit(x, Pow10(|b'|), y, d);
    }
  }

  function Zeros(n: nat): (z: string)
    ensures |z| == n && AllDigits(z) && DigitsValue(z) == 0
  {
    if n == 0 then [] else
      var z := Zeros(n - 1) + ['0'];
      assert z[..n - 1] == Zeros(n - 1);
      z
  }

  /** Leading zeros do not change the value. */
  lemma {:induction false} LeadingZeros(n: nat, s: string)
    requires AllDigits(s)
    ensures AllDigits(Zeros(n) + s) && DigitsValue(Zeros(n) + s) == DigitsValue(s)
  {
    var z := Zeros(n);
    DigitsValueAppend(z, s);
    assert DigitsValue(z) * Pow10(|s|) == 0;
  }

  /** Python's `str` on a non-negative integer: the shortest digit string
      denoting it. */
  function NatToString(n: nat): (s: string)
    ensures |s| > 0 && AllDigits(s)
    ensures DigitsValue(s) == n
    ensures s[0] == '0' ==> s == "0"
  {
    if n < 10 then [DigitChar(n)]
    else
      var init := NatToString(n / 10);
      var s := init + [DigitChar(n % 10)];
      assert s[..|s| - 1] == init;
      s
  }

  /** The strings `str(n)` can produce for an integer `n`. */
  predicate IsIntText(s: string)
  {
    if |s| > 0 && s[0] == '-' then |s| > 1 && AllDigits(s[1..])
    else |s| > 0 && AllDigits(s)
  }

  /** A digit string without leading zeros: "0" itself, or one that
      starts with a non-zero digit. */
  predicate IsCanonicalDigits(s: string)
  {
    |s| > 0 && AllDigits(s) && (s[0] == '0' ==> s == "0")
  }

  /** The strings `str(n)` actually produces: no leading zeros and no
      "-0". */
  predicate IsCanonicalIntText(s: string)
  {
    if |s| > 0 && s[0] == '-' then IsCanonicalDigits(s[1..]) && s[1] != '0'
    else IsCanonicalDigits(s)
  }

  /** Reading back an optionally signed digit string. */
  function StringToInt(s: string): int
    requires IsIntText(s)
  {
    if s[0] == '-' then -(DigitsValue(s[1..]) as int) else DigitsValue(s)
  }

  /** Python's `str` on an integer: a minus sign for negative values, then
      the digits of the magnitude. */
  function IntToString(n: int): (s: string)
    ensures IsIntText(s) && StringToInt(s) == n
    ensures s[0] == '-' <==> n < 0
    ensures IsCanonicalIntText(s)
  {
    if n < 0 then
      var s := "-" + NatToString(-n);
      assert s[1..] == NatToString(-n);
      s
    else NatToString(n)
  }

  /** Distinct integers print differently. */
  lemma {:induction false} IntToStringInjective(m: int, n: int)
    requires IntToString(m) == IntToString(n)
    ensures m == n
  {
  }

  /** A digit string that starts with a non-zero digit denotes a positive
      number. */
  lemma {:induction false} LeadingDigitPositive(s: string)
    requires |s| > 0 && AllDigits(s) && s[0] != '0'
    ensures DigitsValue(s) > 0
  {
    if |s| > 1 {
      var init := s[..|s| - 1];
      assert init[0] == s[0];
      LeadingDigitPositive(init);
    }
  }

  /** The digit string without leading zeros that denotes `n` is the one
      `str` prints. */
  lemma {:induction false} NatToStringUnique(s: string, n: nat)
    requires IsCanonicalDigits(s) && DigitsValue(s) == n
    ensures s == NatToString(n)
  {
    if |s| == 1 {
      assert DigitChar(DigitValue(s[0])) == s[0];
    } else {
      var init, last := s[..|s| - 1], s[|s| - 1];
      assert init[0] == s[0] != '0';
      LeadingDigitPositive(init);
      assert n == 10 * DigitsValue(init) + DigitValue(last);
      assert n / 10 == DigitsValue(init) && n % 10 == DigitValue(last);
      NatToStringUnique(init, DigitsValue(init));
      assert DigitChar(DigitValue(last)) == last;
      assert s == init + [last];
    }
  }

  /** The text `str(n)` prints is the only canonical integer text that reads
      back as `n`. */
  lemma {:induction false} IntToStringUnique(s: string, n: int)
    requires IsCanonicalIntText(s) && StringToInt(s) == n
    ensures s == IntToString(n)
  {
    if s[0] == '-' {
      LeadingDigitPositive(s[1..]);
      NatToStringUnique(s[1..], -n);
      assert s == "-" + s[1..];
    } else {
      NatToStringUnique(s, n);
    }
  }
}
