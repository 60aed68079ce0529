/** Exact decimal numbers, standing in for the binary float the scraper
    stores: a value is a natural mantissa over a power of ten. */
module Decimals {
  import opened Results
  import opened Digits

  /** The number `mantissa / 10^scale`. */
  datatype Decimal = Decimal(mantissa: nat, scale: nat)

  function Value(d: Decimal): (v: real)
    ensures v >= 0.0
    ensures d.scale == 0 ==> v == d.mantissa as real
  {
    d.mantissa as real / Pow10(d.scale) as real
  }

  /** The characters that can appear in a numeral: digits and the point. */
  predicate IsNumeralChar(c: char)
  {
    IsDigit(c) || c == '.'
  }

  predicate AllNumeralChars(s: string)
  {
    forall i :: 0 <= i < |s| ==> IsNumeralChar(s[i])
  }

  predicate HasDigit(s: string)
  {
    exists i :: 0 <= i < |s| && IsDigit(s[i])
  }

  /** Position of the first occurrence of `c`. */
  function IndexOf(s: string, c: char): (k: nat)
    requires c in s
    ensures k < |s| && s[k] == c && c !in s[..k]
  {
    if s[0] == c then 0
    else
      var k := 1 + IndexOf(s[1..], c);
      assert s[..k] == [s[0]] + s[1..][..k - 1];
      k
  }

  lemma {:induction false} NoPointInDigits(s: string)
    requires AllDigits(s)
    ensures multiset(s)['.'] == 0
  {
    assert '.' !in s;
  }

  /** Python's `float` on a string made only of digits and points: it
      accepts `digits* ('.' digits*)?` with at least one digit, and the value
      is exact here. Reading the digits on both sides of the point as one
      numeral gives the mantissa; the number of digits after the point gives
      the scale. */
  function ParseDecimal(s: string): (r: Result<Decimal>)
    requires AllNumeralChars(s)
    ensures r.Ok? <==> multiset(s)['.'] <= 1 && HasDigit(s)
    ensures r.Err? ==> r.error == ParseError
    ensures r.Ok? ==> r.value.scale < |s|
  {
    if multiset(s)['.'] > 1 || !HasDigit(s) then Err(ParseError)
    else if '.' !in s then
      assert AllDigits(s);
      Ok(Decimal(DigitsValue(s), 0))
    else
      var k := IndexOf(s, '.');
      var whole, fraction := s[..k], s[k + 1..];
      DigitsAroundPoint(s, k);
      Ok(Decimal(DigitsValue(whole + fraction), |fraction|))
  }

  /** With its only point removed, a numeral is all digits. */
  lemma {:induction false} DigitsAroundPoint(s: string, k: nat)
    requires AllNumeralChars(s) && multiset(s)['.'] <= 1
    requires k < |s| && s[k] == '.'
    ensures AllDigits(s[..k] + s[k + 1..])
  {
    var whole, fraction := s[..k], s[k + 1..];
    assert s == whole + [s[k]] + fraction;
    assert multiset(s) == multiset(whole) + multiset{'.'} + multiset(fraction);
    assert multiset(whole)['.'] == 0 && multiset(fraction)['.'] == 0;
    var rest := whole + fraction;
    forall i | 0 <= i < |rest|
      ensures IsDigit(rest[i])
    {
      if i < |whole| {
        assert rest[i] == s[i] && rest[i] in multiset(whole);
      } else {
        assert rest[i] == s[i + 1] && rest[i] in multiset(fraction);
      }
    }
  }

  /** A numeral without a point denotes the integer its digits spell. */
  lemma {:induction false} ParseWhole(a: string)
    requires AllDigits(a) && |a| > 0
    ensures ParseDecimal(a) == Ok(Decimal(DigitsValue(a), 0))
  {
    NoPointInDigits(a);
    assert IsDigit(a[0]);
  }

  lemma {:induction false} PointedShape(a: string, b: string)
    requires AllDigits(a) && AllDigits(b) && |a| + |b| > 0
    ensures AllNumeralChars(a + "." + b)
    ensures multiset(a + "." + b)['.'] == 1
    ensures HasDigit(a + "." + b)
  {
    var s := a + "." + b;
    NoPointInDigits(a);
    NoPointInDigits(b);
    assert multiset(s) == multiset(a) + multiset{'.'} + multiset(b);
    if |a| > 0 {
      assert IsDigit(s[0]);
    } else {
      assert IsDigit(s[1]);
    }
  }

  /** The first occurrence is the one with no earlier occurrence. */
  lemma {:induction false} IndexOfUnique(s: string, c: char, j: nat)
    requires j < |s| && s[j] == c && c !in s[..j]
    ensures c in s && IndexOf(s, c) == j
  {
    if j > 0 {
      assert s[0] in s[..j];
      assert s[1..][..j - 1] == s[1..j];
      assert forall x | x in s[1..j] :: x in s[..j];
      IndexOfUnique(s[1..], c, j - 1);
    }
  }

  lemma {:induction false} PointPosition(a: string, b: string)
    requires AllDigits(a)
    ensures '.' in a + "." + b
    ensures IndexOf(a + "." + b, '.') == |a|
  {
    var s := a + "." + b;
    assert s[..|a|] == a;
    NoPointInDigits(a);
    assert '.' !in a;
    IndexOfUnique(s, '.', |a|);
  }

  /** `a.b` denotes `a + b / 10^|b|`, held exactly as the mantissa `ab`
      over `10^|b|`. */
  lemma {:induction false} ParsePointed(a: string, b: string)
    requires AllDigits(a) && AllDigits(b) && |a| + |b| > 0
    ensures AllNumeralChars(a + "." + b)
    ensures ParseDecimal(a + "." + b)
            == Ok(Decimal(DigitsValue(a) * Pow10(|b|) + DigitsValue(b), |b|))
  {
    var s := a + "." + b;
    PointedShape(a, b);
    PointPosition(a, b);
    assert s[..|a|] == a && s[|a| + 1..] == b;
    var r := ParseDecimal(s);
    assert r == Ok(Decimal(DigitsValue(a + b), |b|));
    DigitsValueAppend(a, b);
    var m := DigitsValue(a + b);
    assert m == DigitsValue(a) * Pow10(|b|) + DigitsValue(b);
    assert r == Ok(Decimal(m, |b|));
  }

  lemma {:induction false} DivideSum(x: real, y: real, p: real)
    requires p > 0.0
    ensures (x * p + y) / p == x + y / p
  {
    assert (x * p + y) / p == (x * p) / p + y / p;
  }

  lemma {:induction false} CastSum(x: nat, p: nat, y: nat)
    ensures (x * p + y) as real == x as real * p as real + y as real
  {
  }

  /** The value of `x.y`, where `y` has `n` digits: the whole part plus the
      fraction `y / 10^n`. */
  lemma {:induction false} ShiftedValue(x: nat, y: nat, n: nat)
    ensures Value(Decimal(x * Pow10(n) + y, n)) == x as real + y as real / Pow10(n) as real
  {
    var p := Pow10(n);
    var m := x * p + y;
    var xr, yr, pr, mr := x as real, y as real, p as real, m as real;
    calc {
      Value(Decimal(m, n));
      mr / pr;
      { CastSum(x, p, y); }
      (xr * pr + yr) / pr;
      { DivideSum(xr, yr, pr); }
      xr + yr / pr;
    }
  }

  /** The digits of `m`, zero-padded on the left to at least `width`. */
  function PaddedDigits(m: nat, width: nat): (p: string)
    ensures |p| > 0 && |p| >= width && AllDigits(p) && DigitsValue(p) == m
  {
    var digits := NatToString(m);
    if |digits| < width then
      LeadingZeros(width - |digits|, digits);
      Zeros(width - |digits|) + digits
    else digits
  }

  /** The canonical numeral for a decimal: the mantissa's digits, zero-padded
      so that a digit stands before the point, with `scale` digits after it. */
  function Render(d: Decimal): (s: string)
    ensures AllNumeralChars(s) && HasDigit(s)
    ensures d.scale == 0 <==> '.' !in s
  {
    var padded := PaddedDigits(d.mantissa, d.scale + 1);
    if d.scale == 0 then
      assert IsDigit(padded[0]);
      padded
    else
      InsertPoint(padded, d.scale)
  }

  /** A digit string with a point put `k` places from its right end. */
  function InsertPoint(digits: string, k: nat): (s: string)
    requires AllDigits(digits) && k < |digits|
    ensures AllNumeralChars(s) && HasDigit(s) && '.' in s
  {
    var cut := |digits| - k;
    var s := digits[..cut] + "." + digits[cut..];
    assert s[cut] == '.';
    assert s[0] == digits[0] && IsDigit(s[0]);
    s
  }

  /** Parsing the canonical numeral gives back the same decimal. */
  lemma {:induction false} RenderRoundTrip(d: Decimal)
    ensures ParseDecimal(Render(d)) == Ok(d)
  {
    var padded := PaddedDigits(d.mantissa, d.scale + 1);
    if d.scale == 0 {
      assert Render(d) == padded;
      ParseWhole(padded);
    } else {
      assert Render(d) == InsertPoint(padded, d.scale);
      InsertPointParse(padded, d.scale);
    }
  }

  /** Parsing a digit string with a point put `k` places from its right end
      gives the string's value as mantissa and `k` as scale. */
  lemma {:induction false} InsertPointParse(digits: string, k: nat)
    requires AllDigits(digits) && k < |digits|
    ensures ParseDecimal(InsertPoint(digits, k)) == Ok(Decimal(DigitsValue(digits), k))
  {
    var cut := |digits| - k;
    var a, b := digits[..cut], digits[cut..];
    assert InsertPoint(digits, k) == a + "." + b;
    assert a + b == digits;
    SplitParse(a, b);
  }

  /** A point between two digit strings gives the decimal whose mantissa is
      the value of the digits without the point and whose scale is the
      number of digits after it. */
  lemma {:induction false} SplitParse(a: string, b: string)
    requires AllDigits(a) && AllDigits(b) && |a| + |b| > 0
    ensures AllDigits(a + b)
    ensures ParseDecimal(a + "." + b) == Ok(Decimal(DigitsValue(a + b), |b|))
  {
    DigitsValueAppend(a, b);
    ParsePointed(a, b);
  }

  /** Different decimals have different canonical numerals. */
  lemma {:induction false} RenderInjective(d: Decimal, e: Decimal)
    requires Render(d) == Render(e)
    ensures d == e
  {
    RenderRoundTrip(d);
    RenderRoundTrip(e);
  }
}
