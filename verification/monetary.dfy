/** The scraper's price normaliser: drop every character other than a digit
    or a point, then read what is left as a number. */
module Prices {
  import opened Results
  import opened Seqs
  import opened Digits
  import opened Decimals

  /** `re.sub('[^0-9.]', '', s)`: the digits and points of `s`, in order. */
  function PriceFilter(s: string): (r: string)
    ensures AllNumeralChars(r)
    ensures IsSubsequence(r, s)
    ensures forall c :: IsNumeralChar(c) ==> multiset(r)[c] == multiset(s)[c]
  {
    KeepContents(s, IsNumeralChar);
    Keep(s, IsNumeralChar)
  }

  /** The filter's output is the one subsequence of the input made of exactly
      its digits and points: any subsequence holding only such characters,
      each as often as the input does, is that output. */
  lemma {:induction false} PriceFilterExact(s: string, r: string)
    requires IsSubsequence(r, s) && AllNumeralChars(r)
    requires forall c :: IsNumeralChar(c) ==> multiset(r)[c] == multiset(s)[c]
    ensures r == PriceFilter(s)
  {
    KeepUnique(s, r, IsNumeralChar);
  }

  lemma {:induction false} PriceFilterIdempotent(s: string)
    ensures PriceFilter(PriceFilter(s)) == PriceFilter(s)
  {
    KeepIdempotent(s, IsNumeralChar);
  }

  lemma {:induction false} HasDigitFiltered(s: string)
    ensures HasDigit(PriceFilter(s)) <==> HasDigit(s)
  {
    var r := PriceFilter(s);
    if HasDigit(s) {
      var i :| 0 <= i < |s| && IsDigit(s[i]);
      assert s[i] in multiset(s);
      assert s[i] in r;
    }
    if HasDigit(r) {
      var j :| 0 <= j < |r| && IsDigit(r[j]);
      assert r[j] in multiset(r);
      assert r[j] in s;
    }
  }

  /** `monetary`: the price a piece of text denotes. It fails exactly when the
      text has no digit or more than one point, whatever else surrounds them. */
  function Monetary(s: string): (r: Result<Decimal>)
    ensures r.Ok? <==> multiset(s)['.'] <= 1 && HasDigit(s)
    ensures r.Err? ==> r.error == ParseError
  {
    HasDigitFiltered(s);
    ParseDecimal(PriceFilter(s))
  }

  /** Text without digits or points, such as a currency sign, adds nothing. */
  lemma {:induction false} MonetaryIgnoresNonNumerals(p: string, s: string)
    requires forall i :: 0 <= i < |p| ==> !IsNumeralChar(p[i])
    ensures Monetary(p + s) == Monetary(s)
    ensures Monetary(s + p) == Monetary(s)
  {
    KeepAppend(p, s, IsNumeralChar);
    KeepAppend(s, p, IsNumeralChar);
    KeepNone(p, IsNumeralChar);
    assert [] + PriceFilter(s) == PriceFilter(s);
    assert PriceFilter(s) + [] == PriceFilter(s);
  }

  /** A minus sign is dropped like any other symbol, so no price is negative:
      "-5" reads as 5. */
  lemma {:induction false} MonetaryIgnoresSign(s: string)
    ensures Monetary("-" + s) == Monetary(s)
  {
    MonetaryIgnoresNonNumerals("-", s);
  }

  /** Surrounding a numeral with non-numeral text leaves the numeral as the
      filter's output. */
  lemma {:induction false} PriceFilterOfNumeral(sign: string, t: string)
    requires forall i :: 0 <= i < |sign| ==> !IsNumeralChar(sign[i])
    requires AllNumeralChars(t)
    ensures PriceFilter(sign + t) == t
  {
    KeepAppend(sign, t, IsNumeralChar);
    KeepNone(sign, IsNumeralChar);
    KeepAll(t, IsNumeralChar);
    assert [] + t == t;
  }

  /** A currency sign followed by `a.b` reads as `a + b / 10^|b|`, exactly. */
  lemma {:induction false} MonetaryOfPrice(s: string, sign: string, a: string, b: string)
    requires s == sign + a + "." + b
    requires forall i :: 0 <= i < |sign| ==> !IsNumeralChar(sign[i])
    requires AllDigits(a) && AllDigits(b) && |a| + |b| > 0
    ensures Monetary(s) == Ok(Decimal(DigitsValue(a) * Pow10(|b|) + DigitsValue(b), |b|))
  {
    var t := a + "." + b;
    assert s == sign + t;
    ParsePointed(a, b);
    PriceFilterOfNumeral(sign, t);
  }

  /** A currency sign followed by digits without a point reads as the
      integer those digits spell, with no decimals. */
  lemma {:induction false} MonetaryOfWhole(s: string, sign: string, a: string)
    requires s == sign + a
    requires forall i :: 0 <= i < |sign| ==> !IsNumeralChar(sign[i])
    requires AllDigits(a) && |a| > 0
    ensures Monetary(s) == Ok(Decimal(DigitsValue(a), 0))
  {
    ParseWhole(a);
    PriceFilterOfNumeral(sign, a);
  }

  /** A price held in hundredths. */
  lemma {:induction false} CentsValue(m: nat)
    ensures Value(Decimal(m, 2)) == m as real / 100.0
  {
    assert Pow10(2) == 100;
  }

  /** A currency sign, whole units and two decimals read as that many
      hundredths. */
  lemma {:induction false} MonetaryOfCents(s: string, sign: string, a: string, b: string, whole: nat, cents: nat)
    requires s == sign + a + "." + b
    requires forall i :: 0 <= i < |sign| ==> !IsNumeralChar(sign[i])
    requires AllDigits(a) && AllDigits(b) && |b| == 2
    requires DigitsValue(a) == whole && DigitsValue(b) == cents
    ensures Monetary(s) == Ok(Decimal(whole * 100 + cents, 2))
  {
    MonetaryOfPrice(s, sign, a, b);
    assert Pow10(2) == 100;
  }

  /** The documented example: "£53.22" gives 53.22. */
  lemma {:induction false} MonetaryDocExample()
    ensures Monetary("£53.22") == Ok(Decimal(5322, 2))
  {
    MonetaryOfCents("£53.22", "£", "53", "22", 53, 22);
  }

  /** The unit-tested example: "£51.77" gives 51.77. */
  lemma {:induction false} MonetaryTestExample()
    ensures Monetary("£51.77") == Ok(Decimal(5177, 2))
  {
    MonetaryOfCents("£51.77", "£", "51", "77", 51, 77);
  }

  /** "£1234.56" gives 1234.56. */
  lemma {:induction false} UngroupedExample()
    ensures Monetary("£1234.56") == Ok(Decimal(123456, 2))
  {
    FourDigits();
    MonetaryOfCents("£1234.56", "£", "1234", "56", 1234, 56);
  }

  /** The digits "1234" read as 1234. */
  lemma {:induction false} FourDigits()
    ensures DigitsValue("1234") == 1234
  {
    assert DigitsValue("12") == 12 && DigitsValue("34") == 34;
    assert "1234" == "12" + "34";
    DigitsValueAppend("12", "34");
  }

  /** A grouping comma is dropped, so the magnitude survives: "£1,234.56"
      gives 1234.56. */
  lemma {:induction false} MonetaryGroupedExample()
    ensures Monetary("£1,234.56") == Ok(Decimal(123456, 2))
  {
    GroupingCommaDropped("£1,234.56", "£1234.56", "£1", "234.56");
    UngroupedExample();
  }

  /** The three examples as real numbers: 53.22, 51.77 and 1234.56. */
  lemma {:induction false} ExampleValues()
    ensures Monetary("£53.22").Ok? && Value(Monetary("£53.22").value) == 53.22
    ensures Monetary("£51.77").Ok? && Value(Monetary("£51.77").value) == 51.77
    ensures Monetary("£1,234.56").Ok? && Value(Monetary("£1,234.56").value) == 1234.56
  {
    MonetaryDocExample();
    MonetaryTestExample();
    MonetaryGroupedExample();
    CentsValue(5322);
    CentsValue(5177);
    CentsValue(123456);
  }

  /** Deleting a grouping comma does not change the price read. */
  lemma {:induction false} GroupingCommaDropped(grouped: string, plain: string, a: string, b: string)
    requires grouped == a + "," + b && plain == a + b
    ensures Monetary(grouped) == Monetary(plain)
  {
    KeepAppend(a, "," + b, IsNumeralChar);
    KeepAppend(",", b, IsNumeralChar);
    KeepAppend(a, b, IsNumeralChar);
    assert "," + b == [','] + b;
    assert a + "," + b == a + ("," + b);
  }

  /** Without a digit there is no price: "£" and "£." both fail. */
  lemma {:induction false} MonetaryNoDigitExamples()
    ensures Monetary("£") == Err(ParseError)
    ensures Monetary("£.") == Err(ParseError)
  {
  }

  /** Two points make the text unreadable: "£1.2.3" fails. */
  lemma {:induction false} MonetaryTwoPointsExample()
    ensures Monetary("£1.2.3") == Err(ParseError)
  {
  }
}
