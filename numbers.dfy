/** Decimal text and numbers: `str()` of a natural number, `'{:.2f}'` of
    an amount held in integer cents, and the part of Python's `float()`
    that reads plain decimal literals, all over exact integers and reals. */
module Numbers {
  import opened Wrappers
  import opened Text

  predicate IsDigit(c: char) {
    '0' <= c <= '9'
  }

  predicate AllDigits(s: string) {
    forall i :: 0 <= i < |s| ==> IsDigit(s[i])
  }

  function DigitValue(c: char): nat
    requires IsDigit(c)
  {
    c as int - '0' as int
  }

  function DigitChar(d: nat): (c: char)
    requires d < 10
    ensures IsDigit(c) && DigitValue(c) == d
  {
    ('0' as int + d) as char
  }

  /** The value of a string of decimal digits (0 for the empty string). */
  function DigitsValue(s: string): nat
    requires AllDigits(s)
  {
    if |s| == 0 then 0 else 10 * DigitsValue(s[..|s| - 1]) + DigitValue(s[|s| - 1])
  }

  function Pow10(n: nat): (r: nat)
    ensures r >= 1
  {
    if n == 0 then 1 else 10 * Pow10(n - 1)
  }

  /** `str(n)` for a natural number: its decimal digits without leading
      zeros, read back by DigitsValue. */
  function NatToString(n: nat): (r: string)
    ensures |r| >= 1 && AllDigits(r)
    ensures DigitsValue(r) == n
    ensures |r| > 1 ==> r[0] != '0'
  {
    if n < 10 then [DigitChar(n)]
    else
      var r := NatToString(n / 10) + [DigitChar(n % 10)];
      assert r[..|r| - 1] == NatToString(n / 10);
      r
  }

  /** `'{:.2f}'.format(c / 100)` for an amount of `c` cents: an optional
      minus sign, the whole units, a point and exactly two digits. */
  function FormatCents(c: int): (r: string)
    ensures |r| >= 4 && r[|r| - 3] == '.'
    ensures IsDigit(r[|r| - 2]) && IsDigit(r[|r| - 1])
    ensures '.' !in r[..|r| - 3]
  {
    if c < 0 then
      var body := UnitsAndCents(-c);
      assert ("-" + body)[..|body| - 2] == "-" + body[..|body| - 3];
      "-" + body
    else
      UnitsAndCents(c)
  }

  /** The unsigned part of a formatted amount of `a` cents. */
  function UnitsAndCents(a: nat): (r: string)
    ensures |r| >= 4 && r[|r| - 3] == '.' && IsDigit(r[0])
    ensures IsDigit(r[|r| - 2]) && IsDigit(r[|r| - 1])
    ensures '.' !in r[..|r| - 3]
  {
    var units := NatToString(a / 100);
    assert forall i :: 0 <= i < |units| ==> units[i] != '.';
    var r := units + "." + TwoDigits(a % 100);
    assert r[..|r| - 3] == units;
    r
  }

  /** An exact decimal number: `digits` divided by ten to the `scale`. */
  datatype Decimal = Decimal(digits: int, scale: nat)

  /** The real number a decimal stands for. */
  function Value(d: Decimal): real {
    d.digits as real / Pow10(d.scale) as real
  }

  /** `float(s)` for a plain decimal literal: surrounding whitespace, an
      optional sign, digits with at most one point and at least one digit.
      None stands for the ValueError that any other text raises. */
  function ParseNumber(s: string): Option<real> {
    match ParseDecimal(s)
    case None => None
    case Some(d) => Some(Value(d))
  }

  /** The literal `float(s)` reads, as the exact decimal it writes. */
  function ParseDecimal(s: string): Option<Decimal> {
    ParseSigned(Strip(s))
  }

  /** A literal with the surrounding whitespace already removed. */
  function ParseSigned(t: string): Option<Decimal> {
    if |t| == 0 then None
    else
      var body := if t[0] == '-' || t[0] == '+' then t[1..] else t;
      match ParseUnsigned(body)
      case None => None
      case Some(d) => Some(if t[0] == '-' then Decimal(-d.digits, d.scale) else d)
  }

  /** An unsigned literal `ddd`, `ddd.ddd`, `.ddd` or `ddd.`: all its
      digits read as one number, scaled by the number of digits after the
      point. */
  function ParseUnsigned(b: string): Option<Decimal> {
    var dot := Find(b, ".");
    var whole := if dot < 0 then b else b[..dot];
    var frac := if dot < 0 then "" else b[dot + 1..];
    if AllDigits(whole) && AllDigits(frac) && |whole| + |frac| > 0 then
      Some(Decimal(DigitsValue(whole + frac), |frac|))
    else None
  }

  /** The two digits of a number below one hundred, a leading zero kept. */
  function TwoDigits(m: nat): (r: string)
    requires m < 100
    ensures |r| == 2 && AllDigits(r) && DigitsValue(r) == m
  {
    var r := [DigitChar(m / 10), DigitChar(m % 10)];
    assert r[..1] == [DigitChar(m / 10)] && r[..1][..0] == [];
    assert DigitsValue(r[..1]) == m / 10;
    assert DigitsValue(r) == 10 * (m / 10) + m % 10;
    r
  }

  lemma DigitsValueSnoc(s: string, c: char)
    requires AllDigits(s) && IsDigit(c)
    ensures AllDigits(s + [c])
    ensures DigitsValue(s + [c]) == 10 * DigitsValue(s) + DigitValue(c)
  {
    assert (s + [c])[..|s|] == s;
  }

  lemma DigitsValueTwoMore(units: string, frac: string)
    requires AllDigits(units) && AllDigits(frac) && |frac| == 2
    ensures AllDigits(units + frac)
    ensures DigitsValue(units + frac) == 100 * DigitsValue(units) + DigitsValue(frac)
  {
    DigitsValueSnoc(units, frac[0]);
    DigitsValueSnoc(units + [frac[0]], frac[1]);
    assert units + frac == units + [frac[0]] + [frac[1]];
    assert frac == [frac[0]] + [frac[1]];
    DigitsValueSnoc([frac[0]], frac[1]);
    DigitsValueSnoc([], frac[0]);
    assert [] + [frac[0]] == [frac[0]];
  }

  /** An amount written with two decimals holds only digits, the point
      and a leading minus sign: no space, colon or line break. */
  lemma FormatCentsPlain(c: int)
    ensures forall i :: 0 <= i < |FormatCents(c)| ==>
      IsDigit(FormatCents(c)[i]) || FormatCents(c)[i] in ".-"
  {
    if c < 0 {
      var body := UnitsAndCents(-c);
      var r := "-" + body;
      assert FormatCents(c) == r;
      UnitsAndCentsPlain(-c);
      forall i | 1 <= i < |r|
        ensures IsDigit(r[i]) || r[i] == '.'
      {
        assert r[i] == body[i - 1];
      }
    } else {
      assert FormatCents(c) == UnitsAndCents(c);
      UnitsAndCentsPlain(c);
    }
  }

  lemma UnitsAndCentsPlain(a: nat)
    ensures forall i :: 0 <= i < |UnitsAndCents(a)| ==>
      IsDigit(UnitsAndCents(a)[i]) || UnitsAndCents(a)[i] == '.'
  {
    var units := NatToString(a / 100);
    var cents := TwoDigits(a % 100);
    var r := units + "." + cents;
    assert UnitsAndCents(a) == r;
    forall i | 0 <= i < |r|
      ensures IsDigit(r[i]) || r[i] == '.'
    {
      if i < |units| {
        assert r[i] == units[i];
      } else if i > |units| {
        assert r[i] == cents[i - |units| - 1];
      }
    }
  }

  /** A literal with a point reads as all its digits, scaled by the
      digits after the point. */
  lemma ParseUnsignedSplit(units: string, frac: string)
    requires AllDigits(units) && AllDigits(frac) && |units| + |frac| > 0
    ensures AllDigits(units + frac)
    ensures ParseUnsigned(units + "." + frac) == Some(Decimal(DigitsValue(units + frac), |frac|))
  {
    var body := units + "." + frac;
    assert '.' !in units by {
      assert forall i :: 0 <= i < |units| ==> IsDigit(units[i]);
    }
    FindSingleCharAt(units, ".", frac);
    assert body[..|units|] == units;
    assert body[|units| + 1..] == frac;
    assert forall i :: 0 <= i < |units + frac| ==> IsDigit((units + frac)[i]) by {
      forall i | 0 <= i < |units + frac|
        ensures IsDigit((units + frac)[i])
      {
        if i < |units| {
          assert (units + frac)[i] == units[i];
        } else {
          assert (units + frac)[i] == frac[i - |units|];
        }
      }
    }
  }

  lemma StripUnpadded(r: string)
    requires |r| > 0 && !IsSpace(r[0]) && !IsSpace(r[|r| - 1])
    ensures Strip(r) == r
  {
  }

  lemma PointValue(a: nat)
    ensures ParseUnsigned(UnitsAndCents(a)) == Some(Decimal(a, 2))
  {
    var units := NatToString(a / 100);
    var cents := TwoDigits(a % 100);
    ParseUnsignedSplit(units, cents);
    DigitsValueTwoMore(units, cents);
    assert DigitsValue(units + cents) == a;
  }

  /** A negative amount is written as a minus sign followed by the
      amount of its magnitude. */
  lemma FormatCentsNegative(a: nat)
    requires a > 0
    ensures |FormatCents(-(a as int))| > 0 && FormatCents(-(a as int))[0] == '-'
    ensures FormatCents(-(a as int))[1..] == UnitsAndCents(a)
  {
    var body := UnitsAndCents(a);
    assert ("-" + body)[1..] == body;
  }

  /** Reading back an amount written with two decimals gives the amount
      in cents, exactly. */
  lemma ParseFormatCents(c: int)
    ensures ParseDecimal(FormatCents(c)) == Some(Decimal(c, 2))
  {
    var t := FormatCents(c);
    ParseSignedFormatCents(c);
    StripUnpadded(t);
  }

  lemma ParseSignedFormatCents(c: int)
    ensures ParseSigned(FormatCents(c)) == Some(Decimal(c, 2))
  {
    if c < 0 {
      ParseSignedNegative(-c);
    } else {
      ParseSignedPositive(c);
    }
  }

  lemma ParseSignedNegative(a: nat)
    requires a > 0
    ensures ParseSigned(FormatCents(-(a as int))) == Some(Decimal(-(a as int), 2))
  {
    var t := FormatCents(-(a as int));
    FormatCentsNegative(a);
    PointValue(a);
    ParseUnsignedOfSame(t[1..], UnitsAndCents(a));
    ParseSignedMinus(t, a);
  }

  lemma ParseSignedPositive(c: int)
    requires c >= 0
    ensures ParseSigned(FormatCents(c)) == Some(Decimal(c, 2))
  {
    var body := UnitsAndCents(c);
    assert FormatCents(c) == body;
    PointValue(c);
    ParsePositiveBody(body, Decimal(c, 2));
  }

  lemma ParseUnsignedOfSame(x: string, y: string)
    requires x == y
    ensures ParseUnsigned(x) == ParseUnsigned(y)
  {
  }

  lemma ParseSignedMinus(t: string, a: nat)
    requires |t| > 0 && t[0] == '-' && ParseUnsigned(t[1..]) == Some(Decimal(a, 2))
    ensures ParseSigned(t) == Some(Decimal(-(a as int), 2))
  {
  }

  lemma ParsePositiveBody(body: string, d: Decimal)
    requires |body| > 0 && IsDigit(body[0])
    requires ParseUnsigned(body) == Some(d)
    ensures ParseSigned(body) == Some(d)
  {
  }

  /** A literal that starts and ends with a digit has no sign and nothing
      to strip. */
  lemma ParseDigitBounded(s: string)
    requires |s| > 0 && IsDigit(s[0]) && IsDigit(s[|s| - 1])
    ensures ParseDecimal(s) == ParseUnsigned(s)
  {
    StripUnpadded(s);
  }

  /** A run of digits reads as the whole number they write. */
  lemma ParseWhole(s: string)
    requires |s| > 0 && AllDigits(s)
    ensures ParseDecimal(s) == Some(Decimal(DigitsValue(s), 0))
  {
    assert '.' !in s by {
      assert forall i :: 0 <= i < |s| ==> IsDigit(s[i]);
    }
    FindSingleCharAbsent(s, ".");
    ParseDigitBounded(s);
    assert s + "" == s;
  }

  /** Text that begins with a character other than a digit, a sign, a
      point or whitespace is not a number. */
  lemma ParseLetterStart(s: string)
    requires |s| > 0 && !IsSpace(s[0]) && !IsSpace(s[|s| - 1])
    requires !IsDigit(s[0]) && s[0] !in "+-."
    ensures ParseDecimal(s) == None
  {
    StripUnpadded(s);
  }

  lemma ValueWhole(n: int)
    ensures Value(Decimal(n, 0)) == n as real
  {
  }

  /** The value in currency units of an amount of `c` cents. */
  function Dollars(c: int): real {
    c as real / 100.0
  }

  /** `float('{:.2f}'.format(c / 100))` is the amount itself. */
  lemma ParseNumberFormatCents(c: int)
    ensures ParseNumber(FormatCents(c)) == Some(Dollars(c))
  {
    ParseFormatCents(c);
    CentsValue(c);
  }

  lemma CentsValue(c: int)
    ensures Value(Decimal(c, 2)) == Dollars(c)
  {
    assert Pow10(2) == 100;
  }
}
