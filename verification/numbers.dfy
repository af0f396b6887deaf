/** Integer fixed-point stand-ins for the float arithmetic of the developer
    bar: PHP's `round($x, 2)` and the decimal text PHP prints for the rounded
    value. Quantities are kept in hundredths, so `6.5` is `650`. */
module Numbers {

  function Abs(x: int): nat {
    if x < 0 then -x else x
  }

  // ---------------------------------------------------------------------
  // round()
  // ---------------------------------------------------------------------

  lemma NearestQuotient(a: nat, b: int)
    requires b > 0
    ensures -b <= 2 * (a - ((2 * a + b) / (2 * b)) * b) < b
  {
    var q := (2 * a + b) / (2 * b);
    var m := (2 * a + b) % (2 * b);
    assert 2 * a + b == (2 * b) * q + m && 0 <= m < 2 * b;
    assert (2 * b) * q == 2 * (q * b);
  }

  /** PHP's `round()` of the exact quotient `a / b` to an integer: the
      nearest integer, with halves rounded away from zero. */
  function RoundDiv(a: int, b: int): (r: int)
    requires b > 0
    ensures a >= 0 ==> -b <= 2 * (a - r * b) < b
    ensures a < 0 ==> -b < 2 * (a - r * b) <= b
  {
    if a >= 0 then
      NearestQuotient(a, b);
      (2 * a + b) / (2 * b)
    else
      NearestQuotient(-a, b);
      -((2 * -a + b) / (2 * b))
  }

  /** The rounding is fully determined by its contract: at most one integer
      lies that close to the quotient with ties broken away from zero. */
  lemma RoundDivUnique(a: int, b: int, r: int)
    requires b > 0
    requires a >= 0 ==> -b <= 2 * (a - r * b) < b
    requires a < 0 ==> -b < 2 * (a - r * b) <= b
    ensures r == RoundDiv(a, b)
  {
    var q := RoundDiv(a, b);
    if r < q {
      MulGap(q, r, b);
    } else if r > q {
      MulGap(r, q, b);
    }
  }

  lemma MulGap(hi: int, lo: int, b: int)
    requires lo < hi && b > 0
    ensures hi * b - lo * b >= b
  {
    MulAtLeast(hi - lo, b);
    assert (hi - lo) * b == hi * b - lo * b;
  }

  lemma {:induction false} MulAtLeast(d: int, b: int)
    requires d >= 1 && b > 0
    ensures d * b >= b
    decreases d
  {
    if d > 1 {
      MulAtLeast(d - 1, b);
      assert d * b == (d - 1) * b + b;
    }
  }

  // ---------------------------------------------------------------------
  // Decimal digits
  // ---------------------------------------------------------------------

  predicate IsDigit(c: char) {
    '0' <= c <= '9'
  }

  predicate AllDigits(s: string) {
    forall i :: 0 <= i < |s| ==> IsDigit(s[i])
  }

  function DigitChar(d: int): (c: char)
    requires 0 <= d < 10
    ensures IsDigit(c)
  {
    (48 + d) as char
  }

  function DigitValue(c: char): int {
    c as int - 48
  }

  lemma DigitCharValue(d: int)
    requires 0 <= d < 10
    ensures DigitValue(DigitChar(d)) == d
  {
  }

  /** The decimal numeral of `n`, without leading zeros. */
  function NatToDecimal(n: nat): (r: string)
    ensures |r| >= 1 && AllDigits(r)
    ensures r[0] == '0' ==> n == 0
    decreases n
  {
    if n < 10 then [DigitChar(n)] else NatToDecimal(n / 10) + [DigitChar(n % 10)]
  }

  /** The number a numeral denotes (reference reading of `NatToDecimal`). */
  function DecimalValue(s: string): int {
    if |s| == 0 then 0 else DecimalValue(s[..|s| - 1]) * 10 + DigitValue(s[|s| - 1])
  }

  /** Printing a natural number and reading it back gives the number again. */
  lemma {:induction false} DecimalRoundTrip(n: nat)
    ensures DecimalValue(NatToDecimal(n)) == n
    decreases n
  {
    var r := NatToDecimal(n);
    if n >= 10 {
      DecimalRoundTrip(n / 10);
      assert r[..|r| - 1] == NatToDecimal(n / 10);
    }
  }

  // ---------------------------------------------------------------------
  // Printing a value rounded to two decimals
  // ---------------------------------------------------------------------

  /** The fractional digits PHP prints for `f` hundredths (1 <= f <= 99):
      a trailing zero is dropped. */
  function FractionDigits(f: int): string
    requires 0 <= f < 100
  {
    if f % 10 == 0 then [DigitChar(f / 10)] else [DigitChar(f / 10), DigitChar(f % 10)]
  }

  function FormatUnsigned(h: nat): string {
    NatToDecimal(h / 100) + (if h % 100 == 0 then "" else "." + FractionDigits(h % 100))
  }

  /** The text PHP's float-to-string conversion gives for the value `h / 100`
      (`650` prints as `6.5`, `7526` as `75.26`, `300` as `3`). */
  function FormatHundredths(h: int): string {
    if h < 0 then "-" + FormatUnsigned(-h) else FormatUnsigned(h)
  }

  /** The printed figure is a single word: digits, a point and a sign. */
  lemma FormatHasNoSpace(h: int)
    ensures ' ' !in FormatHundredths(h)
  {
    var u := if h < 0 then -h else h;
    var d := NatToDecimal(u / 100);
    assert forall i :: 0 <= i < |d| ==> d[i] != ' ';
    if u % 100 != 0 {
      var f := FractionDigits(u % 100);
      assert forall i :: 0 <= i < |f| ==> IsDigit(f[i]);
    }
  }

  /** Position of the first `.` in `s`, or `|s|` when there is none. */
  function DotIndex(s: string): (k: nat)
    ensures k <= |s|
    ensures k < |s| ==> s[k] == '.'
  {
    if |s| == 0 then 0 else if s[0] == '.' then 0 else 1 + DotIndex(s[1..])
  }

  function FractionValue(f: string): int {
    if |f| == 1 then DigitValue(f[0]) * 10 else DecimalValue(f)
  }

  function ParseUnsigned(s: string): int {
    var k := DotIndex(s);
    if k == |s| then DecimalValue(s) * 100 else DecimalValue(s[..k]) * 100 + FractionValue(s[k + 1..])
  }

  /** Reads a printed two-decimal figure back into hundredths. */
  function ParseHundredths(s: string): int {
    if |s| > 0 && s[0] == '-' then -ParseUnsigned(s[1..]) else ParseUnsigned(s)
  }

  lemma {:induction false} DotIndexAfterDigits(d: string, t: string)
    requires AllDigits(d)
    ensures DotIndex(d + t) == |d| + DotIndex(t)
    decreases |d|
  {
    if |d| > 0 {
      assert (d + t)[1..] == d[1..] + t;
      DotIndexAfterDigits(d[1..], t);
    } else {
      assert d + t == t;
    }
  }

  lemma FractionRoundTrip(f: int)
    requires 0 <= f < 100
    ensures FractionValue(FractionDigits(f)) == f
  {
    var s := FractionDigits(f);
    DigitCharValue(f / 10);
    DigitCharValue(f % 10);
    if f % 10 != 0 {
      assert s[..1] == [DigitChar(f / 10)];
      assert s[..1][..0] == "";
      assert DecimalValue(s[..1]) == f / 10;
    }
  }

  lemma UnsignedRoundTrip(h: nat)
    ensures ParseUnsigned(FormatUnsigned(h)) == h
  {
    var d := NatToDecimal(h / 100);
    DecimalRoundTrip(h / 100);
    if h % 100 == 0 {
      DotIndexAfterDigits(d, "");
      assert d + "" == d;
    } else {
      var f := FractionDigits(h % 100);
      var s := d + ("." + f);
      DotIndexAfterDigits(d, "." + f);
      assert s[..|d|] == d;
      assert s[|d| + 1..] == f;
      FractionRoundTrip(h % 100);
    }
  }

  /** The printed figure determines the rounded value: reading it back gives
      the same number of hundredths. */
  lemma FormatRoundTrip(h: int)
    ensures ParseHundredths(FormatHundredths(h)) == h
  {
    UnsignedRoundTrip(Abs(h));
    UnsignedStartsWithDigit(Abs(h));
    if h < 0 {
      ParseSigned(FormatUnsigned(-h));
    } else {
      ParseUnsignedOnly(FormatUnsigned(h));
    }
  }

  /** An unsigned figure starts with a digit, never with a sign. */
  lemma UnsignedStartsWithDigit(h: nat)
    ensures |FormatUnsigned(h)| > 0 && IsDigit(FormatUnsigned(h)[0])
  {
    var d := NatToDecimal(h / 100);
    assert FormatUnsigned(h)[0] == d[0];
  }

  /** A leading minus negates the figure after it. */
  lemma ParseSigned(u: string)
    ensures ParseHundredths("-" + u) == -ParseUnsigned(u)
  {
    assert ("-" + u)[0] == '-' && ("-" + u)[1..] == u;
  }

  /** A figure that starts with a digit is read as unsigned. */
  lemma ParseUnsignedOnly(u: string)
    requires |u| > 0 && IsDigit(u[0])
    ensures ParseHundredths(u) == ParseUnsigned(u)
  {
  }

  /** PHP's string conversion of an integer. */
  function IntToDecimal(n: int): (r: string)
    ensures |r| >= 1
    ensures n >= 0 ==> AllDigits(r) && DecimalValue(r) == n
  {
    if n < 0 then "-" + NatToDecimal(-n)
    else
      DecimalRoundTrip(n);
      NatToDecimal(n)
  }
}
