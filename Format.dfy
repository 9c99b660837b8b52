/** `formatStep`: the step counter as the overlay prints it, plain below 1000 and
 *  in thousands with a "K" suffix from 1000 on. */
module Format {

  predicate IsDigit(c: char)
  {
    '0' <= c <= '9'
  }

  function DigitChar(d: int): char
    requires 0 <= d < 10
  {
    ('0' as int + d) as char
  }

  function DigitValue(c: char): int
  {
    c as int - '0' as int
  }

  /** A plain decimal integer: digits only, and no leading zero unless the
   *  number is 0. */
  predicate PlainNat(s: string)
  {
    |s| >= 1 && (forall i :: 0 <= i < |s| ==> IsDigit(s[i])) && (|s| > 1 ==> s[0] != '0')
  }

  /** A plain decimal with at most one fractional digit: a plain integer,
   *  optionally followed by "." and one digit. */
  predicate PlainTenths(s: string)
  {
    PlainNat(s) || (|s| >= 3 && s[|s| - 2] == '.' && IsDigit(s[|s| - 1]) && PlainNat(s[..|s| - 2]))
  }

  /** `String(n)` for a non-negative integer: its decimal digits, most significant
   *  first, without leading zeros. */
  function NatToString(n: nat): (s: string)
    ensures |s| >= 1 && forall i :: 0 <= i < |s| ==> IsDigit(s[i])
    ensures |s| > 1 ==> s[0] != '0'
  {
    if n < 10 then [DigitChar(n)] else NatToString(n / 10) + [DigitChar(n % 10)]
  }

  /** The value of a string of decimal digits. */
  function ParseNat(s: string): int
  {
    if s == [] then 0 else ParseNat(s[..|s| - 1]) * 10 + DigitValue(s[|s| - 1])
  }

  /** Printing and reading back a number gives the number. */
  lemma {:induction false} ParseNatToString(n: nat)
    ensures ParseNat(NatToString(n)) == n
  {
    if n >= 10 {
      var t := NatToString(n / 10);
      assert (t + [DigitChar(n % 10)])[..|t|] == t;
      ParseNatToString(n / 10);
    }
  }

  /** `Math.round(a / b)` for a non-negative quotient: the nearest integer, halves
   *  rounded up, so r - 1/2 <= a / b < r + 1/2. */
  function RoundDiv(a: nat, b: nat): (r: nat)
    requires b > 0
    ensures 2 * b * r - b <= 2 * a < 2 * b * r + b
  {
    var q := (2 * a + b) / (2 * b);
    assert 2 * a + b == (2 * b) * q + (2 * a + b) % (2 * b);
    assert (2 * b) * q == 2 * b * q;
    q
  }

  /** `t / 10` as JavaScript prints a number of tenths: the integer part, and a
   *  fractional digit only when it is not zero, so never a trailing ".0". */
  function TenthsToString(t: nat): (s: string)
    ensures PlainTenths(s) && !EndsWithDotZero(s)
  {
    var w := NatToString(t / 10);
    if t % 10 == 0 then
      assert |w| >= 2 ==> IsDigit(w[|w| - 2]);
      w
    else
      var s := w + "." + [DigitChar(t % 10)];
      assert s[..|s| - 2] == w;
      s
  }

  predicate EndsWithDotZero(s: string)
  {
    |s| >= 2 && s[|s| - 2] == '.' && s[|s| - 1] == '0'
  }

  /** `s.replace(/\.0$/, '')`: a trailing ".0" is cut off, and any other text
   *  is kept as it is. */
  function StripDotZero(s: string): (r: string)
    ensures EndsWithDotZero(s) ==> r + ".0" == s
    ensures !EndsWithDotZero(s) ==> r == s
  {
    if EndsWithDotZero(s) then s[..|s| - 2] else s
  }

  /** The value, in tenths, of a decimal with at most one fractional digit. */
  function ParseTenths(s: string): int
  {
    if |s| >= 2 && s[|s| - 2] == '.' then ParseNat(s[..|s| - 2]) * 10 + DigitValue(s[|s| - 1])
    else ParseNat(s) * 10
  }

  /** A printed number of tenths reads back as itself. */
  lemma TenthsRoundTrip(t: nat)
    ensures ParseTenths(TenthsToString(t)) == t
  {
    var w := NatToString(t / 10);
    ParseNatToString(t / 10);
    if t % 10 != 0 {
      var s := w + "." + [DigitChar(t % 10)];
      assert s[..|s| - 2] == w;
    } else {
      assert |w| >= 2 ==> IsDigit(w[|w| - 2]);
    }
  }

  /** The step counter as the overlay prints it: with a "K" at the end exactly
   *  from 1000 on. */
  function FormatStep(n: nat): (r: string)
    ensures |r| >= 1 && (r[|r| - 1] == 'K' <==> n >= 1000)
  {
    if n < 1000 then
      var s := NatToString(n);
      assert IsDigit(s[|s| - 1]);
      s
    else
      var s := if n >= 100000 then NatToString(RoundDiv(n, 1000)) else TenthsToString(RoundDiv(n, 100));
      StripDotZero(s) + "K"
  }

  /** Below 1000 the counter is printed exactly, as a plain integer of at most
   *  three digits. */
  lemma FormatStepSmall(n: nat)
    requires n < 1000
    ensures var r := FormatStep(n);
      1 <= |r| <= 3 && PlainNat(r) && ParseNat(r) == n
  {
    ParseNatToString(n);
    if n >= 10 {
      var t := NatToString(n / 10);
      if n / 10 >= 10 {
        assert |NatToString(n / 100)| == 1;
      }
      assert |t| <= 2;
    }
  }

  /** From 1000 up to 100K the counter is a number of thousands rounded half up
   *  to one decimal place, printed as a plain decimal followed by "K", with a
   *  trailing ".0" never shown. */
  lemma FormatStepThousands(n: nat)
    requires 1000 <= n < 100000
    ensures var r := FormatStep(n);
      |r| >= 2 && r[|r| - 1] == 'K' &&
      var body := r[..|r| - 1];
      var tenths := ParseTenths(body);
      PlainTenths(body) && !EndsWithDotZero(body) && 200 * tenths - 100 <= 2 * n < 200 * tenths + 100
  {
    var r := FormatStep(n);
    var t := RoundDiv(n, 100);
    var s := TenthsToString(t);
    TenthsRoundTrip(t);
    assert StripDotZero(s) == s;
    assert r[..|r| - 1] == s;
  }

  /** From 100K on the counter is a whole number of thousands, rounded half up,
   *  printed as a plain integer followed by "K". */
  lemma FormatStepHundredThousands(n: nat)
    requires n >= 100000
    ensures var r := FormatStep(n);
      |r| >= 2 && r[|r| - 1] == 'K' &&
      var body := r[..|r| - 1];
      var k := ParseNat(body);
      PlainNat(body) && 2000 * k - 1000 <= 2 * n < 2000 * k + 1000
  {
    var r := FormatStep(n);
    var k := RoundDiv(n, 1000);
    var s := NatToString(k);
    ParseNatToString(k);
    assert |s| >= 2 ==> IsDigit(s[|s| - 2]);
    assert StripDotZero(s) == s;
    assert r[..|r| - 1] == s;
  }

  /** The largest count printed exactly. */
  lemma FormatStepBelowThousand()
    ensures FormatStep(999) == "999"
  {
    assert NatToString(9) == "9";
    assert NatToString(99) == "99";
  }

  /** The first count printed in thousands: one thousand prints as "1", with no
   *  ".0" for the replace to cut. */
  lemma FormatStepThousand()
    ensures FormatStep(1000) == "1K"
  {
    assert RoundDiv(1000, 100) == 10 && TenthsToString(10) == "1";
  }

  /** A fractional thousand keeps its one decimal. */
  lemma FormatStepFraction()
    ensures FormatStep(1500) == "1.5K"
  {
    assert RoundDiv(1500, 100) == 15 && NatToString(1) == "1" && TenthsToString(15) == "1.5";
  }

  /** Just below 100K the rounding already reaches "100K". */
  lemma FormatStepRoundsUp()
    ensures FormatStep(99999) == "100K"
  {
    assert RoundDiv(99999, 100) == 1000 && NatToString(10) == "10" && NatToString(100) == "100";
    assert TenthsToString(1000) == "100";
  }

  /** From 100K on, whole thousands. */
  lemma FormatStepWholeThousands()
    ensures FormatStep(123000) == "123K"
  {
    assert RoundDiv(123000, 1000) == 123 && NatToString(12) == "12" && NatToString(123) == "123";
  }
}
