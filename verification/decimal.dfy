/** Natural numbers as plain decimal text: what `n.toString()` produces for
    a non-negative integer, and the reading of a query parameter made of
    digits only. */
module Decimal {
  import opened Wrappers
  import FullDate

  /** Number of digits of `n` written without leading zeros. */
  function Width(n: nat): (w: nat)
    ensures w >= 1
  {
    if n < 10 then 1 else 1 + Width(n / 10)
  }

  lemma {:induction false} WidthFits(n: nat)
    ensures n < FullDate.Pow10(Width(n))
    ensures Width(n) > 1 ==> FullDate.Pow10(Width(n) - 1) <= n
  {
    if n >= 10 {
      WidthFits(n / 10);
    }
  }

  /** `n.toString()`. */
  function ToText(n: nat): (s: string)
    ensures |s| == Width(n)
  {
    FullDate.Numeral(n, Width(n))
  }

  /** A numeral of one or more digits, read as a number. */
  function ParseNat(s: string): (r: Option<nat>)
    ensures r.Some? <==> s != [] && FullDate.AllDigits(s, 0, |s|)
  {
    if s != [] && FullDate.AllDigits(s, 0, |s|) then
      FullDate.NumeralBounds(s, 0, |s|);
      Some(FullDate.NumeralValue(s, 0, |s|))
    else None
  }

  /** Writing a number and reading it back gives the number. */
  lemma ParseToText(n: nat)
    ensures ParseNat(ToText(n)) == Some(n)
  {
    WidthFits(n);
    FullDate.NumeralRoundTrip(n, Width(n));
  }

  /** The text of a number never starts with a zero unless it is "0". */
  lemma {:induction false} NoLeadingZero(n: nat)
    ensures ToText(n)[0] == '0' <==> n == 0
  {
    var w := Width(n);
    var p := FullDate.Pow10(w - 1);
    WidthFits(n);
    LeadingDigit(n, w);
    var d := (n / p) % 10;
    if w == 1 {
      assert p == 1 && n < 10;
      assert d == n;
    } else {
      assert p <= n < 10 * p;
      LeadingQuotient(n, p);
      assert d == n / p;
    }
    assert FullDate.DigitValue(FullDate.DigitChar(d)) == d;
  }

  /** A number from `p` up to below `10 * p` has a leading digit from 1 to 9. */
  lemma LeadingQuotient(n: int, p: int)
    requires p >= 1 && p <= n < 10 * p
    ensures 1 <= n / p <= 9
  {
    var q := n / p;
    var r := n % p;
    assert n == p * q + r && 0 <= r < p;
    if q < 1 {
      MultipleOfDivisor(p, q);
    } else if q > 9 {
      MultipleOfDivisor(p, q - 9);
    }
  }

  /** The first of `w` digits of `n` is the digit of `n / 10^(w-1)`. */
  lemma {:induction false} LeadingDigit(n: nat, w: nat)
    requires w >= 1
    ensures FullDate.Numeral(n, w)[0] == FullDate.DigitChar((n / FullDate.Pow10(w - 1)) % 10)
  {
    if w > 1 {
      LeadingDigit(n / 10, w - 1);
      DivDiv(n, FullDate.Pow10(w - 2));
    }
  }

  lemma DivDiv(n: nat, p: int)
    requires p >= 1
    ensures n / 10 / p == n / (10 * p)
  {
    var q := n / 10 / p;
    var r2 := (n / 10) % p;
    assert n / 10 == p * q + r2;
    assert n == 10 * (n / 10) + n % 10;
    assert n == (10 * p) * q + (10 * r2 + n % 10);
    DivUnique(n, 10 * p, q, 10 * r2 + n % 10);
  }

  /** Quotient and remainder are unique. */
  lemma DivUnique(n: int, d: int, q: int, r: int)
    requires d >= 1 && n == d * q + r && 0 <= r < d
    ensures n / d == q
  {
    var k := q - n / d;
    assert d * k == n % d - r;
    MultipleOfDivisor(d, k);
  }

  lemma MultipleOfDivisor(d: int, k: int)
    requires d >= 1
    ensures k > 0 ==> d * k >= d
    ensures k < 0 ==> d * k <= -d
  {
  }
}
