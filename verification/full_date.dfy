/** The `full-date` form `YYYY-MM-DD` of section 5.6 of RFC 3339, with the
    day bounds of section 5.7: the text a date input field produces, the
    text `toISOString().split("T")[0]` yields for a date, and the subset of
    ISO 8601 the request validator and the date casts accept in this model. */
module FullDate {
  import opened Wrappers
  import opened Calendar
  import Text

  function DigitValue(c: char): int {
    c as int - '0' as int
  }

  function DigitChar(n: int): (c: char)
    requires 0 <= n <= 9
    ensures Text.IsDigit(c) && DigitValue(c) == n
  {
    ('0' as int + n) as char
  }

  /** Value of the decimal numeral `s[i..i + n]`. */
  function NumeralValue(s: string, i: int, n: nat): int
    requires 0 <= i && i + n <= |s|
    decreases n
  {
    if n == 0 then 0 else NumeralValue(s, i, n - 1) * 10 + DigitValue(s[i + n - 1])
  }

  predicate AllDigits(s: string, i: int, n: nat)
    requires 0 <= i && i + n <= |s|
  {
    forall k :: i <= k < i + n ==> Text.IsDigit(s[k])
  }

  /** `n` decimal digits of `v`, zero-padded on the left. */
  function Numeral(v: int, n: nat): (r: string)
    requires 0 <= v
    ensures |r| == n
  {
    if n == 0 then [] else Numeral(v / 10, n - 1) + [DigitChar(v % 10)]
  }

  function Pow10(n: nat): (r: int)
    ensures r >= 1
  {
    if n == 0 then 1 else 10 * Pow10(n - 1)
  }

  /** A zero-padded numeral reads back as the number it was written from. */
  lemma {:induction false} NumeralRoundTrip(v: int, n: nat)
    requires 0 <= v < Pow10(n)
    ensures AllDigits(Numeral(v, n), 0, n)
    ensures NumeralValue(Numeral(v, n), 0, n) == v
  {
    if n > 0 {
      var r := Numeral(v, n);
      var p := Numeral(v / 10, n - 1);
      NumeralRoundTrip(v / 10, n - 1);
      assert r == p + [DigitChar(v % 10)];
      NumeralValuePrefix(r, p, n - 1);
    }
  }

  lemma {:induction false} NumeralValuePrefix(s: string, p: string, n: nat)
    requires n <= |p| && p <= s
    ensures NumeralValue(s, 0, n) == NumeralValue(p, 0, n)
  {
    if n > 0 {
      NumeralValuePrefix(s, p, n - 1);
    }
  }

  /** A digit string is the zero-padded numeral of its value. */
  lemma {:induction false} NumeralOfValue(s: string, n: nat)
    requires n == |s| && AllDigits(s, 0, n)
    ensures 0 <= NumeralValue(s, 0, n) < Pow10(n)
    ensures Numeral(NumeralValue(s, 0, n), n) == s
  {
    if n > 0 {
      var p := s[..n - 1];
      NumeralValuePrefix(s, p, n - 1);
      NumeralOfValue(p, n - 1);
      var v := NumeralValue(s, 0, n);
      var d := DigitValue(s[n - 1]);
      assert v == NumeralValue(p, 0, n - 1) * 10 + d;
      assert v / 10 == NumeralValue(p, 0, n - 1) && v % 10 == d;
      assert DigitChar(d) == s[n - 1];
      assert s == p + [s[n - 1]];
    }
  }

  /** Reads `YYYY-MM-DD` naming a real day. Anything else is rejected,
      including a day past the end of its month (`2023-02-30`), which a
      looser reader would roll over into the next month. */
  function Parse(s: string): (r: Option<Date>)
    ensures r.Some? ==> IsValid(r.value) && 0 <= r.value.year <= 9999
    ensures r.Some? ==> |s| == 10 && s[4] == '-' && s[7] == '-'
  {
    if |s| != 10 || s[4] != '-' || s[7] != '-'
       || !AllDigits(s, 0, 4) || !AllDigits(s, 5, 2) || !AllDigits(s, 8, 2) then None
    else
      var y := NumeralValue(s, 0, 4);
      var m := NumeralValue(s, 5, 2);
      var d := NumeralValue(s, 8, 2);
      if 1 <= m <= 12 && 1 <= d <= DaysInMonth(y, m) then
        NumeralBounds(s, 0, 4);
        Some(Date(y, m, d))
      else None
  }

  /** A day past the end of February is rejected, not rolled over. */
  lemma FebruaryThirtiethRejected()
    ensures Parse("2023-02-30") == None
  {
  }

  lemma {:induction false} NumeralBounds(s: string, i: int, n: nat)
    requires 0 <= i && i + n <= |s| && AllDigits(s, i, n)
    ensures 0 <= NumeralValue(s, i, n) < Pow10(n)
  {
    if n > 0 {
      NumeralBounds(s, i, n - 1);
    }
  }

  /** Writes a day of years 0..9999 as `YYYY-MM-DD`. */
  function Format(d: Date): (r: string)
    requires IsValid(d) && 0 <= d.year <= 9999
    ensures |r| == 10 && r[4] == '-' && r[7] == '-'
  {
    Numeral(d.year, 4) + "-" + Numeral(d.month, 2) + "-" + Numeral(d.day, 2)
  }

  lemma {:induction false} NumeralValueShift(s: string, t: string, i: int, n: nat)
    requires 0 <= i && i + n <= |s| && |t| == n && s[i..i + n] == t
    ensures NumeralValue(s, i, n) == NumeralValue(t, 0, n)
  {
    if n > 0 {
      assert s[i..i + n - 1] == t[..n - 1];
      NumeralValueShift(s, t[..n - 1], i, n - 1);
      NumeralValuePrefix(t, t[..n - 1], n - 1);
      assert s[i + n - 1] == t[n - 1];
    }
  }

  /** Formatting then parsing gives back the day. */
  lemma {:induction false} ParseFormat(d: Date)
    requires IsValid(d) && 0 <= d.year <= 9999
    ensures Parse(Format(d)) == Some(d)
  {
    var s := Format(d);
    var ys, ms, ds := Numeral(d.year, 4), Numeral(d.month, 2), Numeral(d.day, 2);
    assert s == ys + "-" + ms + "-" + ds;
    NumeralRoundTrip(d.year, 4);
    NumeralRoundTrip(d.month, 2);
    NumeralRoundTrip(d.day, 2);
    assert s[0..4] == ys && s[5..7] == ms && s[8..10] == ds;
    NumeralValueShift(s, ys, 0, 4);
    NumeralValueShift(s, ms, 5, 2);
    NumeralValueShift(s, ds, 8, 2);
    assert AllDigits(s, 0, 4) by {
      forall k | 0 <= k < 4 ensures Text.IsDigit(s[k]) { assert s[k] == ys[k]; }
    }
    assert AllDigits(s, 5, 2) by {
      forall k | 5 <= k < 7 ensures Text.IsDigit(s[k]) { assert s[k] == ms[k - 5]; }
    }
    assert AllDigits(s, 8, 2) by {
      forall k | 8 <= k < 10 ensures Text.IsDigit(s[k]) { assert s[k] == ds[k - 8]; }
    }
  }

  /** Parsing accepts only the canonical spelling of a day: formatting what
      was parsed gives back the text. */
  lemma {:induction false} FormatParse(s: string)
    requires Parse(s).Some?
    ensures Format(Parse(s).value) == s
  {
    var ys, ms, ds := s[0..4], s[5..7], s[8..10];
    NumeralValueShift(s, ys, 0, 4);
    NumeralValueShift(s, ms, 5, 2);
    NumeralValueShift(s, ds, 8, 2);
    NumeralOfValue(ys, 4);
    NumeralOfValue(ms, 2);
    NumeralOfValue(ds, 2);
    assert s == ys + "-" + ms + "-" + ds;
  }
}
