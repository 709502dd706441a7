/** Day-granularity Gregorian calendar dates, with the month lengths and the
    leap-year rule of section 5.7 (and appendix C) of RFC 3339, and the one
    piece of JavaScript `Date` arithmetic the server relies on: day 0 of a
    month denotes the last day of the month before. */
module Calendar {

  datatype Date = Date(year: int, month: int, day: int)

  /** A year divisible by 4 is a leap year, except centuries not divisible by 400. */
  predicate IsLeapYear(y: int) {
    y % 4 == 0 && (y % 100 != 0 || y % 400 == 0)
  }

  /** Number of days in month `m` (1 = January) of year `y`. */
  function DaysInMonth(y: int, m: int): (n: int)
    requires 1 <= m <= 12
    ensures 28 <= n <= 31
  {
    if m == 2 then (if IsLeapYear(y) then 29 else 28)
    else if m == 4 || m == 6 || m == 9 || m == 11 then 30
    else 31
  }

  /** February has a 29th day exactly in leap years; every other month has a
      fixed length. */
  lemma DaysInMonthTable(y: int, m: int)
    requires 1 <= m <= 12
    ensures m == 2 ==> (DaysInMonth(y, m) == 29 <==> IsLeapYear(y))
    ensures m == 2 ==> (DaysInMonth(y, m) == 28 <==> !IsLeapYear(y))
    ensures m in {4, 6, 9, 11} ==> DaysInMonth(y, m) == 30
    ensures m in {1, 3, 5, 7, 8, 10, 12} ==> DaysInMonth(y, m) == 31
  {
  }

  /** A real calendar day. */
  predicate IsValid(d: Date) {
    1 <= d.month <= 12 && 1 <= d.day <= DaysInMonth(d.year, d.month)
  }

  /** Chronological order on days: `a` is the same day as `b` or earlier. */
  predicate NotAfter(a: Date, b: Date) {
    || a.year < b.year
    || (a.year == b.year && a.month < b.month)
    || (a.year == b.year && a.month == b.month && a.day <= b.day)
  }

  /** `lo <= d <= hi`, both bounds inclusive. */
  predicate InRange(d: Date, lo: Date, hi: Date) {
    NotAfter(lo, d) && NotAfter(d, hi)
  }

  /** A number that grows with the day, used as a sort key (the role the
      millisecond timestamp plays for a JavaScript `Date`). */
  function Ordinal(d: Date): int {
    d.year * 512 + d.month * 32 + d.day
  }

  /** On real days the sort key orders exactly as the calendar does. */
  lemma {:induction false} OrdinalMonotone(a: Date, b: Date)
    requires IsValid(a) && IsValid(b)
    ensures NotAfter(a, b) <==> Ordinal(a) <= Ordinal(b)
  {
    var ra := a.month * 32 + a.day;
    var rb := b.month * 32 + b.day;
    assert 33 <= ra < 512 && 33 <= rb < 512;
    if a.year < b.year {
      assert a.year * 512 + 512 <= b.year * 512;
    } else if a.year > b.year {
      assert b.year * 512 + 512 <= a.year * 512;
    }
  }

  /** The year `new Date(year, …)` denotes: the two-digit years 0..99 stand
      for 1900..1999, every other year for itself. */
  function FullYear(year: int): int {
    if 0 <= year <= 99 then 1900 + year else year
  }

  /** `new Date(year, monthIndex, day)` for the arguments the server passes:
      a zero-based month index in 0..12 (12 rolls over into January of the
      next year) and a day in 0..length (day 0 is the last day of the month
      before). */
  function MakeDate(year: int, monthIndex: int, day: int): (r: Date)
    requires 0 <= monthIndex <= 12
    requires 0 <= day <= DaysInMonth(FullYear(year) + monthIndex / 12, monthIndex % 12 + 1)
    ensures IsValid(r)
    ensures day >= 1 ==> r == Date(FullYear(year) + monthIndex / 12, monthIndex % 12 + 1, day)
    ensures day == 0 ==> r.day == DaysInMonth(r.year, r.month)
                         && (if r.month == 12 then (r.year + 1, 1) else (r.year, r.month + 1))
                            == (FullYear(year) + monthIndex / 12, monthIndex % 12 + 1)
  {
    var y := FullYear(year) + monthIndex / 12;
    var m := monthIndex % 12 + 1;
    if day >= 1 then Date(y, m, day)
    else if m == 1 then Date(y - 1, 12, 31)
    else Date(y, m - 1, DaysInMonth(y, m - 1))
  }

  /** The first of a month, as `new Date(year, month - 1, 1)`. */
  lemma FirstOfMonth(year: int, month: int)
    requires 1 <= month <= 12
    ensures MakeDate(year, month - 1, 1) == Date(FullYear(year), month, 1)
  {
  }

  /** `new Date(year, month, 0)`, with `month` one-based, is the last day of
      that month, including the December-to-January roll-over. */
  lemma {:induction false} LastOfMonth(year: int, month: int)
    requires 1 <= month <= 12
    ensures MakeDate(year, month, 0) == Date(FullYear(year), month, DaysInMonth(FullYear(year), month))
  {
    var y := FullYear(year);
    if month == 12 {
      assert MakeDate(year, 12, 0) == Date(y + 1 - 1, 12, 31);
    } else {
      assert month / 12 == 0 && month % 12 + 1 == month + 1;
    }
  }

  /** Two-digit years are read as years of the twentieth century. */
  lemma TwoDigitYears()
    ensures MakeDate(50, 0, 1) == Date(1950, 1, 1)
    ensures MakeDate(99, 11, 31) == Date(1999, 12, 31)
    ensures MakeDate(100, 0, 1) == Date(100, 1, 1)
    ensures MakeDate(2024, 2, 0) == Date(2024, 2, 29)
  {
  }

  /** Every real day of a month lies between its first and its last day, and
      no day of another month does. */
  lemma {:induction false} MonthWindowExact(d: Date, year: int, month: int)
    requires IsValid(d) && 1 <= month <= 12
    ensures InRange(d, Date(year, month, 1), Date(year, month, DaysInMonth(year, month)))
            <==> d.year == year && d.month == month
  {
  }

  /** Every real day of a year lies between 1 January and 31 December of it. */
  lemma {:induction false} YearWindowExact(d: Date, year: int)
    requires IsValid(d)
    ensures InRange(d, Date(year, 1, 1), Date(year, 12, 31)) <==> d.year == year
  {
  }

  lemma NotAfterTransitive(a: Date, b: Date, c: Date)
    requires NotAfter(a, b) && NotAfter(b, c)
    ensures NotAfter(a, c)
  {
  }

  lemma NotAfterTotal(a: Date, b: Date)
    ensures NotAfter(a, b) || NotAfter(b, a)
  {
  }
}
