/**
 Days since 1970-01-01 as dates of the Gregorian calendar, standing in for the calendar of
 std::chrono.
 */
module Calendar {

  datatype Date = Date(year: nat, month: nat, day: nat)

  predicate IsLeap(y: nat) { y % 4 == 0 && (y % 100 != 0 || y % 400 == 0) }

  function DaysInYear(y: nat): (n: nat) { if IsLeap(y) then 366 else 365 }

  function DaysInMonth(y: nat, m: nat): (n: nat)
    requires 1 <= m <= 12
    ensures 28 <= n <= 31
  {
    if m == 2 then (if IsLeap(y) then 29 else 28)
    else if m in {4, 6, 9, 11} then 30
    else 31
  }

  predicate Valid(d: Date) {
    1970 <= d.year && 1 <= d.month <= 12 && 1 <= d.day <= DaysInMonth(d.year, d.month)
  }

  /** Days before January 1 of year `y`. */
  function YearStart(y: nat): (n: nat)
    requires y >= 1970
  {
    if y == 1970 then 0 else YearStart(y - 1) + DaysInYear(y - 1)
  }

  /** Days of the year before month `m`. */
  function MonthStart(y: nat, m: nat): (n: nat)
    requires 1 <= m <= 12
    ensures m == 12 ==> n + 31 == DaysInYear(y)
  {
    [0, 31, 59, 90, 120, 151, 181, 212, 243, 273, 304, 334][m - 1] + (if m > 2 && IsLeap(y) then 1 else 0)
  }

  /** The day number of a date. */
  function DayNumber(d: Date): (n: nat)
    requires Valid(d)
  {
    YearStart(d.year) + MonthStart(d.year, d.month) + d.day - 1
  }

  function FindMonth(y: nat, m: nat, n: nat): (d: Date)
    requires y >= 1970 && 1 <= m <= 12
    requires MonthStart(y, m) <= n < DaysInYear(y)
    ensures Valid(d) && d.year == y && MonthStart(y, d.month) + d.day - 1 == n
    decreases 12 - m
  {
    if m == 12 || n < MonthStart(y, m + 1) then Date(y, m, n - MonthStart(y, m) + 1)
    else FindMonth(y, m + 1, n)
  }

  function FindYear(y: nat, n: nat): (d: Date)
    requires y >= 1970 && YearStart(y) <= n
    ensures Valid(d) && DayNumber(d) == n
    decreases n - YearStart(y)
  {
    if n < YearStart(y + 1) then FindMonth(y, 1, n - YearStart(y)) else FindYear(y + 1, n)
  }

  /** The date of a day number. */
  function DateOf(n: nat): (d: Date)
    ensures Valid(d) && DayNumber(d) == n
  {
    FindYear(1970, n)
  }

  ghost predicate Before(a: Date, b: Date) {
    a.year < b.year || (a.year == b.year && (a.month < b.month || (a.month == b.month && a.day < b.day)))
  }

  lemma {:induction false} YearsGrow(a: nat, b: nat)
    requires 1970 <= a <= b
    ensures YearStart(a) <= YearStart(b)
    ensures a < b ==> YearStart(a) + DaysInYear(a) <= YearStart(b)
    decreases b - a
  {
    if a < b { YearsGrow(a, b - 1); }
  }

  /** Leap years before year `y`. */
  function LeapYears(y: nat): (n: int)
    requires y >= 1
  {
    (y - 1) / 4 - (y - 1) / 100 + (y - 1) / 400
  }

  lemma OneMoreYear(y: nat)
    requires y >= 1970
    ensures LeapYears(y + 1) == LeapYears(y) + if IsLeap(y) then 1 else 0
  {
    NextQuotient4(y);
    NextQuotient100(y);
    NextQuotient400(y);
    Divisors(y);
  }

  lemma NextQuotient4(y: nat)
    requires y >= 1
    ensures y / 4 == (y - 1) / 4 + if y % 4 == 0 then 1 else 0
  {
  }

  lemma NextQuotient100(y: nat)
    requires y >= 1
    ensures y / 100 == (y - 1) / 100 + if y % 100 == 0 then 1 else 0
  {
  }

  lemma NextQuotient400(y: nat)
    requires y >= 1
    ensures y / 400 == (y - 1) / 400 + if y % 400 == 0 then 1 else 0
  {
  }

  lemma Divisors(y: nat)
    ensures (y % 400 == 0 ==> y % 100 == 0) && (y % 100 == 0 ==> y % 4 == 0)
  {
    assert y % 400 == 0 ==> y == 100 * (4 * (y / 400));
    assert y % 100 == 0 ==> y == 4 * (25 * (y / 100));
  }

  /** The Gregorian rule summed up. */
  lemma {:induction false} YearStartIs(y: nat)
    requires y >= 1970
    ensures YearStart(y) == 365 * (y - 1970) + LeapYears(y) - LeapYears(1970)
  {
    if y > 1970 {
      YearStartIs(y - 1);
      OneMoreYear(y - 1);
    }
  }

  /** The first day of the year 10000. */
  const DAY_10000: nat := 2_932_897

  lemma FourDigitYears(n: nat)
    ensures DateOf(n).year < 10_000 <==> n < DAY_10000
  {
    var d := DateOf(n);
    YearStartIs(10_000);
    YearBounds(d);
    if d.year < 10_000 { YearsGrow(d.year, 10_000); } else { YearsGrow(10_000, d.year); }
  }

  lemma MonthsGrow(y: nat, a: nat, b: nat)
    requires 1 <= a < b <= 12
    ensures MonthStart(y, a) + DaysInMonth(y, a) <= MonthStart(y, b)
    decreases b - a
  {
    MonthEnds(y, a);
    if a + 1 < b { MonthsGrow(y, a + 1, b); }
  }

  lemma MonthEnds(y: nat, m: nat)
    requires 1 <= m < 12
    ensures MonthStart(y, m) + DaysInMonth(y, m) == MonthStart(y, m + 1)
  {
  }

  lemma YearBounds(d: Date)
    requires Valid(d)
    ensures YearStart(d.year) <= DayNumber(d) < YearStart(d.year) + DaysInYear(d.year)
  {
    if d.month < 12 { MonthsGrow(d.year, d.month, 12); }
  }

  lemma EarlierDateSmallerNumber(a: Date, b: Date)
    requires Valid(a) && Valid(b) && Before(a, b)
    ensures DayNumber(a) < DayNumber(b)
  {
    if a.year < b.year {
      YearBounds(a);
      YearBounds(b);
      YearsGrow(a.year, b.year);
    } else if a.month < b.month {
      MonthsGrow(a.year, a.month, b.month);
    }
  }

  /** Dates come in the order of their day numbers. */
  lemma DatesFollowDays(m: nat, n: nat)
    ensures m < n <==> Before(DateOf(m), DateOf(n))
  {
    var a, b := DateOf(m), DateOf(n);
    if m < n {
      if Before(b, a) { EarlierDateSmallerNumber(b, a); }
    } else if Before(a, b) {
      EarlierDateSmallerNumber(a, b);
    }
  }

  /** A date is the date of its day number: the two functions are inverse to each other. */
  lemma DateOfDayNumber(d: Date)
    requires Valid(d)
    ensures DateOf(DayNumber(d)) == d
  {
    var e := DateOf(DayNumber(d));
    if Before(d, e) { EarlierDateSmallerNumber(d, e); }
    if Before(e, d) { EarlierDateSmallerNumber(e, d); }
  }
}
