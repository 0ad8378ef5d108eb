/** The proleptic Gregorian calendar as gmtime and timegm use it, for days counted from 1970-01-01. */
module Calendar {

  datatype Date = Date(year: int, month: int, day: int)

  predicate IsLeap(y: int) { y % 4 == 0 && (y % 100 != 0 || y % 400 == 0) }

  function DaysInYear(y: int): nat { if IsLeap(y) then 366 else 365 }

  function DaysInMonth(y: int, m: int): (d: nat)
    requires 1 <= m <= 12
    ensures 28 <= d <= 31
  {
    if m == 2 then (if IsLeap(y) then 29 else 28) else if m == 4 || m == 6 || m == 9 || m == 11 then 30 else 31
  }

  predicate ValidDate(d: Date) { 1 <= d.month <= 12 && 1 <= d.day <= DaysInMonth(d.year, d.month) }

  // ---------------------------------------------------------------- timegm: closed form

  /** Leap years from year 1 up to and including y. */
  function Leaps(y: int): int { y / 4 - y / 100 + y / 400 }

  function DaysBeforeYear(y: int): int { 365 * (y - 1970) + Leaps(y - 1) - Leaps(1969) }

  /** Month 13 is the end of the year. */
  function DaysBeforeMonth(y: int, m: int): int
    requires 1 <= m <= 13
  {
    (match m
     case 1 => 0
     case 2 => 31
     case 3 => 59
     case 4 => 90
     case 5 => 120
     case 6 => 151
     case 7 => 181
     case 8 => 212
     case 9 => 243
     case 10 => 273
     case 11 => 304
     case 12 => 334
     case _ => 365) + (if m > 2 && IsLeap(y) then 1 else 0)
  }

  /** The day of the month may exceed the month; timegm then counts on into the next one. */
  function DaysFromCivil(d: Date): int
    requires 1 <= d.month <= 12
  {
    DaysBeforeYear(d.year) + DaysBeforeMonth(d.year, d.month) + d.day - 1
  }

  // ---------------------------------------------------------------- gmtime: search

  function YearAndRest(y: int, days: nat): (int, nat)
    decreases days
  {
    if days < DaysInYear(y) then (y, days) else YearAndRest(y + 1, days - DaysInYear(y))
  }

  function MonthAndRest(y: int, m: int, days: nat): (int, nat)
    requires 1 <= m <= 12
    decreases 12 - m
  {
    if days < DaysInMonth(y, m) || m == 12 then (m, days) else MonthAndRest(y, m + 1, days - DaysInMonth(y, m))
  }

  function CivilFromDays(days: nat): Date {
    var (y, inYear) := YearAndRest(1970, days);
    var (m, inMonth) := MonthAndRest(y, 1, inYear);
    Date(y, m, inMonth + 1)
  }

  // ---------------------------------------------------------------- they are inverse

  lemma YearLength(y: int)
    ensures DaysBeforeYear(y + 1) == DaysBeforeYear(y) + DaysInYear(y)
  {
    FloorStep(y, 4);
    FloorStep(y, 100);
    FloorStep(y, 400);
    Divides(y, 400, 100);
    Divides(y, 100, 4);
  }

  lemma FloorStep(y: int, k: int)
    requires 0 < k
    ensures y / k == (y - 1) / k + (if y % k == 0 then 1 else 0)
  {
    var q, r := y / k, y % k;
    assert y == k * q + r;
    if r == 0 {
      QuotientUnique(y - 1, k, q - 1, k - 1);
    } else {
      QuotientUnique(y - 1, k, q, r - 1);
    }
  }

  lemma QuotientUnique(x: int, k: int, q: int, r: int)
    requires 0 <= r < k && x == k * q + r
    ensures x / k == q && x % k == r
  {
    var d := x / k - q;
    assert k * d == r - x % k;
    MultipleIsFar(k, d);
  }

  lemma MultipleIsFar(k: int, d: int)
    requires 0 < k
    ensures d >= 1 ==> k * d >= k
    ensures d <= -1 ==> k * d <= -k
  {
  }

  lemma Divides(y: int, big: int, small: int)
    requires (big == 400 && small == 100) || (big == 100 && small == 4)
    ensures y % big == 0 ==> y % small == 0
  {
    if y % big == 0 {
      if big == 400 { assert y == 100 * (4 * (y / 400)); } else { assert y == 4 * (25 * (y / 100)); }
    }
  }

  lemma MonthLength(y: int, m: int)
    requires 1 <= m <= 12
    ensures DaysBeforeMonth(y, m + 1) == DaysBeforeMonth(y, m) + DaysInMonth(y, m)
  {
  }

  /** A day beyond the end of its month is one of the next month. */
  lemma DayOverflows(y: int, m: int, day: int)
    requires 1 <= m <= 12 && DaysInMonth(y, m) < day
    ensures var d := Date(y, m, day);
      var next := if m < 12 then Date(y, m + 1, day - DaysInMonth(y, m)) else Date(y + 1, 1, day - DaysInMonth(y, m));
      DaysFromCivil(d) == DaysFromCivil(next)
  {
    MonthLength(y, m);
    YearLength(y);
  }

  lemma {:induction false} YearSearch(y: int, days: nat)
    ensures var (y', rest) := YearAndRest(y, days);
      y <= y' && rest < DaysInYear(y') && DaysBeforeYear(y') + rest == DaysBeforeYear(y) + days
    decreases days
  {
    if days >= DaysInYear(y) {
      YearLength(y);
      YearSearch(y + 1, days - DaysInYear(y));
    }
  }

  lemma {:induction false} MonthSearch(y: int, m: int, days: nat)
    requires 1 <= m <= 12 && DaysBeforeMonth(y, m) + days < DaysInYear(y)
    ensures var (m', rest) := MonthAndRest(y, m, days);
      m <= m' <= 12 && rest < DaysInMonth(y, m') && DaysBeforeMonth(y, m') + rest == DaysBeforeMonth(y, m) + days
    decreases 12 - m
  {
    MonthLength(y, m);
    if m < 12 && days >= DaysInMonth(y, m) {
      MonthSearch(y, m + 1, days - DaysInMonth(y, m));
    }
  }

  /** gmtime yields a date of the calendar, and timegm takes it back. */
  lemma CivilRoundTrip(days: nat)
    ensures var d := CivilFromDays(days);
      ValidDate(d) && 1970 <= d.year && DaysFromCivil(d) == days
  {
    YearSearch(1970, days);
    var (y, inYear) := YearAndRest(1970, days);
    MonthSearch(y, 1, inYear);
    var (m, inMonth) := MonthAndRest(y, 1, inYear);
    assert CivilFromDays(days) == Date(y, m, inMonth + 1);
  }

  predicate Before(a: Date, b: Date) {
    a.year < b.year || (a.year == b.year && (a.month < b.month || (a.month == b.month && a.day < b.day)))
  }

  lemma {:induction false} YearsMonotone(a: int, b: int)
    requires a <= b
    ensures DaysBeforeYear(a) <= DaysBeforeYear(b)
    decreases b - a
  {
    if a < b {
      YearLength(a);
      YearsMonotone(a + 1, b);
    }
  }

  lemma {:induction false} MonthsMonotone(y: int, a: int, b: int)
    requires 1 <= a <= b <= 13
    ensures DaysBeforeMonth(y, a) <= DaysBeforeMonth(y, b)
    decreases b - a
  {
    if a < b {
      MonthLength(y, b - 1);
      MonthsMonotone(y, a, b - 1);
    }
  }

  /** timegm is strictly monotone on dates of the calendar. */
  lemma DaysMonotone(a: Date, b: Date)
    requires ValidDate(a) && ValidDate(b) && Before(a, b)
    ensures DaysFromCivil(a) < DaysFromCivil(b)
  {
    if a.year < b.year {
      MonthLength(a.year, a.month);
      MonthsMonotone(a.year, a.month + 1, 13);
      YearLength(a.year);
      YearsMonotone(a.year + 1, b.year);
      MonthsMonotone(b.year, 1, b.month);
    } else if a.month < b.month {
      MonthLength(a.year, a.month);
      MonthsMonotone(a.year, a.month + 1, b.month);
    }
  }

  /** gmtime is strictly monotone, and takes every date from 1970 on back to itself. */
  lemma CivilMonotone(m: nat, n: nat)
    requires m < n
    ensures Before(CivilFromDays(m), CivilFromDays(n))
  {
    CivilRoundTrip(m);
    CivilRoundTrip(n);
    var a, b := CivilFromDays(m), CivilFromDays(n);
    if !Before(a, b) {
      if a != b { DaysMonotone(b, a); }
      assert false;
    }
  }

  lemma DateRoundTrip(d: Date)
    requires ValidDate(d) && 1970 <= d.year
    ensures 0 <= DaysFromCivil(d) && CivilFromDays(DaysFromCivil(d)) == d
  {
    YearsMonotone(1970, d.year);
    MonthsMonotone(d.year, 1, d.month);
    assert DaysBeforeYear(1970) == 0;
    var n := DaysFromCivil(d);
    CivilRoundTrip(n);
    var e := CivilFromDays(n);
    if Before(d, e) { DaysMonotone(d, e); } else if Before(e, d) { DaysMonotone(e, d); }
  }

  /** Every instant that an int64 of nanoseconds can hold lies before the year 2263. */
  lemma YearBound(days: nat)
    requires days <= 106751
    ensures 1970 <= CivilFromDays(days).year <= 2262
  {
    CivilRoundTrip(days);
    var d := CivilFromDays(days);
    assert DaysBeforeYear(2263) == 107016;
    MonthsMonotone(d.year, 1, d.month);
    if d.year >= 2263 { YearsMonotone(2263, d.year); }
  }
}
