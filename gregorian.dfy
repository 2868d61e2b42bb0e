/** The proleptic Gregorian calendar (month lengths and leap years as in section 5.7 and
    Appendix C of RFC 3339) and its bijection with day numbers. Day 0 is 0000-01-01;
    day numbers count whole days, so "n - 1" is the previous calendar day. */
module Gregorian {

  datatype Civil = Civil(year: int, month: int, day: int)

  predicate IsLeapYear(y: int)
  {
    y % 4 == 0 && (y % 100 != 0 || y % 400 == 0)
  }

  function DaysInMonth(y: int, m: int): (n: int)
    requires 1 <= m <= 12
    ensures 28 <= n <= 31
    ensures n == 29 <==> m == 2 && IsLeapYear(y)
  {
    if m == 2 then (if IsLeapYear(y) then 29 else 28)
    else if m == 4 || m == 6 || m == 9 || m == 11 then 30
    else 31
  }

  function YearLength(y: int): int
  {
    if IsLeapYear(y) then 366 else 365
  }

  /** A real calendar day: month 1..12 and day 1..length of that month. */
  predicate Valid(c: Civil)
  {
    1 <= c.month <= 12 && 1 <= c.day <= DaysInMonth(c.year, c.month)
  }

  /** Days of year `y` before the first of month `m` (m = 13 gives the whole year). */
  function DaysBeforeMonth(y: int, m: int): nat
    requires 1 <= m <= 13
  {
    if m == 1 then 0 else DaysBeforeMonth(y, m - 1) + DaysInMonth(y, m - 1)
  }

  /** The twelve months make up the year. */
  lemma MonthsFillYear(y: int)
    ensures DaysBeforeMonth(y, 13) == YearLength(y)
  {
    var feb := DaysInMonth(y, 2);
    assert DaysBeforeMonth(y, 2) == 31;
    assert DaysBeforeMonth(y, 3) == 31 + feb;
    assert DaysBeforeMonth(y, 4) == 62 + feb;
    assert DaysBeforeMonth(y, 5) == 92 + feb;
    assert DaysBeforeMonth(y, 6) == 123 + feb;
    assert DaysBeforeMonth(y, 7) == 153 + feb;
    assert DaysBeforeMonth(y, 8) == 184 + feb;
    assert DaysBeforeMonth(y, 9) == 215 + feb;
    assert DaysBeforeMonth(y, 10) == 245 + feb;
    assert DaysBeforeMonth(y, 11) == 276 + feb;
    assert DaysBeforeMonth(y, 12) == 306 + feb;
  }

  /** Months start in order: an earlier month starts and ends no later than a later one starts. */
  lemma {:induction false} DaysBeforeMonthMonotone(y: int, m1: int, m2: int)
    requires 1 <= m1 < m2 <= 13
    ensures DaysBeforeMonth(y, m1) + DaysInMonth(y, m1) <= DaysBeforeMonth(y, m2)
    decreases m2 - m1
  {
    if m1 + 1 < m2 {
      DaysBeforeMonthMonotone(y, m1 + 1, m2);
    }
  }

  /** Days from 0000-01-01 to the first of January of year `y` (negative before year 0). */
  function DaysBeforeYear(y: int): int
    decreases if y >= 0 then y else -y
  {
    if y == 0 then 0
    else if y > 0 then DaysBeforeYear(y - 1) + YearLength(y - 1)
    else DaysBeforeYear(y + 1) - YearLength(y)
  }

  lemma DaysBeforeNextYear(y: int)
    ensures DaysBeforeYear(y + 1) == DaysBeforeYear(y) + YearLength(y)
  {
  }

  /** Year `y1` ends no later than year `y2` starts, when `y1 < y2`. */
  lemma {:induction false} DaysBeforeYearMonotone(y1: int, y2: int)
    requires y1 < y2
    ensures DaysBeforeYear(y1) + YearLength(y1) <= DaysBeforeYear(y2)
    decreases y2 - y1
  {
    DaysBeforeNextYear(y1);
    if y1 + 1 < y2 {
      DaysBeforeYearMonotone(y1 + 1, y2);
    }
  }

  /** The day number of `c`. Like JavaScript's `new Date(y, m, d)`, a day outside the month
      simply counts on from the first: `Civil(y, m, 0)` is the last day of the month before. */
  function DayNumber(c: Civil): int
    requires 1 <= c.month <= 12
  {
    DaysBeforeYear(c.year) + DaysBeforeMonth(c.year, c.month) + c.day - 1
  }

  /** The first of the following month starts right after the last day of this one. */
  lemma NextMonthStart(y: int, m: int)
    requires 1 <= m <= 12
    ensures var next := if m == 12 then Civil(y + 1, 1, 1) else Civil(y, m + 1, 1);
            DayNumber(next) == DayNumber(Civil(y, m, 1)) + DaysInMonth(y, m)
  {
    if m == 12 {
      MonthsFillYear(y);
      DaysBeforeNextYear(y);
      assert DaysBeforeMonth(y, 13) == DaysBeforeMonth(y, 12) + DaysInMonth(y, 12);
    } else {
      assert DaysBeforeMonth(y, m + 1) == DaysBeforeMonth(y, m) + DaysInMonth(y, m);
    }
  }

  function NextDay(c: Civil): (r: Civil)
    requires Valid(c)
    ensures Valid(r)
  {
    if c.day < DaysInMonth(c.year, c.month) then Civil(c.year, c.month, c.day + 1)
    else if c.month < 12 then Civil(c.year, c.month + 1, 1)
    else Civil(c.year + 1, 1, 1)
  }

  function PrevDay(c: Civil): (r: Civil)
    requires Valid(c)
    ensures Valid(r)
  {
    if c.day > 1 then Civil(c.year, c.month, c.day - 1)
    else if c.month > 1 then Civil(c.year, c.month - 1, DaysInMonth(c.year, c.month - 1))
    else Civil(c.year - 1, 12, 31)
  }

  lemma NextDayNumber(c: Civil)
    requires Valid(c)
    ensures DayNumber(NextDay(c)) == DayNumber(c) + 1
  {
    NextMonthStart(c.year, c.month);
  }

  lemma PrevDayNumber(c: Civil)
    requires Valid(c)
    ensures DayNumber(PrevDay(c)) == DayNumber(c) - 1
  {
    if c.day == 1 {
      if c.month > 1 {
        NextMonthStart(c.year, c.month - 1);
      } else {
        NextMonthStart(c.year - 1, 12);
      }
    }
  }

  /** The calendar day with day number `n`, found by walking from 0000-01-01. */
  function CivilOf(n: int): (c: Civil)
    ensures Valid(c)
    decreases if n >= 0 then n else -n
  {
    if n == 0 then Civil(0, 1, 1)
    else if n > 0 then NextDay(CivilOf(n - 1))
    else PrevDay(CivilOf(n + 1))
  }

  /** Day numbers name calendar days: `CivilOf` is a right inverse of `DayNumber`. */
  lemma {:induction false} DayNumberOfCivilOf(n: int)
    ensures DayNumber(CivilOf(n)) == n
    decreases if n >= 0 then n else -n
  {
    if n > 0 {
      var c := CivilOf(n - 1);
      assert CivilOf(n) == NextDay(c);
      DayNumberOfCivilOf(n - 1);
      NextDayNumber(c);
    } else if n < 0 {
      var c := CivilOf(n + 1);
      assert CivilOf(n) == PrevDay(c);
      DayNumberOfCivilOf(n + 1);
      PrevDayNumber(c);
    }
  }

  /** A valid day lies inside its year's and its month's day-number range. */
  lemma DayNumberBounds(c: Civil)
    requires Valid(c)
    ensures DaysBeforeYear(c.year) <= DayNumber(c) < DaysBeforeYear(c.year) + YearLength(c.year)
    ensures DayNumber(Civil(c.year, c.month, 1)) <= DayNumber(c)
            < DayNumber(Civil(c.year, c.month, 1)) + DaysInMonth(c.year, c.month)
  {
    MonthsFillYear(c.year);
    DaysBeforeMonthMonotone(c.year, c.month, 13);
  }

  /** Later calendar days (in year, then month, then day order) have larger day numbers. */
  lemma DayNumberStrictlyIncreasing(c1: Civil, c2: Civil)
    requires Valid(c1) && Valid(c2)
    requires c1.year < c2.year || (c1.year == c2.year && c1.month < c2.month) ||
             (c1.year == c2.year && c1.month == c2.month && c1.day < c2.day)
    ensures DayNumber(c1) < DayNumber(c2)
  {
    DayNumberBounds(c1);
    DayNumberBounds(c2);
    if c1.year < c2.year {
      DaysBeforeYearMonotone(c1.year, c2.year);
    } else if c1.month < c2.month {
      DaysBeforeMonthMonotone(c1.year, c1.month, c2.month);
    }
  }

  /** The order of day numbers is the chronological order of calendar days. */
  lemma DayNumberOrder(c1: Civil, c2: Civil)
    requires Valid(c1) && Valid(c2)
    ensures DayNumber(c1) < DayNumber(c2) <==>
            (c1.year < c2.year || (c1.year == c2.year && c1.month < c2.month) ||
             (c1.year == c2.year && c1.month == c2.month && c1.day < c2.day))
    ensures DayNumber(c1) == DayNumber(c2) <==> c1 == c2
  {
    if c1 != c2 {
      if c1.year < c2.year || (c1.year == c2.year && c1.month < c2.month) ||
         (c1.year == c2.year && c1.month == c2.month && c1.day < c2.day) {
        DayNumberStrictlyIncreasing(c1, c2);
      } else {
        DayNumberStrictlyIncreasing(c2, c1);
      }
    }
  }

  /** `CivilOf` is also a left inverse: a valid day is recovered from its number. */
  lemma CivilOfDayNumber(c: Civil)
    requires Valid(c)
    ensures CivilOf(DayNumber(c)) == c
  {
    DayNumberOfCivilOf(DayNumber(c));
    DayNumberOrder(CivilOf(DayNumber(c)), c);
  }

  /** Day of the week, 0 = Sunday ... 6 = Saturday (JavaScript's `getDay`). */
  function Weekday(n: int): (w: int)
    ensures 0 <= w < 7
  {
    (n + 6) % 7
  }

  /** The number of leap years before year `y` in closed form. */
  lemma {:induction false} DaysBeforeYearClosedForm(y: nat)
    ensures DaysBeforeYear(y) == 365 * y + (y + 3) / 4 - (y + 99) / 100 + (y + 399) / 400
  {
    if y > 0 {
      DaysBeforeYearClosedForm(y - 1);
      var x := y - 1;
      LeapCount(x);
      StepOfQuotient(x, 4);
      StepOfQuotient(x, 100);
      StepOfQuotient(x, 400);
    }
  }

  /** A year has one extra day for each of "divisible by 4" and "by 400", less one
      for "by 100". */
  lemma LeapCount(x: int)
    ensures YearLength(x) == 365 + (if x % 4 == 0 then 1 else 0) - (if x % 100 == 0 then 1 else 0)
                                 + (if x % 400 == 0 then 1 else 0)
  {
    if x % 400 == 0 {
      var q := x / 400;
      QuotientBy100(x, 4 * q, 0);
      QuotientBy4(x, 100 * q, 0);
    } else if x % 100 == 0 {
      var q := x / 100;
      QuotientBy4(x, 25 * q, 0);
    }
  }

  /** Division by 4 yields the unique quotient and remainder. */
  lemma QuotientBy4(n: int, q: int, r: int)
    requires n == 4 * q + r && 0 <= r < 4
    ensures n / 4 == q && n % 4 == r
  {
  }

  /** Division by 100 yields the unique quotient and remainder. */
  lemma QuotientBy100(n: int, q: int, r: int)
    requires n == 100 * q + r && 0 <= r < 100
    ensures n / 100 == q && n % 100 == r
  {
  }

  /** Division by 400 yields the unique quotient and remainder. */
  lemma QuotientBy400(n: int, q: int, r: int)
    requires n == 400 * q + r && 0 <= r < 400
    ensures n / 400 == q && n % 400 == r
  {
  }

  /** `(x + k) / k` exceeds `(x + k - 1) / k` by one exactly when `k` divides `x`. */
  lemma StepOfQuotient(x: nat, k: nat)
    requires k == 4 || k == 100 || k == 400
    ensures (x + k) / k - (x + k - 1) / k == if x % k == 0 then 1 else 0
  {
    var q := x / k;
    var r := x % k;
    if k == 4 {
      if r == 0 {
        QuotientBy4(x + 4, q + 1, 0);
        QuotientBy4(x + 3, q, 3);
      } else {
        QuotientBy4(x + 4, q + 1, r);
        QuotientBy4(x + 3, q + 1, r - 1);
      }
    } else if k == 100 {
      if r == 0 {
        QuotientBy100(x + 100, q + 1, 0);
        QuotientBy100(x + 99, q, 99);
      } else {
        QuotientBy100(x + 100, q + 1, r);
        QuotientBy100(x + 99, q + 1, r - 1);
      }
    } else {
      if r == 0 {
        QuotientBy400(x + 400, q + 1, 0);
        QuotientBy400(x + 399, q, 399);
      } else {
        QuotientBy400(x + 400, q + 1, r);
        QuotientBy400(x + 399, q + 1, r - 1);
      }
    }
  }

  /** The weekday count is anchored correctly: 2000-01-01 was a Saturday. */
  lemma WeekdayOf2000(y: int)
    ensures y == 2000 ==> Weekday(DayNumber(Civil(y, 1, 1))) == 6
  {
    if y == 2000 {
      DaysBeforeYearClosedForm(y);
      assert DaysBeforeYear(y) == 730485;
    }
  }

  /** 1970-01-01, the ECMAScript epoch, was a Thursday. */
  lemma WeekdayOf1970(y: int)
    ensures y == 1970 ==> Weekday(DayNumber(Civil(y, 1, 1))) == 4
  {
    if y == 1970 {
      DaysBeforeYearClosedForm(y);
      assert DaysBeforeYear(y) == 719528;
    }
  }
}
