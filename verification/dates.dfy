/**
 * Calendar dates as day ordinals, the way Python's `datetime.date` counts
 * them (`date.toordinal()`: 0001-01-01 is day 1 of the proleptic Gregorian
 * calendar). The leave rules only subtract dates and add or remove whole
 * days, so the rest of the model works on these ordinals directly.
 */
module Dates {

  predicate IsLeap(year: int) {
    year % 4 == 0 && (year % 100 != 0 || year % 400 == 0)
  }

  function DaysInMonth(year: int, month: int): (n: int)
    requires 1 <= month <= 12
    ensures 28 <= n <= 31
  {
    if month == 2 then (if IsLeap(year) then 29 else 28)
    else if month == 4 || month == 6 || month == 9 || month == 11 then 30
    else 31
  }

  /** A date `datetime.date` accepts: years 1 to 9999, a real day of the month. */
  predicate ValidDate(year: int, month: int, day: int) {
    1 <= year <= 9999 && 1 <= month <= 12 && 1 <= day <= DaysInMonth(year, month)
  }

  /** Days in the years before `year`. */
  function DaysBeforeYear(year: int): (n: int)
    requires year >= 1
    ensures n >= 365 * (year - 1)
  {
    var y := year - 1;
    y * 365 + y / 4 - y / 100 + y / 400
  }

  /** Days in the months of `year` before `month`. */
  function DaysBeforeMonth(year: int, month: int): (n: int)
    requires 1 <= month <= 12
    ensures 28 * (month - 1) <= n <= 31 * (month - 1)
    decreases month
  {
    if month == 1 then 0 else DaysBeforeMonth(year, month - 1) + DaysInMonth(year, month - 1)
  }

  /** `date(year, month, day).toordinal()`. */
  function ToOrdinal(year: int, month: int, day: int): (n: int)
    requires ValidDate(year, month, day)
    ensures n >= 1
  {
    DaysBeforeYear(year) + DaysBeforeMonth(year, month) + day
  }

  /** The calendar day after a valid date. */
  function NextDay(year: int, month: int, day: int): (r: (int, int, int))
    requires ValidDate(year, month, day)
    requires !(year == 9999 && month == 12 && day == 31)
    ensures ValidDate(r.0, r.1, r.2)
  {
    if day < DaysInMonth(year, month) then (year, month, day + 1)
    else if month < 12 then (year, month + 1, 1)
    else (year + 1, 1, 1)
  }

  /** A year has 366 days if it is a leap year and 365 otherwise. */
  lemma {:induction false} YearLength(year: int)
    requires 1 <= year <= 9999
    ensures DaysBeforeYear(year + 1) - DaysBeforeYear(year) == if IsLeap(year) then 366 else 365
  {
    var y := year - 1;
    assert DaysBeforeYear(year + 1) - DaysBeforeYear(year)
        == 365 + ((y + 1) / 4 - y / 4) - ((y + 1) / 100 - y / 100) + ((y + 1) / 400 - y / 400);
    assert (y + 1) / 4 - y / 4 == if year % 4 == 0 then 1 else 0 by {
      DivStep(y, 4);
    }
    assert (y + 1) / 100 - y / 100 == if year % 100 == 0 then 1 else 0 by {
      DivStep(y, 100);
    }
    assert (y + 1) / 400 - y / 400 == if year % 400 == 0 then 1 else 0 by {
      DivStep(y, 400);
    }
    DivisorsNest(year);
  }

  /** A multiple of 400 is one of 100, and a multiple of 100 one of 4. */
  lemma {:induction false} DivisorsNest(year: int)
    ensures year % 400 == 0 ==> year % 100 == 0
    ensures year % 100 == 0 ==> year % 4 == 0
  {
    if year % 400 == 0 {
      var q := year / 400;
      assert year == 100 * (4 * q);
    }
    if year % 100 == 0 {
      var q := year / 100;
      assert year == 4 * (25 * q);
    }
  }

  /** Counting one further: `(x + 1) / d` gains one exactly at a multiple of
      `d`, for the leap-year divisors. */
  lemma {:induction false} DivStep(x: int, d: int)
    requires d == 4 || d == 100 || d == 400
    ensures (x + 1) / d == x / d + (if (x + 1) % d == 0 then 1 else 0)
  {
    var q, r := x / d, x % d;
    assert x == q * d + r && 0 <= r < d;
    if r + 1 == d {
      assert x + 1 == (q + 1) * d;
    } else {
      assert x + 1 == q * d + (r + 1) && 0 <= r + 1 < d;
    }
  }

  /** The months of a year add up to the year's length. */
  lemma {:induction false} MonthsFillYear(year: int)
    ensures DaysBeforeMonth(year, 12) + DaysInMonth(year, 12) == if IsLeap(year) then 366 else 365
  {
    assert DaysBeforeMonth(year, 3) == 31 + DaysInMonth(year, 2);
    assert DaysBeforeMonth(year, 7) == DaysBeforeMonth(year, 3) + 31 + 30 + 31 + 30;
    assert DaysBeforeMonth(year, 12) == DaysBeforeMonth(year, 7) + 31 + 31 + 30 + 31 + 30;
  }

  /** Consecutive calendar days have consecutive ordinals, so the ordinal
      minus one is the day before (`start_date - timedelta(days=1)`) and the
      difference of two ordinals is the number of days between the dates. */
  lemma {:induction false} NextDayIsNextOrdinal(year: int, month: int, day: int)
    requires ValidDate(year, month, day)
    requires !(year == 9999 && month == 12 && day == 31)
    ensures var (y', m', d') := NextDay(year, month, day);
            ToOrdinal(y', m', d') == ToOrdinal(year, month, day) + 1
  {
    if day < DaysInMonth(year, month) {
    } else if month < 12 {
      assert DaysBeforeMonth(year, month + 1) == DaysBeforeMonth(year, month) + day;
    } else {
      var length := if IsLeap(year) then 366 else 365;
      assert DaysBeforeYear(year + 1) == DaysBeforeYear(year) + length by {
        YearLength(year);
      }
      assert DaysBeforeMonth(year, 12) + day == length by {
        MonthsFillYear(year);
      }
    }
  }
}
