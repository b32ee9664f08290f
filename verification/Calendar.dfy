/** The reference calendar: the proleptic Gregorian calendar, defined by nothing but
    the leap-year rule and the summing of year and month lengths from 1970-01-01. */
module Calendar {

  predicate IsLeapYear(year: int) {
    year % 400 == 0 || (year % 4 == 0 && year % 100 != 0)
  }

  function YearLength(year: int): int {
    if IsLeapYear(year) then 366 else 365
  }

  function MonthLength(year: int, month: int): int {
    if month == 2 then (if IsLeapYear(year) then 29 else 28)
    else if month == 4 || month == 6 || month == 9 || month == 11 then 30
    else 31
  }

  // Days from 1970-01-01 to the first of January of the year, negative before 1970.
  ghost function DaysBeforeYear(year: int): int
    decreases if year >= 1970 then year - 1970 else 1970 - year
  {
    if year == 1970 then 0
    else if year > 1970 then DaysBeforeYear(year - 1) + YearLength(year - 1)
    else DaysBeforeYear(year + 1) - YearLength(year)
  }

  ghost function DaysBeforeMonth(year: int, month: int): int
    requires 1 <= month <= 12
    decreases month
  {
    if month == 1 then 0 else DaysBeforeMonth(year, month - 1) + MonthLength(year, month - 1)
  }

  ghost predicate ValidDate(year: int, month: int, day: int) {
    1 <= month <= 12 && 1 <= day <= MonthLength(year, month)
  }

  ghost function DayNumber(year: int, month: int, day: int): int
    requires 1 <= month <= 12
  {
    DaysBeforeYear(year) + DaysBeforeMonth(year, month) + day - 1
  }

  // Weekdays follow one another, Sunday being 0; 1970-01-01 was a Thursday.
  ghost function WeekDayOf(n: int): int
    decreases if n >= 0 then n else -n
  {
    if n == 0 then 4
    else if n > 0 then (if WeekDayOf(n - 1) == 6 then 0 else WeekDayOf(n - 1) + 1)
    else (if WeekDayOf(n + 1) == 0 then 6 else WeekDayOf(n + 1) - 1)
  }

  lemma {:induction false} WeekDayIsModulo(n: int)
    ensures WeekDayOf(n) == (n + 4) % 7
    decreases if n >= 0 then n else -n
  {
    if n > 0 {
      WeekDayIsModulo(n - 1);
    } else if n < 0 {
      WeekDayIsModulo(n + 1);
    }
  }

  lemma {:induction false} DaysBeforeYearGrows(y1: int, y2: int)
    requires y1 <= y2
    ensures DaysBeforeYear(y1) + 365 * (y2 - y1) <= DaysBeforeYear(y2)
    decreases y2 - y1
  {
    if y1 < y2 {
      DaysBeforeYearGrows(y1, y2 - 1);
    }
  }

  lemma {:induction false} DaysBeforeMonthGrows(year: int, m1: int, m2: int)
    requires 1 <= m1 < m2 <= 12
    ensures DaysBeforeMonth(year, m1) + MonthLength(year, m1) <= DaysBeforeMonth(year, m2)
    decreases m2
  {
    if m1 < m2 - 1 {
      DaysBeforeMonthGrows(year, m1, m2 - 1);
    }
  }

  lemma DayOfYearInYear(year: int, month: int, day: int)
    requires ValidDate(year, month, day)
    ensures 0 <= DaysBeforeMonth(year, month) + day - 1 < YearLength(year)
  {
    MonthsMakeTheYear(year);
    if month < 12 {
      DaysBeforeMonthGrows(year, month, 12);
    }
    if month > 1 {
      DaysBeforeMonthGrows(year, 1, month);
    }
  }

  lemma MonthsMakeTheYear(year: int)
    ensures DaysBeforeMonth(year, 12) + MonthLength(year, 12) == YearLength(year)
  {
    assert DaysBeforeMonth(year, 4) == MonthLength(year, 2) + 62;
    assert DaysBeforeMonth(year, 8) == DaysBeforeMonth(year, 4) + 122;
  }

  lemma LaterYearIsLater(y1: int, m1: int, d1: int, y2: int, m2: int, d2: int)
    requires ValidDate(y1, m1, d1) && ValidDate(y2, m2, d2) && y1 < y2
    ensures DayNumber(y1, m1, d1) < DayNumber(y2, m2, d2)
  {
    DayOfYearInYear(y1, m1, d1);
    DayOfYearInYear(y2, m2, d2);
    DaysBeforeYearGrows(y1 + 1, y2);
  }

  // No two dates share a day number: the calendar names each day once.
  lemma DayNumberIsInjective(y1: int, m1: int, d1: int, y2: int, m2: int, d2: int)
    requires ValidDate(y1, m1, d1) && ValidDate(y2, m2, d2)
    requires DayNumber(y1, m1, d1) == DayNumber(y2, m2, d2)
    ensures y1 == y2 && m1 == m2 && d1 == d2
  {
    if y1 < y2 {
      LaterYearIsLater(y1, m1, d1, y2, m2, d2);
    } else if y2 < y1 {
      LaterYearIsLater(y2, m2, d2, y1, m1, d1);
    } else if m1 < m2 {
      DaysBeforeMonthGrows(y1, m1, m2);
    } else if m2 < m1 {
      DaysBeforeMonthGrows(y1, m2, m1);
    }
  }

  // The year a day number falls in.
  ghost function YearOf(n: int): (year: int)
    ensures DaysBeforeYear(year) <= n < DaysBeforeYear(year + 1)
  {
    if n >= 0 then YearFrom(n, 1970) else YearBackFrom(n, 1970)
  }

  lemma YearOfDate(year: int, month: int, day: int)
    requires ValidDate(year, month, day)
    ensures YearOf(DayNumber(year, month, day)) == year
  {
    var n := DayNumber(year, month, day);
    DayOfYearInYear(year, month, day);
    if YearOf(n) < year {
      DaysBeforeYearGrows(YearOf(n) + 1, year);
    } else if YearOf(n) > year {
      DaysBeforeYearGrows(year + 1, YearOf(n));
    }
  }

  ghost function YearFrom(n: int, start: int): (year: int)
    requires DaysBeforeYear(start) <= n && start >= 1970
    ensures start <= year && DaysBeforeYear(year) <= n < DaysBeforeYear(year + 1)
    decreases n - DaysBeforeYear(start)
  {
    if n < DaysBeforeYear(start + 1) then start else YearFrom(n, start + 1)
  }

  ghost function YearBackFrom(n: int, end: int): (year: int)
    requires n < DaysBeforeYear(end) && end <= 1970
    ensures year < end && DaysBeforeYear(year) <= n < DaysBeforeYear(year + 1)
    decreases DaysBeforeYear(end) - n
  {
    if n >= DaysBeforeYear(end - 1) then end - 1 else YearBackFrom(n, end - 1)
  }
}
