/** MonaBase's Date: milliseconds since 1970 to calendar fields and back. */
module DateModel {
  import opened CArithmetic
  import opened Calendar

  const GMT: int := 0x7FFF_FFFF
  const LOCAL: int := -0x8000_0000

  const MONTH_DAYS: seq<seq<int>> := [
    [0, 31, 59, 90, 120, 151, 181, 212, 243, 273, 304, 334],
    [0, 31, 60, 91, 121, 152, 182, 213, 244, 274, 305, 335]
  ]

  function LeapYears(year: int): int {
    var result := TruncDiv(year, 4) - TruncDiv(year, 100) + TruncDiv(year, 400) - 477;
    if year <= 0 then result - 1 else result
  }

  // The correction LeapYears needs at its own year: a positive leap year is already counted,
  // a leap year from 0 downwards is not.
  function CountedItself(year: int): int {
    if year > 0 && IsLeapYear(year) then 1 else 0
  }

  lemma QuotientStep(n: nat, d: nat)
    requires d > 1
    ensures (n + 1) / d == n / d + if (n + 1) % d == 0 then 1 else 0
  {
    var q, r := n / d, n % d;
    if r + 1 == d {
      assert n + 1 == d * (q + 1);
      DivisionIs(n + 1, d, q + 1, 0);
    } else {
      DivisionIs(n + 1, d, q, r + 1);
    }
  }

  lemma MultiplesMirror(n: int, d: nat)
    requires d > 0 && n % d == 0
    ensures -n % d == 0
  {
    assert -n == d * -(n / d);
    DivisionIs(-n, d, -(n / d), 0);
  }

  // Moving up one year, a truncated quotient grows when it reaches a multiple from below zero's
  // far side: at the multiple itself above zero, one year after it below.
  lemma TruncDivStep(year: int, d: nat)
    requires d > 1
    ensures TruncDiv(year + 1, d) == TruncDiv(year, d)
         + (if year >= 0 then (if (year + 1) % d == 0 then 1 else 0) else (if year % d == 0 then 1 else 0))
  {
    if year >= 0 {
      QuotientStep(year, d);
    } else {
      QuotientStep(-year - 1, d);
      if year % d == 0 {
        MultiplesMirror(year, d);
      } else if -year % d == 0 {
        MultiplesMirror(-year, d);
      }
      DivisionIs(0, d, 0, 0);
    }
  }

  lemma MultiplesNest(year: int)
    ensures year % 400 == 0 ==> year % 100 == 0
    ensures year % 100 == 0 ==> year % 4 == 0
  {
    if year % 400 == 0 {
      DivisionIs(year, 100, 4 * (year / 400), 0);
    }
    if year % 100 == 0 {
      DivisionIs(year, 4, 25 * (year / 100), 0);
    }
  }

  lemma LeapYearsStep(year: int)
    ensures LeapYears(year + 1) - CountedItself(year + 1)
         == LeapYears(year) - CountedItself(year) + (if IsLeapYear(year) then 1 else 0)
    ensures LeapYears(year) <= LeapYears(year + 1) <= LeapYears(year) + 1
  {
    TruncDivStep(year, 4);
    TruncDivStep(year, 100);
    TruncDivStep(year, 400);
    MultiplesNest(year);
    MultiplesNest(year + 1);
  }

  // LeapYears counts leap years: it turns 365 days a year into the calendar's own sum.
  lemma {:induction false} LeapYearsCounts(year: int)
    ensures DaysBeforeYear(year) == 365 * (year - 1970) + LeapYears(year) - CountedItself(year)
    decreases if year >= 1970 then year - 1970 else 1970 - year
  {
    if year > 1970 {
      LeapYearsCounts(year - 1);
      LeapYearsStep(year - 1);
    } else if year < 1970 {
      LeapYearsCounts(year + 1);
      LeapYearsStep(year);
    }
  }

  lemma {:induction false} LeapYearsGrows(y1: int, y2: int)
    requires y1 <= y2
    ensures LeapYears(y1) <= LeapYears(y2) <= LeapYears(y1) + (y2 - y1)
    decreases y2 - y1
  {
    if y1 < y2 {
      LeapYearsGrows(y1, y2 - 1);
      LeapYearsStep(y2 - 1);
    }
  }

  lemma MonthDaysSumMonths(year: int, month: int)
    requires 1 <= month <= 12
    ensures MONTH_DAYS[if IsLeapYear(year) then 1 else 0][month - 1] == DaysBeforeMonth(year, month)
    decreases month
  {
    if month > 1 {
      MonthDaysSumMonths(year, month - 1);
    }
  }

  // One turn of the year search: the year (after 1970) the guess leads to.
  function Guess(days: int, year: int): int {
    TruncDiv(days + year - LeapYears(year + 1970), 366)
  }

  lemma GuessAscends(days: int, year: int)
    requires days >= 1 && 0 <= year <= YearOf(days - 1) - 1970
    ensures var z := YearOf(days - 1) - 1970;
            if year < z then year < Guess(days, year) <= z else Guess(days, year) == z
  {
    var z := YearOf(days - 1) - 1970;
    LeapYearsCounts(z + 1970);
    LeapYearsCounts(z + 1971);
    LeapYearsStep(z + 1970);
    LeapYearsGrows(year + 1970, z + 1970);
    if year < z {
      LeapYearsStep(z + 1969);
      LeapYearsGrows(year + 1970, z + 1969);
    }
    QuotientBracket(days + year - LeapYears(year + 1970), if year < z then year + 1 else z, z);
  }

  lemma QuotientBracket(n: int, low: int, high: int)
    requires 0 <= low && 366 * low <= n < 366 * high + 366
    ensures low <= TruncDiv(n, 366) <= high
  {
  }

  // Where the search settles before 1970: the year after the wanted one, except on the first
  // of January when the 366 days of one of the two years leave room for the wanted one only.
  ghost function SettlingYear(days: int): int
    requires days < 0
  {
    var year := YearOf(days);
    if days == DaysBeforeYear(year) && (IsLeapYear(year) || CountedItself(year + 1) == 1)
    then year - 1970 else year - 1969
  }

  // Below zero a quotient by 366 is found by bracketing the dividend.
  lemma TruncDivBracket(n: int, low: int, high: int)
    requires high <= 0 && 366 * low - 365 <= n <= 366 * high
    ensures low <= TruncDiv(n, 366) <= high
  {
  }

  lemma SettlingYearBounds(days: int)
    requires days < 0
    ensures var z := SettlingYear(days);
            && 365 * z + LeapYears(z + 1970) - 365 <= days <= 365 * z + LeapYears(z + 1970)
            && days < 365 * z + LeapYears(z + 1971)
  {
    var wanted := YearOf(days);
    YearLimits(wanted);
    if days == DaysBeforeYear(wanted) && (IsLeapYear(wanted) || CountedItself(wanted + 1) == 1) {
      assert SettlingYear(days) + 1970 == wanted;
    } else {
      assert SettlingYear(days) + 1970 == wanted + 1;
    }
  }

  lemma YearLimits(year: int)
    ensures var y, here, next := year - 1970, LeapYears(year), LeapYears(year + 1);
            && 365 * y + here - 1 <= DaysBeforeYear(year) <= 365 * y + here
            && 365 * y + 364 + next <= DaysBeforeYear(year + 1) <= 365 * y + 365 + next
            && DaysBeforeYear(year + 1) <= 365 * y + 365 + LeapYears(year + 2)
            && DaysBeforeYear(year)
               == 365 * y + next - (if IsLeapYear(year) || CountedItself(year + 1) == 1 then 1 else 0)
  {
    LeapYearsCounts(year);
    LeapYearsCounts(year + 1);
    NextLeapYears(year);
    NextLeapYears(year + 1);
  }

  // How the count of leap years moves on, as far as the limits of a year need it.
  lemma NextLeapYears(year: int)
    ensures LeapYears(year) <= LeapYears(year + 1)
    ensures LeapYears(year + 1) - CountedItself(year + 1)
         == LeapYears(year) - CountedItself(year) + (if IsLeapYear(year) then 1 else 0)
    ensures IsLeapYear(year) ==> CountedItself(year + 1) == 0
  {
    LeapYearsStep(year);
    if IsLeapYear(year) {
      AfterLeapYear(year);
    }
  }

  lemma AfterLeapYear(year: int)
    requires IsLeapYear(year)
    ensures !IsLeapYear(year + 1)
  {
    MultiplesNest(year);
    DivisionIs(year + 1, 4, year / 4, 1);
    MultiplesNest(year + 1);
  }

  lemma GuessDescends(days: int, year: int)
    requires days < 0 && SettlingYear(days) <= year <= 0
    ensures var z := SettlingYear(days);
            if year > z then z <= Guess(days, year) < year else Guess(days, year) == z
  {
    var z := SettlingYear(days);
    SettlingYearBounds(days);
    LeapYearsGrows(z + 1970, year + 1970);
    if year > z {
      LeapYearsGrows(z + 1971, year + 1970);
    }
    TruncDivBracket(days + year - LeapYears(year + 1970), z, if year > z then year - 1 else z);
  }

  // Where the search settles, from either side of 1970.
  ghost function Settled(days: int): int
    requires days != 0
  {
    if days > 0 then YearOf(days - 1) - 1970 else SettlingYear(days)
  }

  lemma SettledSide(days: int)
    requires days != 0
    ensures if days > 0 then 0 <= Settled(days) else Settled(days) <= 0
  {
  }

  // Each turn brings the search nearer, and never too far; no other year ends it.
  lemma GuessMoves(days: int, year: int)
    requires days != 0 && if days > 0 then 0 <= year <= Settled(days) else Settled(days) <= year <= 0
    ensures var z := Settled(days);
            if year < z then year < Guess(days, year) <= z
            else if year > z then z <= Guess(days, year) < year
            else Guess(days, year) == z
  {
    if days > 0 {
      GuessAscends(days, year);
    } else {
      GuessDescends(days, year);
    }
  }

  lemma TruncModIsRest(n: int)
    ensures TruncMod(n, 366) == n - 366 * TruncDiv(n, 366)
  {
  }

  // What is left of the days once the search has settled, on either side of 1970.
  lemma RestOfSearch(start: int, year: int)
    requires start != 0 && year == Guess(start, year)
    requires year == Settled(start)
    ensures TruncMod(start + year - LeapYears(year + 1970), 366)
         == start - DaysBeforeYear(year + 1970) - CountedItself(year + 1970)
  {
    TruncModIsRest(start + year - LeapYears(year + 1970));
    LeapYearsCounts(year + 1970);
  }

  lemma YearOfNegative(start: int, year: int)
    requires start < 0 && year == SettlingYear(start)
    ensures YearOf(start) == if start < DaysBeforeYear(year + 1970) then year + 1969 else year + 1970
  {
  }

  datatype Fields = Fields(year: int, month: int, day: int,
                           hour: int, minute: int, second: int, millisecond: int)
  {
    ghost predicate InRange() {
      && ValidDate(year, month, day)
      && 0 <= hour < 24 && 0 <= minute < 60 && 0 <= second < 60 && 0 <= millisecond < 1000
    }

    function Clock(): int {
      hour * 3_600_000 + minute * 60_000 + second * 1000 + millisecond
    }

    // Milliseconds since 1970 on a clock that runs `offset` ahead of GMT.
    ghost function Instant(offset: int): int
      requires 1 <= month <= 12
    {
      DayNumber(year, month, day) * 86_400_000 + Clock() - offset
    }
  }

  // An instant has one reading only, before 1970 and before year 0 as well.
  lemma InstantHasOneReading(f: Fields, g: Fields, offset: int)
    requires f.InRange() && g.InRange()
    requires f.Instant(offset) == g.Instant(offset)
    ensures f == g
  {
    var m, n := DayNumber(f.year, f.month, f.day), DayNumber(g.year, g.month, g.day);
    assert m == n;
    DayNumberIsInjective(f.year, f.month, f.day, g.year, g.month, g.day);
  }

  // The day of an instant is the one its fields name.
  lemma DayOfFields(f: Fields, offset: int)
    requires f.InRange()
    ensures (f.Instant(offset) + offset) / 86_400_000 == DayNumber(f.year, f.month, f.day)
  {
    DivisionIs(f.Instant(offset) + offset, 86_400_000, DayNumber(f.year, f.month, f.day), f.Clock());
  }

  lemma WeekDayTold(f: Fields, offset: int, d: int)
    requires 1 <= f.month <= 12 && d == WeekDayOf((f.Instant(offset) + offset) / 86_400_000)
    ensures 0 <= d < 7 && (f.InRange() ==> d == WeekDayOf(DayNumber(f.year, f.month, f.day)))
  {
    WeekDayIsModulo((f.Instant(offset) + offset) / 86_400_000);
    if f.InRange() {
      DayOfFields(f, offset);
    }
  }

  // A day and a time of day make the instant they were taken from.
  lemma FieldsOfInstant(f: Fields, local: int, offset: int)
    requires 1 <= f.month <= 12 && DayNumber(f.year, f.month, f.day) == local / 86_400_000
    requires f.Clock() == local - local / 86_400_000 * 86_400_000
    ensures f.Instant(offset) == local - offset
  {
  }

  // An answer of the zone table.
  datatype ZoneEntry = ZoneEntry(offset: int, isDST: bool) {
    predicate IsOffset() {
      LOCAL < offset < GMT
    }
  }

  class Date {
    var instant: int
    var year: int
    var month: int
    var day: int
    var weekDay: int
    var hour: int
    var minute: int
    var second: int
    var millisecond: int
    var offset: int
    var isLocal: bool
    var isDST: bool
    var changed: bool

    // The offset in use: the distinguished value GMT stands for none.
    function Offset(): int
      reads this
    {
      if offset == GMT then 0 else offset
    }

    function View(): Fields
      reads this
    {
      Fields(year, month, day, hour, minute, second, millisecond)
    }

    // What the fields mean, counted by the reference calendar.
    ghost function Instant(): int
      requires 1 <= month <= 12
      reads this
    {
      View().Instant(Offset())
    }

    // A date whose fields were not touched stores its own instant. Day 0 marks a date that has no
    // value yet; all of them are local, whatever offset they were made with.
    ghost predicate Valid()
      reads this
    {
      && FitsInt32(offset) && offset != LOCAL
      && 0 <= day <= 31 && 0 <= millisecond < 1000
      && (if day == 0 then changed && isLocal && 0 <= month <= 12 else 1 <= month <= 12)
      && (day != 0 && !changed ==> instant == Instant())
      && (day != 0 && !changed && weekDay != 7 ==> weekDay == WeekDayOf((instant + Offset()) / 86_400_000))
    }

    // The present time, which a date without a value reads, fits 64 bits.
    predicate CanRead(now: int)
      reads this
    {
      FitsInt64(now) && (day == 0 ==> FitsInt64(now + Offset()))
    }

    constructor (offset: int)
      requires FitsInt32(offset) && offset != LOCAL
      ensures Valid() && day == 0 && month == 0 && this.offset == offset
    {
      this.offset := offset;
      instant, year, month, day, weekDay := 0, 0, 0, 0, 7;
      hour, minute, second, millisecond := 0, 0, 0, 0;
      isLocal, isDST, changed := true, false, true;
    }

    // The loop that looks for the year, from 1970 upwards or downwards.
    static method SearchYear(start: int) returns (year: int, days: int)
      requires start != 0
      ensures year == Guess(start, year)
      ensures days == start + year - LeapYears(year + 1970)
      ensures year == Settled(start)
    {
      var candidate, delta := 0, 0;
      days := start;
      year := TruncDiv(days, 366);
      SettledSide(start);
      while year != candidate
        invariant delta == candidate - LeapYears(candidate + 1970)
        invariant days == start + delta
        invariant year == Guess(start, candidate)
        invariant if start > 0 then 0 <= candidate <= Settled(start) else Settled(start) <= candidate <= 0
        decreases if start > 0 then Settled(start) - candidate else candidate - Settled(start)
      {
        GuessMoves(start, candidate);
        days := days - delta;
        delta := year - LeapYears(year + 1970);
        days := days + delta;
        candidate := year;
        year := TruncDiv(days, 366);
      }
      GuessMoves(start, candidate);
    }
  
    // The rest of the division by 366 says how far into the year, or how far before its end.
    static method YearAndDay(time: int, dayNumber: int) returns (year: int, dayOfYear: int, isLeap: bool)
      requires dayNumber == time / 86_400_000
      ensures year == YearOf(dayNumber) && isLeap == IsLeapYear(year)
      ensures dayOfYear == dayNumber - DaysBeforeYear(year) + 1
    {
      var days := dayNumber;
      if time >= 0 {
        days := days + 1;
      }
      year, days := SearchYear(days);
      RestOfSearch(if time >= 0 then dayNumber + 1 else dayNumber, year);
      if time >= 0 {
        assert year + 1970 > 0 by {
          if year < -1 { DaysBeforeYearGrows(year + 1971, 1970); }
        }
      } else {
        YearOfNegative(dayNumber, year);
      }
      days := TruncMod(days, 366);
      year := year + 1970;
      var reached := year;
      isLeap := IsLeapYear(year);
      if time < 0 {
        if year > 0 && isLeap {
          days := days + 1;
        }
        if days < 0 {
          year := year - 1;
        }
        days := days + 1;
      }
      if year != reached {
        isLeap := IsLeapYear(year);
      }
      if time >= 0 {
        if isLeap {
          days := days + 1;
        }
      } else if days <= 0 {
        days := days + (if isLeap then 366 else 365);
      }
      dayOfYear := days;
    }
  
    static method MonthAndDay(ghost year: int, dayOfYear: int, isLeap: bool) returns (month: int, day: int)
      requires isLeap == IsLeapYear(year) && 1 <= dayOfYear <= YearLength(year)
      ensures ValidDate(year, month, day)
      ensures DayNumber(year, month, day) == DaysBeforeYear(year) + dayOfYear - 1
    {
      var table := MONTH_DAYS[if isLeap then 1 else 0];
      var count := 0;
      month := 1;
      while month < 12 && dayOfYear > table[month]
        invariant 1 <= month <= 12
        invariant count == table[month - 1] && count < dayOfYear
        decreases 12 - month
      {
        count := table[month];
        month := month + 1;
      }
      day := dayOfYear - count;
      MonthDaysSumMonths(year, month);
      if month < 12 {
        MonthDaysSumMonths(year, month + 1);
      } else {
        MonthsMakeTheYear(year);
      }
    }

    method ComputeWeekDay(days: int)
      modifies this`weekDay
      ensures weekDay == WeekDayOf(days) && 0 <= weekDay < 7
    {
      var shifted := days + 4;
      var result := shifted;
      if shifted < 0 {
        result := result + 1;
      }
      result := TruncMod(result, 7);
      if shifted < 0 {
        result := result + 6;
      }
      weekDay := result;
      WeekDayIsModulo(days);
    }

    // The time of day of a local time; the remainder of a negative one is lifted by a day.
    method SetClockOf(local: int)
      modifies this`hour, this`minute, this`second, this`millisecond
      ensures 0 <= hour < 24 && 0 <= minute < 60 && 0 <= second < 60 && 0 <= millisecond < 1000
      ensures View().Clock() == local - local / 86_400_000 * 86_400_000
    {
      var time := TruncMod(local, 86_400_000);
      if time < 0 {
        time := time + 86_400_000;
      }
      assert time == local - local / 86_400_000 * 86_400_000;
      hour := time / 3_600_000;
      time := time % 3_600_000;
      minute := time / 60_000;
      time := time % 60_000;
      second := time / 1000;
      millisecond := time % 1000;
    }

    method SetFieldsOf(local: int)
      requires FitsInt64(local)
      modifies this`year, this`month, this`day, this`weekDay, this`hour, this`minute, this`second, this`millisecond
      ensures View().InRange() && FitsInt32(year) && weekDay == WeekDayOf(local / 86_400_000) && 0 <= weekDay < 7
      ensures DayNumber(year, month, day) == local / 86_400_000
      ensures View().Clock() == local - local / 86_400_000 * 86_400_000
    {
      var days := local / 86_400_000;
      ComputeWeekDay(days);
      var isLeap;
      year, days, isLeap := YearAndDay(local, days);
      YearFitsInt32(local / 86_400_000);
      month, day := MonthAndDay(year, days, isLeap);
      SetClockOf(local);
    }

    method Update(time: int, offset: int)
      requires FitsInt64(time) && FitsInt32(offset) && offset != LOCAL
      requires FitsInt64(time + if offset == GMT then 0 else offset)
      modifies this
      ensures Valid() && View().InRange() && !changed && weekDay != 7 && !isLocal && !isDST
      ensures instant == time && this.offset == if offset == GMT then 0 else offset
      ensures FitsInt32(year)
    {
      instant := time;
      changed := false;
      this.offset := offset;
      isLocal, isDST := false, false;
      if this.offset == GMT {
        this.offset := 0;
      }
      SetFieldsOf(time + this.offset);
      FieldsOfInstant(View(), time + this.offset, this.offset);
    }

    static method DaysOf(year: int, month: int, day: int) returns (days: int)
      requires 1 <= month <= 12
      ensures days == DayNumber(year, month, day) + WrapInt32((year - 1970) * 365) - (year - 1970) * 365
    {
      days := day - 1 + LeapYears(year);
      var isLeap := IsLeapYear(year);
      if isLeap && year > 0 {
        days := days - 1;
      }
      days := days + MONTH_DAYS[if isLeap then 1 else 0][month - 1];
      days := days + WrapInt32((year - 1970) * 365);
      MonthDaysSumMonths(year, month);
      LeapYearsCounts(year);
    }

    // Whether the zone table is asked for the offset when the instant is next computed.
    predicate AsksZone()
      reads this
    {
      isLocal && offset != GMT
    }

    // Fields to instant. The product by 365 is made on 32 bits. A local date whose fields changed
    // takes the offset `zone` that the zone table has for them.
    method Time(now: int, zone: ZoneEntry) returns (time: int)
      requires Valid() && CanRead(now) && zone.IsOffset()
      modifies this
      ensures day != 0 && !changed && time == instant
      ensures old(day) == 0 ==> Valid() && View().InRange() && time == now && Offset() == old(Offset())
      ensures old(day) != 0 ==> View() == old(View())
      ensures old(day) != 0 && !old(changed) ==> unchanged(this)
      ensures old(day) != 0 && old(changed) ==> Offset() == if old(AsksZone()) then zone.offset else old(Offset())
      ensures old(day) != 0 && old(changed) ==> isLocal == old(AsksZone()) && offset != GMT
      ensures old(day) != 0 && old(changed) ==>
                time == Instant() + (WrapInt32((year - 1970) * 365) - (year - 1970) * 365) * 86_400_000
      ensures old(day) != 0 && old(changed) ==> weekDay == 7
      ensures old(day) != 0 && old(changed) ==> (Valid() <==> FitsInt32((year - 1970) * 365))
    {
      if day == 0 {
        Update(now, offset);
        return instant;
      }
      if !changed {
        return instant;
      }
      Refresh(zone);
      time := instant;
    }

    // The instant of fields that changed.
    method Refresh(zone: ZoneEntry)
      requires Valid() && day != 0 && changed && zone.IsOffset()
      modifies this
      ensures !changed && weekDay == 7 && View() == old(View()) && isLocal == old(AsksZone())
      ensures FitsInt32(offset) && offset != LOCAL && offset != GMT
      ensures Offset() == if old(AsksZone()) then zone.offset else old(Offset())
      ensures instant == Instant() + (WrapInt32((year - 1970) * 365) - (year - 1970) * 365) * 86_400_000
    {
      var time := DaysOf(year, month, day);
      time := time * 86_400_000 + View().Clock();
      changed := false;
      weekDay := 7;
      if offset == GMT {
        isLocal, isDST := false, false;
        offset := 0;
      } else if isLocal {
        offset, isDST := zone.offset, zone.isDST;
      }
      instant := time - offset;
    }

    // Moving a date of a fixed offset along: the fields read the new instant, with the offset kept.
    method Add(duration: int, now: int, zone: ZoneEntry)
      requires Valid() && day != 0 && (changed ==> FitsInt32((year - 1970) * 365)) && !isLocal
      requires FitsInt64(Instant() + duration) && FitsInt64(Instant() + duration + Offset())
      requires FitsInt64(now) && zone.IsOffset()
      modifies this
      ensures Valid() && View().InRange() && !changed && !isLocal && Offset() == old(Offset())
      ensures Instant() == old(Instant()) + duration
      ensures duration == 0 && old(View().InRange()) ==> View() == old(View())
    {
      var time := Time(now, zone);
      Update(time + duration, offset);
      if duration == 0 && old(View().InRange()) {
        InstantHasOneReading(View(), old(View()), Offset());
      }
    }

    method WeekDay(now: int, zone: ZoneEntry) returns (d: int)
      requires Valid() && CanRead(now) && zone.IsOffset()
      requires day != 0 && changed ==> FitsInt32((year - 1970) * 365)
      modifies this
      ensures Valid() && d == weekDay && day != 0
      ensures old(day) != 0 ==> View() == old(View())
      ensures old(day) != 0 ==> Offset() == if old(changed && AsksZone()) then zone.offset else old(Offset())
      ensures !changed && 0 <= d < 7 && (old(day) != 0 ==> AsksZone() == old(AsksZone()))
      ensures d == WeekDayOf((Instant() + Offset()) / 86_400_000)
      ensures View().InRange() ==> d == WeekDayOf(DayNumber(year, month, day))
    {
      if day == 0 {
        Update(now, offset);
      } else if changed || weekDay == 7 {
        var time := Time(now, zone);
        ComputeWeekDay((time + Offset()) / 86_400_000);
      }
      d := weekDay;
      WeekDayTold(View(), Offset(), d);
    }

    // The offset asked for, as Date::offset gives it: a date whose fields changed is refreshed if
    // the zone table decides.
    method OffsetNow(now: int, zone: ZoneEntry) returns (o: int)
      requires Valid() && CanRead(now) && zone.IsOffset()
      requires day != 0 && changed ==> FitsInt32((year - 1970) * 365)
      modifies this
      ensures Valid() && day != 0 && o == offset == Offset()
      ensures old(day) != 0 ==> View() == old(View()) && isLocal == old(AsksZone())
      ensures old(day) != 0 ==> o == if old(changed && AsksZone()) then zone.offset else old(Offset())
      ensures old(weekDay) != 7 && !old(changed) ==> weekDay == old(weekDay)
    {
      if day == 0 {
        Update(now, offset);
      } else if offset == GMT {
        offset := 0;
        isDST, isLocal := false, false;
      } else if isLocal && changed {
        var time := Time(now, zone);
      }
      o := offset;
    }

    method SetYear(year: int)
      requires Valid()
      modifies this`year, this`changed
      ensures Valid() && View() == old(View()).(year := year)
      ensures changed == (old(changed) || year != old(this.year))
    {
      if day > 0 && year == this.year {
        return;
      }
      changed := true;
      this.year := year;
    }

    method SetMonth(month: int)
      requires Valid()
      modifies this`month, this`changed
      ensures Valid() && 1 <= this.month <= 12
      ensures View() == old(View()).(month := if month < 1 then 1 else if month > 12 then 12 else month)
      ensures changed == (old(changed) || this.month != old(this.month))
    {
      var m := if month < 1 then 1 else if month > 12 then 12 else month;
      if day > 0 && m == this.month {
        return;
      }
      changed := true;
      this.month := m;
    }

    method SetClock(hour: int, minute: int, second: int, millisecond: int)
      requires Valid()
      requires 0 <= hour && 0 <= minute && 0 <= second && 0 <= millisecond
      modifies this`hour, this`minute, this`second, this`millisecond, this`changed, this`instant
      ensures Valid()
      ensures View() == old(View()).(hour := AtMost(hour, 59), minute := AtMost(minute, 59),
                                     second := AtMost(second, 59), millisecond := AtMost(millisecond, 999))
      ensures changed == (old(changed) || old(View()).(millisecond := this.millisecond) != View())
    {
      var h, m, s, ms := AtMost(hour, 59), AtMost(minute, 59), AtMost(second, 59), AtMost(millisecond, 999);
      if !(day > 0 && h == this.hour) {
        changed := true;
        this.hour := h;
      }
      if !(day > 0 && m == this.minute) {
        changed := true;
        this.minute := m;
      }
      if !(day > 0 && s == this.second) {
        changed := true;
        this.second := s;
      }
      SetMillisecond(ms);
    }

    method SetMillisecond(millisecond: int)
      requires Valid() && 0 <= millisecond
      modifies this`millisecond, this`instant
      ensures Valid() && View() == old(View()).(millisecond := AtMost(millisecond, 999))
    {
      var ms := AtMost(millisecond, 999);
      if day > 0 && ms == this.millisecond {
        return;
      }
      if !changed {
        ghost var seconds := DayNumber(year, month, day) * 86_400 + hour * 3600 + minute * 60 + second;
        SameSecondSameDay(seconds, this.millisecond, ms);
        instant := instant - this.millisecond + ms;
      }
      this.millisecond := ms;
    }

    // Days 29 to 31 are cut to the month's length. A date with no value yet first reads the present
    // time for that, which replaces whatever year, month and clock were set before. Otherwise it
    // may still be in month 0.
    method SetDay(day: int, now: int)
      requires Valid() && CanRead(now)
      modifies this
      ensures (Valid() <==> 1 <= month <= 12) && this.day != 0 && Offset() == old(Offset())
      ensures old(this.day) != 0 || day <= 28 ==>
                && offset == old(offset) && isLocal == old(isLocal)
                && View() == old(View()).(day := if 0 < day == old(this.day) then day
                                                 else DayInMonth(old(year), old(month), day))
      ensures old(this.day) == 0 && day > 28 ==>
                && !isLocal && offset != GMT
                && exists f: Fields :: f.InRange() && f.Instant(old(Offset())) == now
                                       && View() == f.(day := DayInMonth(f.year, f.month, day))
      ensures old(this.day) != 0 ==> changed == (old(changed) || this.day != old(this.day))
      ensures old(this.day) == 0 && day <= 28 ==> changed
    {
      if this.day > 0 && day == this.day {
        return;
      }
      if day > 28 && this.day == 0 {
        Update(now, offset);
      }
      var d := CutDay(year, month, day);
      if changed || d != this.day {
        changed := true;
        this.day := d;
      }
    }

    static method CutDay(year: int, month: int, day: int) returns (d: int)
      requires day > 28 ==> 1 <= month <= 12
      ensures d == DayInMonth(year, month, day)
    {
      d := if day < 1 then 1 else AtMost(day, 31);
      if d > 28 {
        if month < 8 {
          if month == 2 {
            if d >= 30 {
              d := 29;
            }
            if d == 29 && !IsLeapYear(year) {
              d := 28;
            }
          } else if d == 31 && month % 2 == 0 {
            d := 30;
          }
        } else if d == 31 {
          if month % 2 == 1 {
            d := 30;
          }
        }
      }
    }

    // The fields stay and the instant moves; the instant kept by an unchanged date is moved by
    // both offsets downwards, which is right for a date that had no offset. A fixed offset other
    // than GMT's leaves a local date local.
    method SetOffset(offset: int)
      requires Valid() && FitsInt32(offset) && offset != LOCAL
      modifies this
      ensures View() == old(View()) && changed == old(changed)
      ensures Offset() == if offset == GMT then 0 else offset
      ensures isLocal == (old(isLocal) && (day == 0 || offset != GMT))
      ensures offset != GMT ==> this.offset == offset
      ensures Valid() <==> old(changed) || old(this.offset) == 0 || (offset == GMT && old(this.offset) == GMT)
    {
      if day == 0 {
        this.offset := offset;
        return;
      }
      if offset == GMT {
        isLocal, isDST := false, false;
        if this.offset == GMT || this.offset == 0 {
          return;
        }
      }
      if !changed {
        instant := instant - this.offset - offset;
      }
      this.offset := offset;
    }

    method SetFields(f: Fields, now: int)
      requires Valid() && f.InRange() && CanRead(now)
      modifies this
      ensures Valid() && day != 0 && Offset() == old(Offset())
      ensures old(day) != 0 || f.day <= 28 ==> View() == f && offset == old(offset) && isLocal == old(isLocal)
      ensures old(day) != 0 ==> changed == (old(changed) || old(View()).(millisecond := f.millisecond) != f)
      ensures old(day) == 0 && f.day <= 28 ==> changed
      ensures old(day) == 0 && f.day > 28 ==>
                !isLocal && offset != GMT && (View() == f <==> PresentAgrees(f, now, old(Offset())))
      ensures old(day) == 0 && f.day > 28 ==>
                exists g: Fields :: g.InRange() && g.Instant(old(Offset())) == now
                                    && View() == g.(day := DayInMonth(g.year, g.month, f.day))
    {
      SetYear(f.year);
      SetMonth(f.month);
      SetClock(f.hour, f.minute, f.second, f.millisecond);
      SetDay(f.day, now);
      if old(day) == 0 && f.day > 28 {
        ghost var present: Fields :| present.InRange() && present.Instant(old(Offset())) == now
                                     && View() == present.(day := DayInMonth(present.year, present.month, f.day));
        PresentAgreesExactly(f, present, now, old(Offset()));
      }
    }

    // All the fields at once, as the parser and the date-and-clock constructor set them.
    method UpdateFields(f: Fields, offset: int, now: int)
      requires Valid() && FitsInt32(offset) && offset != LOCAL
      requires CanRead(now)
      requires f.InRange()
      modifies this
      ensures Offset() == if offset == GMT then 0 else offset
      ensures View() == f <==> old(day) != 0 || f.day <= 28 || PresentAgrees(f, now, old(Offset()))
      ensures offset != GMT ==> this.offset == offset
      ensures isLocal <==> old(isLocal) && offset != GMT && (old(day) != 0 || f.day <= 28)
      ensures old(day) != 0 ==>
                (Valid() <==> || old(changed) || old(View()).(millisecond := f.millisecond) != f
                              || old(this.offset) == 0 || (offset == GMT && old(this.offset) == GMT))
      ensures day != 0 && (old(day) == 0 && f.day <= 28 ==> Valid() && changed)
      ensures old(day) == 0 && f.day > 28 ==> (Valid() <==> changed || old(Offset()) == 0)
      ensures old(day) == 0 && f.day > 28 ==>
                exists g: Fields :: g.InRange() && g.Instant(old(Offset())) == now
                                    && View() == g.(day := DayInMonth(g.year, g.month, f.day))
    {
      SetFields(f, now);
      SetOffset(offset);
    }
  }

  // The year of a present time is one whose days fit 32 bits.
  ghost predicate NearYear(now: int) {
    FitsInt32((YearOf(now / 86_400_000) - 1970) * 365)
  }

  lemma NearFields(f: Fields, now: int)
    requires f.InRange() && f.Instant(0) == now && NearYear(now)
    ensures FitsInt32((f.year - 1970) * 365)
  {
    DayOfFields(f, 0);
    YearOfDate(f.year, f.month, f.day);
  }

  /** A date made of all its fields and a fixed offset has the instant they name if and only if its
      day is above 28 and the present time agrees with it, or its day is at most 28 and the offset
      is GMT's or what the zone table has: below 28 the date stays local, and forgets its offset. */
  method TimeOfNew(f: Fields, offset: int, now: int, later: int, zone: ZoneEntry) returns (time: int)
    requires f.InRange() && FitsInt32((f.year - 1970) * 365) && zone.IsOffset() && LOCAL < offset <= GMT
    requires FitsInt64(now) && NearYear(now)
    requires FitsInt64(later) && FitsInt64(later + if offset == GMT then 0 else offset)
    ensures time == f.Instant(if offset == GMT then 0 else offset)
       <==> if f.day > 28 then PresentAgrees(f, now, 0) else offset == GMT || zone.offset == offset
  {
    var date := new Date(0);
    date.UpdateFields(f, offset, now);
    if f.day > 28 {
      ghost var present: Fields :| present.InRange() && present.Instant(0) == now
                                   && date.View() == present.(day := DayInMonth(present.year, present.month, f.day));
      NearFields(present, now);
      if date.Instant() == f.Instant(date.Offset()) {
        InstantHasOneReading(date.View(), f, date.Offset());
      }
    }
    time := date.Time(later, zone);
  }

  // Noon of 1 January 2005 one hour ahead of GMT, where the zone table says GMT, is an hour late.
  method NewDateIsLocal() returns (time: int)
    ensures time == 1_104_580_800_000 != Fields(2005, 1, 1, 12, 0, 0, 0).Instant(3_600_000)
  {
    var date := new Date(0);
    date.UpdateFields(Fields(2005, 1, 1, 12, 0, 0, 0), 3_600_000, 0);
    time := date.Time(0, ZoneEntry(0, false));
    LeapYearsCounts(2005);
  }

  lemma PresentAgreesExactly(f: Fields, present: Fields, now: int, offset: int)
    requires f.InRange() && present.InRange() && present.Instant(offset) == now
    ensures PresentAgrees(f, now, offset)
       <==> present.(day := DayInMonth(present.year, present.month, f.day)) == f
  {
    if PresentAgrees(f, now, offset) {
      var other: Fields :| other.InRange() && other.Instant(offset) == now && other.(day := f.day) == f;
      InstantHasOneReading(present, other, offset);
    }
  }

  // A date without a value, set to 31 January 2005 while it is 1 January 1970, keeps the present
  // year.
  lemma FreshDateLosesFields()
    ensures !PresentAgrees(Fields(2005, 1, 31, 0, 0, 0, 0), 0, 0)
  {
    var present := Fields(1970, 1, 1, 0, 0, 0, 0);
    assert DayNumber(1970, 1, 1) == 0;
    PresentAgreesExactly(Fields(2005, 1, 31, 0, 0, 0, 0), present, 0, 0);
  }

  // The first of the years whose days no longer fit 32 bits.
  lemma FarYearOverflows(year: int)
    ensures FitsInt32((year - 1970) * 365) <==> -5_881_546 <= year <= 5_885_486
  {
  }

  // Going from one fixed offset to another moves the instant by both.
  method OffsetMovesInstant() returns (date: Date)
    ensures fresh(date) && !date.Valid()
  {
    date := new Date(0);
    date.Update(0, 3_600_000);
    date.SetOffset(7_200_000);
  }

  function DayInMonth(year: int, month: int, day: int): int {
    if day < 1 then 1 else AtMost(day, MonthLength(year, month))
  }

  // The present time reads as the given fields but for the day.
  ghost predicate PresentAgrees(f: Fields, now: int, offset: int) {
    exists present: Fields :: present.InRange() && present.Instant(offset) == now
                              && present.(day := f.day) == f
  }

  function AtMost(x: int, limit: int): int {
    if x > limit then limit else x
  }

  lemma SameSecondSameDay(seconds: int, ms: int, ms': int)
    requires 0 <= ms < 1000 && 0 <= ms' < 1000
    ensures (1000 * seconds + ms) / 86_400_000 == (1000 * seconds + ms') / 86_400_000
  {
    assert (1000 * seconds + ms) / 86_400_000 == seconds / 86_400;
    assert (1000 * seconds + ms') / 86_400_000 == seconds / 86_400;
  }

  // Every 64-bit instant falls in a year that an Int32 can hold.
  lemma YearFitsInt32(n: int)
    requires FitsInt64(n * 86_400_000) || FitsInt64((n + 1) * 86_400_000)
    ensures FitsInt32(YearOf(n))
  {
    var year := YearOf(n);
    if year >= 1970 {
      DaysBeforeYearGrows(1970, year);
    } else {
      DaysBeforeYearGrows(year + 1, 1970);
    }
  }
}
