/** Time values and the proleptic Gregorian calendar, as in sections 20.3.1.2 to 20.3.1.16 of ECMA-262, 6th edition. */
module Calendar {

  const MS_PER_DAY := 86_400_000

  datatype DateTime = DateTime(year: int, month: int, day: int, hour: int, minute: int, second: int, ms: int)

  predicate IsLeap(year: int) {
    year % 4 == 0 && (year % 100 != 0 || year % 400 == 0)
  }

  function DaysInYear(year: int): int {
    if IsLeap(year) then 366 else 365
  }

  function DayFromYear(year: int): int {
    365 * (year - 1970) + (year - 1969) / 4 - (year - 1901) / 100 + (year - 1601) / 400
  }

  /** Days of the year before the given month, counted from 1; month 13 is the whole year. */
  function DaysBefore(month: int, leap: bool): int
    requires 1 <= month <= 13
  {
    (if month == 1 then 0 else if month == 2 then 31 else if month == 3 then 59 else if month == 4 then 90
     else if month == 5 then 120 else if month == 6 then 151 else if month == 7 then 181 else if month == 8 then 212
     else if month == 9 then 243 else if month == 10 then 273 else if month == 11 then 304
     else if month == 12 then 334 else 365)
    + (if leap && month > 2 then 1 else 0)
  }

  function DaysInMonth(year: int, month: int): int
    requires 1 <= month <= 12
  {
    DaysBefore(month + 1, IsLeap(year)) - DaysBefore(month, IsLeap(year))
  }

  predicate RealDate(dt: DateTime) {
    1 <= dt.month <= 12 && 1 <= dt.day <= DaysInMonth(dt.year, dt.month)
  }

  /** A date and time that exists: no thirteenth month, no 30 February, no hour 24. */
  predicate RealDateTime(dt: DateTime) {
    && RealDate(dt)
    && 0 <= dt.hour < 24 && 0 <= dt.minute < 60 && 0 <= dt.second < 60 && 0 <= dt.ms < 1000
  }

  function TimeInDay(dt: DateTime): int {
    ((dt.hour * 60 + dt.minute) * 60 + dt.second) * 1000 + dt.ms
  }

  function DayOf(dt: DateTime): int
    requires 1 <= dt.month <= 12
  {
    DayFromYear(dt.year) + DaysBefore(dt.month, IsLeap(dt.year)) + dt.day - 1
  }

  /** The time value of a date and time, in milliseconds since 1970. */
  function MakeTime(dt: DateTime): int
    requires 1 <= dt.month <= 12
  {
    DayOf(dt) * MS_PER_DAY + TimeInDay(dt)
  }

  lemma YearLength(year: int)
    ensures DayFromYear(year + 1) == DayFromYear(year) + DaysInYear(year)
  {
    Fours(year);
    Hundreds(year);
    FourHundreds(year);
    LeapRules(year);
  }

  lemma Fours(year: int)
    ensures (year - 1968) / 4 == (year - 1969) / 4 + if year % 4 == 0 then 1 else 0
  {
  }

  lemma Hundreds(year: int)
    ensures (year - 1900) / 100 == (year - 1901) / 100 + if year % 100 == 0 then 1 else 0
  {
  }

  lemma FourHundreds(year: int)
    ensures (year - 1600) / 400 == (year - 1601) / 400 + if year % 400 == 0 then 1 else 0
  {
  }

  lemma LeapRules(year: int)
    ensures year % 400 == 0 ==> year % 100 == 0
    ensures year % 100 == 0 ==> year % 4 == 0
  {
  }

  /** The year a day falls into: the largest one that starts no later. */
  function YearUp(day: int, year: int): (y: int)
    requires DayFromYear(year) <= day
    ensures DayFromYear(y) <= day < DayFromYear(y + 1)
    decreases day - DayFromYear(year)
  {
    YearLength(year);
    if day < DayFromYear(year + 1) then year else YearUp(day, year + 1)
  }

  function YearDown(day: int, year: int): (y: int)
    requires day < DayFromYear(year + 1)
    ensures DayFromYear(y) <= day < DayFromYear(y + 1)
    decreases DayFromYear(year + 1) - day
  {
    YearLength(year);
    if DayFromYear(year) <= day then year else YearDown(day, year - 1)
  }

  function YearOf(day: int): (y: int)
    ensures DayFromYear(y) <= day < DayFromYear(y + 1)
  {
    if DayFromYear(1970) <= day then YearUp(day, 1970) else YearDown(day, 1969)
  }

  lemma {:induction false} YearsIncrease(a: int, b: int)
    requires a < b
    ensures DayFromYear(a) < DayFromYear(b)
    decreases b - a
  {
    YearLength(b - 1);
    if a < b - 1 {
      YearsIncrease(a, b - 1);
    }
  }

  lemma YearIsUnique(day: int, a: int, b: int)
    requires DayFromYear(a) <= day < DayFromYear(a + 1)
    requires DayFromYear(b) <= day < DayFromYear(b + 1)
    ensures a == b
  {
    if a + 1 < b {
      YearsIncrease(a + 1, b);
    } else if b + 1 < a {
      YearsIncrease(b + 1, a);
    }
  }

  /** The month a day within a year falls into. */
  function MonthOf(dayInYear: int, leap: bool): (m: int)
    requires 0 <= dayInYear < if leap then 366 else 365
    ensures 1 <= m <= 12 && DaysBefore(m, leap) <= dayInYear < DaysBefore(m + 1, leap)
  {
    if dayInYear < DaysBefore(2, leap) then 1
    else if dayInYear < DaysBefore(3, leap) then 2
    else if dayInYear < DaysBefore(4, leap) then 3
    else if dayInYear < DaysBefore(5, leap) then 4
    else if dayInYear < DaysBefore(6, leap) then 5
    else if dayInYear < DaysBefore(7, leap) then 6
    else if dayInYear < DaysBefore(8, leap) then 7
    else if dayInYear < DaysBefore(9, leap) then 8
    else if dayInYear < DaysBefore(10, leap) then 9
    else if dayInYear < DaysBefore(11, leap) then 10
    else if dayInYear < DaysBefore(12, leap) then 11
    else 12
  }

  lemma MonthsIncrease(a: int, b: int, leap: bool)
    requires 1 <= a < b <= 13
    ensures DaysBefore(a, leap) < DaysBefore(b, leap)
  {
  }

  lemma MonthIsUnique(d: int, a: int, b: int, leap: bool)
    requires 1 <= a <= 12 && DaysBefore(a, leap) <= d < DaysBefore(a + 1, leap)
    requires 1 <= b <= 12 && DaysBefore(b, leap) <= d < DaysBefore(b + 1, leap)
    ensures a == b
  {
    if a + 1 < b {
      MonthsIncrease(a + 1, b, leap);
    } else if b + 1 < a {
      MonthsIncrease(b + 1, a, leap);
    }
  }

  /** Month and day of the month of a day within a year. */
  function MonthAndDay(year: int, dayInYear: int): (date: (int, int))
    requires 0 <= dayInYear < DaysInYear(year)
    ensures 1 <= date.0 <= 12 && 1 <= date.1 <= DaysInMonth(year, date.0)
    ensures DaysBefore(date.0, IsLeap(year)) + date.1 - 1 == dayInYear
  {
    var month := MonthOf(dayInYear, IsLeap(year));
    (month, dayInYear - DaysBefore(month, IsLeap(year)) + 1)
  }

  /** Year, month and day of the month of a day. */
  function DateOf(day: int): (date: (int, int, int))
    ensures 1 <= date.1 <= 12 && 1 <= date.2 <= DaysInMonth(date.0, date.1)
    ensures DayFromYear(date.0) + DaysBefore(date.1, IsLeap(date.0)) + date.2 - 1 == day
  {
    var year := YearOf(day);
    YearLength(year);
    var date := MonthAndDay(year, day - DayFromYear(year));
    (year, date.0, date.1)
  }

  /** Hour, minute, second and millisecond of a time within a day. */
  function ClockOf(inDay: int): (clock: (int, int, int, int))
    requires 0 <= inDay < MS_PER_DAY
    ensures 0 <= clock.0 < 24 && 0 <= clock.1 < 60 && 0 <= clock.2 < 60 && 0 <= clock.3 < 1000
    ensures ((clock.0 * 60 + clock.1) * 60 + clock.2) * 1000 + clock.3 == inDay
  {
    var seconds := inDay / 1000;
    var minutes := seconds / 60;
    (minutes / 60, minutes % 60, seconds % 60, inDay % 1000)
  }

  /** The date and time of a time value. */
  function FromTime(t: int): (dt: DateTime)
    ensures RealDateTime(dt) && MakeTime(dt) == t
  {
    var date, clock := DateOf(t / MS_PER_DAY), ClockOf(t % MS_PER_DAY);
    DateTime(date.0, date.1, date.2, clock.0, clock.1, clock.2, clock.3)
  }

  lemma DayWithinYear(dt: DateTime)
    requires RealDate(dt)
    ensures DayFromYear(dt.year) <= DayOf(dt) < DayFromYear(dt.year + 1)
  {
    YearLength(dt.year);
  }

  lemma SameDaySameYear(a: DateTime, b: DateTime)
    requires RealDate(a) && RealDate(b) && DayOf(a) == DayOf(b)
    ensures a.year == b.year
  {
    DayWithinYear(a);
    DayWithinYear(b);
    YearIsUnique(DayOf(a), a.year, b.year);
  }

  lemma SameDaySameMonth(a: DateTime, b: DateTime)
    requires RealDate(a) && RealDate(b) && DayOf(a) == DayOf(b) && a.year == b.year
    ensures a.month == b.month && a.day == b.day
  {
    MonthIsUnique(DaysBefore(a.month, IsLeap(a.year)) + a.day - 1, a.month, b.month, IsLeap(a.year));
  }

  lemma ClockIsUnique(a: DateTime, b: DateTime)
    requires RealDateTime(a) && RealDateTime(b) && TimeInDay(a) == TimeInDay(b)
    ensures a.hour == b.hour && a.minute == b.minute && a.second == b.second && a.ms == b.ms
  {
  }

  lemma TimeWithinDay(dt: DateTime)
    requires RealDateTime(dt)
    ensures 0 <= TimeInDay(dt) < MS_PER_DAY
  {
  }

  lemma SameTimeSameDay(a: DateTime, b: DateTime)
    requires RealDateTime(a) && RealDateTime(b) && MakeTime(a) == MakeTime(b)
    ensures DayOf(a) == DayOf(b) && TimeInDay(a) == TimeInDay(b)
  {
    TimeWithinDay(a);
    TimeWithinDay(b);
  }

  /** Different existing dates and times have different time values. */
  lemma TimeIsUnique(a: DateTime, b: DateTime)
    requires RealDateTime(a) && RealDateTime(b) && MakeTime(a) == MakeTime(b)
    ensures a == b
  {
    SameTimeSameDay(a, b);
    ClockIsUnique(a, b);
    SameDaySameYear(a, b);
    SameDaySameMonth(a, b);
  }

  /** A time value made from an existing date and time yields it back. */
  lemma FromMadeTime(dt: DateTime)
    requires RealDateTime(dt)
    ensures FromTime(MakeTime(dt)) == dt
  {
    TimeIsUnique(FromTime(MakeTime(dt)), dt);
  }

  // ----- the calendar is the real one -----

  /** The date after another: the next of the month, or the first of the next month or year. */
  function NextDate(dt: DateTime): DateTime
    requires RealDate(dt)
  {
    if dt.day < DaysInMonth(dt.year, dt.month) then dt.(day := dt.day + 1)
    else if dt.month < 12 then dt.(month := dt.month + 1, day := 1)
    else dt.(year := dt.year + 1, month := 1, day := 1)
  }

  lemma MonthLengths(year: int, month: int)
    requires 1 <= month <= 12
    ensures DaysInMonth(year, month)
            == if month == 2 then (if IsLeap(year) then 29 else 28)
               else if month in {4, 6, 9, 11} then 30 else 31
  {
  }

  /** The calendar is anchored at the start of 1 January 1970. */
  lemma Anchored(dt: DateTime)
    requires dt.year == 1970 && dt.month == 1 && dt.day == 1 && TimeInDay(dt) == 0
    ensures MakeTime(dt) == 0
  {
    var start := DayFromYear(dt.year);
    assert start == 0;
  }

  /** From any existing date on, the next day is the next date, and it exists. Together with the anchor this fixes the
      number of every day. */
  lemma DaysFollow(dt: DateTime)
    requires RealDate(dt)
    ensures RealDate(NextDate(dt)) && DayOf(NextDate(dt)) == DayOf(dt) + 1
  {
    var next := NextDate(dt);
    MonthLengths(next.year, next.month);
    if dt.day == DaysInMonth(dt.year, dt.month) && dt.month == 12 {
      YearLength(dt.year);
    }
  }
}
