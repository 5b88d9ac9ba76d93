/** UTC timestamps (sections 5.6 and 5.7 and Appendix C of RFC 3339) as seconds since 1970. */
module Timestamp {
  import opened Text
  import opened Doubles

  /** What four and two characters can say: a sign is read too. */
  type Year = y: int | -999 <= y <= 9999
  type TwoChars = n: int | -9 <= n <= 99
  /** What is written after the point of the seconds, however many digits it has. */
  type Fraction = f: real | 0.0 <= f < 1.0

  /** The fields of a timestamp. */
  datatype Stamp = Stamp(year: Year, month: TwoChars, day: TwoChars, hour: TwoChars, minute: TwoChars,
                         second: TwoChars, fraction: Fraction)

  predicate IsLeap(year: int) {
    year % 4 == 0 && (year % 100 != 0 || year % 400 == 0)
  }

  function YearLength(year: int): nat {
    if IsLeap(year) then 366 else 365
  }

  function MonthLength(year: int, month: int): nat {
    if month == 2 then (if IsLeap(year) then 29 else 28)
    else if month in {4, 6, 9, 11} then 30
    else 31
  }

  /** The checks of the parser: it has no lower bounds for the time of day. */
  predicate Accepted(t: Stamp) {
    && 1 <= t.month <= 12 && 1 <= t.day <= MonthLength(t.year, t.month)
    && t.hour <= 23 && t.minute <= 59 && t.second <= 59
  }

  /** A timestamp of the standard, as far as the fields go. */
  predicate Valid(t: Stamp) {
    Accepted(t) && t.hour >= 0 && t.minute >= 0 && t.second >= 0
  }

  /** Days of the years from 1970 up to a year; none for earlier years. */
  function DaysBeforeYear(year: int): nat
    decreases year
  {
    if year <= 1970 then 0 else DaysBeforeYear(year - 1) + YearLength(year - 1)
  }

  function DaysBeforeMonth(year: int, month: int): nat
    decreases month
  {
    if month <= 1 then 0 else DaysBeforeMonth(year, month - 1) + MonthLength(year, month - 1)
  }

  function DayNumber(year: int, month: int, day: int): int {
    DaysBeforeYear(year) + DaysBeforeMonth(year, month) + day - 1
  }

  function SecondOfDay(t: Stamp): int {
    t.hour * 3600 + t.minute * 60 + t.second
  }

  /** The instant without the fraction, in seconds. */
  function Whole(t: Stamp): int {
    DayNumber(t.year, t.month, t.day) * 86400 + SecondOfDay(t)
  }

  /** The instant that the timestamp denotes. */
  function Instant(t: Stamp): real {
    Whole(t) as real + t.fraction
  }

  /** What the program makes of it: the fraction is read as a double, and so is the sum. */
  function Seconds(round: real -> real, t: Stamp): real {
    round(Whole(t) as real + round(t.fraction))
  }

  method UtcSeconds(round: real -> real, t: Stamp) returns (seconds: Option<real>)
    ensures seconds == if Accepted(t) then Some(Seconds(round, t)) else None
  {
    hide MonthLength, IsLeap, DayNumber;
    var february := if IsLeap(t.year) then 29 else 28;
    var daysByMonth := [31, february, 31, 30, 31, 30, 31, 31, 30, 31, 30, 31];
    MonthTable(t.year, daysByMonth);
    if !(1 <= t.month <= 12 && 1 <= t.day <= 31 && t.hour <= 23 && t.minute <= 59 && t.second <= 59) {
      return None;
    }
    if t.day > daysByMonth[t.month - 1] {
      return None;
    }
    var fraction := round(t.fraction);
    var days := CountDays(t.year, t.month, t.day, daysByMonth);
    return Some(round((days * 86400 + t.hour * 3600 + t.minute * 60 + t.second) as real + fraction));
  }

  method CountDays(year: int, month: int, day: int, daysByMonth: seq<int>) returns (days: int)
    requires 1 <= month <= 12 && |daysByMonth| == 12
    requires forall m :: 1 <= m <= 12 ==> daysByMonth[m - 1] == MonthLength(year, m)
    ensures days == DayNumber(year, month, day)
  {
    hide MonthLength, IsLeap;
    days := 0;
    if 1970 < year {
      for current := 1970 to year
        invariant days == DaysBeforeYear(current)
      {
        days := days + (if IsLeap(current) then 366 else 365);
      }
    }
    ghost var years := days;
    for m := 1 to month
      invariant days == years + DaysBeforeMonth(year, m)
    {
      days := days + daysByMonth[m - 1];
    }
    days := days + day - 1;
  }

  lemma MonthTable(year: int, table: seq<int>)
    requires table == [31, if IsLeap(year) then 29 else 28, 31, 30, 31, 30, 31, 31, 30, 31, 30, 31]
    ensures |table| == 12 && forall m :: 1 <= m <= 12 ==> 28 <= table[m - 1] == MonthLength(year, m) <= 31
  {
    hide IsLeap;
  }

  // ----- the day count is the Gregorian one -----

  /** Leap years up to and including a year. */
  function LeapsUpTo(year: int): int {
    year / 4 - year / 100 + year / 400
  }

  lemma LeapsStep(year: int)
    requires year > 0
    ensures LeapsUpTo(year) == LeapsUpTo(year - 1) + (if IsLeap(year) then 1 else 0)
  {
    assert year / 4 == (year - 1) / 4 + (if year % 4 == 0 then 1 else 0);
    assert year / 100 == (year - 1) / 100 + (if year % 100 == 0 then 1 else 0);
    assert year / 400 == (year - 1) / 400 + (if year % 400 == 0 then 1 else 0);
    assert (year % 400 == 0 ==> year % 100 == 0) && (year % 100 == 0 ==> year % 4 == 0);
  }

  /** The year loop computes the closed form. */
  lemma {:induction false} YearLoopIsGregorian(year: int)
    requires year >= 1970
    ensures DaysBeforeYear(year) == 365 * (year - 1970) + LeapsUpTo(year - 1) - LeapsUpTo(1969)
  {
    if year > 1970 {
      YearLoopIsGregorian(year - 1);
      LeapsStep(year - 1);
    }
  }

  predicate ValidDate(year: int, month: int, day: int) {
    1 <= month <= 12 && 1 <= day <= MonthLength(year, month)
  }

  function NextDay(year: int, month: int, day: int): (int, int, int) {
    if day < MonthLength(year, month) then (year, month, day + 1)
    else if month < 12 then (year, month + 1, 1)
    else (year + 1, 1, 1)
  }

  lemma MonthsFillYear(year: int)
    ensures DaysBeforeMonth(year, 12) + MonthLength(year, 12) == YearLength(year)
  {
    assert DaysBeforeMonth(year, 4) == 59 + (if IsLeap(year) then 1 else 0) + 31 by {
      assert DaysBeforeMonth(year, 2) == 31;
      assert DaysBeforeMonth(year, 3) == 31 + MonthLength(year, 2);
    }
    assert DaysBeforeMonth(year, 7) == DaysBeforeMonth(year, 4) + 91 by {
      assert DaysBeforeMonth(year, 6) == DaysBeforeMonth(year, 4) + 61;
    }
    assert DaysBeforeMonth(year, 10) == DaysBeforeMonth(year, 7) + 92 by {
      assert DaysBeforeMonth(year, 9) == DaysBeforeMonth(year, 7) + 62;
    }
    assert DaysBeforeMonth(year, 12) == DaysBeforeMonth(year, 10) + 61;
  }

  /** From 1970 on, consecutive days have consecutive numbers, starting at zero. */
  lemma DaysAreNumbered(year: int, month: int, day: int)
    requires year >= 1970 && ValidDate(year, month, day)
    ensures var (y, m, d) := NextDay(year, month, day);
            ValidDate(y, m, d) && DayNumber(y, m, d) == DayNumber(year, month, day) + 1
    ensures DayNumber(1970, 1, 1) == 0
  {
    MonthsFillYear(year);
  }

  // ----- order -----

  predicate DateBefore(a: Stamp, b: Stamp) {
    a.year < b.year || (a.year == b.year && (a.month < b.month || (a.month == b.month && a.day < b.day)))
  }

  predicate SameDate(a: Stamp, b: Stamp) {
    a.year == b.year && a.month == b.month && a.day == b.day
  }

  predicate TimeBefore(a: Stamp, b: Stamp) {
    a.hour < b.hour
    || (a.hour == b.hour
        && (a.minute < b.minute
            || (a.minute == b.minute
                && (a.second < b.second || (a.second == b.second && a.fraction < b.fraction)))))
  }

  /** Field by field, from the year down to the fraction. */
  predicate Before(a: Stamp, b: Stamp) {
    DateBefore(a, b) || (SameDate(a, b) && TimeBefore(a, b))
  }

  lemma {:induction false} YearsGrow(a: int, b: int)
    requires 1970 <= a < b
    ensures DaysBeforeYear(a) + YearLength(a) <= DaysBeforeYear(b)
  {
    if a + 1 < b {
      YearsGrow(a, b - 1);
    }
  }

  lemma {:induction false} MonthsGrow(year: int, a: int, b: int)
    requires 1 <= a < b <= 12
    ensures DaysBeforeMonth(year, a) + MonthLength(year, a) <= DaysBeforeMonth(year, b)
  {
    hide IsLeap;
    if a + 1 < b {
      MonthsGrow(year, a, b - 1);
    }
  }

  lemma DayOfYear(t: Stamp)
    requires Accepted(t)
    ensures 0 <= DaysBeforeMonth(t.year, t.month) + t.day - 1 < YearLength(t.year)
  {
    hide MonthLength, YearLength, DaysBeforeMonth;
    MonthsFillYear(t.year);
    if t.month < 12 {
      MonthsGrow(t.year, t.month, 12);
    }
  }

  lemma EarlierDayCounts(a: Stamp, b: Stamp)
    requires Valid(a) && Valid(b) && a.year >= 1970 && DateBefore(a, b)
    ensures DayNumber(a.year, a.month, a.day) + 1 <= DayNumber(b.year, b.month, b.day)
  {
    hide DaysBeforeYear, DaysBeforeMonth, MonthLength, YearLength;
    DayOfYear(a);
    DayOfYear(b);
    if a.year < b.year {
      YearsGrow(a.year, b.year);
    } else if a.month < b.month {
      MonthsGrow(a.year, a.month, b.month);
    }
  }

  lemma TimeFitsDay(t: Stamp)
    requires Valid(t)
    ensures 0 <= SecondOfDay(t) <= 86399
  {}

  lemma EarlierTimeCounts(a: Stamp, b: Stamp)
    requires Valid(a) && Valid(b) && TimeBefore(a, b)
    ensures SecondOfDay(a) as real + a.fraction < SecondOfDay(b) as real + b.fraction
  {
    hide MonthLength;
    assert SecondOfDay(a) < SecondOfDay(b) || (SecondOfDay(a) == SecondOfDay(b) && a.fraction < b.fraction);
    if SecondOfDay(a) < SecondOfDay(b) {
      assert SecondOfDay(a) as real + 1.0 <= SecondOfDay(b) as real;
    }
  }

  lemma BeforeCounts(a: Stamp, b: Stamp)
    requires Valid(a) && Valid(b) && a.year >= 1970 && Before(a, b)
    ensures Instant(a) < Instant(b)
  {
    hide Valid, DayNumber, SecondOfDay, DateBefore, TimeBefore;
    TimeFitsDay(a);
    TimeFitsDay(b);
    FractionBounds(a);
    FractionBounds(b);
    var da, db := DayNumber(a.year, a.month, a.day), DayNumber(b.year, b.month, b.day);
    if DateBefore(a, b) {
      EarlierDayCounts(a, b);
      assert da * 86400 + SecondOfDay(a) + 1 <= db * 86400 + SecondOfDay(b);
      assert (da * 86400 + SecondOfDay(a)) as real + 1.0 <= (db * 86400 + SecondOfDay(b)) as real;
    } else {
      EarlierTimeCounts(a, b);
      assert (da * 86400 + SecondOfDay(a)) as real == (da * 86400) as real + SecondOfDay(a) as real;
      assert (da * 86400 + SecondOfDay(b)) as real == (da * 86400) as real + SecondOfDay(b) as real;
    }
  }

  lemma FractionBounds(t: Stamp)
    requires Valid(t)
    ensures 0.0 <= t.fraction < 1.0
  {}

  /** From 1970 on the instants order timestamps exactly as their fields do, so they are injective. */
  lemma InstantsOrderStamps(a: Stamp, b: Stamp)
    requires Valid(a) && Valid(b) && a.year >= 1970 && b.year >= 1970
    ensures Instant(a) < Instant(b) <==> Before(a, b)
    ensures Instant(a) == Instant(b) <==> a == b
  {
    hide Valid, Instant;
    if Before(a, b) {
      BeforeCounts(a, b);
    } else if Before(b, a) {
      BeforeCounts(b, a);
    } else {
      assert a == b;
    }
  }

  /** Before 1970 the year only matters as leap or common: later dates can have fewer seconds. */
  lemma YearsBefore1970Collide(round: real -> real, t: Stamp, year: Year)
    requires t.year < 1970 && year < 1970 && (IsLeap(year) <==> IsLeap(t.year))
    ensures Valid(t.(year := year)) <==> Valid(t)
    ensures Seconds(round, t.(year := year)) == Seconds(round, t)
  {
    SameMonths(t.year, year, t.month);
  }

  lemma {:induction false} SameMonths(a: int, b: int, month: int)
    requires IsLeap(a) <==> IsLeap(b)
    ensures DaysBeforeMonth(a, month) == DaysBeforeMonth(b, month)
  {
    if month > 1 {
      SameMonths(a, b, month - 1);
    }
  }

  function DayInYear(t: Stamp): int {
    DaysBeforeMonth(t.year, t.month) + t.day - 1
  }

  /** Whatever the years, instants compare the day numbers and then the times of day. */
  lemma InstantsCompareDays(a: Stamp, b: Stamp)
    requires Valid(a) && Valid(b)
    ensures var da, db := DayNumber(a.year, a.month, a.day), DayNumber(b.year, b.month, b.day);
      Instant(a) < Instant(b) <==> da < db || (da == db && TimeBefore(a, b))
  {
    hide DayNumber;
    TimeFitsDay(a);
    TimeFitsDay(b);
    var da, db := DayNumber(a.year, a.month, a.day), DayNumber(b.year, b.month, b.day);
    if TimeBefore(a, b) {
      EarlierTimeCounts(a, b);
    } else if TimeBefore(b, a) {
      EarlierTimeCounts(b, a);
    } else {
      assert SecondOfDay(a) == SecondOfDay(b) && a.fraction == b.fraction;
    }
    SplitInstant(a);
    SplitInstant(b);
    if da < db {
      assert da + 1 <= db;
    } else if db < da {
      assert db + 1 <= da;
    }
  }

  lemma SplitInstant(t: Stamp)
    requires Valid(t)
    ensures Instant(t)
         == (DayNumber(t.year, t.month, t.day) as real) * 86400.0 + (SecondOfDay(t) as real + t.fraction)
    ensures 0.0 <= SecondOfDay(t) as real + t.fraction < 86400.0
  {
    hide DayNumber;
    TimeFitsDay(t);
  }

  /** Field by field, with the years before 1970 read as the program reads them: they add no days. */
  predicate CountedInOrder(a: Stamp, b: Stamp) {
    || a.year >= 1970
    || (b.year <= 1970 && (DayInYear(a) < DayInYear(b) || (DayInYear(a) == DayInYear(b) && TimeBefore(a, b))))
    || (b.year > 1970 && (TimeBefore(a, b) || !(DayInYear(a) == 365 && b.year == 1971 && DayInYear(b) == 0)))
  }

  lemma InstantPairIff(a: Stamp, b: Stamp)
    requires Valid(a) && Valid(b) && Before(a, b)
    ensures Instant(a) < Instant(b) <==> CountedInOrder(a, b)
  {
    hide TimeBefore, Instant, MonthLength, DaysBeforeMonth;
    InstantsCompareDays(a, b);
    DayOfYear(a);
    DayOfYear(b);
    if a.year >= 1970 {
      BeforeCounts(a, b);
    } else if b.year > 1971 {
      YearsGrow(1971, b.year);
    }
    assert DaysBeforeYear(1970) == 0 && DaysBeforeYear(1971) == 365;
  }

  /** The missing lower bounds: hour minus one is accepted, and is 23:00 of the day before. */
  lemma NegativeHourIsAccepted(round: real -> real)
    ensures var odd, plain := Stamp(2020, 1, 2, -1, 0, 0, 0.0), Stamp(2020, 1, 1, 23, 0, 0, 0.0);
      Accepted(odd) && !Valid(odd) && Valid(plain) && odd != plain && Seconds(round, odd) == Seconds(round, plain)
  {}

  // ----- the size of the numbers -----

  /** The days from 1970 up to the end of a year, in closed form. */
  function DaysThrough(year: int): int {
    365 * (year - 1969) + LeapsUpTo(year) - LeapsUpTo(1969)
  }

  lemma WholeBelow(t: Stamp, year: int)
    requires Accepted(t) && t.year <= year && year >= 1971
    ensures -9 * 3661 <= Whole(t) < DaysThrough(year) * 86400
    ensures Valid(t) ==> Whole(t) >= 0
  {
    hide DaysBeforeYear, DaysBeforeMonth, MonthLength, YearLength, LeapsUpTo;
    DayOfYear(t);
    YearLoopIsGregorian(year + 1);
    if t.year < 1970 {
      YearsGrow(1971, year + 1);
      NoDaysBefore1970(t.year);
    } else {
      YearsGrow(t.year, year + 1);
    }
    assert DayNumber(t.year, t.month, t.day) + 1 <= DaysThrough(year);
  }

  lemma NoDaysBefore1970(year: int)
    requires year < 1970
    ensures DaysBeforeYear(year) == 0 && YearLength(year) <= 366
    ensures DaysBeforeYear(1971) == 365 && YearLength(1971) == 365
  {
    assert DaysBeforeYear(1970) == 0;
  }
}
