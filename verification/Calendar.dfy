/**
 The proleptic Gregorian calendar of Seconds Since the Epoch, section 4.16 of the Base Definitions of
 IEEE Std 1003.1-2017, and broken-down time as gmtime gives it.
 */
module Calendar {

  /** tm_year counts from 1900, tm_mon from 0, tm_mday from 1. */
  datatype Tm = Tm(year: int, mon: int, mday: int, hour: int, min: int, sec: int)

  const DAY := 86400

  predicate Leap(year: int) {
    (year + 1900) % 4 == 0 && ((year + 1900) % 100 != 0 || (year + 1900) % 400 == 0)
  }

  /** Days from the Epoch to the first of January, by the formula of the standard. */
  function YearStart(year: int): int {
    (year - 70) * 365 + (year - 69) / 4 - (year - 1) / 100 + (year + 299) / 400
  }

  function YearLength(year: int): int {
    if Leap(year) then 366 else 365
  }

  /** Quotient and remainder, recognised. */
  lemma Divided4(n: int, q: int, r: int)
    requires 0 <= r < 4 && n == 4 * q + r
    ensures n / 4 == q && n % 4 == r
  {
  }

  lemma Divided100(n: int, q: int, r: int)
    requires 0 <= r < 100 && n == 100 * q + r
    ensures n / 100 == q && n % 100 == r
  {
  }

  lemma Divided400(n: int, q: int, r: int)
    requires 0 <= r < 400 && n == 400 * q + r
    ensures n / 400 == q && n % 400 == r
  {
  }

  lemma FourthsStep(n: int)
    ensures (n + 1) / 4 == n / 4 + (if (n + 1) % 4 == 0 then 1 else 0)
  {
    var q, r := n / 4, n % 4;
    if r < 3 { Divided4(n + 1, q, r + 1); } else { Divided4(n + 1, q + 1, 0); }
  }

  lemma HundredthsStep(n: int)
    ensures (n + 1) / 100 == n / 100 + (if (n + 1) % 100 == 0 then 1 else 0)
  {
    var q, r := n / 100, n % 100;
    if r < 99 { Divided100(n + 1, q, r + 1); } else { Divided100(n + 1, q + 1, 0); }
  }

  lemma FourHundredthsStep(n: int)
    ensures (n + 1) / 400 == n / 400 + (if (n + 1) % 400 == 0 then 1 else 0)
  {
    var q, r := n / 400, n % 400;
    if r < 399 { Divided400(n + 1, q, r + 1); } else { Divided400(n + 1, q + 1, 0); }
  }

  /** The formula counts a leap day in exactly the leap years. */
  lemma YearsFollow(year: int)
    ensures YearStart(year + 1) == YearStart(year) + YearLength(year)
  {
    FourthsStep(year - 69);
    HundredthsStep(year - 1);
    FourHundredthsStep(year + 299);
    LeapByRemainders(year);
    hide Leap;
  }

  /** The leap year rule in the terms of the formula's three quotients. */
  lemma LeapByRemainders(year: int)
    ensures Leap(year) <==> (year - 68) % 4 == 0 && (year % 100 != 0 || (year + 300) % 400 == 0)
    ensures (year + 300) % 400 == 0 ==> year % 100 == 0
    ensures year % 100 == 0 ==> (year - 68) % 4 == 0
  {
    Fourths(year);
    Hundredths(year);
    FourHundredths(year);
  }

  lemma Fourths(year: int)
    ensures (year + 1900) % 4 == (year - 68) % 4
    ensures year % 100 == 0 ==> (year - 68) % 4 == 0
  {
    Divided4(year + 1900, (year - 68) / 4 + 492, (year - 68) % 4);
    if year % 100 == 0 { Divided4(year - 68, 25 * (year / 100) - 17, 0); }
  }

  lemma Hundredths(year: int)
    ensures (year + 1900) % 100 == year % 100
    ensures (year + 300) % 400 == 0 ==> year % 100 == 0
  {
    Divided100(year + 1900, year / 100 + 19, year % 100);
    if (year + 300) % 400 == 0 { Divided100(year, 4 * ((year + 300) / 400) - 3, 0); }
  }

  lemma FourHundredths(year: int)
    ensures (year + 1900) % 400 == (year + 300) % 400
  {
    Divided400(year + 1900, (year + 300) / 400 + 4, (year + 300) % 400);
  }

  lemma {:induction false} YearsIncrease(a: int, b: int)
    requires a <= b
    ensures YearStart(a) + 365 * (b - a) <= YearStart(b) <= YearStart(a) + 366 * (b - a)
    decreases b - a
  {
    hide YearStart, Leap;
    if a < b {
      YearsIncrease(a, b - 1);
      YearsFollow(b - 1);
    }
  }

  // ---------- months ----------

  /** Days before month mon of a year; twelve is the end of the year. */
  function MonthStart(leap: bool, mon: int): int
    requires 0 <= mon <= 12
  {
    [0, 31, 59, 90, 120, 151, 181, 212, 243, 273, 304, 334, 365][mon] + (if leap && mon >= 2 then 1 else 0)
  }

  lemma MonthsIncrease(leap: bool, a: int, b: int)
    requires 0 <= a < b <= 12
    ensures MonthStart(leap, a) < MonthStart(leap, b)
  {
  }

  /** Thirty days hath September, April, June and November. */
  lemma MonthLengths(leap: bool, mon: int)
    requires 0 <= mon < 12
    ensures MonthStart(leap, mon + 1) - MonthStart(leap, mon) ==
      if mon == 1 then (if leap then 29 else 28) else if mon == 3 || mon == 5 || mon == 8 || mon == 10 then 30 else 31
    ensures MonthStart(leap, 0) == 0 && MonthStart(leap, 12) == if leap then 366 else 365
  {
  }

  // ---------- broken-down time ----------

  /** A time gmtime can return. */
  predicate IsCalendarTime(tm: Tm) {
    && 0 <= tm.mon < 12
    && 1 <= tm.mday <= MonthStart(Leap(tm.year), tm.mon + 1) - MonthStart(Leap(tm.year), tm.mon)
    && 0 <= tm.hour < 24 && 0 <= tm.min < 60 && 0 <= tm.sec < 60
  }

  function DayOf(tm: Tm): int
    requires 0 <= tm.mon < 12
  {
    YearStart(tm.year) + MonthStart(Leap(tm.year), tm.mon) + tm.mday - 1
  }

  function SecondOfDay(tm: Tm): int {
    tm.hour * 3600 + tm.min * 60 + tm.sec
  }

  /** Seconds since the Epoch. */
  function SecondsOf(tm: Tm): int
    requires 0 <= tm.mon < 12
  {
    DayOf(tm) * DAY + SecondOfDay(tm)
  }

  /** The year a day falls in, searched upward from one that starts no later. */
  function YearFrom(year: int, day: int): (y: int)
    requires YearStart(year) <= day
    ensures YearStart(y) <= day < YearStart(y + 1)
    decreases day - YearStart(year)
  {
    YearsFollow(year);
    if day < YearStart(year + 1) then year else YearFrom(year + 1, day)
  }

  /** A year that starts no later than the day. */
  function EarlyYear(day: int): (y: int)
    ensures YearStart(y) <= day
  {
    var k := if day >= 0 then day / 366 else day / 365;
    assert YearStart(70) == 0;
    if k >= 0 then YearsIncrease(70, 70 + k); 70 + k else YearsIncrease(70 + k, 70); 70 + k
  }

  function MonthFrom(leap: bool, mon: int, yday: int): (m: int)
    requires 0 <= mon < 12 && MonthStart(leap, mon) <= yday < MonthStart(leap, 12)
    ensures 0 <= m < 12 && MonthStart(leap, m) <= yday < MonthStart(leap, m + 1)
    decreases 12 - mon
  {
    if yday < MonthStart(leap, mon + 1) then mon else MonthFrom(leap, mon + 1, yday)
  }

  /** A second of the day as hour, minute and second. */
  lemma ClockParts(second: int)
    requires 0 <= second < DAY
    ensures var h, m, s := second / 3600, second % 3600 / 60, second % 60;
      0 <= h < 24 && 0 <= m < 60 && 0 <= s < 60 && h * 3600 + m * 60 + s == second
  {
    var rest := second % 3600;
    assert rest % 60 == second % 60 by { assert second == second / 3600 * 3600 + rest; }
  }

  /** Broken-down time of a day of a year and a second of the day. */
  function DateOf(year: int, yday: int, second: int): (tm: Tm)
    requires 0 <= yday < YearLength(year) && 0 <= second < DAY
    ensures IsCalendarTime(tm) && DayOf(tm) == YearStart(year) + yday && SecondOfDay(tm) == second
  {
    var leap := Leap(year);
    var mon := MonthFrom(leap, 0, yday);
    ClockParts(second);
    Tm(year, mon, yday - MonthStart(leap, mon) + 1, second / 3600, second % 3600 / 60, second % 60)
  }

  /** Broken-down time of an instant: day and second of day, then year, month and so on. */
  function Gmtime(t: int): (tm: Tm)
    ensures IsCalendarTime(tm) && SecondsOf(tm) == t
  {
    var day, second := t / DAY, t % DAY;
    var year := YearFrom(EarlyYear(day), day);
    YearsFollow(year);
    DateOf(year, day - YearStart(year), second)
  }

  // ---------- order ----------

  /** Comparison field by field, the year first. */
  function Compare(a: Tm, b: Tm): int {
    if a.year != b.year then a.year - b.year
    else if a.mon != b.mon then a.mon - b.mon
    else if a.mday != b.mday then a.mday - b.mday
    else if a.hour != b.hour then a.hour - b.hour
    else if a.min != b.min then a.min - b.min
    else a.sec - b.sec
  }

  lemma DayWithinYear(tm: Tm)
    requires IsCalendarTime(tm)
    ensures YearStart(tm.year) <= DayOf(tm) < YearStart(tm.year + 1)
  {
    hide YearStart, Leap;
    YearsFollow(tm.year);
    if tm.mon < 11 { MonthsIncrease(Leap(tm.year), tm.mon + 1, 12); }
    if tm.mon > 0 { MonthsIncrease(Leap(tm.year), 0, tm.mon); }
  }

  lemma DaysOrdered(a: Tm, b: Tm)
    requires IsCalendarTime(a) && IsCalendarTime(b)
    requires a.year < b.year || (a.year == b.year && (a.mon < b.mon || (a.mon == b.mon && a.mday < b.mday)))
    ensures DayOf(a) < DayOf(b)
  {
    hide YearStart, Leap, MonthStart;
    if a.year < b.year {
      DayWithinYear(a);
      DayWithinYear(b);
      YearsIncrease(a.year + 1, b.year);
    } else if a.mon + 1 < b.mon {
      MonthsIncrease(Leap(a.year), a.mon + 1, b.mon);
    }
  }

  lemma SecondWithinDay(tm: Tm)
    requires IsCalendarTime(tm)
    ensures 0 <= SecondOfDay(tm) < DAY
  {
    hide MonthStart, Leap;
  }

  /** Calendar times are ordered as their instants are. */
  lemma CompareOrders(a: Tm, b: Tm)
    requires IsCalendarTime(a) && IsCalendarTime(b)
    ensures Compare(a, b) < 0 <==> SecondsOf(a) < SecondsOf(b)
    ensures Compare(a, b) == 0 <==> SecondsOf(a) == SecondsOf(b)
    ensures Compare(a, b) == 0 <==> a == b
  {
    SecondWithinDay(a);
    SecondWithinDay(b);
    if Compare(a, b) < 0 { CompareLess(a, b); }
    if Compare(a, b) > 0 { CompareLess(b, a); }
  }

  lemma CompareLess(a: Tm, b: Tm)
    requires IsCalendarTime(a) && IsCalendarTime(b) && Compare(a, b) < 0
    ensures SecondsOf(a) < SecondsOf(b)
  {
    hide YearStart, Leap, MonthStart, DayOf;
    SecondWithinDay(a);
    SecondWithinDay(b);
    if a.year == b.year && a.mon == b.mon && a.mday == b.mday {
      SameDay(a, b);
    } else {
      DaysOrdered(a, b);
    }
  }

  lemma SameDay(a: Tm, b: Tm)
    requires 0 <= a.mon < 12 && a.year == b.year && a.mon == b.mon && a.mday == b.mday
    ensures DayOf(a) == DayOf(b)
  {
  }

  /** gmtime undoes the formula: the calendar and the seconds since the Epoch are two names of one thing. */
  lemma GmtimeInverts(tm: Tm)
    requires IsCalendarTime(tm)
    ensures Gmtime(SecondsOf(tm)) == tm
  {
    CompareOrders(Gmtime(SecondsOf(tm)), tm);
  }

  /** The Epoch is the start of 1970. */
  lemma EpochIs()
    ensures Gmtime(0) == Tm(70, 0, 1, 0, 0, 0)
  {
    hide Gmtime, IsCalendarTime, SecondsOf;
    FirstDay();
    GmtimeInverts(Tm(70, 0, 1, 0, 0, 0));
  }

  lemma Start1970()
    ensures YearStart(70) == 0 && !Leap(70)
  {
    Divided4(1, 0, 1);
    Divided100(69, 0, 69);
    Divided400(369, 0, 369);
    Divided4(1970, 492, 2);
  }

  lemma FirstDay()
    ensures IsCalendarTime(Tm(70, 0, 1, 0, 0, 0)) && SecondsOf(Tm(70, 0, 1, 0, 0, 0)) == 0
  {
    hide YearStart, Leap, MonthStart, DayOf;
    Start1970();
    MonthLengths(false, 0);
    FirstDayNumber(Tm(70, 0, 1, 0, 0, 0));
  }

  lemma FirstDayNumber(tm: Tm)
    requires tm.mon == 0 && tm.mday == 1
    ensures DayOf(tm) == YearStart(tm.year)
  {
    hide YearStart, Leap;
  }

  /** Days are of 24 hours of 60 minutes of 60 seconds from there on. */
  lemma ClockRuns(t: int)
    ensures Gmtime(t).sec == t % 60 && Gmtime(t).min == t / 60 % 60 && Gmtime(t).hour == t / 3600 % 24
  {
    hide DayOf, Gmtime, IsCalendarTime;
    var tm := Gmtime(t);
    ClockInRange(tm);
    var day := DayOf(tm);
    var hours := day * 24 + tm.hour;
    var minutes := hours * 60 + tm.min;
    assert t == minutes * 60 + tm.sec;
    Divided60(t, minutes, tm.sec);
    Divided60(minutes, hours, tm.min);
    Divided3600(t, hours, tm.min * 60 + tm.sec);
    Divided24(hours, day, tm.hour);
  }

  lemma ClockInRange(tm: Tm)
    requires IsCalendarTime(tm)
    ensures 0 <= tm.mon < 12 && 0 <= tm.hour < 24 && 0 <= tm.min < 60 && 0 <= tm.sec < 60
  {
  }

  lemma Divided60(n: int, q: int, r: int)
    requires 0 <= r < 60 && n == 60 * q + r
    ensures n / 60 == q && n % 60 == r
  {
  }

  lemma Divided3600(n: int, q: int, r: int)
    requires 0 <= r < 3600 && n == 3600 * q + r
    ensures n / 3600 == q && n % 3600 == r
  {
  }

  lemma Divided24(n: int, q: int, r: int)
    requires 0 <= r < 24 && n == 24 * q + r
    ensures n / 24 == q && n % 24 == r
  {
  }
}
