/** The lock-free calendar conversion, and the week of the year computed from it. */
module Calendar {

  const SECS_DAY: int := 86400

  /** The fields of struct tm. */
  datatype Tm = Tm(year: int, mon: int, mday: int, hour: int, min: int, sec: int, wday: int, yday: int)

  /** C division and remainder, which round towards zero. */
  function Quot(a: int, b: int): int
    requires b > 0
  {
    if a >= 0 then a / b else -((-a) / b)
  }

  function Rem(a: int, b: int): int
    requires b > 0
  {
    a - b * Quot(a, b)
  }

  // ----- the calendar -----

  /** Gregorian leap years. */
  predicate Leap(y: int) { y % 4 == 0 && (y % 100 != 0 || y % 400 == 0) }

  function YearDays(y: int): (d: int)
    ensures 365 <= d <= 366
  {
    if Leap(y) then 366 else 365
  }

  function MonthDays(y: int, m: int): (d: int)
    ensures 28 <= d <= 31
  {
    if m == 1 then (if Leap(y) then 29 else 28)
    else if m == 3 || m == 5 || m == 8 || m == 10 then 30
    else 31
  }

  /** Days from 1 January 1970 to 1 January of a year. */
  function DaysBefore(y: int): (d: int)
    requires y >= 1970
    ensures d >= 0
    decreases y
  {
    if y == 1970 then 0 else DaysBefore(y - 1) + YearDays(y - 1)
  }

  /** Days of a year before a month. */
  function DaysBeforeMonth(y: int, m: int): (d: int)
    requires 0 <= m <= 12
    ensures d >= 0
    decreases m
  {
    if m == 0 then 0 else DaysBeforeMonth(y, m - 1) + MonthDays(y, m - 1)
  }

  lemma MonthsMakeYear(y: int)
    ensures DaysBeforeMonth(y, 12) == YearDays(y)
  {
    assert DaysBeforeMonth(y, 3) == 31 + MonthDays(y, 1) + 31;
    assert DaysBeforeMonth(y, 6) == DaysBeforeMonth(y, 3) + 30 + 31 + 30;
    assert DaysBeforeMonth(y, 9) == DaysBeforeMonth(y, 6) + 31 + 31 + 30;
    assert DaysBeforeMonth(y, 12) == DaysBeforeMonth(y, 9) + 31 + 30 + 31;
  }

  lemma {:induction false} MonthsGrow(y: int, m: int, n: int)
    requires 0 <= m <= n <= 12
    ensures DaysBeforeMonth(y, m) <= DaysBeforeMonth(y, n)
    ensures m < n ==> DaysBeforeMonth(y, m) + MonthDays(y, m) <= DaysBeforeMonth(y, n)
    decreases n - m
  {
    if m < n { MonthsGrow(y, m + 1, n); }
  }

  lemma {:induction false} YearsGrow(y: int, z: int)
    requires 1970 <= y <= z
    ensures y < z ==> DaysBefore(y) + YearDays(y) <= DaysBefore(z)
    decreases z - y
  {
    if y < z { YearsGrow(y + 1, z); }
  }

  // ----- what the fields mean -----

  /** Every field within its range. */
  predicate InRange(tm: Tm) {
    && tm.year >= 70 && 0 <= tm.mon < 12 && 1 <= tm.mday <= MonthDays(tm.year + 1900, tm.mon)
    && 0 <= tm.hour < 24 && 0 <= tm.min < 60 && 0 <= tm.sec < 60
    && 0 <= tm.wday < 7 && 0 <= tm.yday < YearDays(tm.year + 1900)
  }

  /** The second a date and time of day denote, counted from the start of 1970. */
  function SecondsOf(tm: Tm): int
    requires InRange(tm)
  {
    (DaysBefore(tm.year + 1900) + DaysBeforeMonth(tm.year + 1900, tm.mon) + tm.mday - 1) * SECS_DAY
    + tm.hour * 3600 + tm.min * 60 + tm.sec
  }

  /** Day of the year and weekday agree with the date; 1 January 1970 was a Thursday. */
  predicate Consistent(tm: Tm)
    requires InRange(tm)
  {
    && tm.yday == DaysBeforeMonth(tm.year + 1900, tm.mon) + tm.mday - 1
    && tm.wday == (DaysBefore(tm.year + 1900) + tm.yday + 4) % 7
  }

  /** The fields are the date and time of an adjusted time. */
  predicate Denotes(tm: Tm, a: int) { InRange(tm) && Consistent(tm) && SecondsOf(tm) == a }

  // ----- nolocks_localtime -----

  /** The year loop. */
  method YearOf(days0: int) returns (year: int, days: int)
    ensures year >= 1970
    ensures days0 >= 0 ==> days0 == DaysBefore(year) + days && 0 <= days < YearDays(year)
    ensures days0 < 0 ==> year == 1970 && days == days0
  {
    year, days := 1970, days0;
    while YearDays(year) <= days
      invariant year >= 1970
      invariant days0 >= 0 ==> days >= 0 && days0 == DaysBefore(year) + days
      invariant days0 < 0 ==> year == 1970 && days == days0
      decreases days
    {
      days := days - YearDays(year);
      year := year + 1;
    }
  }

  /** The month loop. */
  method MonthOf(year: int, yday: int) returns (mon: int, mday: int)
    requires yday < YearDays(year)
    ensures 0 <= mon < 12
    ensures yday >= 0 ==> 1 <= mday <= MonthDays(year, mon) && yday == DaysBeforeMonth(year, mon) + mday - 1
    ensures yday < 0 ==> mon == 0 && mday == yday + 1
  {
    MonthsMakeYear(year);
    var days := yday;
    mon := 0;
    while days >= MonthDays(year, mon)
      invariant 0 <= mon < 12 && yday == DaysBeforeMonth(year, mon) + days
      invariant yday >= 0 ==> days >= 0
      invariant yday < 0 ==> mon == 0
      decreases 12 - mon
    {
      days := days - MonthDays(year, mon);
      mon := mon + 1;
    }
    mday := days + 1;
  }

  /**
   nolocks_localtime, given the time zone and the daylight flag. The fields are a date exactly when the
   adjusted time is not negative, and then it is the date that denotes it.
   */
  method NolocksLocaltime(t: int, tz: int, dst: int) returns (tm: Tm)
    ensures var a := t - tz + 3600 * dst;
            && (a >= 0 ==> Denotes(tm, a))
            && (a < 0 ==> !InRange(tm))
  {
    var a := t - tz + 3600 * dst;
    var days0 := Quot(a, SECS_DAY);
    var seconds := Rem(a, SECS_DAY);
    var hour := Quot(seconds, 3600);
    var min := Quot(Rem(seconds, 3600), 60);
    var sec := Rem(Rem(seconds, 3600), 60);
    TimeOfDay(a, days0, seconds, hour, min, sec);
    var wday := Rem(days0 + 4, 7);
    var year, yday := YearOf(days0);
    var mon, mday := MonthOf(year, yday);
    tm := Tm(year - 1900, mon, mday, hour, min, sec, wday, yday);
  }

  /** Hours, minutes and seconds make up the time of day; before 1970 one of them or the day is negative. */
  lemma TimeOfDay(a: int, days: int, seconds: int, hour: int, min: int, sec: int)
    requires days == Quot(a, SECS_DAY) && seconds == Rem(a, SECS_DAY)
    requires hour == Quot(seconds, 3600) && min == Quot(Rem(seconds, 3600), 60) && sec == Rem(Rem(seconds, 3600), 60)
    ensures a == days * SECS_DAY + hour * 3600 + min * 60 + sec
    ensures a >= 0 ==> days >= 0 && 0 <= hour < 24 && 0 <= min < 60 && 0 <= sec < 60
    ensures a < 0 ==> days < 0 || hour < 0 || min < 0 || sec < 0
  {
  }

  // ----- a bijection that keeps the order -----

  /** One date before another, field by field. */
  predicate Earlier(x: Tm, y: Tm) {
    x.year < y.year || (x.year == y.year && (x.mon < y.mon || (x.mon == y.mon && (x.mday < y.mday || (x.mday == y.mday &&
    (x.hour < y.hour || (x.hour == y.hour && (x.min < y.min || (x.min == y.min && x.sec < y.sec)))))))))
  }

  /** A day of a year is within the year. */
  lemma DayWithinYear(y: int, mon: int, mday: int)
    requires 0 <= mon < 12 && 1 <= mday <= MonthDays(y, mon)
    ensures 0 < DaysBeforeMonth(y, mon) + mday <= YearDays(y)
  {
    MonthsGrow(y, mon, 12);
    MonthsMakeYear(y);
  }

  lemma LaterYear(x: int, mon: int, mday: int, y: int, mon': int, mday': int)
    requires 1970 <= x < y
    requires 0 <= mon < 12 && 1 <= mday <= MonthDays(x, mon) && 0 <= mon' < 12 && 1 <= mday' <= MonthDays(y, mon')
    ensures DaysBefore(x) + DaysBeforeMonth(x, mon) + mday < DaysBefore(y) + DaysBeforeMonth(y, mon') + mday'
  {
    YearsGrow(x, y);
    DayWithinYear(x, mon, mday);
    DayWithinYear(y, mon', mday');
  }

  lemma LaterMonth(y: int, mon: int, mday: int, mon': int, mday': int)
    requires 0 <= mon < mon' < 12 && 1 <= mday <= MonthDays(y, mon) && mday' >= 1
    ensures DaysBeforeMonth(y, mon) + mday < DaysBeforeMonth(y, mon') + mday'
  {
    MonthsGrow(y, mon, mon');
  }

  lemma DayOrder(x: Tm, y: Tm)
    requires InRange(x) && InRange(y)
    requires x.year < y.year || (x.year == y.year && (x.mon < y.mon || (x.mon == y.mon && x.mday < y.mday)))
    ensures DaysBefore(x.year + 1900) + DaysBeforeMonth(x.year + 1900, x.mon) + x.mday
          < DaysBefore(y.year + 1900) + DaysBeforeMonth(y.year + 1900, y.mon) + y.mday
  {
    if x.year < y.year {
      LaterYear(x.year + 1900, x.mon, x.mday, y.year + 1900, y.mon, y.mday);
    } else if x.mon < y.mon {
      LaterMonth(x.year + 1900, x.mon, x.mday, y.mon, y.mday);
    }
  }

  lemma EarlierIsLess(x: Tm, y: Tm)
    requires InRange(x) && InRange(y) && Earlier(x, y)
    ensures SecondsOf(x) < SecondsOf(y)
  {
    if x.year != y.year || x.mon != y.mon || x.mday != y.mday { DayOrder(x, y); }
  }

  /** Later times have later dates: the conversion is strictly monotone. */
  lemma StrictlyMonotone(x: Tm, y: Tm, a: int, b: int)
    requires Denotes(x, a) && Denotes(y, b)
    ensures a < b <==> Earlier(x, y)
  {
    if Earlier(x, y) { EarlierIsLess(x, y); }
    if Earlier(y, x) { EarlierIsLess(y, x); }
  }

  /** Each second has one date, and each consistent date is the date of its own second. */
  lemma OneDatePerSecond(x: Tm, y: Tm, a: int)
    requires Denotes(x, a) && InRange(y) && Consistent(y)
    ensures SecondsOf(y) == a <==> y == x
  {
    if Earlier(x, y) { EarlierIsLess(x, y); }
    if Earlier(y, x) { EarlierIsLess(y, x); }
  }

  // ----- the week of the year -----

  /** The weekday of 1 January. */
  function JanFirst(y: int): int
    requires y >= 1970
  {
    (DaysBefore(y) + 4) % 7
  }

  lemma WholeWeeks(k: int, x: int)
    ensures (7 * k + x) % 7 == x % 7
  {
  }

  lemma CountBack(first: int, yday: int, wday: int, q: int)
    requires 0 <= first < 7 && 0 <= wday < 7 && yday >= 0 && first + yday == 7 * q + wday
    ensures yday <= wday ==> q == 0
    ensures yday > wday ==> (yday - wday) % 7 == if first == 0 then 0 else 7 - first
  {
  }

  /** Counting back from a weekday to that of 1 January. */
  lemma FirstWeekday(first: int, before: int, yday: int, wday: int)
    requires first == (before + 4) % 7 && wday == (before + yday + 4) % 7 && yday >= 0
    ensures yday <= wday ==> (first + yday) / 7 == 0
    ensures yday > wday ==> (yday - wday) % 7 == if first == 0 then 0 else 7 - first
  {
    var k := (before + 4) / 7;
    assert before + 4 == 7 * k + first;
    WholeWeeks(k, first + yday);
    CountBack(first, yday, wday, (first + yday) / 7);
  }

  /** CDatetime::getWeekOfYear, on whatever fields the conversion left; division truncates. */
  method WeekOfYear(tm: Tm) returns (week: int)
    ensures InRange(tm) && Consistent(tm) ==> week == (JanFirst(tm.year + 1900) + tm.yday) / 7 + 1
    ensures tm.yday <= tm.wday ==> week == 1
  {
    if InRange(tm) && Consistent(tm) {
      FirstWeekday(JanFirst(tm.year + 1900), DaysBefore(tm.year + 1900), tm.yday, tm.wday);
    }
    var m := tm.yday + 1 - (tm.wday + 1);
    if m <= 0 { return 1; }
    var baseWeekDay := 7 - m % 7;
    if baseWeekDay == 7 { baseWeekDay := 0; }
    return Quot(baseWeekDay + tm.yday, 7) + 1;
  }

  function WeekOf(tm: Tm): int
    requires InRange(tm)
  {
    (JanFirst(tm.year + 1900) + tm.yday) / 7 + 1
  }

  lemma NextWeekday(first: int, before: int, yday: int, tomorrow: int, wday: int)
    requires first == (before + 4) % 7 && tomorrow == yday + 1 && wday == (before + tomorrow + 4) % 7
    ensures (first + tomorrow) / 7 == (first + yday) / 7 + if wday == 0 then 1 else 0
  {
    var k := (before + 4) / 7;
    assert before + 4 == 7 * k + first;
    WholeWeeks(k, first + tomorrow);
  }

  /** From one day of a year to the next the week goes up on Sundays and on no other day. */
  lemma WeeksStartOnSundays(x: Tm, y: Tm)
    requires InRange(x) && Consistent(x) && InRange(y) && Consistent(y)
    requires x.year == y.year && y.yday == x.yday + 1
    ensures WeekOf(y) == WeekOf(x) + if y.wday == 0 then 1 else 0
  {
    var first, before := JanFirst(x.year + 1900), DaysBefore(x.year + 1900);
    NextWeekday(first, before, x.yday, y.yday, y.wday);
  }
}
