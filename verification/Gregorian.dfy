/** The Gregorian calendar in closed form, which the year and month loops must agree with. */
module Gregorian {
  import opened Calendar

  /** Leap years up to and including a year. */
  function LeapsUpTo(y: int): int { y / 4 - y / 100 + y / 400 }

  lemma LeapStep(y: int)
    ensures LeapsUpTo(y) - LeapsUpTo(y - 1) == if Leap(y) then 1 else 0
  {
    QuotientStep(y, 4);
    QuotientStep(y, 100);
    QuotientStep(y, 400);
  }

  lemma QuotientStep(y: int, n: int)
    requires n in {4, 100, 400}
    ensures y / n - (y - 1) / n == if y % n == 0 then 1 else 0
  {
  }

  /** Days before a year: 365 for each year, one for each fourth, none for each hundredth, one for each four hundredth. */
  lemma {:induction false} DaysBeforeIs(y: int)
    requires y >= 1970
    ensures DaysBefore(y) == 365 * (y - 1970) + (y - 1) / 4 - (y - 1) / 100 + (y - 1) / 400 - 477
    decreases y
  {
    if y > 1970 {
      DaysBeforeIs(y - 1);
      LeapStep(y - 1);
    }
  }

  /** Four hundred years are 146097 days, a whole number of weeks. */
  lemma FourCenturies(y: int)
    requires y >= 1970
    ensures DaysBefore(y + 400) == DaysBefore(y) + 146097 && 146097 % 7 == 0
  {
    DaysBeforeIs(y);
    DaysBeforeIs(y + 400);
    Shifted(y - 1, 4, 100);
    Shifted(y - 1, 100, 4);
    Shifted(y - 1, 400, 1);
  }

  lemma Shifted(y: int, n: int, k: int)
    requires (n == 4 && k == 100) || (n == 100 && k == 4) || (n == 400 && k == 1)
    ensures (y + 400) / n == y / n + k
  {
  }

  lemma MonthDaysAre(y: int, m: int)
    ensures m in {0, 2, 4, 6, 7, 9, 11} ==> MonthDays(y, m) == 31
    ensures m in {3, 5, 8, 10} ==> MonthDays(y, m) == 30
    ensures m == 1 ==> MonthDays(y, m) == if YearDays(y) == 366 then 29 else 28
  {
  }

  /** 1 January 2000, 10957 days after 1 January 1970, was a Saturday, and 29 February 2000 was a day. */
  lemma TurnOfTheMillennium()
    ensures DaysBefore(2000) == 10957 && JanFirst(2000) == 6 && MonthDays(2000, 1) == 29 && MonthDays(2100, 1) == 28
  {
    DaysBeforeIs(2000);
  }
}
