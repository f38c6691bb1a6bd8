/** The proleptic Gregorian calendar that Date.UTC and the getUTC accessors count in. */
module Calendar {

  datatype Civil = Civil(year: int, month: int, day: int)

  predicate Leap(y: int) { y % 4 == 0 && (y % 100 != 0 || y % 400 == 0) }

  function MonthLength(y: int, m: int): int {
    if m == 2 then (if Leap(y) then 29 else 28)
    else if m == 4 || m == 6 || m == 9 || m == 11 then 30
    else 31
  }

  predicate ValidDate(c: Civil) { 1 <= c.month <= 12 && 1 <= c.day <= MonthLength(c.year, c.month) }

  function NextDate(c: Civil): Civil {
    if c.day < MonthLength(c.year, c.month) then Civil(c.year, c.month, c.day + 1)
    else if c.month < 12 then Civil(c.year, c.month + 1, 1)
    else Civil(c.year + 1, 1, 1)
  }

  function PreviousDate(c: Civil): Civil {
    if c.day > 1 then Civil(c.year, c.month, c.day - 1)
    else if c.month > 1 then Civil(c.year, c.month - 1, MonthLength(c.year, c.month - 1))
    else Civil(c.year - 1, 12, 31)
  }

  // The date that lies n days after 1 January 1970, reached day by day.
  function DateOf(n: int): (c: Civil)
    ensures ValidDate(c)
    decreases if n < 0 then -n else n
  {
    if n == 0 then Civil(1970, 1, 1)
    else if n > 0 then NextDate(DateOf(n - 1))
    else PreviousDate(DateOf(n + 1))
  }

  function DaysBeforeMonth(y: int, m: int): int {
    [0, 31, 59, 90, 120, 151, 181, 212, 243, 273, 304, 334][if 1 <= m <= 12 then m - 1 else 0]
      + if m > 2 && Leap(y) then 1 else 0
  }

  // Days between 1 January 1970 and 1 January of year y.
  function DaysBeforeYear(y: int): int { 365 * (y - 1970) + (y - 1) / 4 - (y - 1) / 100 + (y - 1) / 400 - 477 }

  // Date.UTC in days.
  function DayNumber(c: Civil): int { DaysBeforeYear(c.year) + DaysBeforeMonth(c.year, c.month) + c.day - 1 }

  lemma YearLength(y: int)
    ensures DaysBeforeYear(y + 1) == DaysBeforeYear(y) + if Leap(y) then 366 else 365
  {
    assert y / 4 == (y - 1) / 4 + if y % 4 == 0 then 1 else 0;
    assert y / 100 == (y - 1) / 100 + if y % 100 == 0 then 1 else 0;
    assert y / 400 == (y - 1) / 400 + if y % 400 == 0 then 1 else 0;
    assert y % 400 == 0 ==> y % 100 == 0;
    assert y % 100 == 0 ==> y % 4 == 0;
  }

  lemma NextCounts(c: Civil)
    requires ValidDate(c)
    ensures DayNumber(NextDate(c)) == DayNumber(c) + 1
  {
    hide DaysBeforeYear, Leap;
    YearLength(c.year);
  }

  lemma PreviousCounts(c: Civil)
    requires ValidDate(c)
    ensures ValidDate(PreviousDate(c)) && DayNumber(PreviousDate(c)) == DayNumber(c) - 1
  {
    hide DaysBeforeYear, Leap;
    YearLength(c.year - 1);
  }

  lemma EpochCounts()
    ensures DayNumber(Civil(1970, 1, 1)) == 0
  {
  }

  // The closed formula inverts the day-by-day count, so no two days have the same date.
  lemma {:induction false} DayNumberOfDate(n: int)
    ensures DayNumber(DateOf(n)) == n
    decreases if n < 0 then -n else n
  {
    hide DayNumber, NextDate, PreviousDate, ValidDate;
    if n == 0 {
      EpochCounts();
    } else if n > 0 {
      DayNumberOfDate(n - 1);
      NextCounts(DateOf(n - 1));
    } else {
      DayNumberOfDate(n + 1);
      PreviousCounts(DateOf(n + 1));
    }
  }

  // 1 January 1970 was a Thursday.
  function Weekday(n: int): int { (n + 4) % 7 }
}
