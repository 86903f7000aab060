/** The proleptic Gregorian calendar in UTC: days are numbered from 1970-01-01, day 0, in both directions. */
module Calendar {
  datatype Date = Date(year: int, month: int, day: int)

  predicate Leap(year: int) {
    year % 4 == 0 && (year % 100 != 0 || year % 400 == 0)
  }

  function MonthLength(year: int, month: int): (n: int)
    ensures 28 <= n <= 31
  {
    if month == 2 then (if Leap(year) then 29 else 28)
    else if month == 4 || month == 6 || month == 9 || month == 11 then 30
    else 31
  }

  predicate ValidDate(d: Date) {
    1 <= d.month <= 12 && 1 <= d.day <= MonthLength(d.year, d.month)
  }

  function Next(d: Date): (r: Date)
    requires ValidDate(d)
    ensures ValidDate(r)
  {
    if d.day < MonthLength(d.year, d.month) then d.(day := d.day + 1)
    else if d.month < 12 then Date(d.year, d.month + 1, 1)
    else Date(d.year + 1, 1, 1)
  }

  function Previous(d: Date): (r: Date)
    requires ValidDate(d)
    ensures ValidDate(r) && Next(r) == d
  {
    if d.day > 1 then d.(day := d.day - 1)
    else if d.month > 1 then Date(d.year, d.month - 1, MonthLength(d.year, d.month - 1))
    else Date(d.year - 1, 12, 31)
  }

  /** The date of a day. */
  function DateOf(day: int): (d: Date)
    ensures ValidDate(d)
    decreases if day < 0 then -day else day
  {
    if day == 0 then Date(1970, 1, 1)
    else if day > 0 then Next(DateOf(day - 1))
    else Previous(DateOf(day + 1))
  }

  // ---------- a closed form ----------

  /** Days of the year before the first of a month. */
  function BeforeMonth(year: int, month: int): int
    requires 1 <= month <= 12
  {
    var leap := if Leap(year) && month > 2 then 1 else 0;
    leap + [0, 31, 59, 90, 120, 151, 181, 212, 243, 273, 304, 334][month - 1]
  }

  /** Days from 1970-01-01 to the first of January of a year. */
  function BeforeYear(year: int): int {
    var y := year - 1;
    365 * y + y / 4 - y / 100 + y / 400 - 719162
  }

  function DayNumber(d: Date): int
    requires ValidDate(d)
  {
    BeforeYear(d.year) + BeforeMonth(d.year, d.month) + d.day - 1
  }

  lemma YearLength(year: int)
    ensures BeforeYear(year + 1) == BeforeYear(year) + (if Leap(year) then 366 else 365)
  {
    var y := year - 1;
    assert year / 4 == y / 4 + (if year % 4 == 0 then 1 else 0);
    assert year / 100 == y / 100 + (if year % 100 == 0 then 1 else 0);
    assert year / 400 == y / 400 + (if year % 400 == 0 then 1 else 0);
  }

  lemma NextDayNumber(d: Date)
    requires ValidDate(d)
    ensures DayNumber(Next(d)) == DayNumber(d) + 1
  {
    YearLength(d.year);
  }

  /** The closed form counts the days: it is the number of the day whose date it is given. */
  lemma {:induction false} DayNumberOfDate(day: int)
    ensures DayNumber(DateOf(day)) == day
    decreases if day < 0 then -day else day
  {
    if day == 0 {
    } else if day > 0 {
      DayNumberOfDate(day - 1);
      NextDayNumber(DateOf(day - 1));
    } else {
      DayNumberOfDate(day + 1);
      NextDayNumber(DateOf(day));
    }
  }

  /** 1970-01-01 was a Thursday; Sunday is 0. */
  function Weekday(day: int): (w: int)
    ensures 0 <= w <= 6
  {
    (day + 4) % 7
  }

  lemma {:induction false} YearsInOrder(a: int, b: int)
    requires a <= b
    ensures BeforeYear(a) <= BeforeYear(b)
    decreases b - a
  {
    if a < b {
      YearLength(b - 1);
      YearsInOrder(a, b - 1);
    }
  }

  lemma YearStarts(day: int)
    ensures BeforeYear(DateOf(day).year) <= day < BeforeYear(DateOf(day).year + 1)
  {
    DayNumberOfDate(day);
    YearLength(DateOf(day).year);
  }

  lemma YearWithin(day: int, low: int, high: int)
    requires BeforeYear(low) <= day < BeforeYear(high)
    ensures low <= DateOf(day).year < high
  {
    var year := DateOf(day).year;
    YearStarts(day);
    if year < low { YearsInOrder(year + 1, low); }
    if year >= high { YearsInOrder(high, year); }
  }

  /** From January of a leap year to the end of the third year after it there is one 29 February. */
  lemma LeapDays(day: int, year: int)
    requires year % 4 == 0 && DateOf(day).month == 2 && DateOf(day).day == 29
    requires BeforeYear(year) <= day < BeforeYear(year + 4)
    ensures day == BeforeYear(year) + 59
  {
    var d := DateOf(day);
    YearWithin(day, year, year + 4);
    FourApart(d.year, year);
    DayNumberOfDate(day);
    LeapDayNumber(d);
  }

  lemma FourApart(y: int, year: int)
    requires y % 4 == 0 && year % 4 == 0 && year <= y < year + 4
    ensures y == year
  {
  }

  lemma LeapDayNumber(d: Date)
    requires ValidDate(d) && d.month == 2
    ensures DayNumber(d) == BeforeYear(d.year) + 30 + d.day
  {
  }

  /** 29 February of a leap year, as a day from 1970-01-01. */
  function LeapDay(year: int): int {
    BeforeYear(year) + 59
  }

  lemma LeapDayIs(year: int)
    requires Leap(year)
    ensures DateOf(LeapDay(year)) == Date(year, 2, 29)
  {
    DateOfDayNumber(Date(year, 2, 29));
  }

  lemma MonthsInOrder(year: int, a: int, b: int)
    requires 1 <= a < b <= 12
    ensures BeforeMonth(year, a) + MonthLength(year, a) <= BeforeMonth(year, b)
    decreases b - a
  {
    if b == a + 1 {
    } else {
      MonthsInOrder(year, a + 1, b);
    }
  }

  /** Different dates have different numbers. */
  lemma DayNumberInjective(d: Date, e: Date)
    requires ValidDate(d) && ValidDate(e) && DayNumber(d) == DayNumber(e)
    ensures d == e
  {
    YearOfNumber(d);
    YearOfNumber(e);
    if d.year < e.year { YearsInOrder(d.year + 1, e.year); }
    if e.year < d.year { YearsInOrder(e.year + 1, d.year); }
    if d.month < e.month { MonthsInOrder(d.year, d.month, e.month); }
    if e.month < d.month { MonthsInOrder(d.year, e.month, d.month); }
  }

  lemma YearOfNumber(d: Date)
    requires ValidDate(d)
    ensures BeforeYear(d.year) <= DayNumber(d) < BeforeYear(d.year + 1)
  {
    YearLength(d.year);
    if d.month < 12 { MonthsInOrder(d.year, d.month, 12); }
  }

  lemma DateOfDayNumber(d: Date)
    requires ValidDate(d)
    ensures DateOf(DayNumber(d)) == d
  {
    DayNumberOfDate(DayNumber(d));
    DayNumberInjective(DateOf(DayNumber(d)), d);
  }

  lemma FourYears(year: int)
    requires Leap(year)
    ensures BeforeYear(year + 4) == BeforeYear(year + 2) + 730
  {
    EvenYears(year);
    YearLength(year + 2);
    YearLength(year + 3);
  }

  lemma EvenYears(year: int)
    requires year % 4 == 0
    ensures (year + 2) % 4 == 2 && (year + 3) % 4 == 3
  {
  }
}
