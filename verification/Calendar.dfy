/** The proleptic Gregorian calendar, as ECMA-262 section "Time Values and Time Range" derives it
    from day numbers counted from 1970-01-01. Every day number has one date, every date one day
    number, and both are in the same order. */
module Calendar {

  datatype Date = Date(year: int, month: int, day: int)

  predicate IsLeap(y: int) {
    y % 4 == 0 && (y % 100 != 0 || y % 400 == 0)
  }

  function DaysInYear(y: int): int {
    if IsLeap(y) then 366 else 365
  }

  /** The day number of January 1 of a year. */
  function DayFromYear(y: int): int {
    365 * (y - 1970) + (y - 1969) / 4 - (y - 1901) / 100 + (y - 1601) / 400
  }

  lemma NextYear(y: int)
    ensures DayFromYear(y + 1) == DayFromYear(y) + DaysInYear(y)
  {
    FourYearStep(y);
    CenturyStep(y);
    FourCenturyStep(y);
    LeapCount(y);
    hide IsLeap, DaysInYear, One;
  }

  function One(b: bool): int {
    if b then 1 else 0
  }

  lemma LeapCount(y: int)
    ensures One(y % 4 == 0) - One(y % 100 == 0) + One(y % 400 == 0) == DaysInYear(y) - 365
  {
    CenturiesAreFourths(y);
    FourCenturiesAreCenturies(y);
  }

  lemma CenturiesAreFourths(y: int)
    ensures y % 100 == 0 ==> y % 4 == 0
  {
  }

  lemma FourCenturiesAreCenturies(y: int)
    ensures y % 400 == 0 ==> y % 100 == 0
  {
  }

  lemma FourYearStep(y: int)
    ensures (y + 1 - 1969) / 4 == (y - 1969) / 4 + One(y % 4 == 0)
  {
  }

  lemma CenturyStep(y: int)
    ensures (y + 1 - 1901) / 100 == (y - 1901) / 100 + One(y % 100 == 0)
  {
  }

  lemma FourCenturyStep(y: int)
    ensures (y + 1 - 1601) / 400 == (y - 1601) / 400 + One(y % 400 == 0)
  {
  }

  lemma {:induction false} YearsAscend(a: int, b: int)
    requires a <= b
    ensures DayFromYear(a) + 365 * (b - a) <= DayFromYear(b)
    decreases b - a
  {
    if a < b {
      NextYear(b - 1);
      YearsAscend(a, b - 1);
    }
  }

  /** The largest year that starts on or before the day, searched from `y`. */
  function YearFrom(y: int, day: int): (r: int)
    ensures DayFromYear(r) <= day < DayFromYear(r + 1)
    decreases if day < DayFromYear(y) then DayFromYear(y) - day else 0, if day < DayFromYear(y) then 0 else day - DayFromYear(y)
  {
    NextYear(y - 1);
    NextYear(y);
    if day < DayFromYear(y) then YearFrom(y - 1, day)
    else if day < DayFromYear(y + 1) then y
    else YearFrom(y + 1, day)
  }

  function YearOf(day: int): (r: int)
    ensures DayFromYear(r) <= day < DayFromYear(r + 1)
  {
    YearFrom(1970, day)
  }

  /** Days before the first of a month. */
  function DaysBefore(y: int, month: int): int
    requires 1 <= month <= 13
  {
    [0, 31, 59, 90, 120, 151, 181, 212, 243, 273, 304, 334, 365][month - 1] + (if month > 2 && IsLeap(y) then 1 else 0)
  }

  function DaysInMonth(y: int, month: int): int
    requires 1 <= month <= 12
  {
    DaysBefore(y, month + 1) - DaysBefore(y, month)
  }

  predicate IsDate(d: Date) {
    1 <= d.month <= 12 && 1 <= d.day <= DaysInMonth(d.year, d.month)
  }

  /** The last month that starts on or before the day of the year. */
  function MonthFrom(y: int, month: int, dayOfYear: int): (r: int)
    requires 1 <= month <= 12 && 0 <= dayOfYear < DaysBefore(y, month + 1)
    ensures 1 <= r <= 12 && DaysBefore(y, r) <= dayOfYear < DaysBefore(y, r + 1)
    decreases month
  {
    if DaysBefore(y, month) <= dayOfYear then month else MonthFrom(y, month - 1, dayOfYear)
  }

  function DateOfDay(day: int): (d: Date)
    ensures IsDate(d) && DayOfDate(d) == day
  {
    var y := YearOf(day);
    NextYear(y);
    var month := MonthFrom(y, 12, day - DayFromYear(y));
    Date(y, month, day - DayFromYear(y) - DaysBefore(y, month) + 1)
  }

  function DayOfDate(d: Date): int
    requires IsDate(d)
  {
    DayFromYear(d.year) + DaysBefore(d.year, d.month) + d.day - 1
  }

  predicate DateLess(a: Date, b: Date) {
    a.year < b.year || (a.year == b.year && (a.month < b.month || (a.month == b.month && a.day < b.day)))
  }

  /** Day numbers and dates are in the same order, so each determines the other. */
  lemma DayOrder(a: Date, b: Date)
    requires IsDate(a) && IsDate(b)
    ensures DayOfDate(a) < DayOfDate(b) <==> DateLess(a, b)
    ensures DayOfDate(a) == DayOfDate(b) <==> a == b
  {
    if DateLess(a, b) {
      LaterDate(a, b);
    } else if DateLess(b, a) {
      LaterDate(b, a);
    }
  }

  lemma LaterDate(a: Date, b: Date)
    requires IsDate(a) && IsDate(b) && DateLess(a, b)
    ensures DayOfDate(a) < DayOfDate(b)
  {
    if a.year < b.year {
      WithinYear(a);
      WithinYear(b);
      NextYear(a.year);
      YearsAscend(a.year + 1, b.year);
    }
  }

  lemma WithinYear(d: Date)
    requires IsDate(d)
    ensures DayFromYear(d.year) <= DayOfDate(d) < DayFromYear(d.year) + DaysInYear(d.year)
  {
  }

  lemma YearRange(day: int, first: int, last: int)
    requires DayFromYear(first) <= day < DayFromYear(last + 1)
    ensures first <= DateOfDay(day).year <= last
  {
    hide *;
    var d := DateOfDay(day);
    WithinYear(d);
    NextYear(d.year);
    if d.year < first {
      YearsAscend(d.year + 1, first);
    } else if d.year > last {
      YearsAscend(last + 1, d.year);
    }
  }

  /** Thirty days have April, June, September and November; February has 28, or 29 in a leap year; the others have 31. */
  lemma MonthLengths(y: int, month: int)
    requires 1 <= month <= 12
    ensures DaysInMonth(y, month) ==
      if month == 2 then (if IsLeap(y) then 29 else 28)
      else if month == 4 || month == 6 || month == 9 || month == 11 then 30 else 31
    ensures IsLeap(y) <==> exists k :: y == 4 * k && (y % 100 == 0 ==> y % 400 == 0)
  {
    assert y % 4 == 0 ==> y == 4 * (y / 4);
  }

  /** Day 0 is 1970-01-01. */
  lemma EpochDay()
    ensures DateOfDay(0) == Date(1970, 1, 1)
  {
    hide DateOfDay;
    assert DayOfDate(Date(1970, 1, 1)) == 0;
    DayOrder(DateOfDay(0), Date(1970, 1, 1));
  }
}
