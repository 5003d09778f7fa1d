/**
 * Month and weekday names of a proleptic Gregorian date, as `strftime('%B')`
 * and `strftime('%A')` print them in the English locale. The weekday comes
 * from the day count since 0001-01-01 (day 1, a Monday), the same count
 * Python's `date.toordinal()` uses.
 */
module Calendar {

  const MonthNames: seq<string> := ["January", "February", "March", "April", "May", "June",
    "July", "August", "September", "October", "November", "December"]

  const WeekdayNames: seq<string> := ["Monday", "Tuesday", "Wednesday", "Thursday",
    "Friday", "Saturday", "Sunday"]

  datatype Date = Date(year: int, month: int, day: int)

  predicate IsLeapYear(y: int) { y % 4 == 0 && (y % 100 != 0 || y % 400 == 0) }

  function DaysInYear(y: int): nat { if IsLeapYear(y) then 366 else 365 }

  function DaysInMonth(y: int, m: int): (n: nat)
    requires 1 <= m <= 12
    ensures 28 <= n <= 31
  {
    if m == 2 then (if IsLeapYear(y) then 29 else 28)
    else if m == 4 || m == 6 || m == 9 || m == 11 then 30
    else 31
  }

  predicate ValidDate(d: Date) { d.year >= 1 && 1 <= d.month <= 12 && 1 <= d.day <= DaysInMonth(d.year, d.month) }

  /** Days in the months of year `y` before month `m`, by table lookup. */
  function DaysBeforeMonth(y: int, m: int): nat
    requires 1 <= m <= 12
  {
    [0, 31, 59, 90, 120, 151, 181, 212, 243, 273, 304, 334][m - 1] + (if m > 2 && IsLeapYear(y) then 1 else 0)
  }

  /** Days in the years before year `y`. */
  function DaysBeforeYear(y: int): int
    requires y >= 1
  {
    var p := y - 1;
    365 * p + p / 4 - p / 100 + p / 400
  }

  /** Day number of `d`; 0001-01-01 is day 1. */
  function Ordinal(d: Date): int
    requires ValidDate(d)
  {
    DaysBeforeYear(d.year) + DaysBeforeMonth(d.year, d.month) + d.day
  }

  /** Weekday index, Monday == 0 (Python's `date.weekday()`). */
  function Weekday(d: Date): (w: nat)
    requires ValidDate(d)
    ensures w < 7
  {
    (Ordinal(d) + 6) % 7
  }

  /** `strftime('%B')`: month name by table lookup. */
  function MonthName(m: int): (r: string)
    requires 1 <= m <= 12
    ensures r in MonthNames
  {
    MonthNames[m - 1]
  }

  /** `strftime('%A')` */
  function WeekdayName(d: Date): (r: string)
    requires ValidDate(d)
    ensures r in WeekdayNames
  {
    WeekdayNames[Weekday(d)]
  }

  /** The calendar day after `d`. */
  function NextDay(d: Date): (r: Date)
    requires ValidDate(d)
    ensures ValidDate(r)
  {
    if d.day < DaysInMonth(d.year, d.month) then Date(d.year, d.month, d.day + 1)
    else if d.month < 12 then Date(d.year, d.month + 1, 1)
    else Date(d.year + 1, 1, 1)
  }

  /** The table of month offsets agrees with the month lengths. */
  lemma DaysBeforeNextMonth(y: int, m: int)
    requires 1 <= m <= 12
    ensures m < 12 ==> DaysBeforeMonth(y, m + 1) == DaysBeforeMonth(y, m) + DaysInMonth(y, m)
    ensures m == 12 ==> DaysBeforeMonth(y, m) + DaysInMonth(y, m) == DaysInYear(y)
  {
  }

  /** The years before `y + 1` are those before `y` and year `y` itself. */
  lemma DaysBeforeNextYear(y: int)
    requires y >= 1
    ensures DaysBeforeYear(y + 1) == DaysBeforeYear(y) + DaysInYear(y)
  {
    var p := y - 1;
    assert (p + 1) / 4 == p / 4 + (if y % 4 == 0 then 1 else 0);
    assert (p + 1) / 100 == p / 100 + (if y % 100 == 0 then 1 else 0);
    assert (p + 1) / 400 == p / 400 + (if y % 400 == 0 then 1 else 0);
  }

  /** Consecutive dates have consecutive day numbers, across month and year ends. */
  lemma NextDayIsNextOrdinal(d: Date)
    requires ValidDate(d)
    ensures Ordinal(NextDay(d)) == Ordinal(d) + 1
  {
    DaysBeforeNextMonth(d.year, d.month);
    if d.day == DaysInMonth(d.year, d.month) && d.month == 12 {
      DaysBeforeNextYear(d.year);
    }
  }

  /** The weekday advances by one each day, Sunday wrapping round to Monday. */
  lemma NextDayIsNextWeekday(d: Date)
    requires ValidDate(d)
    ensures Weekday(NextDay(d)) == (Weekday(d) + 1) % 7
  {
    NextDayIsNextOrdinal(d);
    SuccMod7(Ordinal(d) + 6);
  }

  lemma SuccMod7(o: int)
    ensures (o + 1) % 7 == (o % 7 + 1) % 7
  {
  }

  /** 1 January 2017 was a Sunday. */
  lemma FirstDayOf2017()
    ensures WeekdayName(Date(2017, 1, 1)) == "Sunday"
  {
    assert Ordinal(Date(2017, 1, 1)) == 736330;
  }
}
