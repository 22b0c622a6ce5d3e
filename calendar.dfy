/** The slice of java.time the services use: ISO calendar dates (LocalDate), their
    comparison (isAfter), adding days (plusDays), and date-times copied into records. */
module Calendar {

  datatype CalendarDate = CalendarDate(year: int, month: int, day: int)

  /** The proleptic ISO leap-year rule. */
  predicate IsLeapYear(y: int)
  {
    y % 4 == 0 && (y % 100 != 0 || y % 400 == 0)
  }

  function DaysInMonth(y: int, m: int): (n: int)
    requires 1 <= m <= 12
    ensures 28 <= n <= 31
  {
    if m == 2 then (if IsLeapYear(y) then 29 else 28)
    else if m == 4 || m == 6 || m == 9 || m == 11 then 30
    else 31
  }

  function DaysInYear(y: int): int
  {
    if IsLeapYear(y) then 366 else 365
  }

  predicate IsValidDate(d: CalendarDate)
  {
    1 <= d.month <= 12 && 1 <= d.day <= DaysInMonth(d.year, d.month)
  }

  /** A LocalDate: a valid (year, month, day) triple. */
  type Date = d: CalendarDate | IsValidDate(d) witness CalendarDate(2000, 1, 1)

  /** A LocalDateTime, only ever copied into records. */
  datatype DateTime = DateTime(date: Date, secondOfDay: nat)

  /** LocalDate.of(year, month, 1). */
  function FirstOfMonth(year: int, month: int): (d: Date)
    requires 1 <= month <= 12
    ensures d.year == year && d.month == month && d.day == 1
  {
    CalendarDate(year, month, 1)
  }

  /** a.isAfter(b): a is strictly later than b (dates compare year, then month, then day). */
  predicate IsAfter(a: Date, b: Date)
  {
    a.year > b.year || (a.year == b.year && (a.month > b.month || (a.month == b.month && a.day > b.day)))
  }

  lemma IsAfterTransitive(a: Date, b: Date, c: Date)
    requires IsAfter(a, b) && IsAfter(b, c)
    ensures IsAfter(a, c)
  {
  }

  function NextDay(d: Date): Date
  {
    if d.day < DaysInMonth(d.year, d.month) then CalendarDate(d.year, d.month, d.day + 1)
    else if d.month < 12 then CalendarDate(d.year, d.month + 1, 1)
    else CalendarDate(d.year + 1, 1, 1)
  }

  /** d.plusDays(n) for a non-negative n. */
  function PlusDays(d: Date, n: nat): Date
    decreases n
  {
    if n == 0 then d else PlusDays(NextDay(d), n - 1)
  }

  /** Days from 1 January of year 0 to 1 January of year y (negative before year 0);
      the leap years in [0, y) are counted with floor division. */
  function DaysBeforeYear(y: int): int
  {
    365 * y + (y + 3) / 4 - (y + 99) / 100 + (y + 399) / 400
  }

  function DaysBeforeMonth(y: int, m: int): int
    requires 1 <= m <= 12
  {
    [0, 31, 59, 90, 120, 151, 181, 212, 243, 273, 304, 334][m - 1]
      + (if m > 2 && IsLeapYear(y) then 1 else 0)
  }

  /** The running day number of a date: an independent count that plusDays must advance by n. */
  function DayNumber(d: Date): int
  {
    DaysBeforeYear(d.year) + DaysBeforeMonth(d.year, d.month) + d.day - 1
  }

  /** Stepping a year past a multiple of 4, 100 or 400 adds one to the matching count. */
  lemma QuadStep(y: int)
    ensures (y + 4) / 4 == (y + 3) / 4 + (if y % 4 == 0 then 1 else 0)
  {
  }

  lemma CenturyStep(y: int)
    ensures (y + 100) / 100 == (y + 99) / 100 + (if y % 100 == 0 then 1 else 0)
  {
  }

  lemma QuadCenturyStep(y: int)
    ensures (y + 400) / 400 == (y + 399) / 400 + (if y % 400 == 0 then 1 else 0)
  {
  }

  /** A multiple of 400 is a multiple of 100. */
  lemma CenturyOfQuadCentury(y: int)
    requires y % 400 == 0
    ensures y % 100 == 0
  {
    var k := y / 400;
    assert y == 100 * (4 * k);
  }

  /** A multiple of 100 is a multiple of 4. */
  lemma QuadOfCentury(y: int)
    requires y % 100 == 0
    ensures y % 4 == 0
  {
    var k := y / 100;
    assert y == 4 * (25 * k);
  }

  lemma YearLength(y: int)
    ensures DaysBeforeYear(y + 1) == DaysBeforeYear(y) + DaysInYear(y)
  {
    QuadStep(y);
    CenturyStep(y);
    QuadCenturyStep(y);
    if y % 400 == 0 {
      CenturyOfQuadCentury(y);
    }
    if y % 100 == 0 {
      QuadOfCentury(y);
    }
    var leap := (if y % 4 == 0 then 1 else 0) - (if y % 100 == 0 then 1 else 0) + (if y % 400 == 0 then 1 else 0);
    assert DaysBeforeYear(y + 1) == DaysBeforeYear(y) + 365 + leap;
    assert DaysInYear(y) == 365 + leap;
  }

  /** The next day is one day later and strictly after. */
  lemma NextDayAdvancesByOne(d: Date)
    ensures DayNumber(NextDay(d)) == DayNumber(d) + 1
    ensures IsAfter(NextDay(d), d)
  {
    if d.day == DaysInMonth(d.year, d.month) && d.month == 12 {
      YearLength(d.year);
    }
  }

  /** plusDays(n) moves the day number forward by exactly n, and a positive n gives a later date. */
  lemma {:induction false} PlusDaysAdvances(d: Date, n: nat)
    ensures DayNumber(PlusDays(d, n)) == DayNumber(d) + n
    ensures n > 0 ==> IsAfter(PlusDays(d, n), d)
    decreases n
  {
    if n > 0 {
      NextDayAdvancesByOne(d);
      PlusDaysAdvances(NextDay(d), n - 1);
      if n > 1 {
        IsAfterTransitive(PlusDays(d, n), NextDay(d), d);
      }
    }
  }
}
