/**
 * Proleptic Gregorian calendar dates, with the validity rules Python's
 * `datetime(year, month, day)` constructor enforces.
 */
module Calendar {
  import opened Wrappers

  /** A calendar date with no time of day. */
  datatype Date = Date(year: int, month: int, day: int)

  /** Python's `datetime.MINYEAR` and `datetime.MAXYEAR`. */
  const MinYear: int := 1
  const MaxYear: int := 9999

  predicate IsLeapYear(y: int) {
    y % 4 == 0 && (y % 100 != 0 || y % 400 == 0)
  }

  function DaysInMonth(y: int, m: int): (n: int)
    requires 1 <= m <= 12
    ensures 28 <= n <= 31
  {
    if m == 2 then (if IsLeapYear(y) then 29 else 28)
    else if m == 4 || m == 6 || m == 9 || m == 11 then 30
    else 31
  }

  /** A date the `datetime` constructor accepts. */
  predicate IsValid(d: Date) {
    && MinYear <= d.year <= MaxYear
    && 1 <= d.month <= 12
    && 1 <= d.day <= DaysInMonth(d.year, d.month)
  }

  /** Why a date could not be constructed: the field that is out of range. */
  datatype DateError = YearOutOfRange | MonthOutOfRange | DayOutOfRange

  /**
   * `datetime(year, month, day)`: checks the year, then the month, then the day,
   * and reports the first field that is out of range.
   */
  function MakeDate(year: int, month: int, day: int): (r: Result<Date, DateError>)
    ensures r.Success? <==> IsValid(Date(year, month, day))
    ensures r.Success? ==> r.value == Date(year, month, day)
    ensures r == Failure(YearOutOfRange) <==> !(MinYear <= year <= MaxYear)
    ensures r == Failure(MonthOutOfRange) <==> MinYear <= year <= MaxYear && !(1 <= month <= 12)
  {
    if !(MinYear <= year <= MaxYear) then Failure(YearOutOfRange)
    else if !(1 <= month <= 12) then Failure(MonthOutOfRange)
    else if !(1 <= day <= DaysInMonth(year, month)) then Failure(DayOutOfRange)
    else Success(Date(year, month, day))
  }

  /** The 29th of February exists exactly in leap years. */
  lemma LeapDay(y: int)
    requires MinYear <= y <= MaxYear
    ensures IsValid(Date(y, 2, 29)) <==> IsLeapYear(y)
  {
  }

  /** The 31st exists exactly in January, March, May, July, August, October and December. */
  lemma ThirtyFirst(y: int, m: int)
    requires MinYear <= y <= MaxYear
    ensures IsValid(Date(y, m, 31)) <==> m in {1, 3, 5, 7, 8, 10, 12}
  {
  }

  /** Every day from the 1st to the 28th exists in every month of every supported year. */
  lemma EarlyDaysAlwaysValid(y: int, m: int, d: int)
    requires MinYear <= y <= MaxYear && 1 <= m <= 12 && 1 <= d <= 28
    ensures IsValid(Date(y, m, d))
  {
  }

  /** Outside February the month length does not depend on the year. */
  lemma DayExists(y: int, m: int, d: int)
    requires MinYear <= y <= MaxYear && 1 <= m <= 12 && m != 2
    requires 1 <= d <= (if m == 4 || m == 6 || m == 9 || m == 11 then 30 else 31)
    ensures IsValid(Date(y, m, d))
  {
  }

  /** The sum of the month lengths of year `y`, from January up to month `m`. */
  function DaysBeforeMonthEnd(y: int, m: int): (n: int)
    requires 0 <= m <= 12
    ensures 28 * m <= n <= 31 * m
  {
    if m == 0 then 0 else DaysBeforeMonthEnd(y, m - 1) + DaysInMonth(y, m)
  }

  /** A Gregorian year has 366 days when it is a leap year and 365 otherwise. */
  lemma YearLength(y: int)
    ensures DaysBeforeMonthEnd(y, 12) == if IsLeapYear(y) then 366 else 365
  {
    var feb := DaysInMonth(y, 2);
    assert DaysBeforeMonthEnd(y, 2) == 31 + feb;
    assert DaysBeforeMonthEnd(y, 4) == 92 + feb;
    assert DaysBeforeMonthEnd(y, 6) == 153 + feb;
    assert DaysBeforeMonthEnd(y, 8) == 215 + feb;
    assert DaysBeforeMonthEnd(y, 10) == 276 + feb;
  }
}
