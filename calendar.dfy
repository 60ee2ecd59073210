/** The proleptic Gregorian calendar as Python's datetime module computes
    it: date(y, m, d).toordinal(), valid for years 1 to 9999. */
module Calendar {
  import opened Common

  const MinYear: int := 1
  const MaxYear: int := 9999

  predicate IsLeap(y: int)
  {
    y % 4 == 0 && (y % 100 != 0 || y % 400 == 0)
  }

  predicate ValidMonth(m: int)
  {
    1 <= m <= 12
  }

  function DaysInMonth(y: int, m: int): (n: int)
    requires ValidMonth(m)
    ensures 28 <= n <= 31
  {
    if m == 2 then (if IsLeap(y) then 29 else 28)
    else [31, 0, 31, 30, 31, 30, 31, 31, 30, 31, 30, 31][m - 1]
  }

  /** Days of the year before the first of month m. */
  function DaysBeforeMonth(y: int, m: int): int
    requires ValidMonth(m)
  {
    [0, 31, 59, 90, 120, 151, 181, 212, 243, 273, 304, 334][m - 1]
      + (if m > 2 && IsLeap(y) then 1 else 0)
  }

  /** Days before January 1st of year y, counted from 0001-01-01. */
  function DaysBeforeYear(y: int): int
  {
    var p := y - 1;
    p * 365 + p / 4 - p / 100 + p / 400
  }

  /** date(y, m, d).toordinal(). */
  function Ordinal(y: int, m: int, d: int): Date
    requires ValidMonth(m)
  {
    DaysBeforeYear(y) + DaysBeforeMonth(y, m) + d
  }

  lemma YearStep(y: int)
    ensures DaysBeforeYear(y + 1) == DaysBeforeYear(y) + 365 + (if IsLeap(y) then 1 else 0)
  {
    var p := y - 1;
    assert (p + 1) / 4 == p / 4 + (if y % 4 == 0 then 1 else 0);
    assert (p + 1) / 100 == p / 100 + (if y % 100 == 0 then 1 else 0);
    assert (p + 1) / 400 == p / 400 + (if y % 400 == 0 then 1 else 0);
  }

  /** The day before the first of the next month is the last day of this month. */
  lemma MonthStep(y: int, m: int)
    requires 1 <= m < 12
    ensures Ordinal(y, m + 1, 1) - 1 == Ordinal(y, m, DaysInMonth(y, m))
  {
  }

  /** The day before January 1st of the next year is December 31st. */
  lemma YearEnd(y: int)
    ensures Ordinal(y + 1, 1, 1) - 1 == Ordinal(y, 12, 31)
  {
    YearStep(y);
  }
}
