/** Calendar arithmetic behind `Date.prototype.toISOString`: the proleptic
    Gregorian calendar as the ECMAScript specification defines it for time
    values (DayFromYear, DaysInYear, MonthFromTime, DateFromTime), restricted
    to days on or after 1970-01-01 because every timestamp the ledger returns
    is an unsigned integer. */
module Civil {

  /** The year whose January 1 is day 0. */
  const EpochYear: int := 1970

  /** A calendar date; `month` runs from 1 (January) to 12. */
  datatype Date = Date(year: int, month: int, day: int)

  predicate IsLeapYear(y: int) {
    y % 4 == 0 && (y % 100 != 0 || y % 400 == 0)
  }

  function DaysInYear(y: int): int {
    if IsLeapYear(y) then 366 else 365
  }

  /** ECMAScript's DayFromYear: the day number of January 1 of year `y`. */
  function DayFromYear(y: int): int {
    365 * (y - 1970) + (y - 1969) / 4 - (y - 1901) / 100 + (y - 1601) / 400
  }

  function DaysInMonth(y: int, m: int): int
    requires 1 <= m <= 12
  {
    if m == 2 then (if IsLeapYear(y) then 29 else 28)
    else if m == 4 || m == 6 || m == 9 || m == 11 then 30
    else 31
  }

  /** Days of year `y` that precede the first of month `m`; the thresholds
      ECMAScript's MonthFromTime compares against. */
  function DaysBeforeMonth(y: int, m: int): int
    requires 1 <= m <= 12
  {
    var leap := if IsLeapYear(y) && m > 2 then 1 else 0;
    leap +
    (if m == 1 then 0 else if m == 2 then 31 else if m == 3 then 59
     else if m == 4 then 90 else if m == 5 then 120 else if m == 6 then 151
     else if m == 7 then 181 else if m == 8 then 212 else if m == 9 then 243
     else if m == 10 then 273 else if m == 11 then 304 else 334)
  }

  predicate ValidDate(d: Date) {
    1 <= d.month <= 12 && 1 <= d.day <= DaysInMonth(d.year, d.month)
  }

  /** The reference definition: the day number (days since 1970-01-01) of a
      calendar date. */
  function DayNumber(d: Date): int
    requires 1 <= d.month <= 12
  {
    DayFromYear(d.year) + DaysBeforeMonth(d.year, d.month) + d.day - 1
  }

  /** Consecutive years are DaysInYear apart. */
  lemma NextYear(y: int)
    ensures DayFromYear(y + 1) == DayFromYear(y) + DaysInYear(y)
  {
    FourYearStep(y);
    CenturyStep(y);
    QuadCenturyStep(y);
    MultiplesNest(y);
    var fours, centuries, quads := (y - 1969) / 4, (y - 1901) / 100, (y - 1601) / 400;
    assert DayFromYear(y) == 365 * (y - 1970) + fours - centuries + quads;
    var step := (if y % 4 == 0 then 1 else 0) - (if y % 100 == 0 then 1 else 0)
                + (if y % 400 == 0 then 1 else 0);
    assert DayFromYear(y + 1) == 365 * (y - 1969) + fours - centuries + quads + step;
    assert DaysInYear(y) == 365 + step;
  }

  /** A multiple of 400 is a multiple of 100, and a multiple of 100 is a
      multiple of 4. */
  lemma MultiplesNest(y: int)
    ensures y % 400 == 0 ==> y % 100 == 0
    ensures y % 100 == 0 ==> y % 4 == 0
  {
    var q400, q100 := y / 400, y / 100;
    assert y == 400 * q400 + y % 400;
    assert y == 100 * q100 + y % 100;
    if y % 400 == 0 {
      assert y == 100 * (4 * q400) + 0;
    }
    if y % 100 == 0 {
      assert y == 4 * (25 * q100) + 0;
    }
  }

  /** The count of fourth years steps up at multiples of 4. */
  lemma FourYearStep(y: int)
    ensures (y - 1968) / 4 == (y - 1969) / 4 + (if y % 4 == 0 then 1 else 0)
  {
  }

  /** The count of centuries steps up at multiples of 100. */
  lemma CenturyStep(y: int)
    ensures (y - 1900) / 100 == (y - 1901) / 100 + (if y % 100 == 0 then 1 else 0)
  {
  }

  /** The count of fourth centuries steps up at multiples of 400. */
  lemma QuadCenturyStep(y: int)
    ensures (y - 1600) / 400 == (y - 1601) / 400 + (if y % 400 == 0 then 1 else 0)
  {
  }

  /** Month thresholds agree with month lengths, and the last month ends the
      year. */
  lemma MonthTable(y: int, m: int)
    requires 1 <= m <= 12
    ensures m < 12 ==> DaysBeforeMonth(y, m + 1) == DaysBeforeMonth(y, m) + DaysInMonth(y, m)
    ensures m == 12 ==> DaysBeforeMonth(y, m) + DaysInMonth(y, m) == DaysInYear(y)
  {
  }

  /** Walks forward from January 1 of year `y`, `r` days further, one whole
      year at a time: the year that contains the day and the day's offset
      within it (ECMAScript's YearFromTime and DayWithinYear). */
  function YearAndDay(y: int, r: nat): (yd: (int, nat))
    ensures yd.0 >= y && yd.1 < DaysInYear(yd.0)
    ensures DayFromYear(yd.0) + yd.1 == DayFromYear(y) + r
    decreases r
  {
    if r < DaysInYear(y) then (y, r)
    else
      NextYear(y);
      YearAndDay(y + 1, r - DaysInYear(y))
  }

  /** The month containing day `d` of year `y` (0-based), searched downwards
      from month `m`, and the 1-based day within that month (ECMAScript's
      MonthFromTime and DateFromTime). */
  function MonthAndDay(y: int, d: nat, m: int): (md: (int, int))
    requires 1 <= m <= 12
    requires d < DaysBeforeMonth(y, m) + DaysInMonth(y, m)
    ensures 1 <= md.0 <= m && 1 <= md.1 <= DaysInMonth(y, md.0)
    ensures DaysBeforeMonth(y, md.0) + md.1 - 1 == d
    decreases m
  {
    if DaysBeforeMonth(y, m) <= d then (m, d - DaysBeforeMonth(y, m) + 1)
    else
      MonthTable(y, m - 1);
      MonthAndDay(y, d, m - 1)
  }

  /** The calendar date of day number `n`. */
  function CivilFromDays(n: nat): (d: Date)
    ensures ValidDate(d) && d.year >= EpochYear
    ensures DayNumber(d) == n
  {
    var yd := YearAndDay(EpochYear, n);
    MonthTable(yd.0, 12);
    var md := MonthAndDay(yd.0, yd.1, 12);
    Date(yd.0, md.0, md.1)
  }

  /** Every year has at least 365 days, so January 1 moves forward by at
      least 365 days a year. */
  lemma {:induction false} DayFromYearGrows(a: int, b: int)
    requires a <= b
    ensures DayFromYear(a) + 365 * (b - a) <= DayFromYear(b)
    decreases b - a
  {
    if a < b {
      DayFromYearGrows(a, b - 1);
      NextYear(b - 1);
    }
  }

  /** A valid date lies within its own year. */
  lemma DayNumberWithinYear(d: Date)
    requires ValidDate(d)
    ensures DayFromYear(d.year) <= DayNumber(d) < DayFromYear(d.year + 1)
  {
    NextYear(d.year);
    MonthTable(d.year, 12);
    MonthThresholdsIncrease(d.year, d.month, 12);
  }

  /** A later month starts no earlier than the end of an earlier one. */
  lemma MonthThresholdsIncrease(y: int, m1: int, m2: int)
    requires 1 <= m1 <= m2 <= 12
    ensures DaysBeforeMonth(y, m1) + DaysInMonth(y, m1) <= DaysBeforeMonth(y, m2) + DaysInMonth(y, m2)
    ensures m1 < m2 ==> DaysBeforeMonth(y, m1) + DaysInMonth(y, m1) <= DaysBeforeMonth(y, m2)
  {
  }

  /** Two valid dates with the same day number fall in the same year. */
  lemma SameDayNumberSameYear(d1: Date, d2: Date)
    requires ValidDate(d1) && ValidDate(d2)
    requires DayNumber(d1) == DayNumber(d2)
    ensures d1.year == d2.year
  {
    DayNumberWithinYear(d1);
    DayNumberWithinYear(d2);
    if d1.year < d2.year {
      DayFromYearGrows(d1.year + 1, d2.year);
    } else if d2.year < d1.year {
      DayFromYearGrows(d2.year + 1, d1.year);
    }
  }

  /** Distinct valid dates have distinct day numbers. */
  lemma DayNumberInjective(d1: Date, d2: Date)
    requires ValidDate(d1) && ValidDate(d2)
    requires DayNumber(d1) == DayNumber(d2)
    ensures d1 == d2
  {
    SameDayNumberSameYear(d1, d2);
    if d1.month < d2.month {
      MonthThresholdsIncrease(d1.year, d1.month, d2.month);
    } else if d2.month < d1.month {
      MonthThresholdsIncrease(d1.year, d2.month, d1.month);
    }
  }

  /** CivilFromDays inverts DayNumber on every valid date from 1970 on. */
  lemma CivilFromDayNumber(d: Date)
    requires ValidDate(d) && d.year >= EpochYear
    ensures DayNumber(d) >= 0
    ensures CivilFromDays(DayNumber(d)) == d
  {
    DayNumberWithinYear(d);
    DayFromYearGrows(EpochYear, d.year);
    DayNumberInjective(CivilFromDays(DayNumber(d)), d);
  }

  /** A date's year is at most its day number divided by 365 past 1970. */
  lemma YearBound(d: Date)
    requires ValidDate(d) && d.year >= EpochYear
    ensures 365 * (d.year - EpochYear) <= DayNumber(d)
  {
    DayNumberWithinYear(d);
    DayFromYearGrows(EpochYear, d.year);
  }
}
