/**
 The proleptic Gregorian calendar, as Python's `date` numbers it: a day is its ordinal, day 1 being
 1 January of year 1, and a month is its index, month 0 being that January.
 */
module CivilDates {

  const MAX_YEAR := 9999
  const MAX_ORDINAL := 3652059

  predicate IsLeap(year: int) {
    year % 4 == 0 && (year % 100 != 0 || year % 400 == 0)
  }

  function DaysInMonth(year: int, month: int): int {
    if month == 2 then
      if IsLeap(year) then 29 else 28
    else if month == 4 || month == 6 || month == 9 || month == 11 then 30
    else 31
  }

  function YearOf(index: int): int {
    1 + index / 12
  }

  function MonthInYear(index: int): int {
    1 + index % 12
  }

  function MonthLength(index: int): int {
    DaysInMonth(YearOf(index), MonthInYear(index))
  }

  /** The ordinal of the first day of the month with this index. */
  function MonthStart(index: nat): int {
    if index == 0 then 1 else MonthStart(index - 1) + MonthLength(index - 1)
  }

  /** The index of the month that holds an ordinal. */
  function MonthOf(day: int): (index: nat)
    requires 1 <= day
    ensures MonthStart(index) <= day < MonthStart(index + 1)
  {
    MonthSearch(day, 0)
  }

  function MonthSearch(day: int, index: nat): (found: nat)
    requires MonthStart(index) <= day
    ensures MonthStart(found) <= day < MonthStart(found + 1)
    decreases day - MonthStart(index)
  {
    if day < MonthStart(index + 1) then index else MonthSearch(day, index + 1)
  }

  /** Years before `year`, in days, plus one: the ordinal of its 1 January. */
  function YearStart(year: int): int {
    var y := year - 1;
    365 * y + y / 4 - y / 100 + y / 400 + 1
  }

  lemma {:induction false} MonthStartsAreSpaced(a: nat, b: nat)
    requires a <= b
    ensures MonthStart(a) + 28 * (b - a) <= MonthStart(b) <= MonthStart(a) + 31 * (b - a)
    decreases b
  {
    if a < b {
      MonthStartsAreSpaced(a, b - 1);
    }
  }

  function DaysBeforeMonth(year: int, j: nat): int
    requires j <= 12
  {
    [0, 31, 59, 90, 120, 151, 181, 212, 243, 273, 304, 334, 365][j] + (if j >= 2 && IsLeap(year) then 1 else 0)
  }

  lemma {:induction false} MonthsOfYear(year: nat, j: nat)
    requires 1 <= year && j <= 12
    ensures MonthStart(12 * (year - 1) + j) == MonthStart(12 * (year - 1)) + DaysBeforeMonth(year, j)
  {
    if j > 0 {
      MonthsOfYear(year, j - 1);
      MonthPosition(year, j - 1);
    }
  }

  lemma MonthPosition(year: nat, j: nat)
    requires 1 <= year && j < 12
    ensures MonthLength(12 * (year - 1) + j) == DaysInMonth(year, j + 1)
  {
  }

  lemma TwelveMonths(year: nat)
    requires 1 <= year
    ensures MonthStart(12 * year) == MonthStart(12 * (year - 1)) + (if IsLeap(year) then 366 else 365)
  {
    MonthsOfYear(year, 12);
    assert 12 * (year - 1) + 12 == 12 * year;
  }

  lemma QuotientSteps(y: nat)
    ensures (y + 1) / 4 == y / 4 + (if (y + 1) % 4 == 0 then 1 else 0)
    ensures (y + 1) / 100 == y / 100 + (if (y + 1) % 100 == 0 then 1 else 0)
    ensures (y + 1) / 400 == y / 400 + (if (y + 1) % 400 == 0 then 1 else 0)
  {
  }

  lemma CenturiesAreFours(year: nat)
    ensures year % 100 == 0 ==> year % 4 == 0
    ensures year % 400 == 0 ==> year % 100 == 0
  {
    if year % 100 == 0 {
      assert year == 4 * (25 * (year / 100));
    }
    if year % 400 == 0 {
      assert year == 100 * (4 * (year / 400));
    }
  }

  lemma YearStartStep(year: nat)
    requires 1 <= year
    ensures YearStart(year + 1) == YearStart(year) + (if IsLeap(year) then 366 else 365)
  {
    QuotientSteps(year - 1);
    CenturiesAreFours(year);
  }

  /** Summing month lengths gives Python's closed form for the days before a year. */
  lemma {:induction false} MonthStartsAgreeWithYears(year: nat)
    requires 1 <= year
    ensures MonthStart(12 * (year - 1)) == YearStart(year)
  {
    if year > 1 {
      MonthStartsAgreeWithYears(year - 1);
      TwelveMonths(year - 1);
      YearStartStep(year - 1);
    }
  }

  /** Day `day` of a month of a year is this ordinal, by the closed form of the days before the year. */
  predicate FallsOn(d: int, year: int, month: int, day: int) {
    && 1 <= year && 1 <= month <= 12
    && 1 <= day <= DaysBeforeMonth(year, month) - DaysBeforeMonth(year, month - 1)
    && d == YearStart(year) + DaysBeforeMonth(year, month - 1) + day - 1
  }

  /** A date's place among the months: index, length and first day all follow from the closed form. */
  lemma DateInMonth(d: int, year: nat, month: nat, day: int)
    requires 1 <= year && 1 <= month <= 12
    ensures var m := 12 * (year - 1) + month - 1;
            && YearOf(m) == year && MonthInYear(m) == month
            && MonthStart(m + 1) == MonthStart(m) + MonthLength(m)
            && (FallsOn(d, year, month, day) <==> MonthStart(m) <= d < MonthStart(m + 1) && day == d - MonthStart(m) + 1)
  {
    MonthStartsAgreeWithYears(year);
    MonthsOfYear(year, month - 1);
    MonthsOfYear(year, month);
  }

  /** Every day has one date. */
  lemma DateOf(d: int) returns (year: int, month: int, day: int)
    requires 1 <= d
    ensures year >= 1 && 1 <= month <= 12
    ensures FallsOn(d, year, month, day) && MonthOf(d) == 12 * (year - 1) + month - 1
    ensures day == d - MonthStart(MonthOf(d)) + 1
    ensures forall y, m, e :: FallsOn(d, y, m, e) ==> y == year && m == month && e == day
  {
    hide MonthStart, FallsOn, MonthLength;
    var index := MonthOf(d);
    year, month, day := YearOf(index), MonthInYear(index), d - MonthStart(index) + 1;
    DateInMonth(d, year, month, day);
    forall y, m, e | FallsOn(d, y, m, e) ensures y == year && m == month && e == day {
      FallsInYear(d, y, m, e);
      DateInMonth(d, y, m, e);
      OneMonthHolds(d, index, 12 * (y - 1) + m - 1);
    }
  }

  lemma FallsInYear(d: int, year: int, month: int, day: int)
    requires FallsOn(d, year, month, day)
    ensures 1 <= year && 1 <= month <= 12
  {
  }

  lemma OneMonthHolds(d: int, a: nat, b: nat)
    requires MonthStart(a) <= d < MonthStart(a + 1) && MonthStart(b) <= d < MonthStart(b + 1)
    ensures a == b
  {
    hide MonthStart;
    if a < b {
      MonthStartsAreSpaced(a + 1, b);
    } else if b < a {
      MonthStartsAreSpaced(b + 1, a);
    }
  }

  lemma {:induction false} YearsAreSpaced(a: nat, b: nat)
    requires a <= b
    ensures MonthStart(12 * b) >= MonthStart(12 * a) + 365 * (b - a)
    decreases b
  {
    if a < b {
      YearsAreSpaced(a, b - 1);
      TwelveMonths(b);
    }
  }

  /** `date.max.toordinal()`: the last day of year 9999. */
  lemma LastRepresentableDay()
    ensures MonthStart(12 * MAX_YEAR) == MAX_ORDINAL + 1
  {
    MonthStartsAgreeWithYears(MAX_YEAR + 1);
  }
}
