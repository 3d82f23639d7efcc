/** The calendar label of a simulated month: the start date advanced by a
    number of whole months. Only the month and year reach the label, so the
    day of the month is not modelled. */
module Calendar {

  /** A calendar month; `month` runs from 1 (January) to 12 (December). */
  datatype YearMonth = YearMonth(year: int, month: int)

  predicate Valid(d: YearMonth) { 1 <= d.month <= 12 }

  /** Months elapsed since January of year 0. */
  function MonthIndex(d: YearMonth): int { d.year * 12 + d.month - 1 }

  /** `d` moved `k` months forward (or back, for negative `k`). */
  function AddMonths(d: YearMonth, k: int): (r: YearMonth)
    ensures Valid(r)
    ensures MonthIndex(r) == MonthIndex(d) + k
  {
    var n := MonthIndex(d) + k;
    YearMonth(n / 12, n % 12 + 1)
  }

  /** A valid month is fixed by its month index. */
  lemma MonthIndexInjective(a: YearMonth, b: YearMonth)
    requires Valid(a) && Valid(b) && MonthIndex(a) == MonthIndex(b)
    ensures a == b
  {
  }

  /** Moving by nothing keeps a valid month; moves compose. */
  lemma AddMonthsLaws(d: YearMonth, j: int, k: int)
    ensures Valid(d) ==> AddMonths(d, 0) == d
    ensures AddMonths(AddMonths(d, j), k) == AddMonths(d, j + k)
  {
    if Valid(d) {
      MonthIndexInjective(AddMonths(d, 0), d);
    }
    MonthIndexInjective(AddMonths(AddMonths(d, j), k), AddMonths(d, j + k));
  }

  /** Stepping one month forward from December rolls over into January of
      the next year; from any other month it stays within the year. */
  lemma NextMonth(d: YearMonth)
    requires Valid(d)
    ensures d.month == 12 ==> AddMonths(d, 1) == YearMonth(d.year + 1, 1)
    ensures d.month < 12 ==> AddMonths(d, 1) == YearMonth(d.year, d.month + 1)
  {
    if d.month == 12 {
      MonthIndexInjective(AddMonths(d, 1), YearMonth(d.year + 1, 1));
    } else {
      MonthIndexInjective(AddMonths(d, 1), YearMonth(d.year, d.month + 1));
    }
  }
}
