/** The reporting period (`InsightPeriod`) and the end day of the window that
    starts on a given day.  The same rule appears in the alert route, in both
    report routes and in the insight generator. */
module Periods {
  import opened Wrappers
  import opened Calendar

  /** `Other` stands for a value outside the three the enum defines; every
      caller handles it as an error, and the model keeps that branch. */
  datatype Period = Daily | Weekly | Monthly | Other(value: string)

  /** The period's lower-case value, as `period.value`. */
  function PeriodValue(p: Period): string {
    match p
    case Daily => "daily"
    case Weekly => "weekly"
    case Monthly => "monthly"
    case Other(v) => v
  }

  /** The last day of the window beginning on `start`; None for an unknown period. */
  function PeriodEnd(p: Period, start: Day): (r: Option<Day>)
    ensures r.None? <==> p.Other?
  {
    match p
    case Daily => Some(start)
    case Weekly => Some(start + 6)
    case Monthly => Some(DayBeforeNextMonth(start))
    case Other(_) => None
  }

  /** Daily windows are one day, weekly windows seven days, and a monthly
      window runs from its start to the last day of the start's calendar month
      (so December rolls over into January of the next year). */
  lemma {:induction false} PeriodEndMeaning(p: Period, start: Day)
    ensures p.Daily? ==> PeriodEnd(p, start) == Some(start)
    ensures p.Weekly? ==> PeriodEnd(p, start) == Some(start + 6)
    ensures p.Monthly? ==> PeriodEnd(p, start).Some? && start <= PeriodEnd(p, start).value
    ensures p.Monthly? ==>
              Civil(PeriodEnd(p, start).value) ==
              Date(Civil(start).year, Civil(start).month, DaysInMonth(Civil(start).year, Civil(start).month))
    ensures p.Monthly? ==> Civil(PeriodEnd(p, start).value + 1).day == 1
  {
    if p.Monthly? {
      DayBeforeNextMonthIsLast(start);
      assert PeriodEnd(p, start).value == LastOfMonth(start);
    }
  }

  /** A monthly window started on the first of a month covers the whole
      month: DaysInMonth days. */
  lemma {:induction false} MonthlyWindowLength(start: Day)
    requires Civil(start).day == 1
    ensures PeriodEnd(Monthly, start).value - start + 1 == DaysInMonth(Civil(start).year, Civil(start).month)
  {
    DayBeforeNextMonthIsLast(start);
    var c := Civil(start);
    assert start == Ordinal(c);
  }
}
