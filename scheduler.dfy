/** The periodic insight job: the start of the period just finished, and one
    generation request per user. */
module Scheduler {
  import opened Wrappers
  import opened Calendar
  import opened Entities
  import opened Periods

  /** The start day of the previous period: yesterday, the Monday of last
      week, or the first of last month; None for an unknown period. */
  function InsightStart(period: Period, today: Day): (r: Option<Day>)
    ensures r.None? <==> period.Other?
  {
    match period
    case Daily => Some(today - 1)
    case Weekly => Some(today - (Weekday(today) + 7))
    case Monthly => Some(FirstOfMonth(FirstOfMonth(today) - 1))
    case Other(_) => None
  }

  /** The Monday of the week containing `today`. */
  function ThisMonday(today: Day): (r: Day)
    ensures Weekday(r) == 0 && today - 6 <= r <= today
  {
    today - Weekday(today)
  }

  /** A day whose successor is the first of a month is the last of its own month. */
  lemma {:induction false} LastBeforeFirst(n: Day)
    requires Civil(n + 1).day == 1
    ensures n == LastOfMonth(n)
  {
    var c := Civil(n);
    if c.day < DaysInMonth(c.year, c.month) {
      var next := Date(c.year, c.month, c.day + 1);
      assert Ordinal(next) == n + 1;
      CivilOrdinal(next);
      assert false;
    }
    assert c == Date(c.year, c.month, DaysInMonth(c.year, c.month));
  }

  /** The weekly start is a Monday 7 to 13 days back, and its week ends on the
      Sunday before this week's Monday. */
  lemma WeeklyStart(today: Day)
    ensures var s := InsightStart(Weekly, today).value;
            Weekday(s) == 0 && 7 <= today - s <= 13
            && PeriodEnd(Weekly, s).value == ThisMonday(today) - 1
  {
    var w := Weekday(today);
    var s := today - (w + 7);
    assert (s - 0) % 7 == 1 by {
      assert s == (today - w) - 7;
    }
  }

  /** The monthly start is the first of the previous month, and the monthly
      window then ends on the day before the first of this month, covering the
      whole previous month. */
  lemma {:induction false} MonthlyStart(today: Day)
    ensures var s := InsightStart(Monthly, today).value;
            Civil(s).day == 1
            && s < FirstOfMonth(today)
            && PeriodEnd(Monthly, s).value == FirstOfMonth(today) - 1
            && PeriodEnd(Monthly, s).value - s + 1 == DaysInMonth(Civil(s).year, Civil(s).month)
  {
    var f := FirstOfMonth(today);
    var last := f - 1;
    var s := FirstOfMonth(last);
    MonthBounds(today);
    MonthBounds(last);
    assert Civil(last + 1).day == 1;
    LastBeforeFirst(last);
    DayBeforeNextMonthIsLast(s);
    var cl := Civil(last);
    assert Civil(s) == Date(cl.year, cl.month, 1);
    assert LastOfMonth(s) == Ordinal(Date(cl.year, cl.month, DaysInMonth(cl.year, cl.month))) == LastOfMonth(last);
    MonthlyWindowLength(s);
  }

  /** Every period's window ends just before the current one begins: the
      job always reports on a period that is over. */
  lemma {:induction false} WindowIsPast(period: Period, today: Day)
    requires !period.Other?
    ensures var s := InsightStart(period, today).value;
            s <= PeriodEnd(period, s).value < today
            && PeriodEnd(period, s).value + 1 ==
                 (match period case Daily => today case Weekly => ThisMonday(today) case _ => FirstOfMonth(today))
  {
    match period {
      case Daily =>
      case Weekly => WeeklyStart(today);
      case Monthly =>
        MonthlyStart(today);
        PeriodEndMeaning(Monthly, InsightStart(period, today).value);
      case Other(_) =>
    }
  }

  /** One call of the insight generator. */
  datatype Request = Request(userId: int, period: Period, start: Day)

  /** How many users the loop of `generate_insights` reaches.  `raises(id)`
      says whether generating and saving the insight of user `id` escapes
      with an exception; the one `try` around the whole loop then ends the
      job, so the loop stops after the first such user. */
  function Attempted(users: seq<User>, raises: int -> bool): (n: nat)
    ensures n <= |users|
    ensures forall j :: 0 <= j < n - 1 ==> !raises(users[j].id)
    ensures n < |users| ==> 0 < n && raises(users[n - 1].id)
    ensures (forall j :: 0 <= j < |users| ==> !raises(users[j].id)) ==> n == |users|
  {
    if users == [] then 0
    else if raises(users[0].id) then 1
    else 1 + Attempted(users[1..], raises)
  }

  /** `generate_insights`: nothing for an unknown period, otherwise one
      request per user, in table order, all for the same period and start,
      up to and including the first user whose generation raises; every
      user gets one when none raises. */
  method GenerateInsights(period: Period, today: Day, users: seq<User>, raises: int -> bool) returns (requests: seq<Request>)
    ensures period.Other? ==> requests == []
    ensures !period.Other? ==>
              |requests| == Attempted(users, raises)
              && forall i :: 0 <= i < |requests| ==>
                   requests[i] == Request(users[i].id, period, InsightStart(period, today).value)
    ensures !period.Other? && (forall j :: 0 <= j < |users| ==> !raises(users[j].id)) ==> |requests| == |users|
  {
    var start := InsightStart(period, today);
    if start.None? {
      return [];
    }
    requests := RequestsFor(users, period, start.value, raises);
  }

  /** The loop of `generate_insights`: one request per user, in table order,
      until a generation raises. */
  method RequestsFor(users: seq<User>, period: Period, start: Day, raises: int -> bool) returns (requests: seq<Request>)
    ensures |requests| == Attempted(users, raises)
    ensures forall i :: 0 <= i < |requests| ==> requests[i] == Request(users[i].id, period, start)
  {
    requests := [];
    var i := 0;
    while i < |users|
      invariant 0 <= i <= |users|
      invariant |requests| == i
      invariant forall j :: 0 <= j < i ==> requests[j] == Request(users[j].id, period, start)
      invariant forall j :: 0 <= j < i ==> !raises(users[j].id)
    {
      requests := requests + [Request(users[i].id, period, start)];
      if raises(users[i].id) {
        ghost var n := Attempted(users, raises);
        assert n - 1 >= i by {
          if n < |users| {
            assert raises(users[n - 1].id);
          }
        }
        return;
      }
      i := i + 1;
    }
  }
}
