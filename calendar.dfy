/** The proleptic Gregorian calendar as Python's `datetime.date` implements it.
    A day is its ordinal number: 0001-01-01 is day 1, and `d + timedelta(days=n)`
    is `d + n`.  `Civil` and `Ordinal` convert between day numbers and
    (year, month, day) triples, and are inverse to each other. */
module Calendar {
  import opened Wrappers

  type Day = int

  datatype Date = Date(year: int, month: int, day: int)

  predicate IsLeap(y: int) {
    y % 4 == 0 && (y % 100 != 0 || y % 400 == 0)
  }

  function DaysInYear(y: int): int {
    if IsLeap(y) then 366 else 365
  }

  function DaysInMonth(y: int, m: int): int
    requires 1 <= m <= 12
  {
    if m == 2 then (if IsLeap(y) then 29 else 28)
    else if m == 4 || m == 6 || m == 9 || m == 11 then 30
    else 31
  }

  /** Days of year `y` that lie before the first of month `m` (m == 13 is the
      whole year). */
  function DaysBeforeMonth(y: int, m: int): int
    requires 1 <= m <= 13
  {
    [0, 0, 31, 59, 90, 120, 151, 181, 212, 243, 273, 304, 334, 365][m]
      + (if m > 2 && IsLeap(y) then 1 else 0)
  }

  /** Days before January 1 of year `y`, counted from 0001-01-01. */
  function DaysBeforeYear(y: int): int {
    var t := y - 1;
    365 * t + t / 4 - t / 100 + t / 400
  }

  predicate ValidDate(d: Date) {
    1 <= d.month <= 12 && 1 <= d.day <= DaysInMonth(d.year, d.month)
  }

  function Ordinal(d: Date): Day
    requires 1 <= d.month <= 12
  {
    DaysBeforeYear(d.year) + DaysBeforeMonth(d.year, d.month) + d.day
  }

  /** Python's `date.weekday()`: Monday is 0 and Sunday is 6. */
  function Weekday(n: Day): (w: int)
    ensures 0 <= w < 7
    ensures (n - w) % 7 == 1
  {
    (n + 6) % 7
  }

  lemma DivStep(y: int)
    ensures y / 4 - (y - 1) / 4 == (if y % 4 == 0 then 1 else 0)
    ensures y / 100 - (y - 1) / 100 == (if y % 100 == 0 then 1 else 0)
    ensures y / 400 - (y - 1) / 400 == (if y % 400 == 0 then 1 else 0)
    ensures y % 400 == 0 ==> y % 100 == 0
    ensures y % 100 == 0 ==> y % 4 == 0
  {
    if y % 400 == 0 {
      assert y == 100 * (4 * (y / 400));
    }
    if y % 100 == 0 {
      assert y == 4 * (25 * (y / 100));
    }
  }

  lemma YearStep(y: int)
    ensures DaysBeforeYear(y + 1) == DaysBeforeYear(y) + DaysInYear(y)
  {
    DivStep(y);
  }

  lemma YearsIncrease(a: int, b: int)
    requires a <= b
    ensures DaysBeforeYear(a) + 365 * (b - a) <= DaysBeforeYear(b)
    decreases b - a
  {
    if a < b {
      YearsIncrease(a, b - 1);
      YearStep(b - 1);
    }
  }

  lemma MonthStep(y: int, m: int)
    requires 1 <= m <= 12
    ensures DaysBeforeMonth(y, m + 1) == DaysBeforeMonth(y, m) + DaysInMonth(y, m)
  {
  }

  lemma MonthsIncrease(y: int, a: int, b: int)
    requires 1 <= a <= b <= 13
    ensures DaysBeforeMonth(y, a) + 28 * (b - a) <= DaysBeforeMonth(y, b)
    decreases b - a
  {
    if a < b {
      MonthsIncrease(y, a, b - 1);
      MonthStep(y, b - 1);
    }
  }

  /** The year whose days include day `n`, searched from the guess `y`. */
  function FindYear(n: Day, y: int): (r: int)
    ensures DaysBeforeYear(r) < n <= DaysBeforeYear(r + 1)
    decreases if n > DaysBeforeYear(y + 1) then n - DaysBeforeYear(y)
              else if n <= DaysBeforeYear(y) then DaysBeforeYear(y + 1) - n
              else 0
  {
    YearStep(y);
    YearStep(y + 1);
    YearStep(y - 1);
    if n > DaysBeforeYear(y + 1) then FindYear(n, y + 1)
    else if n <= DaysBeforeYear(y) then FindYear(n, y - 1)
    else y
  }

  /** The month of year `y` holding day `doy` of that year, searched from `m`. */
  function FindMonth(y: int, doy: int, m: int): (r: int)
    requires 1 <= m <= 12
    requires DaysBeforeMonth(y, m) < doy <= DaysBeforeMonth(y, 13)
    ensures m <= r <= 12
    ensures DaysBeforeMonth(y, r) < doy <= DaysBeforeMonth(y, r + 1)
    decreases 12 - m
  {
    if doy <= DaysBeforeMonth(y, m + 1) then m
    else FindMonth(y, doy, m + 1)
  }

  /** Python's `date.fromordinal(n)`. */
  function Civil(n: Day): (d: Date)
    ensures ValidDate(d) && Ordinal(d) == n
  {
    var y := FindYear(n, n / 366 + 1);
    var doy := n - DaysBeforeYear(y);
    YearStep(y);
    var m := FindMonth(y, doy, 1);
    MonthStep(y, m);
    Date(y, m, doy - DaysBeforeMonth(y, m))
  }

  lemma {:induction false} YearUnique(n: Day, y1: int, y2: int)
    requires DaysBeforeYear(y1) < n <= DaysBeforeYear(y1 + 1)
    requires DaysBeforeYear(y2) < n <= DaysBeforeYear(y2 + 1)
    ensures y1 == y2
  {
    if y1 < y2 {
      YearsIncrease(y1 + 1, y2);
    } else if y2 < y1 {
      YearsIncrease(y2 + 1, y1);
    }
  }

  lemma {:induction false} MonthUnique(y: int, doy: int, m1: int, m2: int)
    requires 1 <= m1 <= 12 && 1 <= m2 <= 12
    requires DaysBeforeMonth(y, m1) < doy <= DaysBeforeMonth(y, m1 + 1)
    requires DaysBeforeMonth(y, m2) < doy <= DaysBeforeMonth(y, m2 + 1)
    ensures m1 == m2
  {
    if m1 < m2 {
      MonthsIncrease(y, m1 + 1, m2);
    } else if m2 < m1 {
      MonthsIncrease(y, m2 + 1, m1);
    }
  }

  /** The ordinal of a valid date falls inside its year and its month. */
  lemma {:induction false} OrdinalBrackets(d: Date)
    requires ValidDate(d)
    ensures DaysBeforeYear(d.year) < Ordinal(d) <= DaysBeforeYear(d.year + 1)
    ensures DaysBeforeMonth(d.year, d.month) < Ordinal(d) - DaysBeforeYear(d.year) <= DaysBeforeMonth(d.year, d.month + 1)
  {
    MonthStep(d.year, d.month);
    MonthsIncrease(d.year, d.month + 1, 13);
    YearStep(d.year);
  }

  lemma {:induction false} OrdinalInjective(a: Date, b: Date)
    requires ValidDate(a) && ValidDate(b) && Ordinal(a) == Ordinal(b)
    ensures a == b
  {
    OrdinalBrackets(a);
    OrdinalBrackets(b);
    YearUnique(Ordinal(a), a.year, b.year);
    MonthUnique(a.year, Ordinal(a) - DaysBeforeYear(a.year), a.month, b.month);
  }

  /** The two conversions are inverse: every valid triple is the civil form of
      its own ordinal. */
  lemma {:induction false} CivilOrdinal(d: Date)
    requires ValidDate(d)
    ensures Civil(Ordinal(d)) == d
  {
    OrdinalInjective(Civil(Ordinal(d)), d);
  }

  /** Ordinals order valid dates as Python compares them: year first, then
      month, then day. */
  lemma {:induction false} OrdinalOrder(a: Date, b: Date)
    requires ValidDate(a) && ValidDate(b)
    ensures Ordinal(a) < Ordinal(b) <==>
      (a.year < b.year || (a.year == b.year && (a.month < b.month || (a.month == b.month && a.day < b.day))))
  {
    OrdinalBrackets(a);
    OrdinalBrackets(b);
    if a.year < b.year {
      YearsIncrease(a.year + 1, b.year);
    } else if b.year < a.year {
      YearsIncrease(b.year + 1, a.year);
    } else if a.month < b.month {
      MonthsIncrease(a.year, a.month + 1, b.month);
    } else if b.month < a.month {
      MonthsIncrease(a.year, b.month + 1, a.month);
    }
  }

  /** The last day of the month that contains day `n`. */
  function LastOfMonth(n: Day): Day {
    var c := Civil(n);
    Ordinal(Date(c.year, c.month, DaysInMonth(c.year, c.month)))
  }

  /** The first day of the month that contains day `n`: `d.replace(day=1)`. */
  function FirstOfMonth(n: Day): (r: Day)
    ensures r <= n
  {
    var c := Civil(n);
    Ordinal(Date(c.year, c.month, 1))
  }

  /** `date(y, m + 1, 1) - timedelta(days=1)`, or `date(y + 1, 1, 1) - …` in
      December, as month-end is computed throughout the backend. */
  function DayBeforeNextMonth(n: Day): Day {
    var c := Civil(n);
    NextMonthStart(c.year, c.month) - 1
  }

  /** The first day of the month after (y, m), as an ordinal. */
  function NextMonthStart(y: int, m: int): Day
    requires 1 <= m <= 12
  {
    if m == 12 then Ordinal(Date(y + 1, 1, 1)) else Ordinal(Date(y, m + 1, 1))
  }

  lemma NextMonthStartFollowsLast(y: int, m: int)
    requires 1 <= m <= 12
    ensures NextMonthStart(y, m) == Ordinal(Date(y, m, DaysInMonth(y, m))) + 1
  {
    MonthStep(y, m);
    if m == 12 {
      YearStep(y);
    }
  }

  /** Month-end computed as "the first of next month, minus one day" is the
      last day of the month: same year and month, its last day number, and the
      day after it is a first of the month. */
  lemma {:induction false} DayBeforeNextMonthIsLast(n: Day)
    ensures DayBeforeNextMonth(n) == LastOfMonth(n)
    ensures n <= LastOfMonth(n)
    ensures Civil(LastOfMonth(n)) == Date(Civil(n).year, Civil(n).month, DaysInMonth(Civil(n).year, Civil(n).month))
    ensures Civil(LastOfMonth(n) + 1).day == 1
  {
    LastOfMonthCivil(n);
    DayAfterLast(n);
  }

  lemma {:induction false} LastOfMonthCivil(n: Day)
    ensures n <= LastOfMonth(n)
    ensures Civil(LastOfMonth(n)) == Date(Civil(n).year, Civil(n).month, DaysInMonth(Civil(n).year, Civil(n).month))
  {
    var c := Civil(n);
    CivilOrdinal(Date(c.year, c.month, DaysInMonth(c.year, c.month)));
  }

  lemma {:induction false} DayAfterLast(n: Day)
    ensures DayBeforeNextMonth(n) == LastOfMonth(n)
    ensures Civil(LastOfMonth(n) + 1).day == 1
  {
    var c := Civil(n);
    NextMonthStartFollowsLast(c.year, c.month);
    NextMonthStartIsFirst(c.year, c.month);
  }

  lemma {:induction false} NextMonthStartIsFirst(y: int, m: int)
    requires 1 <= m <= 12
    ensures Civil(NextMonthStart(y, m)).day == 1
  {
    if m == 12 {
      CivilOrdinal(Date(y + 1, 1, 1));
    } else {
      CivilOrdinal(Date(y, m + 1, 1));
    }
  }

  /** Every day of the month containing `n` lies between its first and last day. */
  lemma {:induction false} MonthBounds(n: Day)
    ensures FirstOfMonth(n) <= n <= LastOfMonth(n)
    ensures Civil(FirstOfMonth(n)) == Date(Civil(n).year, Civil(n).month, 1)
  {
    DayBeforeNextMonthIsLast(n);
    var c := Civil(n);
    CivilOrdinal(Date(c.year, c.month, 1));
  }

  /** `(end - start).days + 1`: the number of days from start to end, both
      included, the `duration_days` every schedule and medication stores. */
  function Duration(start: Day, end: Day): int {
    end - start + 1
  }

  /** A time of day as Python's `datetime.time`; `tz` is the UTC offset in
      minutes of an aware time and None for a naive one. */
  datatype Clock = Clock(hour: int, minute: int, second: int, micro: int, tz: Option<int>)

  predicate ValidClock(c: Clock) {
    0 <= c.hour < 24 && 0 <= c.minute < 60 && 0 <= c.second < 60 && 0 <= c.micro < 1000000
  }

  function ClockMicros(c: Clock): int {
    ((c.hour * 60 + c.minute) * 60 + c.second) * 1000000 + c.micro
  }

  /** A naive `datetime`: a day and a time of day. */
  datatype DateTime = DateTime(date: Day, clock: Clock)

  /** `a < b` on naive datetimes. */
  predicate Earlier(a: DateTime, b: DateTime) {
    a.date < b.date || (a.date == b.date && ClockMicros(a.clock) < ClockMicros(b.clock))
  }
}
