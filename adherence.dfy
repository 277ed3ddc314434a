/** Adherence reporting: how many scheduled (schedule, day) occurrences of a
    window were completed, overall, per category and day by day, as the
    adherence summary route and the PDF report compute them. */
module Adherence {
  import opened Wrappers
  import opened Calendar
  import opened Entities
  import opened Periods

  /** `daterange(s, e)`: the days from `s` to `e` inclusive, none when `e < s`. */
  function DateRange(s: Day, e: Day): (r: seq<Day>)
    ensures |r| == if e < s then 0 else e - s + 1
    ensures forall i :: 0 <= i < |r| ==> r[i] == s + i
    decreases if e < s then 0 else e - s + 1
  {
    if e < s then [] else DateRange(s, e - 1) + [e]
  }

  /** A schedule as the counting sees it: its id and the interval on which it
      counts as active.  A medication schedule takes the interval of its
      medication, a check schedule its own. */
  datatype Slot = Slot(scheduleId: int, start: Day, end: Option<Day>)

  function SlotsOfMedication(med: Medication, scheds: seq<MedSchedule>): (r: seq<Slot>)
    ensures |r| == |scheds|
    ensures forall i :: 0 <= i < |r| ==> r[i] == Slot(scheds[i].id, med.startDate, med.endDate)
  {
    if scheds == [] then []
    else SlotsOfMedication(med, scheds[..|scheds| - 1]) + [Slot(scheds[|scheds| - 1].id, med.startDate, med.endDate)]
  }

  /** `for med in medications: for sched in med.schedules`, flattened. */
  function MedSlots(db: Snapshot, meds: seq<Medication>): seq<Slot> {
    if meds == [] then []
    else
      var med := meds[|meds| - 1];
      MedSlots(db, meds[..|meds| - 1]) + SlotsOfMedication(med, SchedulesOf(db.medSchedules, med.id))
  }

  function CheckSlots(scheds: seq<CheckSchedule>): (r: seq<Slot>)
    ensures |r| == |scheds|
    ensures forall i :: 0 <= i < |r| ==> r[i] == Slot(scheds[i].id, scheds[i].startDate, scheds[i].endDate)
  {
    if scheds == [] then []
    else CheckSlots(scheds[..|scheds| - 1]) + [Slot(scheds[|scheds| - 1].id, scheds[|scheds| - 1].startDate, scheds[|scheds| - 1].endDate)]
  }

  /** The lookup key `(day, schedule_id)` of each log, timestamps cut to dates. */
  function MedKeys(logs: seq<MedLog>): (r: seq<(Day, int)>)
    ensures |r| == |logs|
    ensures forall i :: 0 <= i < |r| ==> r[i] == (logs[i].scheduledDate, logs[i].scheduleId)
  {
    if logs == [] then [] else MedKeys(logs[..|logs| - 1]) + [(logs[|logs| - 1].scheduledDate, logs[|logs| - 1].scheduleId)]
  }

  function BpKeys(logs: seq<BpLog>): (r: seq<(Day, int)>)
    ensures |r| == |logs|
    ensures forall i :: 0 <= i < |r| ==> r[i] == (logs[i].checkedAt.date, logs[i].scheduleId)
  {
    if logs == [] then [] else BpKeys(logs[..|logs| - 1]) + [(logs[|logs| - 1].checkedAt.date, logs[|logs| - 1].scheduleId)]
  }

  function SugarKeys(logs: seq<SugarLog>): (r: seq<(Day, int)>)
    ensures |r| == |logs|
    ensures forall i :: 0 <= i < |r| ==> r[i] == (logs[i].checkedAt.date, logs[i].scheduleId)
  {
    if logs == [] then [] else SugarKeys(logs[..|logs| - 1]) + [(logs[|logs| - 1].checkedAt.date, logs[|logs| - 1].scheduleId)]
  }

  /** What counts an active occurrence: being scheduled at all; having a log
      with its key; or, for the per-day medication count, a first log for the
      day that has `taken_at`. */
  datatype Criterion = Scheduled | Keyed(keys: seq<(Day, int)>) | FirstTaken(logs: seq<MedLog>)

  predicate Holds(c: Criterion, x: Slot, d: Day) {
    ActiveOn(x.start, x.end, d)
    && match c
       case Scheduled => true
       case Keyed(keys) => (d, x.scheduleId) in keys
       case FirstTaken(logs) =>
         FirstMedLog(logs, x.scheduleId, d).Some? && FirstMedLog(logs, x.scheduleId, d).value.takenAt.Some?
  }

  function Bit(b: bool): int { if b then 1 else 0 }

  /** Occurrences of one slot over the days `s` to `e` that meet `c`. */
  function SlotDays(c: Criterion, x: Slot, s: Day, e: Day): int
    decreases if e < s then 0 else e - s + 1
  {
    if e < s then 0 else SlotDays(c, x, s, e - 1) + Bit(Holds(c, x, e))
  }

  /** Slot-major count, as `calculate_adherence` loops. */
  function PairCount(c: Criterion, slots: seq<Slot>, s: Day, e: Day): int {
    if slots == [] then 0
    else PairCount(c, slots[..|slots| - 1], s, e) + SlotDays(c, slots[|slots| - 1], s, e)
  }

  /** Occurrences on day `d` that meet `c`. */
  function DayCount(c: Criterion, slots: seq<Slot>, d: Day): int {
    if slots == [] then 0
    else DayCount(c, slots[..|slots| - 1], d) + Bit(Holds(c, slots[|slots| - 1], d))
  }

  /** Day-major count, as the per-day loop sums. */
  function DayTotal(c: Criterion, slots: seq<Slot>, s: Day, e: Day): int
    decreases if e < s then 0 else e - s + 1
  {
    if e < s then 0 else DayTotal(c, slots, s, e - 1) + DayCount(c, slots, e)
  }

  /** `c1` is at least as demanding as `c2`. */
  ghost predicate Stricter(c1: Criterion, c2: Criterion) {
    forall x: Slot, d: Day :: Holds(c1, x, d) ==> Holds(c2, x, d)
  }

  lemma {:induction false} SlotDaysMonotone(c1: Criterion, c2: Criterion, x: Slot, s: Day, e: Day)
    requires Stricter(c1, c2)
    ensures 0 <= SlotDays(c1, x, s, e) <= SlotDays(c2, x, s, e)
    ensures SlotDays(Scheduled, x, s, e) <= if e < s then 0 else e - s + 1
    decreases if e < s then 0 else e - s + 1
  {
    if s <= e {
      SlotDaysMonotone(c1, c2, x, s, e - 1);
    }
  }

  /** Counting with a stricter criterion never counts more. */
  lemma {:induction false} PairCountMonotone(c1: Criterion, c2: Criterion, slots: seq<Slot>, s: Day, e: Day)
    requires Stricter(c1, c2)
    ensures 0 <= PairCount(c1, slots, s, e) <= PairCount(c2, slots, s, e)
    decreases |slots|
  {
    if slots != [] {
      PairCountMonotone(c1, c2, slots[..|slots| - 1], s, e);
      SlotDaysMonotone(c1, c2, slots[|slots| - 1], s, e);
    }
  }

  lemma {:induction false} DayCountMonotone(c1: Criterion, c2: Criterion, slots: seq<Slot>, d: Day)
    requires Stricter(c1, c2)
    ensures 0 <= DayCount(c1, slots, d) <= DayCount(c2, slots, d)
    ensures DayCount(Scheduled, slots, d) <= |slots|
    decreases |slots|
  {
    if slots != [] {
      DayCountMonotone(c1, c2, slots[..|slots| - 1], d);
    }
  }

  lemma AllStricterThanScheduled(c: Criterion)
    ensures Stricter(c, Scheduled)
  {
  }

  /** A first log taken on the day is in particular a log with the key. */
  lemma {:induction false} FirstTakenStricterThanKeyed(logs: seq<MedLog>)
    ensures Stricter(FirstTaken(logs), Keyed(MedKeys(logs)))
  {
    forall x: Slot, d: Day | Holds(FirstTaken(logs), x, d)
      ensures Holds(Keyed(MedKeys(logs)), x, d)
    {
      var f := FirstMedLog(logs, x.scheduleId, d).value;
      var i :| 0 <= i < |logs| && logs[i] == f;
      assert MedKeys(logs)[i] == (d, x.scheduleId);
    }
  }

  /** When every log has `taken_at`, the two medication rules agree. */
  lemma {:induction false} KeyedStricterThanFirstTaken(logs: seq<MedLog>)
    requires forall l :: l in logs ==> l.takenAt.Some?
    ensures Stricter(Keyed(MedKeys(logs)), FirstTaken(logs))
  {
    forall x: Slot, d: Day | Holds(Keyed(MedKeys(logs)), x, d)
      ensures Holds(FirstTaken(logs), x, d)
    {
      var i :| 0 <= i < |MedKeys(logs)| && MedKeys(logs)[i] == (d, x.scheduleId);
      assert logs[i].scheduleId == x.scheduleId && logs[i].scheduledDate == d;
    }
  }

  lemma {:induction false} DayTotalAddSlot(c: Criterion, slots: seq<Slot>, x: Slot, s: Day, e: Day)
    ensures DayTotal(c, slots + [x], s, e) == DayTotal(c, slots, s, e) + SlotDays(c, x, s, e)
    decreases if e < s then 0 else e - s + 1
  {
    if s <= e {
      DayTotalAddSlot(c, slots, x, s, e - 1);
      assert (slots + [x])[..|slots|] == slots;
    }
  }

  /** The two loop orders count the same occurrences. */
  lemma {:induction false} Transpose(c: Criterion, slots: seq<Slot>, s: Day, e: Day)
    ensures PairCount(c, slots, s, e) == DayTotal(c, slots, s, e)
    decreases |slots|
  {
    if slots == [] {
      DayTotalEmpty(c, s, e);
    } else {
      var t := slots[..|slots| - 1];
      Transpose(c, t, s, e);
      DayTotalAddSlot(c, t, slots[|slots| - 1], s, e);
      assert t + [slots[|slots| - 1]] == slots;
    }
  }

  lemma {:induction false} DayTotalEmpty(c: Criterion, s: Day, e: Day)
    ensures DayTotal(c, [], s, e) == 0
    decreases if e < s then 0 else e - s + 1
  {
    if s <= e {
      DayTotalEmpty(c, s, e - 1);
    }
  }

  /** `calculate_adherence` and `calculate_medication_adherence`: fill the
      `(day, schedule_id)` lookup from the logs, then walk every slot over
      every day of the window.  The two differ only in where a slot's
      interval comes from, which the slots already carry. */
  method CalculateAdherence(slots: seq<Slot>, keys: seq<(Day, int)>, s: Day, e: Day)
    returns (adhered: int, total: int)
    ensures total == PairCount(Scheduled, slots, s, e)
    ensures adhered == PairCount(Keyed(keys), slots, s, e)
  {
    var lookup: set<(Day, int)> := {};
    var i := 0;
    while i < |keys|
      invariant 0 <= i <= |keys|
      invariant forall k :: k in lookup <==> k in keys[..i]
    {
      assert keys[..i + 1] == keys[..i] + [keys[i]];
      lookup := lookup + {keys[i]};
      i := i + 1;
    }
    assert keys[..i] == keys;
    total := 0;
    adhered := 0;
    var j := 0;
    while j < |slots|
      invariant 0 <= j <= |slots|
      invariant total == PairCount(Scheduled, slots[..j], s, e)
      invariant adhered == PairCount(Keyed(keys), slots[..j], s, e)
    {
      var x := slots[j];
      var day := s;
      var t0, a0 := total, adhered;
      while day <= e
        invariant s <= day
        invariant e < s ==> day == s
        invariant s <= e ==> day <= e + 1
        invariant total == t0 + SlotDays(Scheduled, x, s, day - 1)
        invariant adhered == a0 + SlotDays(Keyed(keys), x, s, day - 1)
        decreases e - day
      {
        if ActiveOn(x.start, x.end, day) {
          total := total + 1;
          if (day, x.scheduleId) in lookup {
            adhered := adhered + 1;
          }
        }
        day := day + 1;
      }
      assert slots[..j + 1][..j] == slots[..j] && slots[..j + 1][j] == x;
      assert SlotDays(Scheduled, x, s, day - 1) == SlotDays(Scheduled, x, s, e);
      assert SlotDays(Keyed(keys), x, s, day - 1) == SlotDays(Keyed(keys), x, s, e);
      j := j + 1;
    }
    assert slots[..j] == slots;
  }

  /** The per-day counts of one category: `day_total` and `day_adhered`. */
  method TallyDay(c: Criterion, slots: seq<Slot>, day: Day) returns (scheduled: int, completed: int)
    ensures scheduled == DayCount(Scheduled, slots, day)
    ensures completed == DayCount(c, slots, day)
  {
    scheduled := 0;
    completed := 0;
    var j := 0;
    while j < |slots|
      invariant 0 <= j <= |slots|
      invariant scheduled == DayCount(Scheduled, slots[..j], day)
      invariant completed == DayCount(c, slots[..j], day)
    {
      var x := slots[j];
      if ActiveOn(x.start, x.end, day) {
        scheduled := scheduled + 1;
        var found := match c
          case Scheduled => true
          case Keyed(keys) => (day, x.scheduleId) in keys
          case FirstTaken(logs) =>
            var log := FirstMedLog(logs, x.scheduleId, day);
            log.Some? && log.value.takenAt.Some?;
        if found {
          completed := completed + 1;
        }
      }
      assert slots[..j + 1][..j] == slots[..j];
      j := j + 1;
    }
    assert slots[..j] == slots;
  }

  /** `(done / total * 100) if total > 0 else 0`, exactly (rounding left out). */
  function Percent(done: int, total: int): (p: real)
    ensures total <= 0 ==> p == 0.0
    ensures 0 <= done <= total ==> 0.0 <= p <= 100.0
    ensures 0 < done == total ==> p == 100.0
  {
    if total > 0 then PercentOf(done, total) else 0.0
  }

  function PercentOf(done: int, total: int): (p: real)
    requires total > 0
    ensures 0 <= done <= total ==> 0.0 <= p <= 100.0
    ensures done == total ==> p == 100.0
  {
    var q := done as real / total as real;
    FractionBounds(done as real, total as real);
    q * 100.0
  }

  lemma FractionBounds(d: real, t: real)
    requires 0.0 < t
    ensures 0.0 <= d <= t ==> 0.0 <= d / t <= 1.0
    ensures d == t ==> d / t == 1.0
  {
    var q := d / t;
    assert q * t == d;
    assert (1.0 - q) * t == t - d;
  }

  /** The store rows one summary reads: the slots of the user's active
      medications and check schedules, the medication logs of those slots
      dated within the window, and the keys of the user's check logs taken
      within the window. */
  datatype Inputs = Inputs(
    medSlots: seq<Slot>, medLogs: seq<MedLog>,
    bpSlots: seq<Slot>, bpKeys: seq<(Day, int)>,
    sugarSlots: seq<Slot>, sugarKeys: seq<(Day, int)>)

  /** `med_logs.extend(...)` schedule by schedule: logs of `slots`, in slot
      order, dated from `s` to `e`. */
  function WindowMedLogs(logs: seq<MedLog>, slots: seq<Slot>, s: Day, e: Day): seq<MedLog> {
    if slots == [] then []
    else WindowMedLogs(logs, slots[..|slots| - 1], s, e) + LogsOfSlot(logs, slots[|slots| - 1].scheduleId, s, e)
  }

  function LogsOfSlot(logs: seq<MedLog>, id: int, s: Day, e: Day): (r: seq<MedLog>)
    ensures forall l :: l in r <==> l in logs && l.scheduleId == id && s <= l.scheduledDate <= e
  {
    if logs == [] then []
    else
      var last := logs[|logs| - 1];
      LogsOfSlot(logs[..|logs| - 1], id, s, e)
      + (if last.scheduleId == id && s <= last.scheduledDate <= e then [last] else [])
  }

  /** Schedule `id` is one of the user's rows of that table (the join). */
  predicate OwnedBy(rows: seq<CheckSchedule>, id: int, user: int) {
    exists r :: r in rows && r.id == id && r.userId == user
  }

  function WindowBpLogs(logs: seq<BpLog>, rows: seq<CheckSchedule>, user: int, s: Day, e: Day): (r: seq<BpLog>)
    ensures forall l :: l in r <==> l in logs && OwnedBy(rows, l.scheduleId, user) && s <= l.checkedAt.date <= e
  {
    if logs == [] then []
    else
      var last := logs[|logs| - 1];
      WindowBpLogs(logs[..|logs| - 1], rows, user, s, e)
      + (if OwnedBy(rows, last.scheduleId, user) && s <= last.checkedAt.date <= e then [last] else [])
  }

  function WindowSugarLogs(logs: seq<SugarLog>, rows: seq<CheckSchedule>, user: int, s: Day, e: Day): (r: seq<SugarLog>)
    ensures forall l :: l in r <==> l in logs && OwnedBy(rows, l.scheduleId, user) && s <= l.checkedAt.date <= e
  {
    if logs == [] then []
    else
      var last := logs[|logs| - 1];
      WindowSugarLogs(logs[..|logs| - 1], rows, user, s, e)
      + (if OwnedBy(rows, last.scheduleId, user) && s <= last.checkedAt.date <= e then [last] else [])
  }

  function Gather(db: Snapshot, user: User, s: Day, e: Day): Inputs {
    var medSlots := MedSlots(db, ActiveMedications(db.medications, user.id));
    Inputs(medSlots, WindowMedLogs(db.medLogs, medSlots, s, e),
           CheckSlots(ActiveCheckSchedules(db.bpSchedules, user.id)),
           BpKeys(WindowBpLogs(db.bpLogs, db.bpSchedules, user.id, s, e)),
           CheckSlots(ActiveCheckSchedules(db.sugarSchedules, user.id)),
           SugarKeys(WindowSugarLogs(db.sugarLogs, db.sugarSchedules, user.id, s, e)))
  }

  datatype Window = Window(start: Day, end: Day)

  /** The window of both report routes.  Without a start it is the last 1,
      7 or 30 days up to today; with one it begins there, never ends after
      today or after the period's end, is the whole period when that is
      over by today, and otherwise ends today. */
  function ReportWindow(period: Period, start: Option<Day>, today: Day): (r: Option<Window>)
    ensures r.None? <==> period.Other?
    ensures r.Some? && start.None? ==>
              r.value.end == today
              && |DateRange(r.value.start, r.value.end)| == (match period case Daily => 1 case Weekly => 7 case _ => 30)
    ensures r.Some? && start.Some? ==>
              r.value.start == start.value && r.value.end <= today && r.value.end <= PeriodEnd(period, start.value).value
              && (PeriodEnd(period, start.value).value <= today ==> r.value.end == PeriodEnd(period, start.value).value)
              && (today < PeriodEnd(period, start.value).value ==> r.value.end == today)
  {
    if period.Other? then None
    else if start.None? then
      Some(Window(today - (match period case Daily => 0 case Weekly => 6 case _ => 29), today))
    else
      var end := PeriodEnd(period, start.value).value;
      Some(Window(start.value, if end > today then today else end))
  }

  datatype Tally = Tally(scheduled: int, completed: int)

  datatype DayEntry = DayEntry(day: Day, percent: real, completed: int, scheduled: int)

  datatype Summary = Summary(
    start: Day, end: Day, total: Tally, percent: real,
    medication: Tally, bloodPressure: Tally, sugar: Tally,
    daily: seq<DayEntry>)

  datatype SummaryResponse = SummaryOk(summary: Summary) | SummaryFailed(error: string)

  function DayEntryFor(inp: Inputs, d: Day): DayEntry {
    var scheduled := DayCount(Scheduled, inp.medSlots, d) + DayCount(Scheduled, inp.bpSlots, d)
                     + DayCount(Scheduled, inp.sugarSlots, d);
    var completed := DayCount(FirstTaken(inp.medLogs), inp.medSlots, d) + DayCount(Keyed(inp.bpKeys), inp.bpSlots, d)
                     + DayCount(Keyed(inp.sugarKeys), inp.sugarSlots, d);
    DayEntry(d, Percent(completed, scheduled), completed, scheduled)
  }

  /** The `daily_adherence` array: one entry per day, in date order. */
  function DailyEntries(inp: Inputs, s: Day, e: Day): (r: seq<DayEntry>)
    ensures |r| == |DateRange(s, e)|
    ensures forall i :: 0 <= i < |r| ==> r[i] == DayEntryFor(inp, s + i)
    decreases if e < s then 0 else e - s + 1
  {
    if e < s then [] else DailyEntries(inp, s, e - 1) + [DayEntryFor(inp, e)]
  }

  function Summarize(inp: Inputs, s: Day, e: Day): Summary {
    var med := Tally(PairCount(Scheduled, inp.medSlots, s, e), PairCount(Keyed(MedKeys(inp.medLogs)), inp.medSlots, s, e));
    var bp := Tally(PairCount(Scheduled, inp.bpSlots, s, e), PairCount(Keyed(inp.bpKeys), inp.bpSlots, s, e));
    var sugar := Tally(PairCount(Scheduled, inp.sugarSlots, s, e), PairCount(Keyed(inp.sugarKeys), inp.sugarSlots, s, e));
    var total := Tally(med.scheduled + bp.scheduled + sugar.scheduled, med.completed + bp.completed + sugar.completed);
    Summary(s, e, total, Percent(total.completed, total.scheduled), med, bp, sugar, DailyEntries(inp, s, e))
  }

  /** The answer of `get_adherence_summary`. */
  function SummaryFor(db: Snapshot, user: User, period: Period, start: Option<Day>, today: Day): SummaryResponse {
    match ReportWindow(period, start, today)
    case None => SummaryFailed("Unknown period.")
    case Some(w) => SummaryOk(Summarize(Gather(db, user, w.start, w.end), w.start, w.end))
  }

  /** `get_adherence_summary`, and the figures of `generate_report`: the
      window, the three whole-window counts and the per-day loop. */
  method AdherenceSummary(db: Snapshot, user: User, period: Period, start: Option<Day>, today: Day)
    returns (r: SummaryResponse)
    ensures r == SummaryFor(db, user, period, start, today)
  {
    var window := ReportWindow(period, start, today);
    if window.None? {
      return SummaryFailed("Unknown period.");
    }
    var s, e := window.value.start, window.value.end;
    var summary := Summarise(Gather(db, user, s, e), s, e);
    return SummaryOk(summary);
  }

  /** The counting part of the route, once the rows are read. */
  method Summarise(inp: Inputs, s: Day, e: Day) returns (r: Summary)
    ensures r == Summarize(inp, s, e)
  {
    var medAdhered, medTotal := CalculateAdherence(inp.medSlots, MedKeys(inp.medLogs), s, e);
    var bpAdhered, bpTotal := CalculateAdherence(inp.bpSlots, inp.bpKeys, s, e);
    var sugarAdhered, sugarTotal := CalculateAdherence(inp.sugarSlots, inp.sugarKeys, s, e);
    var total := medTotal + bpTotal + sugarTotal;
    var adhered := medAdhered + bpAdhered + sugarAdhered;
    var daily := DailySeries(inp, s, e);
    r := Summary(s, e, Tally(total, adhered), Percent(adhered, total),
                 Tally(medTotal, medAdhered), Tally(bpTotal, bpAdhered), Tally(sugarTotal, sugarAdhered),
                 daily);
  }

  /** The per-day loop. */
  method DailySeries(inp: Inputs, s: Day, e: Day) returns (daily: seq<DayEntry>)
    ensures daily == DailyEntries(inp, s, e)
  {
    daily := [];
    var day := s;
    while day <= e
      invariant s <= day
      invariant e < s ==> day == s
      invariant s <= e ==> day <= e + 1
      invariant daily == DailyEntries(inp, s, day - 1)
      decreases e - day
    {
      var medScheduled, medDone := TallyDay(FirstTaken(inp.medLogs), inp.medSlots, day);
      var bpScheduled, bpDone := TallyDay(Keyed(inp.bpKeys), inp.bpSlots, day);
      var sugarScheduled, sugarDone := TallyDay(Keyed(inp.sugarKeys), inp.sugarSlots, day);
      var dayTotal := medScheduled + bpScheduled + sugarScheduled;
      var dayAdhered := medDone + bpDone + sugarDone;
      daily := daily + [DayEntry(day, Percent(dayAdhered, dayTotal), dayAdhered, dayTotal)];
      day := day + 1;
    }
  }

  function SumScheduled(entries: seq<DayEntry>): int {
    if entries == [] then 0 else SumScheduled(entries[..|entries| - 1]) + entries[|entries| - 1].scheduled
  }

  function SumCompleted(entries: seq<DayEntry>): int {
    if entries == [] then 0 else SumCompleted(entries[..|entries| - 1]) + entries[|entries| - 1].completed
  }

  lemma {:induction false} DailySums(inp: Inputs, s: Day, e: Day)
    ensures SumScheduled(DailyEntries(inp, s, e)) ==
              DayTotal(Scheduled, inp.medSlots, s, e) + DayTotal(Scheduled, inp.bpSlots, s, e)
              + DayTotal(Scheduled, inp.sugarSlots, s, e)
    ensures SumCompleted(DailyEntries(inp, s, e)) ==
              DayTotal(FirstTaken(inp.medLogs), inp.medSlots, s, e) + DayTotal(Keyed(inp.bpKeys), inp.bpSlots, s, e)
              + DayTotal(Keyed(inp.sugarKeys), inp.sugarSlots, s, e)
    decreases if e < s then 0 else e - s + 1
  {
    if s <= e {
      DailySums(inp, s, e - 1);
      var d := DailyEntries(inp, s, e);
      assert d[..|d| - 1] == DailyEntries(inp, s, e - 1);
    }
  }

  /** The whole-window figures: every count lies between 0 and what was
      scheduled, the overall pair is the sum of the three categories, and the
      percent lies in [0, 100], 0 when nothing was scheduled. */
  lemma {:induction false} SummaryTotals(inp: Inputs, s: Day, e: Day)
    ensures var r := Summarize(inp, s, e);
            0 <= r.medication.completed <= r.medication.scheduled
            && 0 <= r.bloodPressure.completed <= r.bloodPressure.scheduled
            && 0 <= r.sugar.completed <= r.sugar.scheduled
            && r.total == Tally(r.medication.scheduled + r.bloodPressure.scheduled + r.sugar.scheduled,
                                r.medication.completed + r.bloodPressure.completed + r.sugar.completed)
            && 0.0 <= r.percent <= 100.0
            && (r.total.scheduled == 0 ==> r.percent == 0.0)
  {
    AllStricterThanScheduled(Keyed(MedKeys(inp.medLogs)));
    AllStricterThanScheduled(Keyed(inp.bpKeys));
    AllStricterThanScheduled(Keyed(inp.sugarKeys));
    PairCountMonotone(Keyed(MedKeys(inp.medLogs)), Scheduled, inp.medSlots, s, e);
    PairCountMonotone(Keyed(inp.bpKeys), Scheduled, inp.bpSlots, s, e);
    PairCountMonotone(Keyed(inp.sugarKeys), Scheduled, inp.sugarSlots, s, e);
  }

  /** The per-day series has one entry per day of the window in date order,
      each with 0 <= completed <= scheduled and its percent in [0, 100]. */
  lemma {:induction false} DailyShape(inp: Inputs, s: Day, e: Day)
    ensures var d := DailyEntries(inp, s, e);
            |d| == |DateRange(s, e)|
            && forall i :: 0 <= i < |d| ==>
                 d[i].day == s + i
                 && 0 <= d[i].completed <= d[i].scheduled
                 && 0.0 <= d[i].percent <= 100.0
                 && (d[i].scheduled == 0 ==> d[i].percent == 0.0)
  {
    var d := DailyEntries(inp, s, e);
    AllStricterThanScheduled(FirstTaken(inp.medLogs));
    AllStricterThanScheduled(Keyed(inp.bpKeys));
    AllStricterThanScheduled(Keyed(inp.sugarKeys));
    forall i | 0 <= i < |d|
      ensures d[i].day == s + i && 0 <= d[i].completed <= d[i].scheduled
    {
      DayCountMonotone(FirstTaken(inp.medLogs), Scheduled, inp.medSlots, s + i);
      DayCountMonotone(Keyed(inp.bpKeys), Scheduled, inp.bpSlots, s + i);
      DayCountMonotone(Keyed(inp.sugarKeys), Scheduled, inp.sugarSlots, s + i);
    }
  }

  /** The per-day scheduled counts add up to the window total; the per-day
      completed counts add up to at most the window total, because the per-day
      medication rule also asks for `taken_at`, and to exactly the total when
      every medication log read has `taken_at`. */
  lemma {:induction false} DailyAddsUp(inp: Inputs, s: Day, e: Day)
    ensures var r := Summarize(inp, s, e);
            SumScheduled(r.daily) == r.total.scheduled && SumCompleted(r.daily) <= r.total.completed
    ensures (forall l :: l in inp.medLogs ==> l.takenAt.Some?) ==>
              SumCompleted(Summarize(inp, s, e).daily) == Summarize(inp, s, e).total.completed
  {
    var mk := Keyed(MedKeys(inp.medLogs));
    var ft := FirstTaken(inp.medLogs);
    FirstTakenStricterThanKeyed(inp.medLogs);
    PairCountMonotone(ft, mk, inp.medSlots, s, e);
    DailySums(inp, s, e);
    Transpose(Scheduled, inp.medSlots, s, e);
    Transpose(Scheduled, inp.bpSlots, s, e);
    Transpose(Scheduled, inp.sugarSlots, s, e);
    Transpose(ft, inp.medSlots, s, e);
    Transpose(Keyed(inp.bpKeys), inp.bpSlots, s, e);
    Transpose(Keyed(inp.sugarKeys), inp.sugarSlots, s, e);
    if forall l :: l in inp.medLogs ==> l.takenAt.Some? {
      KeyedStricterThanFirstTaken(inp.medLogs);
      PairCountMonotone(mk, ft, inp.medSlots, s, e);
    }
  }
}
