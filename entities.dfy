/** The rows of the backend's tables, as values.  Dates are day numbers and
    times of day are `Clock`s (see Calendar); every other column keeps its own
    type, with a nullable column as an `Option`. */
module Entities {
  import opened Wrappers
  import opened Calendar

  /** A user's personal alert thresholds; each bound may be unset. */
  datatype Thresholds = Thresholds(
    bpSystolicMin: Option<int>, bpSystolicMax: Option<int>,
    bpDiastolicMin: Option<int>, bpDiastolicMax: Option<int>,
    sugarFastingMin: Option<int>, sugarFastingMax: Option<int>,
    sugarRandomMin: Option<int>, sugarRandomMax: Option<int>)

  datatype User = User(
    id: int,
    email: string,
    name: string,
    password: Option<string>,            // a password hash; None for accounts made by Firebase sign-in
    attendantEmails: Option<seq<string>>,
    thresholds: Thresholds,
    googleUid: Option<string>,
    microsoftUid: Option<string>,
    resetToken: Option<string>,
    resetTokenExpiry: Option<int>,        // seconds on the UTC clock
    verificationToken: Option<string>,
    verificationTokenExpiry: Option<int>,
    emailVerified: bool)

  datatype Medicine = Medicine(id: int, name: string, strength: string)

  datatype Medication = Medication(
    id: int, userId: int, medicineId: int, purpose: Option<string>,
    durationDays: int, startDate: Day, endDate: Option<Day>, isActive: bool)

  datatype MedSchedule = MedSchedule(
    id: int, medicationId: int, time: Clock, dosageInstruction: Option<string>, isActive: bool)

  datatype MedLog = MedLog(id: int, scheduleId: int, scheduledDate: Day, takenAt: Option<DateTime>)

  /** A blood-pressure schedule or a sugar schedule: the two tables have the
      same columns. */
  datatype CheckSchedule = CheckSchedule(
    id: int, userId: int, time: Clock, durationDays: int,
    startDate: Day, endDate: Option<Day>, isActive: bool)

  datatype BpLog = BpLog(
    id: int, scheduleId: int, systolic: int, diastolic: int, pulse: Option<int>,
    notes: Option<string>, checkedAt: DateTime)

  datatype SugarType = Fasting | Random

  /** A sugar reading; the value is a float in the backend and a whole number here. */
  datatype SugarLog = SugarLog(id: int, scheduleId: int, value: int, kind: SugarType, checkedAt: DateTime)

  /** "Active on `d`": the test every schedule walk applies, start on or before
      `d` and no end or an end on or after `d`. */
  predicate ActiveOn(start: Day, end: Option<Day>, d: Day) {
    start <= d && (end.None? || end.value >= d)
  }

  lemma ActiveOnInterval(start: Day, end: Option<Day>, a: Day, b: Day, d: Day)
    requires ActiveOn(start, end, a) && ActiveOn(start, end, b) && a <= d <= b
    ensures ActiveOn(start, end, d)
  {
  }

  /** The schedules of medication `medicationId`, in table order (`med.schedules`). */
  function SchedulesOf(rows: seq<MedSchedule>, medicationId: int): (r: seq<MedSchedule>)
    ensures forall s :: s in r <==> s in rows && s.medicationId == medicationId
    ensures |r| <= |rows|
  {
    if rows == [] then []
    else
      var last := rows[|rows| - 1];
      SchedulesOf(rows[..|rows| - 1], medicationId) + (if last.medicationId == medicationId then [last] else [])
  }

  /** The medications of `user` still marked active, in table order. */
  function ActiveMedications(meds: seq<Medication>, user: int): (r: seq<Medication>)
    ensures forall m :: m in r <==> m in meds && m.userId == user && m.isActive
  {
    if meds == [] then []
    else
      var last := meds[|meds| - 1];
      ActiveMedications(meds[..|meds| - 1], user) + (if last.userId == user && last.isActive then [last] else [])
  }

  /** The check schedules of `user` still marked active, in table order. */
  function ActiveCheckSchedules(rows: seq<CheckSchedule>, user: int): (r: seq<CheckSchedule>)
    ensures forall s :: s in r <==> s in rows && s.userId == user && s.isActive
  {
    if rows == [] then []
    else
      var last := rows[|rows| - 1];
      ActiveCheckSchedules(rows[..|rows| - 1], user) + (if last.userId == user && last.isActive then [last] else [])
  }

  /** `query(Medicine).filter_by(id=…).first()`. */
  function FindMedicine(rows: seq<Medicine>, id: int): (r: Option<Medicine>)
    ensures r.Some? ==> r.value in rows && r.value.id == id
    ensures r.None? ==> forall m :: m in rows ==> m.id != id
  {
    if rows == [] then None
    else if rows[0].id == id then Some(rows[0])
    else FindMedicine(rows[1..], id)
  }

  /** `first()` of the medication logs of schedule `scheduleId` for `day`;
      the table's own order stands in for the order the query leaves open. */
  function FirstMedLog(logs: seq<MedLog>, scheduleId: int, day: Day): (r: Option<MedLog>)
    ensures r.Some? ==> r.value in logs && r.value.scheduleId == scheduleId && r.value.scheduledDate == day
    ensures r.None? <==> forall l :: l in logs ==> !(l.scheduleId == scheduleId && l.scheduledDate == day)
  {
    if logs == [] then None
    else if logs[0].scheduleId == scheduleId && logs[0].scheduledDate == day then Some(logs[0])
    else FirstMedLog(logs[1..], scheduleId, day)
  }

  /** `first()` of the blood-pressure logs of schedule `scheduleId` checked on
      `day` (between `combine(day, time.min)` and `combine(day, time.max)`). */
  function FirstBpLogOn(logs: seq<BpLog>, scheduleId: int, day: Day): (r: Option<BpLog>)
    ensures r.Some? ==> r.value in logs && r.value.scheduleId == scheduleId && r.value.checkedAt.date == day
    ensures r.None? <==> forall l :: l in logs ==> !(l.scheduleId == scheduleId && l.checkedAt.date == day)
  {
    if logs == [] then None
    else if logs[0].scheduleId == scheduleId && logs[0].checkedAt.date == day then Some(logs[0])
    else FirstBpLogOn(logs[1..], scheduleId, day)
  }

  /** The same search over sugar logs. */
  function FirstSugarLogOn(logs: seq<SugarLog>, scheduleId: int, day: Day): (r: Option<SugarLog>)
    ensures r.Some? ==> r.value in logs && r.value.scheduleId == scheduleId && r.value.checkedAt.date == day
    ensures r.None? <==> forall l :: l in logs ==> !(l.scheduleId == scheduleId && l.checkedAt.date == day)
  {
    if logs == [] then None
    else if logs[0].scheduleId == scheduleId && logs[0].checkedAt.date == day then Some(logs[0])
    else FirstSugarLogOn(logs[1..], scheduleId, day)
  }

  /** Each search returns the log at the first matching position. */
  lemma {:induction false} FirstMedLogIsFirst(logs: seq<MedLog>, scheduleId: int, day: Day, i: nat)
    requires i < |logs| && logs[i].scheduleId == scheduleId && logs[i].scheduledDate == day
    requires forall j :: 0 <= j < i ==> !(logs[j].scheduleId == scheduleId && logs[j].scheduledDate == day)
    ensures FirstMedLog(logs, scheduleId, day) == Some(logs[i])
  {
    if i > 0 {
      FirstMedLogIsFirst(logs[1..], scheduleId, day, i - 1);
    }
  }

  lemma {:induction false} FirstBpLogOnIsFirst(logs: seq<BpLog>, scheduleId: int, day: Day, i: nat)
    requires i < |logs| && logs[i].scheduleId == scheduleId && logs[i].checkedAt.date == day
    requires forall j :: 0 <= j < i ==> !(logs[j].scheduleId == scheduleId && logs[j].checkedAt.date == day)
    ensures FirstBpLogOn(logs, scheduleId, day) == Some(logs[i])
  {
    if i > 0 {
      FirstBpLogOnIsFirst(logs[1..], scheduleId, day, i - 1);
    }
  }

  lemma {:induction false} FirstSugarLogOnIsFirst(logs: seq<SugarLog>, scheduleId: int, day: Day, i: nat)
    requires i < |logs| && logs[i].scheduleId == scheduleId && logs[i].checkedAt.date == day
    requires forall j :: 0 <= j < i ==> !(logs[j].scheduleId == scheduleId && logs[j].checkedAt.date == day)
    ensures FirstSugarLogOn(logs, scheduleId, day) == Some(logs[i])
  {
    if i > 0 {
      FirstSugarLogOnIsFirst(logs[1..], scheduleId, day, i - 1);
    }
  }

  /** What the read-only routes see of the store: every table, in table order. */
  datatype Snapshot = Snapshot(
    medicines: seq<Medicine>,
    medications: seq<Medication>,
    medSchedules: seq<MedSchedule>,
    medLogs: seq<MedLog>,
    bpSchedules: seq<CheckSchedule>,
    bpLogs: seq<BpLog>,
    sugarSchedules: seq<CheckSchedule>,
    sugarLogs: seq<SugarLog>)
}
