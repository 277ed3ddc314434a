/** The alert objects the alert route returns, and how a reading is judged
    against the user's own thresholds. */
module AlertRecords {
  import opened Wrappers
  import opened Calendar
  import opened Entities

  datatype Tag = Emergency | Reminder

  /** The "date" field: `str(day)` writes "YYYY-MM-DD", `strftime('%m/%d/%y')`
      writes "MM/DD/YY". */
  datatype DateText = IsoDate(day: Day) | MonthDayYear(day: Day)

  /** The "time" field: `str(time)` writes "HH:MM:SS", `strftime('%I:%M %p')`
      writes "HH:MM AM". */
  datatype TimeText = IsoTime(clock: Clock) | HourMinuteMeridiem(clock: Clock)

  /** How a missed-dose sentence names the medicine: its name, or
      "Medicine ID <n>" when the medication has no medicine row. */
  datatype MedLabel = MedicineName(name: string) | MedicineNumber(id: int)

  datatype BpLevel = BpInRange | BpHigh | BpLow | BpHighAndLow

  datatype SugarLevel = SugarInRange | SugarHigh | SugarLow

  /** The description sentence, kept as the values it is written from.
      `takeNow` is the "Please take it now if within 2 hours." suffix. */
  datatype Description =
    | MissedDose(instruction: string, medicine: MedLabel, time: Clock, day: Day, takeNow: bool)
    | MissedBpCheck(time: Clock, day: Day)
    | MissedSugarCheck(time: Clock, day: Day)
    | BpReading(systolic: int, diastolic: int, at: DateTime, bpLevel: BpLevel)
    | SugarReading(kind: SugarType, value: int, at: DateTime, sugarLevel: SugarLevel)

  datatype Alert = Alert(tag: Tag, heading: string, description: Description, date: DateText, time: TimeText)

  const MissedDoseHeading := "Medicine Reminder: Missed Dose Alert"
  const MissedBpHeading := "BP Reminder: Missed BP Check"
  const MissedSugarHeading := "Sugar Reminder: Missed Sugar Check"

  /** A bound is crossed only when it is set; both comparisons are strict. */
  predicate Above(v: int, bound: Option<int>) { bound.Some? && v > bound.value }
  predicate Below(v: int, bound: Option<int>) { bound.Some? && v < bound.value }

  /** Neither lower bound exceeds its upper bound. */
  predicate ConsistentBp(th: Thresholds) {
    (th.bpSystolicMin.Some? && th.bpSystolicMax.Some? ==> th.bpSystolicMin.value <= th.bpSystolicMax.value)
    && (th.bpDiastolicMin.Some? && th.bpDiastolicMax.Some? ==> th.bpDiastolicMin.value <= th.bpDiastolicMax.value)
  }

  /** A reading is high when either measure is above its maximum, low when
      either is below its minimum, and "high and low" when both hold; under
      consistent thresholds that needs one measure high and the other low. */
  function ClassifyBp(systolic: int, diastolic: int, th: Thresholds): (c: BpLevel)
    ensures c != BpInRange <==>
              Above(systolic, th.bpSystolicMax) || Above(diastolic, th.bpDiastolicMax)
              || Below(systolic, th.bpSystolicMin) || Below(diastolic, th.bpDiastolicMin)
    ensures (c == BpHigh || c == BpHighAndLow) <==> Above(systolic, th.bpSystolicMax) || Above(diastolic, th.bpDiastolicMax)
    ensures (c == BpLow || c == BpHighAndLow) <==> Below(systolic, th.bpSystolicMin) || Below(diastolic, th.bpDiastolicMin)
    ensures c == BpHighAndLow && ConsistentBp(th) ==>
              (Above(systolic, th.bpSystolicMax) && Below(diastolic, th.bpDiastolicMin))
              || (Below(systolic, th.bpSystolicMin) && Above(diastolic, th.bpDiastolicMax))
  {
    var high := Above(systolic, th.bpSystolicMax) || Above(diastolic, th.bpDiastolicMax);
    var low := Below(systolic, th.bpSystolicMin) || Below(diastolic, th.bpDiastolicMin);
    if high && low then BpHighAndLow
    else if high then BpHigh
    else if low then BpLow
    else BpInRange
  }

  /** The bounds that apply to a sugar reading of `kind`. */
  function SugarMin(kind: SugarType, th: Thresholds): Option<int> {
    if kind == Fasting then th.sugarFastingMin else th.sugarRandomMin
  }

  function SugarMax(kind: SugarType, th: Thresholds): Option<int> {
    if kind == Fasting then th.sugarFastingMax else th.sugarRandomMax
  }

  /** A fasting reading is judged only by the fasting bounds and a random one
      only by the random bounds; "high" wins over "low", which can only both
      hold when the minimum lies above the maximum. */
  function ClassifySugar(kind: SugarType, value: int, th: Thresholds): (c: SugarLevel)
    ensures c == SugarHigh <==> Above(value, SugarMax(kind, th))
    ensures c == SugarLow <==> Below(value, SugarMin(kind, th)) && !Above(value, SugarMax(kind, th))
    ensures c == SugarInRange <==> !Above(value, SugarMax(kind, th)) && !Below(value, SugarMin(kind, th))
    ensures (SugarMin(kind, th).Some? && SugarMax(kind, th).Some? && SugarMin(kind, th).value <= SugarMax(kind, th).value)
              ==> (c == SugarLow <==> Below(value, SugarMin(kind, th)))
  {
    if kind == Fasting then
      (if Above(value, th.sugarFastingMax) then SugarHigh
       else if Below(value, th.sugarFastingMin) then SugarLow
       else SugarInRange)
    else
      (if Above(value, th.sugarRandomMax) then SugarHigh
       else if Below(value, th.sugarRandomMin) then SugarLow
       else SugarInRange)
  }

  function BpHeading(level: BpLevel): string {
    match level
    case BpHighAndLow => "Emergency Alert: High and Low BP Detected"
    case BpHigh => "Emergency Alert: High BP Detected"
    case BpLow => "Emergency Alert: Low BP Detected"
    case BpInRange => ""
  }

  function SugarHeading(kind: SugarType, level: SugarLevel): string {
    match (kind, level)
    case (Fasting, SugarHigh) => "Emergency Alert: High Fasting Sugar Detected"
    case (Fasting, SugarLow) => "Emergency Alert: Low Fasting Sugar Detected"
    case (Random, SugarHigh) => "Emergency Alert: High Random Sugar Detected"
    case (Random, SugarLow) => "Emergency Alert: Low Random Sugar Detected"
    case (_, SugarInRange) => ""
  }

  /** What every alert the route builds looks like: a reminder carries the
      ISO date and time of the missed occurrence and a "missed" sentence; an
      emergency carries the reading's own date and 12-hour time, a reading
      that crossed a threshold, and the heading of its level. */
  predicate Coherent(a: Alert) {
    match a.tag
    case Reminder =>
      a.date.IsoDate? && a.time.IsoTime?
      && (a.description.MissedDose? || a.description.MissedBpCheck? || a.description.MissedSugarCheck?)
    case Emergency =>
      a.date.MonthDayYear? && a.time.HourMinuteMeridiem?
      && ((a.description.BpReading? && a.description.bpLevel != BpInRange
           && a.heading == BpHeading(a.description.bpLevel))
          || (a.description.SugarReading? && a.description.sugarLevel != SugarInRange
              && a.heading == SugarHeading(a.description.kind, a.description.sugarLevel)))
  }
}
