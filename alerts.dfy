/** The alert route: for every day of the requested window, a reminder for
    each medication dose that was due and not taken and for each blood
    pressure or sugar check that was due and not logged, and an emergency for
    each logged reading outside the user's thresholds; then the alerts are
    sorted (see AlertOrder). */
module Alerts {
  import opened Wrappers
  import opened Calendar
  import opened Entities
  import opened Periods
  import opened AlertRecords
  import opened AlertOrder

  /** A scheduled occurrence is due on `day` when its schedule covers the day
      and `combine(day, time)` lies before the current moment. */
  predicate Due(start: Day, end: Option<Day>, day: Day, time: Clock, now: DateTime) {
    ActiveOn(start, end, day) && Earlier(DateTime(day, time), now)
  }

  /** The medicine a missed-dose sentence names. */
  function Label(medicines: seq<Medicine>, med: Medication): (l: MedLabel)
    ensures l.MedicineName? <==> exists m :: m in medicines && m.id == med.medicineId
    ensures l.MedicineNumber? ==> l.id == med.medicineId
  {
    match FindMedicine(medicines, med.medicineId)
    case Some(m) => MedicineName(m.name)
    case None => MedicineNumber(med.medicineId)
  }

  function OptionSeq(o: Option<Alert>): (r: seq<Alert>)
    ensures |r| <= 1
    ensures forall a :: a in r <==> o == Some(a)
  {
    if o.Some? then [o.value] else []
  }

  /** The reminder, if any, for dose `sched` of `med` on `day`: the dose was
      due and its first log for that day is missing or has no `taken_at`. */
  function DoseAlert(shown: MedLabel, med: Medication, sched: MedSchedule, day: Day,
                     logs: seq<MedLog>, now: DateTime, today: Day): (r: Option<Alert>)
    ensures r.Some? <==>
              Due(med.startDate, med.endDate, day, sched.time, now)
              && (FirstMedLog(logs, sched.id, day).None? || FirstMedLog(logs, sched.id, day).value.takenAt.None?)
    ensures r.Some? ==>
              r.value.tag == Reminder && r.value.heading == MissedDoseHeading
              && r.value.date == IsoDate(day) && r.value.time == IsoTime(sched.time)
              && r.value.description.MissedDose? && r.value.description.medicine == shown
              && r.value.description.day == day
              && (r.value.description.takeNow <==> day == today)
    ensures r.Some? ==> Coherent(r.value)
  {
    if Due(med.startDate, med.endDate, day, sched.time, now) then
      var log := FirstMedLog(logs, sched.id, day);
      if log.None? || log.value.takenAt.None? then
        Some(Alert(Reminder, MissedDoseHeading,
                   MissedDose(OrElse(sched.dosageInstruction, ""), shown, sched.time, day, day == today),
                   IsoDate(day), IsoTime(sched.time)))
      else None
    else None
  }

  /** No two logs of one schedule share a scheduled date (the
      `unique_medication_schedule` constraint). */
  predicate UniqueMedLogs(logs: seq<MedLog>) {
    forall i, j :: 0 <= i < j < |logs| ==>
      !(logs[i].scheduleId == logs[j].scheduleId && logs[i].scheduledDate == logs[j].scheduledDate)
  }

  /** Under that constraint a missed dose is exactly a due dose that no log
      marks as taken. */
  lemma {:induction false} DoseAlertUnderUniqueLogs(shown: MedLabel, med: Medication, sched: MedSchedule, day: Day,
                                                    logs: seq<MedLog>, now: DateTime, today: Day)
    requires UniqueMedLogs(logs)
    ensures DoseAlert(shown, med, sched, day, logs, now, today).Some? <==>
              Due(med.startDate, med.endDate, day, sched.time, now)
              && forall l :: l in logs && l.scheduleId == sched.id && l.scheduledDate == day ==> l.takenAt.None?
  {
    var f := FirstMedLog(logs, sched.id, day);
    if f.Some? {
      forall l | l in logs && l.scheduleId == sched.id && l.scheduledDate == day
        ensures l == f.value
      {
        var i :| 0 <= i < |logs| && logs[i] == l;
        var j :| 0 <= j < |logs| && logs[j] == f.value;
      }
    }
  }

  /** Which check schedule table a walk is over. */
  datatype Vital = Bp | Sugar

  function CheckLogged(vital: Vital, db: Snapshot, sched: CheckSchedule, day: Day): bool {
    if vital == Bp then FirstBpLogOn(db.bpLogs, sched.id, day).Some?
    else FirstSugarLogOn(db.sugarLogs, sched.id, day).Some?
  }

  /** The reminder or emergency, if any, for check `sched` on `day`: a
      reminder when the check was due and nothing was logged that day; an
      emergency when the first reading of the day crosses a threshold. */
  function CheckAlert(vital: Vital, db: Snapshot, sched: CheckSchedule, day: Day,
                      th: Thresholds, now: DateTime): (r: Option<Alert>)
    ensures r.Some? ==> Due(sched.startDate, sched.endDate, day, sched.time, now)
    ensures (r.Some? && r.value.tag == Reminder) <==>
              Due(sched.startDate, sched.endDate, day, sched.time, now) && !CheckLogged(vital, db, sched, day)
    ensures r.Some? && r.value.tag == Reminder ==>
              r.value.date == IsoDate(day) && r.value.time == IsoTime(sched.time)
              && r.value.heading == (if vital == Bp then MissedBpHeading else MissedSugarHeading)
    ensures vital == Bp ==>
              ((r.Some? && r.value.tag == Emergency) <==>
                 Due(sched.startDate, sched.endDate, day, sched.time, now)
                 && FirstBpLogOn(db.bpLogs, sched.id, day).Some?
                 && ClassifyBp(FirstBpLogOn(db.bpLogs, sched.id, day).value.systolic,
                               FirstBpLogOn(db.bpLogs, sched.id, day).value.diastolic, th) != BpInRange)
    ensures vital == Sugar ==>
              ((r.Some? && r.value.tag == Emergency) <==>
                 Due(sched.startDate, sched.endDate, day, sched.time, now)
                 && FirstSugarLogOn(db.sugarLogs, sched.id, day).Some?
                 && ClassifySugar(FirstSugarLogOn(db.sugarLogs, sched.id, day).value.kind,
                                  FirstSugarLogOn(db.sugarLogs, sched.id, day).value.value, th) != SugarInRange)
    ensures r.Some? && r.value.tag == Emergency ==> r.value.date == MonthDayYear(day)
    ensures r.Some? ==> Coherent(r.value)
  {
    if !Due(sched.startDate, sched.endDate, day, sched.time, now) then None
    else if vital == Bp then
      match FirstBpLogOn(db.bpLogs, sched.id, day)
      case None =>
        Some(Alert(Reminder, MissedBpHeading, MissedBpCheck(sched.time, day), IsoDate(day), IsoTime(sched.time)))
      case Some(log) =>
        var level := ClassifyBp(log.systolic, log.diastolic, th);
        if level == BpInRange then None
        else Some(Alert(Emergency, BpHeading(level), BpReading(log.systolic, log.diastolic, log.checkedAt, level),
                        MonthDayYear(log.checkedAt.date), HourMinuteMeridiem(log.checkedAt.clock)))
    else
      match FirstSugarLogOn(db.sugarLogs, sched.id, day)
      case None =>
        Some(Alert(Reminder, MissedSugarHeading, MissedSugarCheck(sched.time, day), IsoDate(day), IsoTime(sched.time)))
      case Some(log) =>
        var level := ClassifySugar(log.kind, log.value, th);
        if level == SugarInRange then None
        else Some(Alert(Emergency, SugarHeading(log.kind, level), SugarReading(log.kind, log.value, log.checkedAt, level),
                        MonthDayYear(log.checkedAt.date), HourMinuteMeridiem(log.checkedAt.clock)))
  }

  /** The dose alerts of one schedule over days `first` to `last`, day by day. */
  function DoseAlertsOver(shown: MedLabel, med: Medication, sched: MedSchedule, logs: seq<MedLog>,
                          now: DateTime, today: Day, first: Day, last: Day): seq<Alert>
    decreases if last < first then 0 else last - first + 1
  {
    if last < first then []
    else DoseAlertsOver(shown, med, sched, logs, now, today, first, last - 1)
         + OptionSeq(DoseAlert(shown, med, sched, last, logs, now, today))
  }

  /** The dose alerts of the schedules `scheds` of `med`, schedule by schedule. */
  function ScheduleDoseAlerts(shown: MedLabel, med: Medication, scheds: seq<MedSchedule>, logs: seq<MedLog>,
                              now: DateTime, today: Day, first: Day, last: Day): seq<Alert>
  {
    if scheds == [] then []
    else ScheduleDoseAlerts(shown, med, scheds[..|scheds| - 1], logs, now, today, first, last)
         + DoseAlertsOver(shown, med, scheds[|scheds| - 1], logs, now, today, first, last)
  }

  /** The dose alerts of the medications `meds`, medication by medication;
      every schedule of a medication is walked, active or not. */
  function MedicationAlerts(db: Snapshot, meds: seq<Medication>, now: DateTime, today: Day,
                            first: Day, last: Day): seq<Alert>
  {
    if meds == [] then []
    else
      var med := meds[|meds| - 1];
      MedicationAlerts(db, meds[..|meds| - 1], now, today, first, last)
      + ScheduleDoseAlerts(Label(db.medicines, med), med, SchedulesOf(db.medSchedules, med.id), db.medLogs,
                           now, today, first, last)
  }

  function CheckAlertsOver(vital: Vital, db: Snapshot, sched: CheckSchedule, th: Thresholds,
                           now: DateTime, first: Day, last: Day): seq<Alert>
    decreases if last < first then 0 else last - first + 1
  {
    if last < first then []
    else CheckAlertsOver(vital, db, sched, th, now, first, last - 1) + OptionSeq(CheckAlert(vital, db, sched, last, th, now))
  }

  function CheckAlerts(vital: Vital, db: Snapshot, scheds: seq<CheckSchedule>, th: Thresholds,
                       now: DateTime, first: Day, last: Day): seq<Alert>
  {
    if scheds == [] then []
    else CheckAlerts(vital, db, scheds[..|scheds| - 1], th, now, first, last)
         + CheckAlertsOver(vital, db, scheds[|scheds| - 1], th, now, first, last)
  }

  /** Every alert in generation order: medications, then blood pressure,
      then sugar. */
  function GeneratedAlerts(db: Snapshot, user: User, now: DateTime, today: Day, first: Day, last: Day): seq<Alert> {
    MedicationAlerts(db, ActiveMedications(db.medications, user.id), now, today, first, last)
    + CheckAlerts(Bp, db, ActiveCheckSchedules(db.bpSchedules, user.id), user.thresholds, now, first, last)
    + CheckAlerts(Sugar, db, ActiveCheckSchedules(db.sugarSchedules, user.id), user.thresholds, now, first, last)
  }

  datatype AlertsResponse = AlertsOk(alerts: seq<Alert>) | AlertsFailed(error: string)

  /** The route's answer for `period` starting on `start`. */
  function AlertsFor(db: Snapshot, user: User, period: Period, start: Day, now: DateTime, today: Day): AlertsResponse {
    match PeriodEnd(period, start)
    case None => AlertsFailed("Unknown period.")
    case Some(end) => AlertsOk(SortAlerts(GeneratedAlerts(db, user, now, today, start, end)))
  }

  /** An alert of one check schedule's walk comes from exactly one day of
      the window, and the walk yields at most one alert per day. */
  lemma {:induction false} CheckAlertsOverMembers(vital: Vital, db: Snapshot, sched: CheckSchedule, th: Thresholds,
                                                  now: DateTime, first: Day, last: Day, a: Alert)
    ensures a in CheckAlertsOver(vital, db, sched, th, now, first, last) <==>
              exists d :: first <= d <= last && CheckAlert(vital, db, sched, d, th, now) == Some(a)
    ensures |CheckAlertsOver(vital, db, sched, th, now, first, last)| <= if last < first then 0 else last - first + 1
    decreases if last < first then 0 else last - first + 1
  {
    if first <= last {
      CheckAlertsOverMembers(vital, db, sched, th, now, first, last - 1, a);
      if CheckAlert(vital, db, sched, last, th, now) == Some(a) {
        assert first <= last <= last && CheckAlert(vital, db, sched, last, th, now) == Some(a);
      }
    }
  }

  /** The same for the dose walk of one medication schedule. */
  lemma {:induction false} DoseAlertsOverMembers(shown: MedLabel, med: Medication, sched: MedSchedule, logs: seq<MedLog>,
                                                 now: DateTime, today: Day, first: Day, last: Day, a: Alert)
    ensures a in DoseAlertsOver(shown, med, sched, logs, now, today, first, last) <==>
              exists d :: first <= d <= last && DoseAlert(shown, med, sched, d, logs, now, today) == Some(a)
    ensures |DoseAlertsOver(shown, med, sched, logs, now, today, first, last)| <= if last < first then 0 else last - first + 1
    decreases if last < first then 0 else last - first + 1
  {
    if first <= last {
      DoseAlertsOverMembers(shown, med, sched, logs, now, today, first, last - 1, a);
      if DoseAlert(shown, med, sched, last, logs, now, today) == Some(a) {
        assert first <= last <= last && DoseAlert(shown, med, sched, last, logs, now, today) == Some(a);
      }
    }
  }

  lemma {:induction false} CheckAlertsCollect(vital: Vital, db: Snapshot, scheds: seq<CheckSchedule>, th: Thresholds,
                                              now: DateTime, first: Day, last: Day)
    ensures forall a :: a in CheckAlerts(vital, db, scheds, th, now, first, last) <==>
              exists s :: s in scheds && a in CheckAlertsOver(vital, db, s, th, now, first, last)
    decreases |scheds|
  {
    if scheds != [] {
      var t := scheds[..|scheds| - 1];
      var x := scheds[|scheds| - 1];
      CheckAlertsCollect(vital, db, t, th, now, first, last);
      assert scheds == t + [x];
      forall a
        ensures a in CheckAlerts(vital, db, scheds, th, now, first, last) <==>
                exists s :: s in scheds && a in CheckAlertsOver(vital, db, s, th, now, first, last)
      {
        if a in CheckAlerts(vital, db, t, th, now, first, last) {
          var s :| s in t && a in CheckAlertsOver(vital, db, s, th, now, first, last);
          assert s in scheds;
        }
        if a in CheckAlertsOver(vital, db, x, th, now, first, last) {
          assert x in scheds;
        }
      }
    }
  }

  lemma {:induction false} ScheduleDoseAlertsCollect(shown: MedLabel, med: Medication, scheds: seq<MedSchedule>,
                                                     logs: seq<MedLog>, now: DateTime, today: Day, first: Day, last: Day)
    ensures forall a :: a in ScheduleDoseAlerts(shown, med, scheds, logs, now, today, first, last) <==>
              exists s :: s in scheds && a in DoseAlertsOver(shown, med, s, logs, now, today, first, last)
    decreases |scheds|
  {
    if scheds != [] {
      var t := scheds[..|scheds| - 1];
      var x := scheds[|scheds| - 1];
      ScheduleDoseAlertsCollect(shown, med, t, logs, now, today, first, last);
      assert scheds == t + [x];
      forall a
        ensures a in ScheduleDoseAlerts(shown, med, scheds, logs, now, today, first, last) <==>
                exists s :: s in scheds && a in DoseAlertsOver(shown, med, s, logs, now, today, first, last)
      {
        if a in ScheduleDoseAlerts(shown, med, t, logs, now, today, first, last) {
          var s :| s in t && a in DoseAlertsOver(shown, med, s, logs, now, today, first, last);
          assert s in scheds;
        }
        if a in DoseAlertsOver(shown, med, x, logs, now, today, first, last) {
          assert x in scheds;
        }
      }
    }
  }

  lemma {:induction false} MedicationAlertsCollect(db: Snapshot, meds: seq<Medication>, now: DateTime, today: Day,
                                                   first: Day, last: Day)
    ensures forall a :: a in MedicationAlerts(db, meds, now, today, first, last) <==>
              exists m :: m in meds
                && a in ScheduleDoseAlerts(Label(db.medicines, m), m, SchedulesOf(db.medSchedules, m.id), db.medLogs,
                                           now, today, first, last)
    decreases |meds|
  {
    if meds != [] {
      var t := meds[..|meds| - 1];
      MedicationAlertsCollect(db, t, now, today, first, last);
      assert meds == t + [meds[|meds| - 1]];
    }
  }

  /** Both directions of "the route reports a dose": a dose alert is in the
      answer exactly when some active medication of the user and one of its
      schedules produce it on some day of the window. */
  lemma {:induction false} DoseAlertsReported(db: Snapshot, user: User, now: DateTime, today: Day,
                                              first: Day, last: Day, a: Alert)
    ensures a in MedicationAlerts(db, ActiveMedications(db.medications, user.id), now, today, first, last) <==>
              exists m, s, d :: m in db.medications && m.userId == user.id && m.isActive
                && s in db.medSchedules && s.medicationId == m.id && first <= d <= last
                && DoseAlert(Label(db.medicines, m), m, s, d, db.medLogs, now, today) == Some(a)
  {
    var meds := ActiveMedications(db.medications, user.id);
    MedicationAlertsCollect(db, meds, now, today, first, last);
    forall m | m in meds
      ensures a in ScheduleDoseAlerts(Label(db.medicines, m), m, SchedulesOf(db.medSchedules, m.id), db.medLogs,
                                      now, today, first, last) <==>
              exists s, d :: s in db.medSchedules && s.medicationId == m.id && first <= d <= last
                && DoseAlert(Label(db.medicines, m), m, s, d, db.medLogs, now, today) == Some(a)
    {
      ScheduleDoseAlertsCollect(Label(db.medicines, m), m, SchedulesOf(db.medSchedules, m.id), db.medLogs,
                                now, today, first, last);
      forall s | s in SchedulesOf(db.medSchedules, m.id) {
        DoseAlertsOverMembers(Label(db.medicines, m), m, s, db.medLogs, now, today, first, last, a);
      }
    }
  }

  /** Both directions of "the route reports a check": an alert of a check
      walk is in the answer exactly when some active schedule of the user
      produces it on some day of the window. */
  lemma {:induction false} CheckAlertsReported(vital: Vital, db: Snapshot, rows: seq<CheckSchedule>, user: User,
                                               now: DateTime, first: Day, last: Day, a: Alert)
    ensures a in CheckAlerts(vital, db, ActiveCheckSchedules(rows, user.id), user.thresholds, now, first, last) <==>
              exists s, d :: s in rows && s.userId == user.id && s.isActive && first <= d <= last
                && CheckAlert(vital, db, s, d, user.thresholds, now) == Some(a)
  {
    var scheds := ActiveCheckSchedules(rows, user.id);
    CheckAlertsCollect(vital, db, scheds, user.thresholds, now, first, last);
    forall s | s in scheds {
      CheckAlertsOverMembers(vital, db, s, user.thresholds, now, first, last, a);
    }
  }

  /** Every generated alert is coherent. */
  lemma {:induction false} GeneratedCoherent(db: Snapshot, user: User, now: DateTime, today: Day, first: Day, last: Day)
    ensures forall a :: a in GeneratedAlerts(db, user, now, today, first, last) ==> Coherent(a)
  {
    forall a | a in GeneratedAlerts(db, user, now, today, first, last)
      ensures Coherent(a)
    {
      DoseAlertsReported(db, user, now, today, first, last, a);
      CheckAlertsReported(Bp, db, db.bpSchedules, user, now, first, last, a);
      CheckAlertsReported(Sugar, db, db.sugarSchedules, user, now, first, last, a);
    }
  }

  /** The sorted list of coherent alerts keeps every emergency before every
      reminder, puts the newest emergency first and keeps the reminders in
      their original order. */
  lemma {:induction false} SortCoherent(g: seq<Alert>)
    requires forall a :: a in g ==> Coherent(a)
    ensures var r := SortAlerts(g);
            multiset(r) == multiset(g)
            && (forall a :: a in r ==> Coherent(a))
            && (forall i, j :: 0 <= i < j < |r| ==> !(r[i].tag == Reminder && r[j].tag == Emergency))
            && (forall i, j :: 0 <= i < j < |r| && r[i].tag == Emergency && r[j].tag == Emergency ==>
                  ParseStamp(r[i].date, r[i].time).Some? && ParseStamp(r[j].date, r[j].time).Some?
                  && ParseStamp(r[i].date, r[i].time).value >= ParseStamp(r[j].date, r[j].time).value)
            && Reminders(r) == Reminders(g)
  {
    var r := SortAlerts(g);
    SortAlertsPermutation(g);
    forall a | a in r
      ensures Coherent(a)
    {
      assert a in multiset(r);
    }
    assert RemindersUnparsable(g) by {
      forall i | 0 <= i < |g| && g[i].tag == Reminder
        ensures ParseStamp(g[i].date, g[i].time).None?
      {
        assert g[i] in g;
      }
    }
    forall i | 0 <= i < |r| && r[i].tag == Emergency
      ensures ParseStamp(r[i].date, r[i].time).Some?
    {
      assert r[i] in r;
      ParseStampDefined(r[i].date, r[i].time);
    }
    SortAlertsOrder(g);
  }

  /** The route's answer: an error exactly for an unknown period; otherwise
      the generated alerts rearranged as SortCoherent describes. */
  lemma {:induction false} AlertsForShape(db: Snapshot, user: User, period: Period, start: Day, now: DateTime, today: Day)
    ensures AlertsFor(db, user, period, start, now, today).AlertsFailed? <==> period.Other?
    ensures AlertsFor(db, user, period, start, now, today).AlertsOk? ==>
              var r := AlertsFor(db, user, period, start, now, today).alerts;
              var g := GeneratedAlerts(db, user, now, today, start, PeriodEnd(period, start).value);
              multiset(r) == multiset(g)
              && (forall a :: a in r ==> Coherent(a))
              && (forall i, j :: 0 <= i < j < |r| ==> !(r[i].tag == Reminder && r[j].tag == Emergency))
              && (forall i, j :: 0 <= i < j < |r| && r[i].tag == Emergency && r[j].tag == Emergency ==>
                    ParseStamp(r[i].date, r[i].time).Some? && ParseStamp(r[j].date, r[j].time).Some?
                    && ParseStamp(r[i].date, r[i].time).value >= ParseStamp(r[j].date, r[j].time).value)
              && Reminders(r) == Reminders(g)
  {
    if !period.Other? {
      var end := PeriodEnd(period, start).value;
      GeneratedCoherent(db, user, now, today, start, end);
      SortCoherent(GeneratedAlerts(db, user, now, today, start, end));
    }
  }

  /** `generate_alerts_route`: the walks of the source, day by day inside
      schedule by schedule, and the final sort. */
  method GenerateAlerts(db: Snapshot, user: User, period: Period, start: Day, now: DateTime, today: Day)
    returns (r: AlertsResponse)
    ensures r == AlertsFor(db, user, period, start, now, today)
  {
    var window := PeriodEnd(period, start);
    if window.None? {
      return AlertsFailed("Unknown period.");
    }
    var end := window.value;
    PeriodEndMeaning(period, start);
    var alerts := MedicationWalk(db, ActiveMedications(db.medications, user.id), now, today, start, end);
    alerts := CheckWalk(Bp, db, ActiveCheckSchedules(db.bpSchedules, user.id), user.thresholds, now, start, end, alerts);
    alerts := CheckWalk(Sugar, db, ActiveCheckSchedules(db.sugarSchedules, user.id), user.thresholds, now, start, end, alerts);
    return AlertsOk(SortAlerts(alerts));
  }

  /** The medication walk: every schedule of every active medication. */
  method MedicationWalk(db: Snapshot, meds: seq<Medication>, now: DateTime, today: Day, start: Day, end: Day)
    returns (alerts: seq<Alert>)
    requires start <= end
    ensures alerts == MedicationAlerts(db, meds, now, today, start, end)
  {
    alerts := [];
    var i := 0;
    while i < |meds|
      invariant 0 <= i <= |meds|
      invariant alerts == MedicationAlerts(db, meds[..i], now, today, start, end)
    {
      var med := meds[i];
      alerts := ScheduleWalk(Label(db.medicines, med), med, SchedulesOf(db.medSchedules, med.id), db.medLogs,
                             now, today, start, end, alerts);
      assert meds[..i + 1][..i] == meds[..i];
      i := i + 1;
    }
    assert meds[..i] == meds;
  }

  /** The schedules of one medication, appending to `acc`. */
  method ScheduleWalk(shown: MedLabel, med: Medication, scheds: seq<MedSchedule>, logs: seq<MedLog>,
                      now: DateTime, today: Day, start: Day, end: Day, acc: seq<Alert>) returns (alerts: seq<Alert>)
    requires start <= end
    ensures alerts == acc + ScheduleDoseAlerts(shown, med, scheds, logs, now, today, start, end)
  {
    alerts := acc;
    var j := 0;
    while j < |scheds|
      invariant 0 <= j <= |scheds|
      invariant alerts == acc + ScheduleDoseAlerts(shown, med, scheds[..j], logs, now, today, start, end)
    {
      alerts := DoseWalk(shown, med, scheds[j], logs, now, today, start, end, alerts);
      assert scheds[..j + 1][..j] == scheds[..j];
      j := j + 1;
    }
    assert scheds[..j] == scheds;
  }

  /** The day loop of one medication schedule, appending to `acc`. */
  method DoseWalk(shown: MedLabel, med: Medication, sched: MedSchedule, logs: seq<MedLog>,
                  now: DateTime, today: Day, start: Day, end: Day, acc: seq<Alert>) returns (alerts: seq<Alert>)
    requires start <= end
    ensures alerts == acc + DoseAlertsOver(shown, med, sched, logs, now, today, start, end)
  {
    alerts := acc;
    var day := start;
    while day <= end
      invariant start <= day <= end + 1
      invariant alerts == acc + DoseAlertsOver(shown, med, sched, logs, now, today, start, day - 1)
      decreases end - day
    {
      if ActiveOn(med.startDate, med.endDate, day) {
        if Earlier(DateTime(day, sched.time), now) {
          var log := FirstMedLog(logs, sched.id, day);
          if log.None? || log.value.takenAt.None? {
            alerts := alerts + [Alert(Reminder, MissedDoseHeading,
                                      MissedDose(OrElse(sched.dosageInstruction, ""), shown, sched.time, day, day == today),
                                      IsoDate(day), IsoTime(sched.time))];
          }
        }
      }
      day := day + 1;
    }
  }

  /** One of the two check-schedule walks, appending to `acc`. */
  method CheckWalk(vital: Vital, db: Snapshot, scheds: seq<CheckSchedule>, th: Thresholds,
                   now: DateTime, start: Day, end: Day, acc: seq<Alert>) returns (alerts: seq<Alert>)
    requires start <= end
    ensures alerts == acc + CheckAlerts(vital, db, scheds, th, now, start, end)
  {
    alerts := acc;
    var i := 0;
    while i < |scheds|
      invariant 0 <= i <= |scheds|
      invariant alerts == acc + CheckAlerts(vital, db, scheds[..i], th, now, start, end)
    {
      alerts := CheckDays(vital, db, scheds[i], th, now, start, end, alerts);
      assert scheds[..i + 1] == scheds[..i] + [scheds[i]];
      i := i + 1;
    }
    assert scheds[..i] == scheds;
  }

  /** The day loop of one check schedule, appending to `acc`. */
  method CheckDays(vital: Vital, db: Snapshot, sched: CheckSchedule, th: Thresholds,
                   now: DateTime, start: Day, end: Day, acc: seq<Alert>) returns (alerts: seq<Alert>)
    requires start <= end
    ensures alerts == acc + CheckAlertsOver(vital, db, sched, th, now, start, end)
  {
    alerts := acc;
    var day := start;
    while day <= end
      invariant start <= day <= end + 1
      invariant alerts == acc + CheckAlertsOver(vital, db, sched, th, now, start, day - 1)
      decreases end - day
    {
      if ActiveOn(sched.startDate, sched.endDate, day) && Earlier(DateTime(day, sched.time), now) {
        if !CheckLogged(vital, db, sched, day) {
          alerts := alerts + [Alert(Reminder,
                                    if vital == Bp then MissedBpHeading else MissedSugarHeading,
                                    if vital == Bp then MissedBpCheck(sched.time, day) else MissedSugarCheck(sched.time, day),
                                    IsoDate(day), IsoTime(sched.time))];
        } else if vital == Bp {
          var log := FirstBpLogOn(db.bpLogs, sched.id, day).value;
          var level := ClassifyBp(log.systolic, log.diastolic, th);
          if level != BpInRange {
            alerts := alerts + [Alert(Emergency, BpHeading(level),
                                      BpReading(log.systolic, log.diastolic, log.checkedAt, level),
                                      MonthDayYear(log.checkedAt.date), HourMinuteMeridiem(log.checkedAt.clock))];
          }
        } else {
          var log := FirstSugarLogOn(db.sugarLogs, sched.id, day).value;
          var level := ClassifySugar(log.kind, log.value, th);
          if level != SugarInRange {
            alerts := alerts + [Alert(Emergency, SugarHeading(log.kind, level),
                                      SugarReading(log.kind, log.value, log.checkedAt, level),
                                      MonthDayYear(log.checkedAt.date), HourMinuteMeridiem(log.checkedAt.clock))];
          }
        }
      }
      day := day + 1;
    }
  }
}
