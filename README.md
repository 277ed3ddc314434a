# HealthMate back end: a verified model of its scheduling, alert, report and store rules

HealthMate is a health-tracking service for people with diabetes or
hypertension. Users keep medication, blood-pressure (BP) and sugar
schedules. They log doses and readings against those schedules. The service
raises alerts, computes adherence reports, asks a language model for periodic
insights, and manages accounts and attendant e-mail lists.

This project models the deterministic core of that service in Dafny and
proves what it promises. The model covers:

- **Calendar** (`calendar.dfy`). Days are proleptic-Gregorian ordinals: 0001-01-01 is day 1 and a Monday, as Python's `date.toordinal` counts them. It has the civil (year, month, day) round trip, the weekday, first and last of a month, and times of day.
- **Periods** (`periods.dfy`). A period (daily, weekly, monthly or anything else) extends a start day to the end of its window. The alert route, the report routes and the insight generator share this rule.
- **Alert engine** (`alert_records.dfy`, `alert_order.dfy`, `alerts.dfy`).
  - It walks every active schedule over every day of the window and keeps the occurrences already past.
  - It raises missed-dose and missed-check reminders.
  - It classifies BP and sugar readings against the user's optional thresholds.
  - It sorts the alerts with the route's key and Python's stable sort. The original text formats are kept: reminder timestamps (ISO text) cannot be parsed by the sort key's format.
- **Adherence reports** (`adherence.dfy`).
  - The date range, and the window resolution with and without an explicit start.
  - The whole-window counts of `calculate_medication_adherence` and `calculate_adherence`, which are counter loops.
  - The per-day series, and the totals and percentages of the adherence summary.
- **Insights** (`insights.dfy`, `scheduler.dfy`).
  - The scheduler's start day for the previous day, week or month, and its one generation request per user.
  - The end day of the insight window and the schedule-overlap filter.
  - The date-range text, and the defaults for title and summary.
  - The normalisation of the parsed JSON object: the expected keys are forced to lists, dangerous recommendations are filtered out, and generic advice is added when nothing is left.
- **Store** (`store.dfy`). A `Database` class holds one sequence field per table and the next id. Every request either commits its writes or is rolled back, leaving the tables as they were. Each state-changing route or CRUD function is a method whose `ensures` ties the answer and the new store to a specification function of the old store. Lemmas then prove what that function means (`*Meaning`), that it keeps the table constraints (`*KeepsValid`), and round trips between operations.
- **Medicines and medications** (`medicines.dfy`, `medications.dfy`).
  - Medicine get-or-create.
  - Medication create: duration check, unique medication, one schedule per payload time.
  - Medication update: 404, duration, medicine by stripped name, flush check, and the schedule reconciliation loop.
  - The update route's ownership check.
- **BP and sugar schedules** (`check_schedules.dfy`). Create and update with their date rules and duration recomputation.
- **Users and accounts** (`users.dfy`, `accounts.dfy`).
  - The partial user update and the attendant-list operations, with sending to attendants abstracted.
  - The token life cycle of forgot/reset password and e-mail verification.
  - Password and Firebase log-in, sign-up and change of password.
- **BP logs** (`bp_logs.dfy`). The active-schedule predicate, log creation with its ownership check, the database CHECK constraints and the error message chosen for a violation, and log update and delete.

`now`, `today`, random tokens, the password hash and its check, e-mail address
validation and e-mail delivery are parameters of the model.

## Model

| member | source | states |
|---|---|---|
| Calendar.Weekday | tasks/scheduler.py:18 | Python's `weekday()`: a number 0..6 with day 1 (0001-01-01) a Monday, so the weekday is the day number minus one, modulo 7 |
| Calendar.Civil | tasks/scheduler.py:22-24 | the civil date of a day number is a valid date whose ordinal is that day number |
| Calendar.CivilOrdinal | tasks/scheduler.py:22-24 | `replace`/`date(...)` round trip: the civil date of a valid date's ordinal is that date |
| Calendar.OrdinalInjective | tasks/scheduler.py:22-24 | two valid dates with the same day number are the same date |
| Calendar.OrdinalOrder | routes/alerts.py:45 | comparing day numbers is comparing dates lexicographically by year, month, day |
| Calendar.FirstOfMonth | tasks/scheduler.py:22 | `today.replace(day=1)` is never after `today` |
| Calendar.MonthBounds | tasks/scheduler.py:22-24 | a day lies between the first and the last of its month, and the first of its month is day 1 of the same year and month |
| Calendar.NextMonthStartFollowsLast | utilities/insight_generator.py:87-90 | the first of the next month (January of the next year after December) is the day after the last day of this month |
| Calendar.DayBeforeNextMonthIsLast | utilities/insight_generator.py:87-90 | the day before the first of the next month is the last day of the month, with that month's length as its day of month, and the day after it is a first |
| Calendar.LastOfMonthCivil | utilities/insight_generator.py:87-90 | the last of the month is not before the day and carries day-of-month equal to the month's length |
| Calendar.DayAfterLast | utilities/insight_generator.py:87-90 | the day after the last of a month is the first of a month |
| Calendar.NextMonthStartIsFirst | utilities/insight_generator.py:87-90 | the first of the next month has day of month 1 |
| Periods.PeriodEnd | routes/alerts.py:26-36 | the window end exists exactly for daily, weekly and monthly; any other period value has none (the error answer) |
| Periods.PeriodEndMeaning | utilities/insight_generator.py:81-90 | daily ends on the start, weekly six days later, monthly on the last day of the start's month (December rolls into the next year), never before the start |
| Periods.MonthlyWindowLength | utilities/insight_generator.py:85-90 | from a first of month, the monthly window covers exactly the days of that month |
| Scheduler.InsightStart | tasks/scheduler.py:14-29 | a start day exists exactly for the three known periods; any other period generates nothing |
| Scheduler.ThisMonday | tasks/scheduler.py:18 | the Monday of the current week is a Monday at most six days back |
| Scheduler.WeeklyStart | tasks/scheduler.py:16-19 | the weekly start is a Monday 7 to 13 days before today, and its window ends the day before this week's Monday |
| Scheduler.MonthlyStart | tasks/scheduler.py:20-25 | the monthly start is the first of the previous month and its window ends the day before the first of the current month, spanning the whole previous month |
| Scheduler.WindowIsPast | tasks/scheduler.py:13-25 | for every known period the insight window lies wholly before today and ends the day before today, this Monday or this month's first |
| Scheduler.Attempted | tasks/scheduler.py:12-35 | the loop reaches the users up to and including the first whose generation raises, since one `try` wraps the whole loop; it reaches every user when none raises |
| Scheduler.GenerateInsights | tasks/scheduler.py:10-35 | one generation request per user reached, in order, each with the same period and start; every user gets one when no generation raises; an unknown period makes none |
| Scheduler.RequestsFor | tasks/scheduler.py:30-35 | the per-user loop returns one request per user in table order, all with the given period and start, and stops after the first user whose generation raises |
| Text.Lower | utilities/insight_generator.py:244 | `lower()` keeps the length and maps each character by itself |
| Text.LowerIdempotent | crud/users.py:215-221 | lower-casing twice is lower-casing once, and leaves no upper-case letter |
| Text.StripMeaning | crud/medications.py:109 | `strip()` leaves neither leading nor trailing white space, and is empty exactly for an all-space text |
| Text.StripSlice | crud/medications.py:135-139 | the stripped text is a slice of the input with only white space cut from either end |
| Text.StripIdempotent | crud/medications.py:135-139 | stripping twice is stripping once |
| Entities.ActiveOnInterval | routes/alerts.py:46 | the active test `start <= day and (not end or end >= day)` holds on every day between two days where it holds |
| Entities.SchedulesOf | routes/alerts.py:43 | `med.schedules`: exactly the schedules whose medication id is the medication's |
| Entities.ActiveMedications | routes/alerts.py:40 | exactly the user's active medications |
| Entities.ActiveCheckSchedules | routes/alerts.py:65 | exactly the user's active BP (or sugar) schedules |
| Entities.FindMedicine | routes/alerts.py:42 | `med.medicine`: a medicine with that id when one exists, none exactly when no medicine has that id |
| Entities.FirstMedLog | routes/alerts.py:49 | the `.first()` medication log of a schedule and day: one such log when any exists, none exactly when none does |
| Entities.FirstMedLogIsFirst | routes/alerts.py:49 | the log returned is the one at the first matching position in table order |
| Entities.FirstBpLogOn | routes/alerts.py:72 | a BP log of that schedule checked on that day when one exists, none exactly when there is none |
| Entities.FirstSugarLogOn | routes/alerts.py:116 | a sugar log of that schedule checked on that day when one exists, none exactly when there is none |
| Entities.FirstBpLogOnIsFirst | routes/alerts.py:72 | the BP log returned is the one at the first matching position in table order |
| Entities.FirstSugarLogOnIsFirst | routes/alerts.py:116 | the sugar log returned is the one at the first matching position in table order |
| AlertRecords.ClassifyBp | routes/alerts.py:83-97 | "High and Low" exactly when a high flag and a low flag are both set, "High" when only a high one is, "Low" when only a low one is; comparisons are strict and an absent threshold never fires |
| AlertRecords.ClassifySugar | routes/alerts.py:127-150 | a fasting reading meets only the fasting thresholds, any other only the random ones; high wins over low and in range gives nothing |
| AlertOrder.PivotYear | routes/alerts.py:166 | `%y` reads a two-digit year into 1969..2068 with that remainder modulo 100 |
| AlertOrder.ParseStampDefined | routes/alerts.py:165-169 | the sort key parses a timestamp exactly when the date is `%m/%d/%y` text and the time `%I:%M %p` text, so ISO reminder text is unparsable |
| AlertOrder.PivotInverse | routes/alerts.py:166 | reading back a year of 1969..2068 printed with `%y` gives that year |
| AlertOrder.ReadBackIdentity | routes/alerts.py:166 | a day of 1969..2068 printed with `%m/%d/%y` reads back as the same civil date |
| AlertOrder.StampChronological | routes/alerts.py:165-167 | an emergency's parsed timestamp orders like its day, hour and minute |
| AlertOrder.KeyLeTotal | routes/alerts.py:162-170 | the key order (tag priority, then negated timestamp, unparsable last) is total and antisymmetric |
| AlertOrder.KeyLeTransitive | routes/alerts.py:162-170 | the key order is transitive |
| AlertOrder.SortEntriesSorted | routes/alerts.py:172 | the insertion sort puts keys in order |
| AlertOrder.SortEntriesStable | routes/alerts.py:172 | for each key, the entries with that key keep their relative order (stable sort) |
| AlertOrder.SortAlertsPermutation | routes/alerts.py:172 | the sorted list is a permutation of the generated one |
| AlertOrder.SortAlertsSorted | routes/alerts.py:172 | the sorted list is in key order |
| AlertOrder.SortAlertsStable | routes/alerts.py:172 | the alerts of each key keep their generation order |
| AlertOrder.RemindersAreOneKey | routes/alerts.py:59-60 | when every reminder carries ISO text, the reminders are exactly the alerts of the one key (reminder, unparsable) |
| AlertOrder.SortAlertsOrder | routes/alerts.py:162-172 | every emergency precedes every reminder; within a tag parsable timestamps come first, latest first; ISO-text reminders keep their generation order |
| AlertOrder.SortAlertsPairs | routes/alerts.py:162-172 | for any two positions of the sorted list, no reminder precedes an emergency, and within a tag a parsable stamp precedes an unparsable one and a later stamp precedes an earlier one |
| AlertOrder.SortAlertsKeepsReminders | routes/alerts.py:162-172 | when every reminder has unparsable stamps, the sort keeps the reminders in their generation order |
| Alerts.Label | routes/alerts.py:42 | the medicine's name when the medicine exists, otherwise its number |
| Alerts.DoseAlert | routes/alerts.py:46-61 | a missed-dose reminder exactly when the occurrence is in the medication's dates and past, and its first log in table order is missing or untaken; "take it now" exactly when the day is today; ISO date and time text |
| Alerts.DoseAlertUnderUniqueLogs | routes/alerts.py:49-50 | with at most one log per schedule and day, a reminder is raised exactly when every such log is untaken |
| Alerts.CheckAlert | routes/alerts.py:69-158 | for a due BP or sugar occurrence: a reminder exactly when no log was checked that day; an emergency exactly when the first log in table order is out of range; nothing for a non-due occurrence; emergencies carry `%m/%d/%y` text |
| Alerts.CheckAlertsOverMembers | routes/alerts.py:68-106 | one schedule's day walk holds exactly the alerts of its days in the window, at most one per day |
| Alerts.DoseAlertsOverMembers | routes/alerts.py:44-62 | one medication schedule's day walk holds exactly the reminders of its days, at most one per day |
| Alerts.CheckAlertsCollect | routes/alerts.py:66-106 | the walk over all schedules holds exactly the alerts of some schedule's walk |
| Alerts.ScheduleDoseAlertsCollect | routes/alerts.py:43-62 | the walk over a medication's schedules holds exactly the reminders of some schedule's walk |
| Alerts.MedicationAlertsCollect | routes/alerts.py:41-62 | the walk over medications holds exactly the reminders of some medication's schedules |
| Alerts.DoseAlertsReported | routes/alerts.py:40-62 | a missed-dose alert is reported exactly when it arises from an active medication of the user, one of its schedules and a day in the window |
| Alerts.CheckAlertsReported | routes/alerts.py:65-159 | a BP or sugar alert is reported exactly when it arises from an active schedule of the user and a day in the window |
| Alerts.GeneratedCoherent | routes/alerts.py:38-159 | every generated alert is coherent: reminders carry ISO text and emergencies `%m/%d/%y`/`%I:%M %p` text |
| Alerts.SortCoherent | routes/alerts.py:161-172 | sorting coherent alerts gives a permutation with emergencies first, emergencies latest first, and reminders in generation order |
| Alerts.AlertsForShape | routes/alerts.py:20-174 | the route fails exactly for an unknown period; otherwise it answers a permutation of the generated alerts in the order above |
| Alerts.GenerateAlerts | routes/alerts.py:20-174 | the route's loops compute the route's specification |
| Alerts.MedicationWalk | routes/alerts.py:41-62 | the loop over medications appends exactly the medication reminders |
| Alerts.ScheduleWalk | routes/alerts.py:43-62 | the loop over one medication's schedules appends exactly their reminders |
| Alerts.DoseWalk | routes/alerts.py:44-62 | the `while day <= end_date` loop appends exactly one schedule's reminders |
| Alerts.CheckWalk | routes/alerts.py:66-159 | the loop over BP or sugar schedules appends exactly their alerts |
| Alerts.CheckDays | routes/alerts.py:67-106 | the day loop of one BP or sugar schedule appends exactly its alerts |
| Adherence.DateRange | routes/reports.py:27-30 | `daterange(s, e)` is the `e - s + 1` consecutive days from `s`, and nothing when `e < s` |
| Adherence.SlotsOfMedication | routes/reports.py:53 | a medication's schedules are counted over the medication's own dates |
| Adherence.CheckSlots | routes/reports.py:82 | a BP or sugar schedule is counted over its own dates |
| Adherence.MedKeys | routes/reports.py:39-46 | the lookup key of a medication log is its scheduled date and schedule id |
| Adherence.BpKeys | routes/reports.py:68-75 | the lookup key of a BP log is the date of `checked_at` and its schedule id |
| Adherence.SugarKeys | routes/reports.py:68-75 | the lookup key of a sugar log is the date of `checked_at` and its schedule id |
| Adherence.SlotDaysMonotone | routes/reports.py:80-86 | a stricter count for one schedule is no larger, and the scheduled count is at most the window's length |
| Adherence.PairCountMonotone | routes/reports.py:78-86 | `0 <= adhered <= total` over all schedules, for any stricter criterion |
| Adherence.DayCountMonotone | routes/reports.py:640-666 | on one day a stricter count is no larger, and at most the number of schedules |
| Adherence.AllStricterThanScheduled | routes/reports.py:84 | every completion rule implies the pair is counted |
| Adherence.FirstTakenStricterThanKeyed | routes/reports.py:55 | the per-day rule (first log of the day taken) implies the whole-window rule (some log keyed) |
| Adherence.KeyedStricterThanFirstTaken | routes/reports.py:647 | when every medication log has `taken_at`, the two medication rules agree |
| Adherence.Transpose | routes/reports.py:633-674 | counting schedule by schedule equals counting day by day |
| Adherence.CalculateAdherence | routes/reports.py:32-88 | the counter loops give `total` = active (schedule, day) pairs and `adhered` = those whose key is in the log lookup |
| Adherence.TallyDay | routes/reports.py:640-666 | one day's loop gives the active schedules and those completed under the day's rule |
| Adherence.Percent | routes/reports.py:630 | 0 when nothing is scheduled, between 0 and 100 when `0 <= done <= total`, 100 when all are done |
| Adherence.LogsOfSlot | routes/reports.py:588-593 | exactly the logs of that schedule scheduled inside the window |
| Adherence.WindowBpLogs | routes/reports.py:600-604 | exactly the BP logs of the user's schedules checked inside the window |
| Adherence.WindowSugarLogs | routes/reports.py:611-615 | exactly the sugar logs of the user's schedules checked inside the window |
| Adherence.ReportWindow | routes/reports.py:544-575 | no start: 1, 7 or 30 days ending today; a start: the window begins there and ends on the period's end when that is not after today, otherwise on today; an unknown period is the error answer |
| Adherence.DailyEntries | routes/reports.py:633-674 | one entry per day of the window, in date order |
| Adherence.AdherenceSummary | routes/reports.py:535-689 | the summary route computes its specification |
| Adherence.Summarise | routes/reports.py:617-689 | the body after the window computes the summary |
| Adherence.DailySeries | routes/reports.py:633-674 | the per-day loop computes the daily entries |
| Adherence.DailySums | routes/reports.py:633-674 | the per-day scheduled and completed counts sum to the day-by-day totals of each category |
| Adherence.SummaryTotals | routes/reports.py:618-630 | each category has `0 <= completed <= scheduled`; the total is the sum of the categories; percent is in 0..100 and 0 when nothing is scheduled |
| Adherence.DailyShape | routes/reports.py:633-674 | per day: the date `s + i`, `completed <= scheduled`, percent in 0..100 and 0 when nothing is scheduled |
| Adherence.DailyAddsUp | routes/reports.py:437-488 | the per-day scheduled counts sum to `total_scheduled`; the per-day completed counts sum to at most `total_completed`, with equality when every medication log has `taken_at` |
| Insights.InsightEnd | utilities/insight_generator.py:80-92 | the period's end day; an unknown period raises ValueError |
| Insights.ListedSchedules | utilities/insight_generator.py:121 | exactly the schedules that are active, start by the window's end and end (or, open-ended, the window end) on or after its start |
| Insights.OverlapMeaning | utilities/insight_generator.py:130 | for a well-ordered schedule, that test is an active schedule whose date interval meets the window |
| Insights.InsightRangeText | utilities/insight_generator.py:37 | the text is a single day exactly for a daily window or a monthly one started on a month's last day |
| Insights.FilteredMeaning | utilities/insight_generator.py:240-252 | the filter keeps exactly the entries whose lower-cased text holds no dangerous keyword; a non-text entry makes `lower()` raise |
| Insights.FilteredAppend | utilities/insight_generator.py:242-251 | filtering a concatenation concatenates the filtered parts, so kept entries stay in their order |
| Insights.NormaliseOverMeaning | utilities/insight_generator.py:233-255 | after the key loop, each expected key holds its normalised value and every other key is as parsed |
| Insights.NormaliseMeaning | utilities/insight_generator.py:233-255 | each expected key maps to a list; a missing or non-list key becomes empty; the recommendations are the kept entries, or the one generic advice when none is kept |
| Insights.IsDangerous | utilities/insight_generator.py:243-249 | the keyword loop finds a hit exactly when a dangerous keyword occurs in the lower-cased text |
| Insights.FilterRecommendations | utilities/insight_generator.py:241-252 | the filtering loop computes the filter |
| Insights.NormaliseInsight | utilities/insight_generator.py:233-255 | the key loop computes the normalisation |
| Insights.GenerateInsightMeaning | utilities/insight_generator.py:80-281 | an unknown period raises ValueError; an active, open-ended BP or sugar schedule overlapping the window raises AttributeError when its line is formatted, outside the guarded call; otherwise an insight is returned exactly for a parsed reply with a JSON object that normalises; its title and summary default to "<Period> Health Insight" and the fixed summary; its window is the period's; every expected key is a list |
| Medicines.FindByNameStrength | crud/medicines.py:11-13 | a medicine with that name and strength when one exists, none exactly when none does |
| Medicines.GetOrCreateMeaning | crud/medicines.py:21-29 | an existing (name, strength) is returned with nothing inserted; otherwise a row with the next id is appended (an empty name or strength breaks a CHECK constraint) |
| Medicines.GetOrCreateIdempotent | crud/medicines.py:21-29 | a second call with the same arguments returns the same medicine and changes nothing |
| Medicines.GetOrCreateKeepsTable | models/medicines.py:24-26 | the table stays unique per (name, strength), earlier rows are untouched and ids stay below the next one |
| Medicines.CreateMedicine | crud/medicines.py:21-29 | the method changes only the medicine table and the next id, as get-or-create says |
| Medications.NormalizeTimeMeaning | crud/medications.py:88-90 | `normalize_time` is idempotent, identifies exactly the times with equal hour and minute, and keeps a valid time valid |
| Medications.CleanInstructionMeaning | crud/medications.py:135-139 | an instruction is stripped, none exactly when absent or blank, and cleaning is idempotent |
| Medications.CreatedMeaning | crud/medications.py:12-60 | a created medication has the user, duration `end - start + 1 > 0`, the medicine by name and strength, and one active schedule per payload entry with its time and instruction; a refusal changes nothing; an end before the start is refused |
| Medications.CreatedKeepsValid | models/medications.py:32-34 | creating keeps every table constraint and id invariant |
| Medications.MedicationIndex | crud/medications.py:93-98 | the position of the medication with that id, none exactly when there is none |
| Medications.ScheduleAt | crud/medications.py:141-144 | the position of a schedule of that medication at that time, none exactly when there is none |
| Medications.ReconcileOneCases | crud/medications.py:141-160 | one payload time: no row means an active row is inserted; an inactive row is reactivated with the instruction set, even to none; an active row takes the instruction only when one is given |
| Medications.ReconcileFrame | crud/medications.py:133-163 | reconciliation only touches rows of the medication at payload times, never deactivates, and gives new rows fresh ids |
| Medications.ReconcileCovers | crud/medications.py:133-160 | afterwards every payload time has an active schedule of the medication |
| Medications.ReconcileUnique | models/medication_schedules.py:24 | reconciliation never creates a second row for a (medication, time) pair |
| Medications.UpdatedMeaning | crud/medications.py:92-163 | an unknown id is 404; a success keeps id and owner, stores the new dates and positive duration and the medicine of the stripped name and strength, and changes no other medication; a refusal changes nothing |
| Medications.OwnerUpdatedMeaning | routes/medications.py:73-81 | the route only updates a medication with that id owned by the caller; any other request fails with nothing committed |
| Medications.UpdatedSchedules | crud/medications.py:133-163 | after an update every payload time has an active schedule; other schedules and the other tables are as they were |
| Medications.UpdatedKeepsValid | models/medications.py:32-34 | an update keeps every table constraint and id invariant |
| Medications.CreateNewMedication | routes/medications.py:23-29 | the create route creates as specified and keeps the store valid |
| Medications.CreateMedicationWithSchedules | crud/medications.py:12-60 | the create function's steps compute the create specification |
| Medications.AddSchedules | crud/medications.py:52-58 | one schedule per payload entry, linked to the new medication; two entries at one time break the unique constraint |
| Medications.UpdateUserMedication | routes/medications.py:73-81 | the update route runs the crud update, then answers 404 and rolls back when the medication is not the caller's |
| Medications.UpdateMedication | crud/medications.py:92-163 | the in-place assignments and the loop compute the update specification |
| Medications.ReconcileSchedules | crud/medications.py:133-160 | the reconciliation loop computes the reconciliation and changes only the schedule table and the next id |
| CheckSchedules.CreatedMeaning | crud/sugar_schedules.py:27-59 | creating succeeds exactly when an end is given and is not before the start (default today); it appends one row per time, all sharing start, end and duration `end - start + 1 > 0`; a refusal changes nothing |
| CheckSchedules.CreatedKeepsWellFormed | crud/bp_schedules.py:29-41 | created rows keep every schedule's end not before its start, with the duration of its dates |
| CheckSchedules.CreatedKeepsValid | crud/bp_schedules.py:29-41 | creating keeps the id invariant of the store |
| CheckSchedules.IntendedCreateRefusals | crud/bp_schedules.py:16-27 | with the intended `status` import the BP refusals are the 400 answers the code spells out, and every other outcome is the same as written |
| CheckSchedules.BpCreateRaisesNameError | crud/bp_schedules.py:1-27 | as written, a missing end or an end before the start raises NameError |
| CheckSchedules.CreateCheckSchedules | crud/bp_schedules.py:12-44 | the create loop appends the specified rows, or refuses with the store unchanged; with `RefusalsOf(k)` the refusals are those of the code as written (NameError for BP), with `IntendedRefusals` those of the corrected create |
| CheckSchedules.ScheduleIndex | crud/bp_schedules.py:71-72 | the first schedule with that id, none exactly when there is none |
| CheckSchedules.BpRevisedMeaning | crud/bp_schedules.py:78-108 | refusals: both dates with the end first; start only, after the stored end (a TypeError when there is no end); end only, before the stored start; on success start <= end, duration recomputed when a date changes, time and active only when given |
| CheckSchedules.SugarRevisedMeaning | crud/sugar_schedules.py:61-86 | merged dates take the payload when given; refused when the merged end is before the start (a TypeError when there is none); success recomputes the duration; time and active only when given |
| CheckSchedules.UpdatedFrame | crud/sugar_schedules.py:61-86 | an update replaces only the schedule with that id and a refusal changes nothing; an unknown id is 404 for BP and None for sugar |
| CheckSchedules.UpdateBpSchedule | crud/bp_schedules.py:67-112 | the field assignments compute the BP update and keep the store valid |
| CheckSchedules.UpdateSugarSchedule | crud/sugar_schedules.py:61-86 | the field assignments compute the sugar update and keep the store valid |
| Users.UserIndex | crud/users.py:149-151 | the first user with that id, none exactly when there is none |
| Users.UpdatedMeaning | crud/users.py:149-181 | each of name, attendant list and the eight thresholds is overwritten exactly when given; nothing else changes; unknown id gives None; an empty name breaks the name CHECK constraint and changes nothing |
| Users.UpdateUser | crud/users.py:149-181 | the conditional assignments compute the user update |
| Users.IndexOf | crud/users.py:274 | `index`: the first position of the address |
| Users.RemoveFirstMeaning | crud/users.py:232 | `remove` drops exactly one occurrence |
| Users.RemoveFirstDistinct | crud/users.py:232 | on a list without duplicates, the removed address is gone |
| Users.AddedEmailMeaning | crud/users.py:215-221 | the address is present afterwards, appended only when absent; no duplicate is introduced; adding twice is adding once; removing it again undoes a real addition |
| Users.AttendantAddedMeaning | crud/users.py:205-223 | unknown user gives None; an invalid address is 400 with nothing changed; otherwise the lower-cased address is in the list, added at the end only when absent, and nothing else changes |
| Users.AttendantAddedIdempotent | crud/users.py:215-221 | adding the same address twice is adding it once |
| Users.AddAttendantEmail | crud/users.py:205-223 | the method computes the add specification |
| Users.DeleteRaisesValueError | crud/users.py:231-232 | as written, deleting "A@b.c" from `["a@b.c"]` passes the lower-cased membership test and then raises ValueError |
| Users.AttendantDeletedAgrees | crud/users.py:226-236 | the intended delete never raises and agrees with the written one on lower-case input |
| Users.AttendantDeletedMeaning | crud/users.py:226-236 | None exactly for an unknown user or an empty list; an unlisted address returns the user with nothing changed; the store changes exactly when the lower-cased address is listed, and then one occurrence of it is removed from that user's list and nothing else changes |
| Users.DeleteAttendantEmail | crud/users.py:226-236 | the method computes the intended delete |
| Users.ReplaceRaisesValueError | crud/users.py:262-275 | as written, replacing "A@b.c" in `["a@b.c"]` passes the checks and then raises ValueError at `index` |
| Users.AttendantReplacedMeaning | crud/users.py:239-278 | refusals in the order missing user, empty list, invalid old, invalid new, old absent, new present, each holding exactly when its condition fails and the earlier ones pass, and success exactly when none fails; a success writes the lower-cased new address at the old one's position, keeping length and the other entries |
| Users.UpdateSingleAttendantEmail | crud/users.py:239-278 | the method computes the intended replacement |
| Users.WithOutcome | crud/users.py:280-296 | each listed address comes from the input and had that delivery outcome |
| Users.OutcomesPartition | crud/users.py:280-296 | every address lands in exactly one of `sent_to` and `failed` |
| Users.SendEmailToAttendants | crud/users.py:280-296 | the loop keeps input order in both lists |
| Accounts.UserWhere | routes/users.py:55 | the first user matching the e-mail or token, none exactly when there is none |
| Accounts.PasswordResetMeaning | routes/users.py:76-91 | reset succeeds exactly for a known token that has not expired; it sets the hashed password and clears token and expiry; otherwise 400 with nothing changed |
| Accounts.PasswordResetSingleUse | routes/users.py:85-89 | a reset token works once: the same token is then refused |
| Accounts.ForgotThenReset | routes/users.py:53-91 | after `forgot_password`, the fresh token resets the password exactly until one hour has passed |
| Accounts.ForgotPasswordRoute | routes/users.py:53-73 | unknown address gives 404; otherwise the token and an expiry one hour ahead are stored |
| Accounts.ResetPasswordRoute | routes/users.py:76-91 | the route computes the reset specification |
| Accounts.EmailVerifiedMeaning | routes/users.py:238-254 | verification succeeds exactly for a live token, clears token and expiry and sets `email_verified`; the token then no longer works |
| Accounts.VerifyEmailRoute | routes/users.py:238-254 | the route computes the verification specification |
| Accounts.PasswordChangedMeaning | routes/users.py:94-118 | empty passwords are 400; a wrong old password is 401 with the password unchanged; otherwise the new hash is stored |
| Accounts.ChangePasswordRoute | routes/users.py:94-118 | the route computes the change specification |
| Accounts.FirebaseUidDropped | crud/users.py:140-141 | as written, a new Google user gets no uid, because "google.com" is compared with "google" |
| Accounts.FirebaseUserGotIntended | crud/users.py:120-146 | with the provider names the log-in route accepts, a new user is inserted with the provider's uid; an existing user gains the uid only when it had none, and nothing else changes |
| Accounts.FirebaseUserGotKeepsValid | crud/users.py:120-146 | the Firebase lookup keeps the store valid |
| Accounts.LoggedInMeaning | routes/users.py:121-185 | password log-in: missing credentials 400; bad credentials 401; a verified user logs in; an unverified one gets a fresh token valid one hour and 401. Firebase log-in: a token that does not check is 401; a provider other than google.com or microsoft.com is 401; otherwise it succeeds exactly when `get_or_create_firebase_user` does, answering that user's id and keeping what it stored, and a failure changes nothing |
| Accounts.FirebaseLoginIdentifies | routes/users.py:124-152 | with the corrected provider names, an accepted Firebase log-in answers the id of the user with that e-mail, or the next id for a new one, and fails only when a new row breaks the CHECK constraints |
| Accounts.UnverifiedLoginThenVerify | routes/users.py:164-182 | the token sent at an unverified log-in verifies the address exactly until an hour has passed |
| Accounts.GetOrCreateFirebaseUser | crud/users.py:120-146 | the method computes the Firebase lookup with the given provider names: `WrittenNames` as written, `IntendedNames` corrected |
| Accounts.LoginRoute | routes/users.py:121-185 | the route computes the log-in specification with the given provider names: `WrittenNames` as written, `IntendedNames` corrected |
| Accounts.SignedUpMeaning | routes/users.py:195-235 | no password is 400; an existing user with a password is 400; an existing passwordless user gets the password; a new user is appended unverified with a token valid one hour |
| Accounts.SignUpThenVerifyThenLogin | routes/users.py:195-254 | a new sign-up, verified in time, then logs in with its password |
| Accounts.SignupRoute | routes/users.py:195-235 | the route computes the sign-up specification |
| BpLogs.ActiveSchedule | crud/bp_logs.py:12-18 | the first schedule of the user, active, started by the day and not ended before it; none exactly when there is none |
| BpLogs.ActiveScheduleBetween | crud/bp_logs.py:12-18 | a schedule active on two days is active on every day between |
| BpLogs.Reported | models/bp_logs.py:28-31 | no violation exactly for a storable reading; otherwise the first violated constraint in name order is reported |
| BpLogs.Mapped | crud/bp_logs.py:50-80 | every violation maps to a 400; a message naming no known constraint is the generic one |
| BpLogs.MappedOne | crud/bp_logs.py:50-80 | a message naming one constraint maps to that constraint's text |
| BpLogs.CreatedMeaning | crud/bp_logs.py:21-80 | 404 exactly when the schedule is not the user's; success exactly for a storable reading, stored with the next id and `checked_at` defaulting to now; a violation is its constraint's 400 and changes nothing |
| BpLogs.BothRangesReportDiastolic | crud/bp_logs.py:50-80 | a reading of 0/0 is reported as the diastolic message, the first constraint in name order; the request schema refuses 0/0, so only a caller that skips it gets here |
| BpLogs.DiastolicAboveSystolicRefused | crud/bp_logs.py:71-75 | a reading the schema admits, 120/130, is refused with "Systolic must be greater than diastolic." and changes nothing |
| BpLogs.LogIndex | crud/bp_logs.py:84 | the first log with that id, none exactly when there is none |
| BpLogs.CreatedKeepsStored | models/bp_logs.py:28-31 | creating keeps every stored reading within the CHECK constraints |
| BpLogs.Get | crud/bp_logs.py:88-89 | the pending value of one field |
| BpLogs.Assign | crud/bp_logs.py:88-89 | `setattr` sets that field and keeps the others |
| BpLogs.AssignAllMeaning | crud/bp_logs.py:88-89 | after the loop each set field holds its new value and every other field its old one |
| BpLogs.SetFields | crud/bp_logs.py:87 | `exclude_unset`: systolic and diastolic always, pulse, notes and time only when sent |
| BpLogs.RevisedMeaning | crud/bp_logs.py:83-93 | the revised log takes each sent field and keeps the rest |
| BpLogs.Committed | crud/bp_logs.py:90 | the commit succeeds exactly for a storable reading with a time |
| BpLogs.UpdatedMeaning | crud/bp_logs.py:83-93 | unknown id gives None; a constraint violation raises IntegrityError; both leave the store unchanged; success replaces that one log with the revised one |
| BpLogs.UpdatedKeepsStored | models/bp_logs.py:28-31 | an update keeps every stored reading within the CHECK constraints |
| BpLogs.DeletedMeaning | crud/bp_logs.py:96-103 | true exactly when the log exists, and then exactly one log with that id is removed; false leaves the store unchanged |
| BpLogs.DeletedKeepsStored | models/bp_logs.py:28-31 | a delete keeps every stored reading within the CHECK constraints |
| BpLogs.CreateBpLog | crud/bp_logs.py:21-80 | the method computes the create specification |
| BpLogs.UpdateBpLog | crud/bp_logs.py:83-93 | the `setattr` loop computes the update specification |
| BpLogs.DeleteBpLog | crud/bp_logs.py:96-103 | the method computes the delete specification |

## Left out

- Clock reads (`datetime.now()`, `date.today()`), token generation, password hashing and checking, e-mail address validation and SMTP delivery are parameters; JWT creation, Firebase token verification and the e-mail text are not modelled. The debug `print` of the log-in route reads the token's `name` claim, so a token without one raises KeyError (a 500) before the provider check; the model's `FirebaseUser` always carries a name, so that failure is not modelled.
- The time zone of a `time` value is carried but never compared; naive and aware times are not told apart.
- Sugar values and thresholds are floats in the database and integers here. Percentages are exact reals, without the rounding to two places.
- Chart and PDF rendering of `generate_report`, and its file response, are not modelled. Its window, counts and per-day loop are the same as those of the adherence summary, which is modelled.
- Scheduler.GenerateInsights: whether generating one user's insight raises is a parameter, because the generation call and its store reads are not modelled at this level.
- The language-model call, the regular-expression search for title, summary and JSON block, and `json.loads` are replaced by an already parsed reply; the prompt text other than the date range is not modelled.
- ORM queries, relationship loading, `refresh`, and saving an insight are replaced by sequence fields and filters over them; APScheduler's cron registration is not modelled.
- The delete functions of medications and BP/sugar schedules, the listing and lookup queries, `create_user`, and the chat, message and sugar/medication log modules are not part of this model.
- Request schemas and their field validations (the 422 answers) are not modelled; payloads arrive already typed.
- Commented-out duplicates and code after a `return` (`crud/medications.py:166-231` and `244-253`, `crud/users.py:188-194`) are not modelled because they never run.
- CheckSchedules.CreateCheckSchedules: the code commits each new row as it adds it; the model commits them together, so the model does not show a create that fails after some rows were committed.
- The unique constraints on the two Firebase uid columns are not modelled.
- Medications.UpdateUserMedication: the route's check happens after the flush, so a refused request from another user is rolled back at session close; the model restores the tables directly.
- BpLogs.Mapped: the database error text is modelled as the set of constraint names it mentions; the DETAIL part of the message and the sequence value consumed by a rolled-back insert are not modelled.
- BpLogs.UpdateBpLog: the code checks no ownership, and neither does the model.
- Text.StripMeaning: white space is the set of ASCII characters Python's `strip()` removes; non-ASCII white space is not modelled.
- Text.Lower: only ASCII letters are lower-cased, while Python's `lower()` also maps non-ASCII letters.
- Calendar.Civil: years outside 1..9999 are not refused, while Python raises OverflowError for them.
- Alerts.MedicationWalk, Alerts.ScheduleWalk, Alerts.DoseWalk, Alerts.CheckWalk, Alerts.CheckDays: they require `start <= end`, which every window from a known period meets.
- AlertOrder.Seconds: `timestamp()` of a naive datetime goes through the local time zone; the model takes its offset as constant, so two stamps inside an hour skipped or repeated by a daylight-saving change may order differently in the code.
- Reminders stay in generation order, not date order, because the sort key cannot parse their ISO text; the model follows the code.

## Findings

| source | as written | input that shows it | evidently intended | confidence | as-written member | corrected member |
|---|---|---|---|---|---|---|
| crud/bp_schedules.py:16-27 | the error branches use `status.HTTP_400_BAD_REQUEST`, but `status` is never imported, so refusing a create raises NameError | a create with start_date 2025-05-10 and end_date 2025-05-01 (the missing-end branch is unreachable, because the request schema requires `end_date`) | a 400 "End date must be after or equal to start date." | not executed | CheckSchedules.BpCreateRaisesNameError | CheckSchedules.IntendedCreateRefusals |
| crud/users.py:231-232 | membership is tested with the lower-cased address but `remove` is called with the raw one | delete "A@b.c" when the list is `["a@b.c"]` | remove the lower-cased address that was found | not executed | Users.DeleteRaisesValueError | Users.AttendantDeletedMeaning |
| crud/users.py:262-275 | absence is tested with the lower-cased old address but `index` is called with the raw one | replace "A@b.c" by "d@e.f" when the list is `["a@b.c"]` | replace the lower-cased old address that was found | not executed | Users.ReplaceRaisesValueError | Users.AttendantReplacedMeaning |
| crud/users.py:140-141 | the provider is compared with "google" and "microsoft", but the log-in route only admits "google.com" and "microsoft.com" | a first Google log-in | store the uid for the provider the route accepted | not executed | Accounts.FirebaseUidDropped | Accounts.FirebaseUserGotIntended |
