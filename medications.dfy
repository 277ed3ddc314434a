/** `create_medication_with_schedules` and `update_medication`: a medication
    row with its daily dose times, and the reconciliation of those times on
    update. */
module Medications {
  import opened Wrappers
  import opened Calendar
  import opened Text
  import opened Entities
  import opened Store
  import opened Medicines

  const DurationError: Failure := Http(400, "End date must be after or equal to start date.")
  const DuplicateMedication: Failure := Http(400, "Medication for this medicine already exists for the user.")
  const MedicationMissing: Failure := Http(404, "Medication not found.")

  /** One dose time of the request, with its optional instruction. */
  datatype ScheduleIn = ScheduleIn(time: Clock, instruction: Option<string>)

  /** The create and update payloads have the same fields. */
  datatype MedicationIn = MedicationIn(
    name: string, strength: string, purpose: Option<string>,
    start: Day, end: Day, schedules: seq<ScheduleIn>)

  /** `normalize_time`: seconds, microseconds and time zone dropped. */
  function NormalizeTime(t: Clock): Clock {
    t.(second := 0, micro := 0, tz := None)
  }

  /** Normalising twice is normalising once, and two times normalise alike
      exactly when they agree on hour and minute. */
  lemma NormalizeTimeMeaning(a: Clock, b: Clock)
    ensures NormalizeTime(NormalizeTime(a)) == NormalizeTime(a)
    ensures NormalizeTime(a) == NormalizeTime(b) <==> a.hour == b.hour && a.minute == b.minute
    ensures ValidClock(a) ==> ValidClock(NormalizeTime(a))
  {
  }

  /** The instruction an update stores: stripped, and None when nothing but
      white space is left. */
  function CleanInstruction(i: Option<string>): Option<string> {
    if i.Some? && i.value != "" && Strip(i.value) != "" then Some(Strip(i.value)) else None
  }

  lemma CleanInstructionMeaning(i: Option<string>)
    ensures CleanInstruction(i).None? <==> i.None? || Strip(i.value) == ""
    ensures CleanInstruction(i).Some? ==> CleanInstruction(i).value == Strip(i.value) != ""
    ensures CleanInstruction(CleanInstruction(i)) == CleanInstruction(i)
  {
    if i.Some? && i.value == "" {
      assert Strip(i.value) == "";
    }
    if CleanInstruction(i).Some? {
      StripIdempotent(i.value);
    }
  }

  /** The purpose an update stores: stripped when given and non-empty. */
  function CleanPurpose(p: Option<string>): Option<string> {
    if p.Some? && p.value != "" then Some(Strip(p.value)) else None
  }

  // ---------------------------------------------------------------- create

  /** The dose times of one create request are pairwise distinct, as
      `unique_medication_time` demands of the rows they become. */
  predicate DistinctTimes(ins: seq<ScheduleIn>) {
    forall i, j :: 0 <= i < j < |ins| ==> ins[i].time != ins[j].time
  }

  /** The schedule rows a create request adds, one per dose time with ids
      from `next` on. */
  function NewSchedules(medId: int, next: int, ins: seq<ScheduleIn>): seq<MedSchedule> {
    seq(|ins|, i requires 0 <= i < |ins| => MedSchedule(next + i, medId, ins[i].time, ins[i].instruction, true))
  }

  /** Another medication of the same user with the same medicine, the case
      `unique_medication` rejects. */
  predicate Taken(rows: seq<Medication>, except: int, medicineId: int, userId: int) {
    exists j :: 0 <= j < |rows| && j != except && rows[j].medicineId == medicineId && rows[j].userId == userId
  }

  /** What a create request returns and the store afterwards: the medicine is
      looked up or made first, then the duration checked, then the row and its
      schedules inserted; the schedules reach the table at the commit, where
      two equal times break `unique_medication_time`. */
  function Created(s: State, userId: int, p: MedicationIn): (Result<Medication>, State) {
    match GetOrCreate(s.medicines, s.nextId, p.name, p.strength)
    case Err(f) => (Err(f), s)
    case Ok(g) =>
      var d := Duration(p.start, p.end);
      if d <= 0 then (Err(DurationError), s)
      else if Taken(s.medications, -1, g.medicine.id, userId) then (Err(DuplicateMedication), s)
      else if !DistinctTimes(p.schedules) then (Err(Raised("IntegrityError")), s)
      else
        var med := Medication(g.nextId, userId, g.medicine.id, p.purpose, d, p.start, Some(p.end), true);
        (Ok(med), s.(medicines := g.rows, medications := s.medications + [med],
                     medSchedules := s.medSchedules + NewSchedules(med.id, g.nextId + 1, p.schedules),
                     nextId := g.nextId + 1 + |p.schedules|))
  }

  /** A create that succeeds stores a medication of positive duration
      `end - start + 1` for the requested medicine, and one active schedule per
      requested dose time, linked to it, with the time and instruction copied;
      apart from those rows and a possibly new medicine nothing changes.  A
      create that fails changes nothing, and an end before the start always
      fails. */
  lemma CreatedMeaning(s: State, userId: int, p: MedicationIn)
    ensures var (r, t) := Created(s, userId, p);
            r.Ok? ==>
              var m := r.value;
              m.userId == userId && m.durationDays == p.end - p.start + 1 > 0
              && m.startDate == p.start && m.endDate == Some(p.end) && m.isActive
              && (exists k :: 0 <= k < |t.medicines| && t.medicines[k].id == m.medicineId
                   && t.medicines[k].name == p.name && t.medicines[k].strength == p.strength)
              && t.medications == s.medications + [m]
              && |t.medSchedules| == |s.medSchedules| + |p.schedules|
              && t.medSchedules[..|s.medSchedules|] == s.medSchedules
              && (forall i :: 0 <= i < |p.schedules| ==>
                    var row := t.medSchedules[|s.medSchedules| + i];
                    row.medicationId == m.id && row.time == p.schedules[i].time
                    && row.dosageInstruction == p.schedules[i].instruction && row.isActive)
              && t.users == s.users && t.medLogs == s.medLogs
              && t.bpSchedules == s.bpSchedules && t.bpLogs == s.bpLogs
              && t.sugarSchedules == s.sugarSchedules && t.sugarLogs == s.sugarLogs
    ensures var (r, t) := Created(s, userId, p);
            r.Err? ==> t == s
    ensures p.end < p.start ==> Created(s, userId, p).0.Err?
  {
    var (r, t) := Created(s, userId, p);
    if r.Ok? {
      var g := GetOrCreate(s.medicines, s.nextId, p.name, p.strength).value;
      GetOrCreateMeaning(s.medicines, s.nextId, p.name, p.strength);
      var k :| 0 <= k < |g.rows| && g.rows[k] == g.medicine;
      assert t.medSchedules[..|s.medSchedules|] == s.medSchedules;
    }
  }

  /** A create keeps every table constraint and id invariant. */
  lemma CreatedKeepsValid(s: State, userId: int, p: MedicationIn)
    requires ValidState(s)
    ensures ValidState(Created(s, userId, p).1)
  {
    var (r, t) := Created(s, userId, p);
    if r.Ok? {
      var g := GetOrCreate(s.medicines, s.nextId, p.name, p.strength).value;
      GetOrCreateKeepsTable(s.medicines, s.nextId, p.name, p.strength);
      AppendMedication(s.medications, r.value);
      AppendSchedules(s.medSchedules, g.nextId, p.schedules);
    }
  }

  lemma AppendMedication(rows: seq<Medication>, med: Medication)
    requires UniqueMedications(rows)
    requires !Taken(rows, -1, med.medicineId, med.userId)
    ensures UniqueMedications(rows + [med])
  {
    var t := rows + [med];
    forall i, j | 0 <= i < j < |t|
      ensures (t[i].medicineId, t[i].userId) != (t[j].medicineId, t[j].userId)
    {
      if j == |rows| {
        assert t[i] == rows[i];
      }
    }
  }

  /** Appending the schedules of a new medication, whose id is above every
      id so far, keeps (medication, time) pairs unique and ids below the
      counter. */
  lemma AppendSchedules(rows: seq<MedSchedule>, medId: int, ins: seq<ScheduleIn>)
    requires UniqueScheduleTimes(rows)
    requires forall x :: x in rows ==> x.id < medId && x.medicationId < medId
    requires DistinctTimes(ins)
    ensures var t := rows + NewSchedules(medId, medId + 1, ins);
            UniqueScheduleTimes(t)
            && forall x :: x in t ==> x.id < medId + 1 + |ins| && x.medicationId < medId + 1 + |ins|
  {
    var added := NewSchedules(medId, medId + 1, ins);
    var t := rows + added;
    var n := |rows|;
    forall i, j | 0 <= i < j < |t|
      ensures (t[i].medicationId, t[i].time) != (t[j].medicationId, t[j].time)
    {
      if i < n && j < n {
        assert t[i] == rows[i] && t[j] == rows[j];
      } else if i < n {
        assert rows[i] in rows;
        assert t[i] == rows[i] && t[j] == added[j - n];
      } else {
        assert t[i] == added[i - n] && t[j] == added[j - n];
      }
    }
    forall x | x in t
      ensures x.id < medId + 1 + |ins| && x.medicationId < medId + 1 + |ins|
    {
      var i :| 0 <= i < |t| && t[i] == x;
      if i < n {
        assert rows[i] in rows;
      } else {
        assert x == added[i - n];
      }
    }
  }

  // ------------------------------------------------------- reconciliation

  /** The schedule table and the id counter, as the reconciliation leaves them. */
  datatype Rows = Rows(schedules: seq<MedSchedule>, nextId: int)

  /** The position of the medication with the given id. */
  function MedicationIndex(rows: seq<Medication>, id: int): (r: Option<nat>)
    ensures r.Some? ==> r.value < |rows| && rows[r.value].id == id
    ensures r.None? <==> forall j :: 0 <= j < |rows| ==> rows[j].id != id
  {
    if rows == [] then None
    else if rows[0].id == id then Some(0)
    else match MedicationIndex(rows[1..], id)
      case None => None
      case Some(k) => Some(k + 1)
  }

  /** The first schedule of the medication at the given time. */
  function ScheduleAt(rows: seq<MedSchedule>, medId: int, t: Clock): (r: Option<nat>)
    ensures r.Some? ==> r.value < |rows| && rows[r.value].medicationId == medId && rows[r.value].time == t
    ensures r.None? <==> forall j :: 0 <= j < |rows| ==> !(rows[j].medicationId == medId && rows[j].time == t)
  {
    if rows == [] then None
    else if rows[0].medicationId == medId && rows[0].time == t then Some(0)
    else match ScheduleAt(rows[1..], medId, t)
      case None => None
      case Some(k) => Some(k + 1)
  }

  /** One payload entry: insert a new active row, reactivate an inactive one
      and set its instruction even to None, or replace an active row's
      instruction when a new one is given. */
  function ReconcileOne(rows: seq<MedSchedule>, next: int, medId: int, e: ScheduleIn): Rows {
    var t := NormalizeTime(e.time);
    var instr := CleanInstruction(e.instruction);
    match ScheduleAt(rows, medId, t)
    case None => Rows(rows + [MedSchedule(next, medId, t, instr, true)], next + 1)
    case Some(i) =>
      if !rows[i].isActive then Rows(rows[i := rows[i].(isActive := true, dosageInstruction := instr)], next)
      else if instr.Some? then Rows(rows[i := rows[i].(dosageInstruction := instr)], next)
      else Rows(rows, next)
  }

  /** The loop over the payload, entry by entry. */
  function Reconcile(rows: seq<MedSchedule>, next: int, medId: int, ins: seq<ScheduleIn>): Rows
    decreases |ins|
  {
    if ins == [] then Rows(rows, next)
    else
      var r := Reconcile(rows, next, medId, ins[..|ins| - 1]);
      ReconcileOne(r.schedules, r.nextId, medId, ins[|ins| - 1])
  }

  /** The normalised times of a payload. */
  function PayloadTimes(ins: seq<ScheduleIn>): set<Clock> {
    set e | e in ins :: NormalizeTime(e.time)
  }

  /** Rows `after` grew from `before` without touching any row's id,
      medication or time and without deactivating any; a changed row belongs
      to the medication at one of the times; an added row is an active row of
      the medication at one of the times with an id in [lo, hi). */
  ghost predicate Grown(before: seq<MedSchedule>, after: seq<MedSchedule>, medId: int, times: set<Clock>, lo: int, hi: int) {
    |before| <= |after| && lo <= hi
    && (forall i :: 0 <= i < |before| ==>
          after[i].id == before[i].id && after[i].medicationId == before[i].medicationId
          && after[i].time == before[i].time
          && (before[i].isActive ==> after[i].isActive)
          && ((before[i].medicationId != medId || before[i].time !in times) ==> after[i] == before[i]))
    && (forall i :: |before| <= i < |after| ==>
          after[i].medicationId == medId && after[i].time in times && after[i].isActive
          && lo <= after[i].id < hi)
  }

  /** One entry's effect, in the three cases of the source: the row at the
      normalised time is active afterwards, and its instruction is the cleaned
      one unless the row was already active and no instruction was given. */
  lemma ReconcileOneCases(rows: seq<MedSchedule>, next: int, medId: int, e: ScheduleIn)
    ensures var t := NormalizeTime(e.time);
            var instr := CleanInstruction(e.instruction);
            var r := ReconcileOne(rows, next, medId, e);
            Grown(rows, r.schedules, medId, {t}, next, r.nextId)
            && match ScheduleAt(rows, medId, t)
               case None =>
                 r.schedules == rows + [MedSchedule(next, medId, t, instr, true)] && r.nextId == next + 1
               case Some(i) =>
                 r.nextId == next && |r.schedules| == |rows|
                 && r.schedules[i].isActive
                 && r.schedules[i].dosageInstruction ==
                      (if rows[i].isActive && instr.None? then rows[i].dosageInstruction else instr)
                 && forall j :: 0 <= j < |rows| && j != i ==> r.schedules[j] == rows[j]
  {
  }

  /** The whole loop: only rows of the medication at payload times change,
      nothing is deactivated, and added rows take fresh ids. */
  lemma {:induction false} ReconcileFrame(rows: seq<MedSchedule>, next: int, medId: int, ins: seq<ScheduleIn>)
    ensures var r := Reconcile(rows, next, medId, ins);
            Grown(rows, r.schedules, medId, PayloadTimes(ins), next, r.nextId)
    decreases |ins|
  {
    if ins != [] {
      var init := ins[..|ins| - 1];
      var e := ins[|ins| - 1];
      var mid := Reconcile(rows, next, medId, init);
      var r := ReconcileOne(mid.schedules, mid.nextId, medId, e);
      ReconcileFrame(rows, next, medId, init);
      ReconcileOneCases(mid.schedules, mid.nextId, medId, e);
      assert ins == init + [e];
      assert PayloadTimes(ins) == PayloadTimes(init) + {NormalizeTime(e.time)};
      GrownTrans(rows, mid.schedules, r.schedules, medId, PayloadTimes(init), {NormalizeTime(e.time)},
                 next, mid.nextId, r.nextId);
    }
  }

  lemma GrownTrans(a: seq<MedSchedule>, b: seq<MedSchedule>, c: seq<MedSchedule>, medId: int,
                   t1: set<Clock>, t2: set<Clock>, n0: int, n1: int, n2: int)
    requires Grown(a, b, medId, t1, n0, n1)
    requires Grown(b, c, medId, t2, n1, n2)
    ensures Grown(a, c, medId, t1 + t2, n0, n2)
  {
  }

  /** After the loop every payload time has an active row of the medication. */
  lemma {:induction false} ReconcileCovers(rows: seq<MedSchedule>, next: int, medId: int, ins: seq<ScheduleIn>)
    ensures var r := Reconcile(rows, next, medId, ins);
            forall t :: t in PayloadTimes(ins) ==>
              exists k :: 0 <= k < |r.schedules| && r.schedules[k].medicationId == medId
                          && r.schedules[k].time == t && r.schedules[k].isActive
    decreases |ins|
  {
    if ins != [] {
      var init := ins[..|ins| - 1];
      var e := ins[|ins| - 1];
      var mid := Reconcile(rows, next, medId, init);
      var r := ReconcileOne(mid.schedules, mid.nextId, medId, e);
      assert r == Reconcile(rows, next, medId, ins);
      ReconcileCovers(rows, next, medId, init);
      ReconcileOneCases(mid.schedules, mid.nextId, medId, e);
      assert ins == init + [e];
      forall t | t in PayloadTimes(ins)
        ensures exists k :: 0 <= k < |r.schedules| && r.schedules[k].medicationId == medId
                            && r.schedules[k].time == t && r.schedules[k].isActive
      {
        var u := NormalizeTime(e.time);
        if t == u {
          match ScheduleAt(mid.schedules, medId, u)
          case None =>
            assert r.schedules[|mid.schedules|].time == t;
          case Some(i) =>
            assert r.schedules[i].time == t;
        } else {
          assert t in PayloadTimes(init) by {
            var x :| x in ins && NormalizeTime(x.time) == t;
            assert x in init;
          }
          var k :| 0 <= k < |mid.schedules| && mid.schedules[k].medicationId == medId
                   && mid.schedules[k].time == t && mid.schedules[k].isActive;
          assert r.schedules[k].time == t;
        }
      }
    }
  }

  /** The loop never creates a second row for a (medication, time) pair. */
  lemma {:induction false} ReconcileUnique(rows: seq<MedSchedule>, next: int, medId: int, ins: seq<ScheduleIn>)
    requires UniqueScheduleTimes(rows)
    ensures UniqueScheduleTimes(Reconcile(rows, next, medId, ins).schedules)
    decreases |ins|
  {
    if ins != [] {
      var init := ins[..|ins| - 1];
      var e := ins[|ins| - 1];
      var mid := Reconcile(rows, next, medId, init);
      ReconcileUnique(rows, next, medId, init);
      ReconcileOneUnique(mid.schedules, mid.nextId, medId, e);
    }
  }

  lemma ReconcileOneUnique(rows: seq<MedSchedule>, next: int, medId: int, e: ScheduleIn)
    requires UniqueScheduleTimes(rows)
    ensures UniqueScheduleTimes(ReconcileOne(rows, next, medId, e).schedules)
  {
    var r := ReconcileOne(rows, next, medId, e);
    var t := NormalizeTime(e.time);
    ReconcileOneCases(rows, next, medId, e);
    forall i, j | 0 <= i < j < |r.schedules|
      ensures (r.schedules[i].medicationId, r.schedules[i].time) != (r.schedules[j].medicationId, r.schedules[j].time)
    {
      if j == |rows| {
        assert ScheduleAt(rows, medId, t).None?;
      }
    }
  }

  /** Reconciling keeps every schedule id below the counter. */
  lemma ReconcileIds(rows: seq<MedSchedule>, next: int, medId: int, ins: seq<ScheduleIn>)
    requires forall x :: x in rows ==> x.id < next && x.medicationId < next
    requires medId < next
    ensures var r := Reconcile(rows, next, medId, ins);
            next <= r.nextId && forall x :: x in r.schedules ==> x.id < r.nextId && x.medicationId < r.nextId
  {
    var r := Reconcile(rows, next, medId, ins);
    ReconcileFrame(rows, next, medId, ins);
    forall x | x in r.schedules
      ensures x.id < r.nextId && x.medicationId < r.nextId
    {
      var i :| 0 <= i < |r.schedules| && r.schedules[i] == x;
      if i < |rows| {
        assert rows[i] in rows;
      }
    }
  }

  // ---------------------------------------------------------------- update

  /** What an update request returns and the store afterwards: 404 for an
      unknown id, the duration check, the medicine looked up or made from the
      stripped name and strength, the medication's fields replaced, the
      `unique_medication` check at the flush, then the reconciliation. */
  function Updated(s: State, id: int, p: MedicationIn): (Result<Medication>, State) {
    match MedicationIndex(s.medications, id)
    case None => (Err(MedicationMissing), s)
    case Some(i) =>
      if Duration(p.start, p.end) <= 0 then (Err(DurationError), s)
      else UpdateAt(s, i, p, Strip(p.name), Strip(p.strength))
  }

  /** The route's answer to an update request from user `userId`: the crud
      update, then 404 with the store rolled back when the updated
      medication is not the caller's. */
  function OwnerUpdated(s: State, userId: int, id: int, p: MedicationIn): (Result<Medication>, State) {
    var (r, t) := Updated(s, id, p);
    if r.Ok? && r.value.userId != userId then (Err(MedicationMissing), s) else (r, t)
  }

  /** The medication row with the request's fields assigned. */
  function Revised(m: Medication, medicineId: int, p: MedicationIn): Medication {
    m.(medicineId := medicineId, purpose := CleanPurpose(p.purpose),
       startDate := p.start, endDate := Some(p.end), durationDays := Duration(p.start, p.end))
  }

  /** The update of the medication at position `i`, once its duration
      passed, with the name and strength already stripped. */
  function UpdateAt(s: State, i: nat, p: MedicationIn, name: string, strength: string): (Result<Medication>, State)
    requires i < |s.medications|
  {
    match GetOrCreate(s.medicines, s.nextId, name, strength)
    case Err(f) => (Err(f), s)
    case Ok(g) =>
      var med := Revised(s.medications[i], g.medicine.id, p);
      if Taken(s.medications, i, med.medicineId, med.userId) then (Err(DuplicateMedication), s)
      else
        var r := Reconcile(s.medSchedules, g.nextId, med.id, p.schedules);
        (Ok(med), s.(medicines := g.rows, medications := s.medications[i := med],
                     medSchedules := r.schedules, nextId := r.nextId))
  }

  /** The value of a successful `UpdateAt`, from its parts. */
  lemma UpdateAtSucceeds(s: State, i: nat, p: MedicationIn, name: string, strength: string,
                         g: Got, rows: seq<MedSchedule>, next: int)
    requires i < |s.medications|
    requires GetOrCreate(s.medicines, s.nextId, name, strength) == Ok(g)
    requires !Taken(s.medications, i, g.medicine.id, s.medications[i].userId)
    requires Rows(rows, next) == Reconcile(s.medSchedules, g.nextId, s.medications[i].id, p.schedules)
    ensures UpdateAt(s, i, p, name, strength) == (Ok(Revised(s.medications[i], g.medicine.id, p)),
              s.(medicines := g.rows, medications := s.medications[i := Revised(s.medications[i], g.medicine.id, p)],
                 medSchedules := rows, nextId := next))
  {
  }

  /** An update that succeeds keeps the medication's id and owner, stores the
      new dates with duration `end - start + 1 > 0` and the medicine named by
      the stripped name and strength, and leaves every other medication as it
      was.  An update that fails changes nothing, and an unknown id fails
      with 404. */
  lemma UpdatedMeaning(s: State, id: int, p: MedicationIn)
    ensures var (r, t) := Updated(s, id, p);
            r.Ok? ==>
              var m := r.value;
              m.id == id && m.startDate == p.start && m.endDate == Some(p.end)
              && m.durationDays == p.end - p.start + 1 > 0
              && (exists k :: 0 <= k < |t.medicines| && t.medicines[k].id == m.medicineId
                   && t.medicines[k].name == Strip(p.name) && t.medicines[k].strength == Strip(p.strength))
              && |t.medications| == |s.medications|
              && (exists i :: 0 <= i < |s.medications| && s.medications[i].id == id
                   && t.medications[i] == m && m.userId == s.medications[i].userId
                   && forall j :: 0 <= j < |s.medications| && j != i ==> t.medications[j] == s.medications[j])
    ensures var (r, t) := Updated(s, id, p);
            r.Err? ==> t == s
    ensures (forall m :: m in s.medications ==> m.id != id) ==> Updated(s, id, p).0 == Err(MedicationMissing)
  {
    var (r, t) := Updated(s, id, p);
    if r.Ok? {
      var i := MedicationIndex(s.medications, id).value;
      var g := GetOrCreate(s.medicines, s.nextId, Strip(p.name), Strip(p.strength)).value;
      GetOrCreateMeaning(s.medicines, s.nextId, Strip(p.name), Strip(p.strength));
      var k :| 0 <= k < |g.rows| && g.rows[k] == g.medicine;
      assert t.medicines == g.rows;
    }
    if forall m :: m in s.medications ==> m.id != id {
      forall j | 0 <= j < |s.medications|
        ensures s.medications[j].id != id
      {
        assert s.medications[j] in s.medications;
      }
    }
  }

  /** The route only ever changes a medication of the caller: a success
      updates a medication with the requested id owned by `userId`, a
      failure changes nothing, and a request whose id names no medication of
      the caller always fails. */
  lemma OwnerUpdatedMeaning(s: State, userId: int, id: int, p: MedicationIn)
    ensures var (r, t) := OwnerUpdated(s, userId, id, p);
            r.Ok? ==>
              r == Updated(s, id, p).0 && t == Updated(s, id, p).1 && r.value.userId == userId
              && exists i :: 0 <= i < |s.medications| && s.medications[i].id == id
                   && s.medications[i].userId == userId && t.medications[i] == r.value
    ensures var (r, t) := OwnerUpdated(s, userId, id, p);
            r.Err? ==> t == s
    ensures (forall i :: 0 <= i < |s.medications| && s.medications[i].id == id ==> s.medications[i].userId != userId)
            ==> OwnerUpdated(s, userId, id, p).0.Err?
  {
    UpdatedMeaning(s, id, p);
  }

  /** After a successful update every requested (normalised) time has an
      active schedule of the medication; schedules of other medications or at
      other times are as they were, none is deactivated, new rows take fresh
      ids, and the user and log tables are untouched. */
  lemma UpdatedSchedules(s: State, id: int, p: MedicationIn)
    ensures var (r, t) := Updated(s, id, p);
            r.Ok? ==>
              Grown(s.medSchedules, t.medSchedules, id, PayloadTimes(p.schedules), s.nextId, t.nextId)
              && (forall u :: u in PayloadTimes(p.schedules) ==>
                    exists k :: 0 <= k < |t.medSchedules| && t.medSchedules[k].medicationId == id
                                && t.medSchedules[k].time == u && t.medSchedules[k].isActive)
              && t.users == s.users && t.medLogs == s.medLogs
              && t.bpSchedules == s.bpSchedules && t.bpLogs == s.bpLogs
              && t.sugarSchedules == s.sugarSchedules && t.sugarLogs == s.sugarLogs
  {
    var (r, t) := Updated(s, id, p);
    if r.Ok? {
      var i := MedicationIndex(s.medications, id).value;
      var g := GetOrCreate(s.medicines, s.nextId, Strip(p.name), Strip(p.strength)).value;
      GetOrCreateMeaning(s.medicines, s.nextId, Strip(p.name), Strip(p.strength));
      ReconcileFrame(s.medSchedules, g.nextId, id, p.schedules);
      ReconcileCovers(s.medSchedules, g.nextId, id, p.schedules);
    }
  }

  /** An update keeps every table constraint and id invariant. */
  lemma UpdatedKeepsValid(s: State, id: int, p: MedicationIn)
    requires ValidState(s)
    ensures ValidState(Updated(s, id, p).1)
  {
    var (r, t) := Updated(s, id, p);
    if r.Ok? {
      var i := MedicationIndex(s.medications, id).value;
      var g := GetOrCreate(s.medicines, s.nextId, Strip(p.name), Strip(p.strength)).value;
      GetOrCreateKeepsTable(s.medicines, s.nextId, Strip(p.name), Strip(p.strength));
      ReconcileUnique(s.medSchedules, g.nextId, id, p.schedules);
      assert forall x :: x in s.medSchedules ==> x.id < g.nextId && x.medicationId < g.nextId;
      assert s.medications[i] in s.medications;
      ReconcileIds(s.medSchedules, g.nextId, id, p.schedules);
      assert UniqueMedications(t.medications) by {
        forall a, b | 0 <= a < b < |t.medications|
          ensures (t.medications[a].medicineId, t.medications[a].userId) != (t.medications[b].medicineId, t.medications[b].userId)
        {
          if a == i {
            assert t.medications[b] == s.medications[b];
          } else if b == i {
            assert t.medications[a] == s.medications[a];
          }
        }
      }
      forall x | x in t.medications
        ensures x.id < t.nextId
      {
        var k :| 0 <= k < |t.medications| && t.medications[k] == x;
        assert s.medications[k] in s.medications;
      }
    }
  }

  // --------------------------------------------------------------- methods

  /** `create_new_medication`: the crud call, committed when it succeeds. */
  method CreateNewMedication(db: Database, userId: int, p: MedicationIn) returns (r: Result<Medication>)
    requires db.Valid()
    modifies db
    ensures db.Valid()
    ensures (r, db.St()) == Created(old(db.St()), userId, p)
  {
    ghost var s := db.St();
    r := CreateMedicationWithSchedules(db, userId, p);
    CreatedKeepsValid(s, userId, p);
  }

  /** The crud work of a create: the medicine, the duration check, the
      medication row and its schedules; nothing is written when a step fails,
      as the session is then rolled back. */
  method CreateMedicationWithSchedules(db: Database, userId: int, p: MedicationIn) returns (r: Result<Medication>)
    modifies db
    ensures (r, db.St()) == Created(old(db.St()), userId, p)
  {
    var got := GetOrCreate(db.medicines, db.nextId, p.name, p.strength);
    if got.Err? {
      return Err(got.failure);
    }
    var g := got.value;
    var d := Duration(p.start, p.end);
    if d <= 0 {
      return Err(DurationError);
    }
    if Taken(db.medications, -1, g.medicine.id, userId) {
      return Err(DuplicateMedication);
    }
    var med := Medication(g.nextId, userId, g.medicine.id, p.purpose, d, p.start, Some(p.end), true);
    var added := AddSchedules(med.id, g.nextId + 1, p.schedules);
    if added.None? {
      return Err(Raised("IntegrityError"));
    }
    db.medicines, db.medications := g.rows, db.medications + [med];
    db.medSchedules, db.nextId := db.medSchedules + added.value, g.nextId + 1 + |p.schedules|;
    r := Ok(med);
  }

  /** The schedule loop of the create: one row per payload entry, in order;
      None when two entries share a time and the commit would fail. */
  method AddSchedules(medId: int, next: int, ins: seq<ScheduleIn>) returns (rows: Option<seq<MedSchedule>>)
    ensures DistinctTimes(ins) ==> rows == Some(NewSchedules(medId, next, ins))
    ensures !DistinctTimes(ins) ==> rows.None?
  {
    var acc: seq<MedSchedule> := [];
    var i := 0;
    while i < |ins|
      invariant 0 <= i <= |ins|
      invariant acc == NewSchedules(medId, next, ins[..i])
      invariant DistinctTimes(ins[..i])
    {
      var k := 0;
      while k < i
        invariant 0 <= k <= i
        invariant forall m :: 0 <= m < k ==> ins[m].time != ins[i].time
      {
        if ins[k].time == ins[i].time {
          return None;
        }
        k := k + 1;
      }
      assert ins[..i + 1] == ins[..i] + [ins[i]];
      acc := acc + [MedSchedule(next + i, medId, ins[i].time, ins[i].instruction, true)];
      i := i + 1;
    }
    assert ins[..|ins|] == ins;
    rows := Some(acc);
  }

  /** `update_user_medication`: the crud call, committed when it succeeds
      and the medication belongs to the caller.  The ownership test comes
      after the crud work, so a request for another user's medication first
      meets the crud refusals and otherwise answers 404 with nothing
      committed. */
  method UpdateUserMedication(db: Database, userId: int, id: int, p: MedicationIn) returns (r: Result<Medication>)
    requires db.Valid()
    modifies db
    ensures db.Valid()
    ensures (r, db.St()) == OwnerUpdated(old(db.St()), userId, id, p)
  {
    ghost var s := db.St();
    var medicines, medications, schedules, next := db.medicines, db.medications, db.medSchedules, db.nextId;
    r := UpdateMedication(db, id, p);
    UpdatedKeepsValid(s, id, p);
    if r.Ok? && r.value.userId != userId {
      UpdatedSchedules(s, id, p);
      db.medicines, db.medications, db.medSchedules, db.nextId := medicines, medications, schedules, next;
      r := Err(MedicationMissing);
    }
  }

  /** The crud work of an update: the lookup, the duration check, the
      medicine, the in-place field assignments, the flush check and the
      reconciliation loop. */
  method UpdateMedication(db: Database, id: int, p: MedicationIn) returns (r: Result<Medication>)
    modifies db
    ensures (r, db.St()) == Updated(old(db.St()), id, p)
  {
    var found := MedicationIndex(db.medications, id);
    if found.None? {
      return Err(MedicationMissing);
    }
    var i := found.value;
    if Duration(p.start, p.end) <= 0 {
      return Err(DurationError);
    }
    var name, strength := Strip(p.name), Strip(p.strength);
    var got := GetOrCreate(db.medicines, db.nextId, name, strength);
    if got.Err? {
      return Err(got.failure);
    }
    var g := got.value;
    var med := Revised(db.medications[i], g.medicine.id, p);
    if Taken(db.medications, i, med.medicineId, med.userId) {
      return Err(DuplicateMedication);
    }
    ghost var s := db.St();
    var meds := db.medications[i := med];
    db.medicines, db.medications, db.nextId := g.rows, meds, g.nextId;
    assert db.medSchedules == s.medSchedules && db.nextId == g.nextId && med.id == s.medications[i].id;
    ReconcileSchedules(db, med.id, p.schedules);
    r := Ok(med);
    UpdateAtSucceeds(s, i, p, name, strength, g, db.medSchedules, db.nextId);
  }

  /** `for sched in payload.schedules`: the reconciliation, entry by entry. */
  method ReconcileSchedules(db: Database, medId: int, ins: seq<ScheduleIn>)
    modifies db
    ensures Rows(db.medSchedules, db.nextId) == Reconcile(old(db.medSchedules), old(db.nextId), medId, ins)
    ensures db.St() == old(db.St()).(medSchedules := db.medSchedules, nextId := db.nextId)
  {
    var k := 0;
    while k < |ins|
      invariant 0 <= k <= |ins|
      invariant Rows(db.medSchedules, db.nextId) == Reconcile(old(db.medSchedules), old(db.nextId), medId, ins[..k])
      invariant db.St() == old(db.St()).(medSchedules := db.medSchedules, nextId := db.nextId)
    {
      var t := NormalizeTime(ins[k].time);
      var instr := CleanInstruction(ins[k].instruction);
      var existing := ScheduleAt(db.medSchedules, medId, t);
      if existing.None? {
        db.medSchedules := db.medSchedules + [MedSchedule(db.nextId, medId, t, instr, true)];
        db.nextId := db.nextId + 1;
      } else if !db.medSchedules[existing.value].isActive {
        var e := existing.value;
        db.medSchedules := db.medSchedules[e := db.medSchedules[e].(isActive := true, dosageInstruction := instr)];
      } else if instr.Some? {
        var e := existing.value;
        db.medSchedules := db.medSchedules[e := db.medSchedules[e].(dosageInstruction := instr)];
      }
      assert ins[..k + 1][..k] == ins[..k];
      k := k + 1;
    }
    assert ins[..|ins|] == ins;
  }
}
