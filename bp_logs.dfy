/** Blood-pressure readings: the lookup of the schedule in effect on a day,
    and creating, updating and deleting a reading, with the table's CHECK
    constraints deciding which readings the database stores. */
module BpLogs {
  import opened Wrappers
  import opened Calendar
  import opened Entities
  import opened Store

  // ---------------------------------------------------------------- active schedule

  /** The filter of `get_active_schedule`: the user's, active, and covering `d`. */
  predicate ActiveFor(x: CheckSchedule, userId: int, d: Day) {
    x.userId == userId && x.isActive && ActiveOn(x.startDate, x.endDate, d)
  }

  /** `get_active_schedule`: the first row in table order passing the filter. */
  function ActiveSchedule(rows: seq<CheckSchedule>, userId: int, d: Day): (r: Option<CheckSchedule>)
    ensures r.Some? ==>
              exists i :: (0 <= i < |rows| && rows[i] == r.value && ActiveFor(rows[i], userId, d)
                           && forall j :: 0 <= j < i ==> !ActiveFor(rows[j], userId, d))
    ensures r.None? <==> forall j :: 0 <= j < |rows| ==> !ActiveFor(rows[j], userId, d)
  {
    match FirstWhere(rows, (x: CheckSchedule) => ActiveFor(x, userId, d))
    case None => None
    case Some(i) => Some(rows[i])
  }

  /** A schedule whose row is found on two days is in effect on every day
      between them, so the lookup finds some schedule on each of those days. */
  lemma ActiveScheduleBetween(rows: seq<CheckSchedule>, userId: int, a: Day, b: Day, d: Day)
    requires ActiveSchedule(rows, userId, a).Some? && ActiveSchedule(rows, userId, a) == ActiveSchedule(rows, userId, b)
    requires a <= d <= b
    ensures ActiveSchedule(rows, userId, d).Some?
    ensures ActiveFor(ActiveSchedule(rows, userId, d).value, userId, d)
  {
    var x := ActiveSchedule(rows, userId, a).value;
    ActiveOnInterval(x.startDate, x.endDate, a, b, d);
    var i :| 0 <= i < |rows| && rows[i] == x && ActiveFor(rows[i], userId, a);
    assert ActiveFor(rows[i], userId, d);
  }

  // ---------------------------------------------------------------- table constraints

  /** The CHECK constraints of `bp_logs`, listed in the order of their names:
      `check_diastolic_range`, `check_pulse_range`,
      `check_systolic_greater_than_diastolic`, `check_systolic_range`. */
  datatype Constraint = DiastolicRange | PulseRange | SystolicAboveDiastolic | SystolicRange

  /** The position of a constraint's name in name order. */
  function Rank(c: Constraint): nat {
    match c
    case DiastolicRange => 0
    case PulseRange => 1
    case SystolicAboveDiastolic => 2
    case SystolicRange => 3
  }

  predicate Satisfies(l: BpLog, c: Constraint) {
    match c
    case DiastolicRange => 0 < l.diastolic < 200
    case PulseRange => l.pulse.None? || 0 < l.pulse.value < 250
    case SystolicAboveDiastolic => l.systolic > l.diastolic
    case SystolicRange => 0 < l.systolic < 300
  }

  /** A reading the table accepts. */
  predicate Storable(l: BpLog) {
    Satisfies(l, SystolicRange) && Satisfies(l, DiastolicRange)
    && Satisfies(l, PulseRange) && Satisfies(l, SystolicAboveDiastolic)
  }

  /** The constraint the database names when it refuses a row: PostgreSQL
      tries a table's CHECK constraints in the order of their names and
      reports the first one that fails. */
  function Reported(l: BpLog): (r: Option<Constraint>)
    ensures r.None? <==> Storable(l)
    ensures r.Some? ==> !Satisfies(l, r.value)
    ensures r.Some? ==> forall c :: Rank(c) < Rank(r.value) ==> Satisfies(l, c)
  {
    if !Satisfies(l, DiastolicRange) then Some(DiastolicRange)
    else if !Satisfies(l, PulseRange) then Some(PulseRange)
    else if !Satisfies(l, SystolicAboveDiastolic) then Some(SystolicAboveDiastolic)
    else if !Satisfies(l, SystolicRange) then Some(SystolicRange)
    else None
  }

  /** The detail of the 400 response `create_bp_log` gives for each constraint. */
  function Detail(c: Constraint): string {
    match c
    case SystolicRange => "Systolic must be between 1 and 299 and greater than diastolic."
    case DiastolicRange => "Diastolic must be between 1 and 199 and less than systolic."
    case PulseRange => "Pulse must be NULL or between 1 and 249."
    case SystolicAboveDiastolic => "Systolic must be greater than diastolic."
  }

  const GenericDetail := "Invalid blood pressure log data. Please check your input."

  /** The `if`/`elif` chain over the text of the integrity error, which is
      modelled by the set of constraint names the text contains.  The
      names are checked in the order systolic range, diastolic range, pulse
      range, systolic above diastolic; a text naming none of them gets the
      generic detail. */
  function Mapped(mentioned: set<Constraint>): (r: Failure)
    ensures r.Http? && r.status == 400
    ensures mentioned == {} ==> r == Http(400, GenericDetail)
  {
    if SystolicRange in mentioned then Http(400, Detail(SystolicRange))
    else if DiastolicRange in mentioned then Http(400, Detail(DiastolicRange))
    else if PulseRange in mentioned then Http(400, Detail(PulseRange))
    else if SystolicAboveDiastolic in mentioned then Http(400, Detail(SystolicAboveDiastolic))
    else Http(400, GenericDetail)
  }

  /** A text naming one constraint gets that constraint's detail. */
  lemma MappedOne(c: Constraint)
    ensures Mapped({c}) == Http(400, Detail(c))
  {
    match c
    case SystolicRange =>
    case DiastolicRange => assert SystolicRange !in {c};
    case PulseRange => assert SystolicRange !in {c} && DiastolicRange !in {c};
    case SystolicAboveDiastolic => assert SystolicRange !in {c} && DiastolicRange !in {c} && PulseRange !in {c};
  }

  // ---------------------------------------------------------------- create

  /** The create payload; `checked_at` is optional. */
  datatype LogIn = LogIn(
    systolic: int, diastolic: int, pulse: Option<int>, notes: Option<string>, checkedAt: Option<DateTime>)

  const ScheduleMissing: Failure := Http(404, "Schedule not found for this user.")

  /** Schedule `scheduleId` exists and belongs to user `userId`. */
  predicate Owns(rows: seq<CheckSchedule>, scheduleId: int, userId: int) {
    exists j :: 0 <= j < |rows| && rows[j].id == scheduleId && rows[j].userId == userId
  }

  /** The row `create_bp_log` inserts: the next id, and `now` when no time is given. */
  function NewLog(s: State, scheduleId: int, p: LogIn, now: DateTime): BpLog {
    BpLog(s.nextId, scheduleId, p.systolic, p.diastolic, p.pulse, p.notes, OrElse(p.checkedAt, now))
  }

  /** `create_bp_log` on the store: 404 unless the schedule is the user's;
      a refused row is rolled back and its error text, which names the
      reported constraint, is mapped to a 400. */
  function Created(s: State, userId: int, scheduleId: int, p: LogIn, now: DateTime): (Result<BpLog>, State) {
    if !Owns(s.bpSchedules, scheduleId, userId) then (Err(ScheduleMissing), s)
    else
      var l := NewLog(s, scheduleId, p, now);
      match Reported(l)
      case Some(c) => (Err(Mapped({c})), s)
      case None => (Ok(l), s.(bpLogs := s.bpLogs + [l], nextId := s.nextId + 1))
  }

  /** Creating succeeds exactly when the schedule is the user's and the
      reading meets every constraint; a refused reading gets the detail of
      the constraint that comes first by name, and nothing is written. */
  lemma CreatedMeaning(s: State, userId: int, scheduleId: int, p: LogIn, now: DateTime)
    ensures var res := Created(s, userId, scheduleId, p, now);
            && (res.0 == Err(ScheduleMissing) <==> !Owns(s.bpSchedules, scheduleId, userId))
            && (res.0.Ok? <==> Owns(s.bpSchedules, scheduleId, userId) && Storable(NewLog(s, scheduleId, p, now)))
            && (res.0.Err? ==> res.1 == s)
    ensures var l := NewLog(s, scheduleId, p, now);
            Owns(s.bpSchedules, scheduleId, userId) && !Storable(l) ==>
              Created(s, userId, scheduleId, p, now).0 == Err(Http(400, Detail(Reported(l).value)))
    ensures var res := Created(s, userId, scheduleId, p, now);
            res.0.Ok? ==>
              && res.0.value.id == s.nextId && res.0.value.scheduleId == scheduleId
              && res.0.value.systolic == p.systolic && res.0.value.diastolic == p.diastolic
              && res.0.value.pulse == p.pulse && res.0.value.notes == p.notes
              && res.0.value.checkedAt == OrElse(p.checkedAt, now)
              && res.1 == s.(bpLogs := s.bpLogs + [res.0.value], nextId := s.nextId + 1)
  {
    var l := NewLog(s, scheduleId, p, now);
    if Reported(l).Some? {
      MappedOne(Reported(l).value);
    }
  }

  /** Both readings out of range: the code tests the systolic name first,
      but the database names the diastolic constraint, so the reply is the
      diastolic detail.  The request schema refuses 0/0 (422) before the
      create function runs, so only a caller that skips it reaches this. */
  lemma BothRangesReportDiastolic(s: State, userId: int, scheduleId: int, now: DateTime)
    requires Owns(s.bpSchedules, scheduleId, userId)
    ensures Created(s, userId, scheduleId, LogIn(0, 0, None, None, None), now).0
            == Err(Http(400, "Diastolic must be between 1 and 199 and less than systolic."))
  {
    MappedOne(DiastolicRange);
  }

  /** A reading the request schema admits, 120/130 with no pulse, is refused
      by the one constraint the schema does not check. */
  lemma DiastolicAboveSystolicRefused(s: State, userId: int, scheduleId: int, now: DateTime)
    requires Owns(s.bpSchedules, scheduleId, userId)
    ensures Created(s, userId, scheduleId, LogIn(120, 130, None, None, None), now)
            == (Err(Http(400, "Systolic must be greater than diastolic.")), s)
  {
    MappedOne(SystolicAboveDiastolic);
  }

  // ---------------------------------------------------------------- stored readings

  function LogIndex(rows: seq<BpLog>, id: int): (r: Option<nat>)
    ensures r.Some? ==> r.value < |rows| && rows[r.value].id == id && forall j :: 0 <= j < r.value ==> rows[j].id != id
    ensures r.None? <==> forall j :: 0 <= j < |rows| ==> rows[j].id != id
  {
    if rows == [] then None
    else if rows[0].id == id then Some(0)
    else match LogIndex(rows[1..], id)
      case None => None
      case Some(j) => Some(j + 1)
  }

  /** What the table holds: readings meeting every constraint, under
      distinct primary keys. */
  predicate StoredLogs(rows: seq<BpLog>) {
    (forall j :: 0 <= j < |rows| ==> Storable(rows[j]))
    && (forall i, j :: 0 <= i < j < |rows| ==> rows[i].id != rows[j].id)
  }

  lemma ReplaceLogKeepsValid(s: State, i: nat, y: BpLog)
    requires ValidState(s)
    requires i < |s.bpLogs| && y.id == s.bpLogs[i].id
    ensures ValidState(s.(bpLogs := s.bpLogs[i := y]))
    ensures StoredLogs(s.bpLogs) && Storable(y) ==> StoredLogs(s.bpLogs[i := y])
  {
    var rows := s.bpLogs[i := y];
    forall x | x in rows
      ensures x.id < s.nextId
    {
      var j :| 0 <= j < |rows| && rows[j] == x;
      assert s.bpLogs[j] in s.bpLogs;
    }
  }

  lemma RemoveLogKeepsValid(s: State, i: nat)
    requires ValidState(s)
    requires i < |s.bpLogs|
    ensures ValidState(s.(bpLogs := s.bpLogs[..i] + s.bpLogs[i + 1..]))
    ensures StoredLogs(s.bpLogs) ==> StoredLogs(s.bpLogs[..i] + s.bpLogs[i + 1..])
  {
    var rows := s.bpLogs[..i] + s.bpLogs[i + 1..];
    forall j | 0 <= j < |rows|
      ensures rows[j] == s.bpLogs[if j < i then j else j + 1]
    {
    }
    forall x | x in rows
      ensures x.id < s.nextId
    {
      var j :| 0 <= j < |rows| && rows[j] == x;
      assert s.bpLogs[if j < i then j else j + 1] in s.bpLogs;
    }
  }

  /** Creating keeps the store valid and every stored reading within the constraints. */
  lemma CreatedKeepsStored(s: State, userId: int, scheduleId: int, p: LogIn, now: DateTime)
    requires ValidState(s) && StoredLogs(s.bpLogs)
    ensures ValidState(Created(s, userId, scheduleId, p, now).1)
    ensures StoredLogs(Created(s, userId, scheduleId, p, now).1.bpLogs)
  {
    var l := NewLog(s, scheduleId, p, now);
    var rows := s.bpLogs + [l];
    forall i | 0 <= i < |s.bpLogs|
      ensures rows[i].id != l.id
    {
      assert s.bpLogs[i] in s.bpLogs;
    }
  }

  // ---------------------------------------------------------------- update

  /** The ORM object between the `setattr` calls and the commit: in memory,
      `checked_at` may be set to None. */
  datatype Pending = Pending(
    id: int, scheduleId: int, systolic: int, diastolic: int, pulse: Option<int>,
    notes: Option<string>, checkedAt: Option<DateTime>)

  function Unsaved(x: BpLog): Pending {
    Pending(x.id, x.scheduleId, x.systolic, x.diastolic, x.pulse, x.notes, Some(x.checkedAt))
  }

  datatype Field = SystolicField | DiastolicField | PulseField | NotesField | CheckedAtField

  /** One `setattr(log, field, value)`. */
  datatype Assignment =
    | SetSystolic(systolic: int)
    | SetDiastolic(diastolic: int)
    | SetPulse(pulse: Option<int>)
    | SetNotes(notes: Option<string>)
    | SetCheckedAt(checkedAt: Option<DateTime>)

  function FieldOf(a: Assignment): Field {
    match a
    case SetSystolic(_) => SystolicField
    case SetDiastolic(_) => DiastolicField
    case SetPulse(_) => PulseField
    case SetNotes(_) => NotesField
    case SetCheckedAt(_) => CheckedAtField
  }

  /** The current value of field `f`, as the assignment that would set it. */
  function Get(p: Pending, f: Field): (r: Assignment)
    ensures FieldOf(r) == f
  {
    match f
    case SystolicField => SetSystolic(p.systolic)
    case DiastolicField => SetDiastolic(p.diastolic)
    case PulseField => SetPulse(p.pulse)
    case NotesField => SetNotes(p.notes)
    case CheckedAtField => SetCheckedAt(p.checkedAt)
  }

  /** `setattr`: the named field takes the value and no other field changes. */
  function Assign(p: Pending, a: Assignment): (r: Pending)
    ensures Get(r, FieldOf(a)) == a
    ensures forall f :: f != FieldOf(a) ==> Get(r, f) == Get(p, f)
    ensures r.id == p.id && r.scheduleId == p.scheduleId
  {
    match a
    case SetSystolic(v) => p.(systolic := v)
    case SetDiastolic(v) => p.(diastolic := v)
    case SetPulse(v) => p.(pulse := v)
    case SetNotes(v) => p.(notes := v)
    case SetCheckedAt(v) => p.(checkedAt := v)
  }

  /** The `setattr` loop over `items`, in order. */
  function AssignAll(p: Pending, items: seq<Assignment>): Pending
    decreases |items|
  {
    if items == [] then p else Assign(AssignAll(p, items[..|items| - 1]), items[|items| - 1])
  }

  /** The items of a dict: no field appears twice. */
  predicate Keyed(items: seq<Assignment>) {
    forall i, j :: 0 <= i < j < |items| ==> FieldOf(items[i]) != FieldOf(items[j])
  }

  /** After the loop over a dict's items, each field named in it holds its
      value and every other field is as before. */
  lemma {:induction false} AssignAllMeaning(p: Pending, items: seq<Assignment>)
    requires Keyed(items)
    ensures forall i :: 0 <= i < |items| ==> Get(AssignAll(p, items), FieldOf(items[i])) == items[i]
    ensures forall f :: (forall i :: 0 <= i < |items| ==> FieldOf(items[i]) != f) ==> Get(AssignAll(p, items), f) == Get(p, f)
    ensures AssignAll(p, items).id == p.id && AssignAll(p, items).scheduleId == p.scheduleId
    decreases |items|
  {
    if items != [] {
      var n := |items| - 1;
      var front := items[..n];
      assert Keyed(front);
      AssignAllMeaning(p, front);
      var q := AssignAll(p, front);
      assert AssignAll(p, items) == Assign(q, items[n]);
      forall i | 0 <= i < |items|
        ensures Get(AssignAll(p, items), FieldOf(items[i])) == items[i]
      {
        if i < n {
          assert front[i] == items[i];
          assert FieldOf(items[i]) != FieldOf(items[n]);
        }
      }
      forall f | forall i :: 0 <= i < |items| ==> FieldOf(items[i]) != f
        ensures Get(AssignAll(p, items), f) == Get(p, f)
      {
        assert FieldOf(items[n]) != f;
        forall i | 0 <= i < |front|
          ensures FieldOf(front[i]) != f
        {
          assert front[i] == items[i];
        }
      }
    }
  }

  /** The update payload.  `systolic` and `diastolic` are required by the
      schema and so always set; each other field is unset (outer None) or
      set, possibly to None. */
  datatype LogUpdate = LogUpdate(
    systolic: int, diastolic: int, pulse: Option<Option<int>>, notes: Option<Option<string>>,
    checkedAt: Option<Option<DateTime>>)

  /** `data.dict(exclude_unset=True).items()`, in the order the schema
      declares its fields. */
  function SetFields(u: LogUpdate): (r: seq<Assignment>)
    ensures Keyed(r)
    ensures forall a :: a in r <==>
                          (|| a == SetSystolic(u.systolic)
                           || a == SetDiastolic(u.diastolic)
                           || (u.pulse.Some? && a == SetPulse(u.pulse.value))
                           || (u.notes.Some? && a == SetNotes(u.notes.value))
                           || (u.checkedAt.Some? && a == SetCheckedAt(u.checkedAt.value)))
  {
    [SetSystolic(u.systolic), SetDiastolic(u.diastolic)]
    + (if u.pulse.Some? then [SetPulse(u.pulse.value)] else [])
    + (if u.notes.Some? then [SetNotes(u.notes.value)] else [])
    + (if u.checkedAt.Some? then [SetCheckedAt(u.checkedAt.value)] else [])
  }

  /** The object after the `setattr` loop of `update_bp_log`. */
  function Revised(x: BpLog, u: LogUpdate): Pending {
    AssignAll(Unsaved(x), SetFields(u))
  }

  /** The update overwrites exactly the fields that were set. */
  lemma RevisedMeaning(x: BpLog, u: LogUpdate)
    ensures var r := Revised(x, u);
            && r.id == x.id && r.scheduleId == x.scheduleId
            && r.systolic == u.systolic && r.diastolic == u.diastolic
            && r.pulse == OrElse(u.pulse, x.pulse)
            && r.notes == OrElse(u.notes, x.notes)
            && r.checkedAt == OrElse(u.checkedAt, Some(x.checkedAt))
  {
    var items := SetFields(u);
    var p := Unsaved(x);
    AssignAllMeaning(p, items);
    var r := AssignAll(p, items);
    assert Get(r, SystolicField) == SetSystolic(u.systolic) by {
      assert items[0] == SetSystolic(u.systolic);
    }
    assert Get(r, DiastolicField) == SetDiastolic(u.diastolic) by {
      assert items[1] == SetDiastolic(u.diastolic);
    }
    FieldSetOrKept(p, items, PulseField, if u.pulse.Some? then Some(SetPulse(u.pulse.value)) else None);
    FieldSetOrKept(p, items, NotesField, if u.notes.Some? then Some(SetNotes(u.notes.value)) else None);
    FieldSetOrKept(p, items, CheckedAtField, if u.checkedAt.Some? then Some(SetCheckedAt(u.checkedAt.value)) else None);
  }

  /** Field `f` ends up with its item's value when one is present, and as it
      was otherwise. */
  lemma FieldSetOrKept(p: Pending, items: seq<Assignment>, f: Field, item: Option<Assignment>)
    requires Keyed(items)
    requires item.Some? ==> item.value in items && FieldOf(item.value) == f
    requires item.None? ==> forall a :: a in items ==> FieldOf(a) != f
    ensures Get(AssignAll(p, items), f) == (if item.Some? then item.value else Get(p, f))
  {
    AssignAllMeaning(p, items);
    if item.Some? {
      var i :| 0 <= i < |items| && items[i] == item.value;
    } else {
      assert forall i :: 0 <= i < |items| ==> FieldOf(items[i]) != f by {
        forall i | 0 <= i < |items|
          ensures FieldOf(items[i]) != f
        {
          assert items[i] in items;
        }
      }
    }
  }

  /** The row the commit writes, or None when the database refuses it: a
      null `checked_at` violates NOT NULL, and any CHECK constraint may fail. */
  function Committed(p: Pending): (r: Option<BpLog>)
    ensures r.Some? ==> Storable(r.value) && Unsaved(r.value) == p
    ensures r.None? <==>
              (|| p.checkedAt.None?
               || !Storable(BpLog(p.id, p.scheduleId, p.systolic, p.diastolic, p.pulse, p.notes, p.checkedAt.value)))
  {
    if p.checkedAt.None? then None
    else
      var l := BpLog(p.id, p.scheduleId, p.systolic, p.diastolic, p.pulse, p.notes, p.checkedAt.value);
      if Storable(l) then Some(l) else None
  }

  /** `update_bp_log` on the store: an unknown id gives None, a refused
      commit raises the uncaught integrity error and changes nothing. */
  function Updated(s: State, id: int, u: LogUpdate): (Result<Option<BpLog>>, State) {
    match LogIndex(s.bpLogs, id)
    case None => (Ok(None), s)
    case Some(i) =>
      match Committed(Revised(s.bpLogs[i], u))
      case None => (Err(Raised("IntegrityError")), s)
      case Some(y) => (Ok(Some(y)), s.(bpLogs := s.bpLogs[i := y]))
  }

  /** The reading as the update means it: the set fields new, the rest kept. */
  function Patch(x: BpLog, u: LogUpdate, at: DateTime): BpLog {
    BpLog(x.id, x.scheduleId, u.systolic, u.diastolic, OrElse(u.pulse, x.pulse), OrElse(u.notes, x.notes), at)
  }

  /** Updating an unknown id changes nothing and gives None; otherwise the
      first reading with that id is replaced by its patch when the patch is
      storable and `checked_at` is not set to None, and the call raises an
      integrity error leaving the store alone when not. */
  lemma UpdatedMeaning(s: State, id: int, u: LogUpdate)
    ensures var res := Updated(s, id, u);
            && (res.0 == Ok(None) <==> forall j :: 0 <= j < |s.bpLogs| ==> s.bpLogs[j].id != id)
            && (res.0 == Ok(None) || res.0.Err? ==> res.1 == s)
            && (res.0.Err? ==> res.0 == Err(Raised("IntegrityError")))
    ensures forall i :: LogIndex(s.bpLogs, id) == Some(i) ==>
              var x := s.bpLogs[i];
              var at := OrElse(OrElse(u.checkedAt, Some(x.checkedAt)), x.checkedAt);
              var res := Updated(s, id, u);
              && (res.0.Ok? <==> u.checkedAt != Some(None) && Storable(Patch(x, u, at)))
              && (res.0.Ok? ==> res.0 == Ok(Some(Patch(x, u, at))) && res.1 == s.(bpLogs := s.bpLogs[i := Patch(x, u, at)]))
  {
    match LogIndex(s.bpLogs, id)
    case None =>
    case Some(i) =>
      RevisedMeaning(s.bpLogs[i], u);
  }

  /** Updating keeps the store valid and every stored reading within the constraints. */
  lemma UpdatedKeepsStored(s: State, id: int, u: LogUpdate)
    requires ValidState(s) && StoredLogs(s.bpLogs)
    ensures ValidState(Updated(s, id, u).1)
    ensures StoredLogs(Updated(s, id, u).1.bpLogs)
  {
    match LogIndex(s.bpLogs, id)
    case None =>
    case Some(i) =>
      match Committed(Revised(s.bpLogs[i], u))
      case None =>
      case Some(y) =>
        RevisedMeaning(s.bpLogs[i], u);
        ReplaceLogKeepsValid(s, i, y);
  }

  // ---------------------------------------------------------------- delete

  /** `delete_bp_log` on the store: False for an unknown id, otherwise the
      first reading with that id is removed. */
  function Deleted(s: State, id: int): (bool, State) {
    match LogIndex(s.bpLogs, id)
    case None => (false, s)
    case Some(i) => (true, s.(bpLogs := s.bpLogs[..i] + s.bpLogs[i + 1..]))
  }

  /** Deleting answers whether a reading with that id existed; it removes
      exactly one reading and touches no other table; with distinct ids
      none is left, so deleting again answers False. */
  lemma DeletedMeaning(s: State, id: int)
    ensures var res := Deleted(s, id);
            && (res.0 <==> exists j :: 0 <= j < |s.bpLogs| && s.bpLogs[j].id == id)
            && (!res.0 ==> res.1 == s)
            && res.1 == s.(bpLogs := res.1.bpLogs)
    ensures var res := Deleted(s, id);
            res.0 ==>
              && |res.1.bpLogs| == |s.bpLogs| - 1
              && exists x :: x in s.bpLogs && x.id == id && multiset(res.1.bpLogs) + multiset{x} == multiset(s.bpLogs)
    ensures StoredLogs(s.bpLogs) ==>
              && (forall j :: 0 <= j < |Deleted(s, id).1.bpLogs| ==> Deleted(s, id).1.bpLogs[j].id != id)
              && !Deleted(Deleted(s, id).1, id).0
  {
    match LogIndex(s.bpLogs, id)
    case None =>
    case Some(i) =>
      var rows := s.bpLogs[..i] + s.bpLogs[i + 1..];
      assert s.bpLogs == s.bpLogs[..i] + [s.bpLogs[i]] + s.bpLogs[i + 1..];
      assert multiset(rows) + multiset{s.bpLogs[i]} == multiset(s.bpLogs);
      assert s.bpLogs[i] in s.bpLogs;
      if StoredLogs(s.bpLogs) {
        forall j | 0 <= j < |rows|
          ensures rows[j].id != id
        {
          if j < i {
            assert rows[j] == s.bpLogs[j];
          } else {
            assert rows[j] == s.bpLogs[j + 1];
          }
        }
      }
  }

  /** Deleting keeps the store valid and every stored reading within the constraints. */
  lemma DeletedKeepsStored(s: State, id: int)
    requires ValidState(s) && StoredLogs(s.bpLogs)
    ensures ValidState(Deleted(s, id).1)
    ensures StoredLogs(Deleted(s, id).1.bpLogs)
  {
    match LogIndex(s.bpLogs, id)
    case None =>
    case Some(i) =>
      RemoveLogKeepsValid(s, i);
  }

  // ---------------------------------------------------------------- routes

  /** `create_bp_log`. */
  method CreateBpLog(db: Database, userId: int, scheduleId: int, p: LogIn, now: DateTime) returns (r: Result<BpLog>)
    requires db.Valid()
    modifies db
    ensures db.Valid()
    ensures (r, db.St()) == Created(old(db.St()), userId, scheduleId, p, now)
  {
    var checkedAt := OrElse(p.checkedAt, now);
    var found := FirstWhere(db.bpSchedules, (x: CheckSchedule) => x.id == scheduleId && x.userId == userId);
    if found.None? {
      return Err(ScheduleMissing);
    }
    var schedule := db.bpSchedules[found.value];
    var log := BpLog(db.nextId, schedule.id, p.systolic, p.diastolic, p.pulse, p.notes, checkedAt);
    var refused := Reported(log);
    if refused.Some? {
      return Err(Mapped({refused.value}));
    }
    db.bpLogs := db.bpLogs + [log];
    db.nextId := db.nextId + 1;
    r := Ok(log);
  }

  /** `update_bp_log`: the `setattr` loop over the set fields, then the commit. */
  method UpdateBpLog(db: Database, id: int, u: LogUpdate) returns (r: Result<Option<BpLog>>)
    requires db.Valid()
    modifies db
    ensures db.Valid()
    ensures (r, db.St()) == Updated(old(db.St()), id, u)
  {
    var found := LogIndex(db.bpLogs, id);
    if found.None? {
      return Ok(None);
    }
    var i := found.value;
    var log := Unsaved(db.bpLogs[i]);
    var items := SetFields(u);
    for k := 0 to |items|
      invariant log == AssignAll(Unsaved(db.bpLogs[i]), items[..k])
    {
      assert items[..k + 1][..k] == items[..k];
      log := Assign(log, items[k]);
    }
    assert items[..|items|] == items;
    AssignAllMeaning(Unsaved(db.bpLogs[i]), items);
    var stored := Committed(log);
    if stored.None? {
      return Err(Raised("IntegrityError"));
    }
    ReplaceLogKeepsValid(db.St(), i, stored.value);
    db.bpLogs := db.bpLogs[i := stored.value];
    r := Ok(stored);
  }

  /** `delete_bp_log`. */
  method DeleteBpLog(db: Database, id: int) returns (r: bool)
    requires db.Valid()
    modifies db
    ensures db.Valid()
    ensures (r, db.St()) == Deleted(old(db.St()), id)
  {
    var found := LogIndex(db.bpLogs, id);
    if found.None? {
      return false;
    }
    RemoveLogKeepsValid(db.St(), found.value);
    db.bpLogs := db.bpLogs[..found.value] + db.bpLogs[found.value + 1..];
    r := true;
  }
}
