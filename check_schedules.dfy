/** Blood-pressure and sugar check schedules: create one row per requested
    time, and update the dates, time and active flag of one row.  The two
    tables have the same columns; their create rules agree and their update
    rules differ. */
module CheckSchedules {
  import opened Wrappers
  import opened Calendar
  import opened Entities
  import opened Store

  /** Which of the two tables with `CheckSchedule` rows. */
  datatype Kind = Bp | Sugar

  function Table(s: State, k: Kind): seq<CheckSchedule> {
    match k
    case Bp => s.bpSchedules
    case Sugar => s.sugarSchedules
  }

  function WithTable(s: State, k: Kind, rows: seq<CheckSchedule>): State {
    match k
    case Bp => s.(bpSchedules := rows)
    case Sugar => s.(sugarSchedules := rows)
  }

  /** A row whose dates agree with its duration: when it has an end, the
      start is not after it and `duration_days` counts the days between. */
  predicate WellFormed(x: CheckSchedule) {
    x.endDate.Some? ==> x.startDate <= x.endDate.value && x.durationDays == Duration(x.startDate, x.endDate.value)
  }

  predicate WellFormedTable(rows: seq<CheckSchedule>) {
    forall j :: 0 <= j < |rows| ==> WellFormed(rows[j])
  }

  // ---------------------------------------------------------------- create

  /** The create payload: the times of day, an optional start and the end.
      The blood-pressure request schema requires the end, so for that table
      a missing end never reaches the create function; the sugar request
      schema is not part of this model, so the end stays optional here. */
  datatype CreateIn = CreateIn(times: seq<Clock>, start: Option<Day>, end: Option<Day>)

  /** The two ways a create is refused: no end date, and an end before the start. */
  datatype Refusals = Refusals(missingEnd: Failure, endBeforeStart: Failure)

  /** The messages both create functions spell out. */
  const IntendedRefusals: Refusals :=
    Refusals(Http(400, "End date is required."), Http(400, "End date must be after or equal to start date."))

  /** The blood-pressure create names `status.HTTP_400_BAD_REQUEST` but its
      module never imports `status`, so building either exception raises
      NameError instead. */
  const BpRefusals: Refusals := Refusals(Raised("NameError"), Raised("NameError"))

  function RefusalsOf(k: Kind): Refusals {
    match k
    case Bp => BpRefusals
    case Sugar => IntendedRefusals
  }

  /** The dates a create stores: the start defaults to today, the end is
      required and may not precede the start. */
  function CreateDates(p: CreateIn, today: Day, no: Refusals): Result<(Day, Day)> {
    var start := OrElse(p.start, today);
    if p.end.None? then Err(no.missingEnd)
    else if Duration(start, p.end.value) <= 0 then Err(no.endBeforeStart)
    else Ok((start, p.end.value))
  }

  /** One new active row per time, in payload order, with consecutive ids. */
  function NewCheckSchedules(next: int, userId: int, times: seq<Clock>, start: Day, end: Day): seq<CheckSchedule> {
    seq(|times|, j requires 0 <= j < |times| =>
      CheckSchedule(next + j, userId, times[j], Duration(start, end), start, Some(end), true))
  }

  /** `create_bp_schedule` / `create_sugar_schedule` on the store, refused with `no`. */
  function Created(s: State, k: Kind, userId: int, p: CreateIn, today: Day, no: Refusals): (Result<seq<CheckSchedule>>, State) {
    match CreateDates(p, today, no)
    case Err(f) => (Err(f), s)
    case Ok(d) =>
      var rows := NewCheckSchedules(s.nextId, userId, p.times, d.0, d.1);
      (Ok(rows), WithTable(s, k, Table(s, k) + rows).(nextId := s.nextId + |p.times|))
  }

  /** A create succeeds exactly when there is an end not before the (defaulted)
      start; it then appends one row per time, each sharing the start, the end
      and the duration, and leaves every other table alone; a refused create
      changes nothing. */
  lemma CreatedMeaning(s: State, k: Kind, userId: int, p: CreateIn, today: Day, no: Refusals)
    ensures var res := Created(s, k, userId, p, today, no);
            res.0.Ok? <==> p.end.Some? && OrElse(p.start, today) <= p.end.value
    ensures var res := Created(s, k, userId, p, today, no);
            res.0.Err? ==> res.1 == s && res.0.failure == (if p.end.None? then no.missingEnd else no.endBeforeStart)
    ensures var res := Created(s, k, userId, p, today, no);
            res.0.Ok? ==>
              var rows := res.0.value;
              |rows| == |p.times|
              && Table(res.1, k) == Table(s, k) + rows
              && res.1.nextId == s.nextId + |p.times|
              && WithTable(res.1, k, Table(s, k)).(nextId := s.nextId) == s
              && forall j :: 0 <= j < |rows| ==>
                   rows[j].id == s.nextId + j && rows[j].userId == userId && rows[j].time == p.times[j]
                   && rows[j].startDate == OrElse(p.start, today) && rows[j].endDate == p.end
                   && rows[j].durationDays == p.end.value - OrElse(p.start, today) + 1 > 0
                   && rows[j].isActive
  {
    var res := Created(s, k, userId, p, today, no);
    if res.0.Ok? {
      match k {
        case Bp => assert WithTable(res.1, k, Table(s, k)).(nextId := s.nextId) == s;
        case Sugar => assert WithTable(res.1, k, Table(s, k)).(nextId := s.nextId) == s;
      }
    }
  }

  /** Created rows are well formed, and well-formed tables stay so. */
  lemma CreatedKeepsWellFormed(s: State, k: Kind, userId: int, p: CreateIn, today: Day, no: Refusals)
    requires WellFormedTable(Table(s, k))
    ensures WellFormedTable(Table(Created(s, k, userId, p, today, no).1, k))
  {
    var res := Created(s, k, userId, p, today, no);
    if res.0.Ok? {
      var all := Table(res.1, k);
      assert all == Table(s, k) + res.0.value;
      forall j | 0 <= j < |all|
        ensures WellFormed(all[j])
      {
        if j >= |Table(s, k)| {
          assert all[j] == res.0.value[j - |Table(s, k)|];
        }
      }
    }
  }

  lemma CreatedKeepsValid(s: State, k: Kind, userId: int, p: CreateIn, today: Day, no: Refusals)
    requires ValidState(s)
    ensures ValidState(Created(s, k, userId, p, today, no).1)
  {
    var res := Created(s, k, userId, p, today, no);
    if res.0.Ok? {
      var t := res.1;
      var rows := res.0.value;
      assert Table(t, k) == Table(s, k) + rows;
      forall x | x in Table(t, k)
        ensures x.id < t.nextId
      {
        if x !in Table(s, k) {
          var j :| 0 <= j < |rows| && rows[j] == x;
        }
      }
      match k {
        case Bp => assert t.sugarSchedules == s.sugarSchedules;
        case Sugar => assert t.bpSchedules == s.bpSchedules;
      }
    }
  }

  /** Under the corrected refusals the blood-pressure create answers 400 with
      the messages its code spells out, and succeeds exactly as before. */
  lemma IntendedCreateRefusals(s: State, userId: int, p: CreateIn, today: Day)
    ensures var fixed := Created(s, Bp, userId, p, today, IntendedRefusals);
            fixed.0.Err? ==> fixed.0.failure.Http? && fixed.0.failure.status == 400
                             && (p.end.None? ==> fixed.0.failure.detail == "End date is required.")
                             && (p.end.Some? ==> fixed.0.failure.detail == "End date must be after or equal to start date.")
    ensures var fixed := Created(s, Bp, userId, p, today, IntendedRefusals);
            var written := Created(s, Bp, userId, p, today, RefusalsOf(Bp));
            fixed.1 == written.1 && (fixed.0.Ok? <==> written.0.Ok?) && (fixed.0.Ok? ==> fixed.0 == written.0)
  {
  }

  /** As written, a blood-pressure create with an end before its start, such
      as start 2025-05-10 and end 2025-05-01, escapes as NameError (a 500
      response), not a 400.  The missing-end branch raises the same, but the
      request schema keeps it from being reached. */
  lemma BpCreateRaisesNameError(s: State, userId: int, times: seq<Clock>, today: Day)
    ensures Created(s, Bp, userId, CreateIn(times, Some(Ordinal(Date(2025, 5, 10))), Some(Ordinal(Date(2025, 5, 1)))),
                    today, RefusalsOf(Bp)) == (Err(Raised("NameError")), s)
    ensures Created(s, Bp, userId, CreateIn(times, Some(today), Some(today - 1)), today, RefusalsOf(Bp)).0 == Err(Raised("NameError"))
    ensures Created(s, Bp, userId, CreateIn(times, None, None), today, RefusalsOf(Bp)).0 == Err(Raised("NameError"))
  {
  }

  /** `create_bp_schedule` / `create_sugar_schedule`: the date checks,
      refused with `no`, then one inserted row per time.  With
      `RefusalsOf(k)` this is the code as written (NameError for blood
      pressure); with `IntendedRefusals` it is the corrected create. */
  method CreateCheckSchedules(db: Database, k: Kind, userId: int, p: CreateIn, today: Day, no: Refusals)
    returns (r: Result<seq<CheckSchedule>>)
    requires db.Valid()
    modifies db
    ensures db.Valid()
    ensures (r, db.St()) == Created(old(db.St()), k, userId, p, today, no)
  {
    var start := OrElse(p.start, today);
    if p.end.None? {
      return Err(no.missingEnd);
    }
    var end := p.end.value;
    var duration := Duration(start, end);
    if duration <= 0 {
      return Err(no.endBeforeStart);
    }
    ghost var s := db.St();
    ghost var all := NewCheckSchedules(s.nextId, userId, p.times, start, end);
    var made: seq<CheckSchedule> := [];
    var i := 0;
    while i < |p.times|
      invariant 0 <= i <= |p.times|
      invariant made == all[..i]
      invariant db.St() == WithTable(s, k, Table(s, k) + made).(nextId := s.nextId + i)
    {
      var row := CheckSchedule(db.nextId, userId, p.times[i], duration, start, Some(end), true);
      assert row == all[i];
      match k {
        case Bp => db.bpSchedules := db.bpSchedules + [row];
        case Sugar => db.sugarSchedules := db.sugarSchedules + [row];
      }
      db.nextId := db.nextId + 1;
      made := made + [row];
      i := i + 1;
    }
    assert made == all;
    CreatedKeepsValid(s, k, userId, p, today, no);
    r := Ok(made);
  }

  // ---------------------------------------------------------------- update

  /** The update payload: every field optional. */
  datatype CheckUpdate = CheckUpdate(time: Option<Clock>, start: Option<Day>, end: Option<Day>, isActive: Option<bool>)

  const BpMissing: Failure := Http(404, "Blood Pressure Schedule not found")
  const EndBeforeStart: Failure := Http(400, "end_date cannot be before start_date")
  const StartAfterEnd: Failure := Http(400, "start_date cannot be after end_date")
  const SugarEndBeforeStart: Failure := Http(400, "End date must be after or equal to start date.")

  /** `query(...).filter_by(id=…).first()`: the position of the first row with that id. */
  function ScheduleIndex(rows: seq<CheckSchedule>, id: int): (r: Option<nat>)
    ensures r.Some? ==> r.value < |rows| && rows[r.value].id == id && forall j :: 0 <= j < r.value ==> rows[j].id != id
    ensures r.None? <==> forall j :: 0 <= j < |rows| ==> rows[j].id != id
  {
    if rows == [] then None
    else if rows[0].id == id then Some(0)
    else match ScheduleIndex(rows[1..], id)
      case None => None
      case Some(j) => Some(j + 1)
  }

  /** `update_bp_schedule` on one row: the date case analysis, the duration
      recomputed when a date was given (an absent end makes the subtraction
      fail with TypeError), then the time and the active flag when given. */
  function BpRevised(row: CheckSchedule, p: CheckUpdate): Result<CheckSchedule> {
    var dated :=
      if p.start.Some? && p.end.Some? then
        if p.end.value < p.start.value then Err(EndBeforeStart)
        else Ok(row.(startDate := p.start.value, endDate := p.end))
      else if p.start.Some? then
        if row.endDate.Some? && p.start.value > row.endDate.value then Err(StartAfterEnd)
        else Ok(row.(startDate := p.start.value))
      else if p.end.Some? then
        if p.end.value < row.startDate then Err(EndBeforeStart)
        else Ok(row.(endDate := p.end))
      else Ok(row);
    match dated
    case Err(f) => Err(f)
    case Ok(d) =>
      if (p.start.Some? || p.end.Some?) && d.endDate.None? then Err(Raised("TypeError"))
      else
        var e := if p.start.Some? || p.end.Some? then d.(durationDays := Duration(d.startDate, d.endDate.value)) else d;
        Ok(e.(time := OrElse(p.time, e.time), isActive := OrElse(p.isActive, e.isActive)))
  }

  /** The blood-pressure update is refused exactly when both dates are given
      out of order, a lone start falls after the stored end (or there is no
      stored end to recompute the duration with), or a lone end falls before
      the stored start.  On success the start and end are the given ones or the
      stored ones, the duration matches them whenever a date was given, the
      time and the active flag change only when given, and nothing else changes. */
  lemma BpRevisedMeaning(row: CheckSchedule, p: CheckUpdate)
    ensures BpRevised(row, p).Err? <==>
              (p.start.Some? && p.end.Some? && p.end.value < p.start.value)
              || (p.start.Some? && p.end.None? && (row.endDate.None? || p.start.value > row.endDate.value))
              || (p.start.None? && p.end.Some? && p.end.value < row.startDate)
    ensures BpRevised(row, p) == Err(Raised("TypeError")) <==> p.start.Some? && p.end.None? && row.endDate.None?
    ensures var r := BpRevised(row, p);
            r.Ok? ==>
              var x := r.value;
              x.id == row.id && x.userId == row.userId
              && x.startDate == OrElse(p.start, row.startDate)
              && x.endDate == (if p.end.Some? then p.end else row.endDate)
              && x.time == OrElse(p.time, row.time)
              && x.isActive == OrElse(p.isActive, row.isActive)
              && ((p.start.Some? || p.end.Some?) ==>
                    x.endDate.Some? && x.startDate <= x.endDate.value
                    && x.durationDays == Duration(x.startDate, x.endDate.value))
              && (p.start.None? && p.end.None? ==> x.durationDays == row.durationDays)
    ensures var r := BpRevised(row, p);
            r.Ok? && WellFormed(row) ==> WellFormed(r.value)
  {
  }

  /** `update_bp_schedule` on the store: an unknown id is 404, a refusal
      leaves the store alone, a success replaces that one row. */
  function BpUpdated(s: State, id: int, p: CheckUpdate): (Result<CheckSchedule>, State) {
    match ScheduleIndex(s.bpSchedules, id)
    case None => (Err(BpMissing), s)
    case Some(i) =>
      match BpRevised(s.bpSchedules[i], p)
      case Err(f) => (Err(f), s)
      case Ok(x) => (Ok(x), s.(bpSchedules := s.bpSchedules[i := x]))
  }

  /** `update_sugar_schedule` on one row: the time when given (before the date
      check), the dates merged from the payload and the row, the duration
      recomputed and checked, then the active flag when given. */
  function SugarRevised(row: CheckSchedule, p: CheckUpdate): Result<CheckSchedule> {
    var timed := row.(time := OrElse(p.time, row.time));
    var start := OrElse(p.start, timed.startDate);
    var end := if p.end.Some? then p.end else timed.endDate;
    if end.None? then Err(Raised("TypeError"))
    else if Duration(start, end.value) <= 0 then Err(SugarEndBeforeStart)
    else Ok(timed.(startDate := start, endDate := end, durationDays := Duration(start, end.value),
                   isActive := OrElse(p.isActive, timed.isActive)))
  }

  /** The sugar update is refused exactly when the merged dates have no end
      or are out of order; on success the row has an end, the start is not
      after it, the duration matches them, and the time and active flag change
      only when given. */
  lemma SugarRevisedMeaning(row: CheckSchedule, p: CheckUpdate)
    ensures var start := OrElse(p.start, row.startDate);
            var end := if p.end.Some? then p.end else row.endDate;
            (SugarRevised(row, p).Err? <==> end.None? || end.value < start)
            && (SugarRevised(row, p) == Err(Raised("TypeError")) <==> end.None?)
    ensures var r := SugarRevised(row, p);
            r.Ok? ==>
              var x := r.value;
              x.id == row.id && x.userId == row.userId
              && x.startDate == OrElse(p.start, row.startDate)
              && x.endDate == (if p.end.Some? then p.end else row.endDate)
              && x.endDate.Some? && x.startDate <= x.endDate.value
              && x.durationDays == Duration(x.startDate, x.endDate.value)
              && x.time == OrElse(p.time, row.time)
              && x.isActive == OrElse(p.isActive, row.isActive)
              && WellFormed(x)
  {
  }

  /** `update_sugar_schedule` on the store: an unknown id gives None (which the
      route turns into 404), a refusal leaves the store alone, a success
      replaces that one row. */
  function SugarUpdated(s: State, id: int, p: CheckUpdate): (Result<Option<CheckSchedule>>, State) {
    match ScheduleIndex(s.sugarSchedules, id)
    case None => (Ok(None), s)
    case Some(i) =>
      match SugarRevised(s.sugarSchedules[i], p)
      case Err(f) => (Err(f), s)
      case Ok(x) => (Ok(Some(x)), s.(sugarSchedules := s.sugarSchedules[i := x]))
  }

  /** Replacing one row by a row with the same id keeps the store valid and,
      when the new row is well formed, keeps a well-formed table so. */
  lemma ReplaceKeepsValid(s: State, k: Kind, i: nat, x: CheckSchedule)
    requires ValidState(s)
    requires i < |Table(s, k)| && x.id == Table(s, k)[i].id
    ensures ValidState(WithTable(s, k, Table(s, k)[i := x]))
    ensures WellFormedTable(Table(s, k)) && WellFormed(x) ==> WellFormedTable(Table(s, k)[i := x])
  {
    var rows := Table(s, k)[i := x];
    forall y | y in rows
      ensures y.id < s.nextId
    {
      var j :| 0 <= j < |rows| && rows[j] == y;
      if j != i {
        assert Table(s, k)[j] in Table(s, k);
      } else {
        assert Table(s, k)[i] in Table(s, k);
      }
    }
  }

  /** An update touches one row of its own table, and only when it succeeds;
      the row keeps its id and owner. */
  lemma UpdatedFrame(s: State, id: int, p: CheckUpdate)
    ensures var res := BpUpdated(s, id, p);
            (res.0.Err? ==> res.1 == s)
            && (res.0.Ok? ==>
                  exists i :: (0 <= i < |s.bpSchedules| && s.bpSchedules[i].id == id
                               && res.1 == s.(bpSchedules := s.bpSchedules[i := res.0.value])
                               && res.0 == BpRevised(s.bpSchedules[i], p)))
            && ((forall j :: 0 <= j < |s.bpSchedules| ==> s.bpSchedules[j].id != id) ==> res.0 == Err(BpMissing))
    ensures var res := SugarUpdated(s, id, p);
            (res.0.Err? || res.0 == Ok(None) ==> res.1 == s)
            && (res.0 == Ok(None) <==> forall j :: 0 <= j < |s.sugarSchedules| ==> s.sugarSchedules[j].id != id)
            && (res.0.Ok? && res.0.value.Some? ==>
                  exists i :: (0 <= i < |s.sugarSchedules| && s.sugarSchedules[i].id == id
                               && res.1 == s.(sugarSchedules := s.sugarSchedules[i := res.0.value.value])
                               && SugarRevised(s.sugarSchedules[i], p) == Ok(res.0.value.value)))
  {
    var f := ScheduleIndex(s.bpSchedules, id);
    if f.Some? && BpRevised(s.bpSchedules[f.value], p).Ok? {
      var i := f.value;
      assert 0 <= i < |s.bpSchedules| && s.bpSchedules[i].id == id;
    }
    var g := ScheduleIndex(s.sugarSchedules, id);
    if g.Some? && SugarRevised(s.sugarSchedules[g.value], p).Ok? {
      var i := g.value;
      assert 0 <= i < |s.sugarSchedules| && s.sugarSchedules[i].id == id;
    }
  }

  /** The route's call of `update_bp_schedule`: the row is changed step by
      step as the code does, and written back only when every check passed. */
  method UpdateBpSchedule(db: Database, id: int, p: CheckUpdate) returns (r: Result<CheckSchedule>)
    requires db.Valid()
    modifies db
    ensures db.Valid()
    ensures (r, db.St()) == BpUpdated(old(db.St()), id, p)
  {
    var found := ScheduleIndex(db.bpSchedules, id);
    if found.None? {
      return Err(BpMissing);
    }
    var i := found.value;
    var row := db.bpSchedules[i];
    if p.start.Some? && p.end.Some? {
      if p.end.value < p.start.value {
        return Err(EndBeforeStart);
      }
      row := row.(startDate := p.start.value, endDate := p.end);
    } else if p.start.Some? {
      if row.endDate.Some? && p.start.value > row.endDate.value {
        return Err(StartAfterEnd);
      }
      row := row.(startDate := p.start.value);
    } else if p.end.Some? {
      if p.end.value < row.startDate {
        return Err(EndBeforeStart);
      }
      row := row.(endDate := p.end);
    }
    if p.start.Some? || p.end.Some? {
      var start := OrElse(p.start, row.startDate);
      var end := if p.end.Some? then p.end else row.endDate;
      if end.None? {
        return Err(Raised("TypeError"));
      }
      row := row.(durationDays := Duration(start, end.value));
    }
    if p.time.Some? {
      row := row.(time := p.time.value);
    }
    if p.isActive.Some? {
      row := row.(isActive := p.isActive.value);
    }
    assert BpRevised(db.bpSchedules[i], p) == Ok(row);
    ReplaceKeepsValid(db.St(), Bp, i, row);
    db.bpSchedules := db.bpSchedules[i := row];
    r := Ok(row);
  }

  /** The route's call of `update_sugar_schedule`. */
  method UpdateSugarSchedule(db: Database, id: int, p: CheckUpdate) returns (r: Result<Option<CheckSchedule>>)
    requires db.Valid()
    modifies db
    ensures db.Valid()
    ensures (r, db.St()) == SugarUpdated(old(db.St()), id, p)
  {
    var found := ScheduleIndex(db.sugarSchedules, id);
    if found.None? {
      return Ok(None);
    }
    var i := found.value;
    var row := db.sugarSchedules[i];
    if p.time.Some? {
      row := row.(time := p.time.value);
    }
    var start := row.startDate;
    var end := row.endDate;
    if p.start.Some? {
      start := p.start.value;
    }
    if p.end.Some? {
      end := p.end;
    }
    if end.None? {
      return Err(Raised("TypeError"));
    }
    var duration := Duration(start, end.value);
    if duration <= 0 {
      return Err(SugarEndBeforeStart);
    }
    row := row.(startDate := start, endDate := end, durationDays := duration);
    if p.isActive.Some? {
      row := row.(isActive := p.isActive.value);
    }
    assert SugarRevised(db.sugarSchedules[i], p) == Ok(row);
    ReplaceKeepsValid(db.St(), Sugar, i, row);
    db.sugarSchedules := db.sugarSchedules[i := row];
    r := Ok(Some(row));
  }
}
