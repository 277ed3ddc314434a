/** The database session the CRUD layer writes through: one table per field,
    each a sequence of rows in insertion order, and the id the next inserted
    row receives.  A request that fails is rolled back, so every operation
    below either succeeds with its writes or leaves the store as it was. */
module Store {
  import opened Wrappers
  import opened Calendar
  import opened Entities

  /** The contents of every table at one moment. */
  datatype State = State(
    users: seq<User>,
    medicines: seq<Medicine>,
    medications: seq<Medication>,
    medSchedules: seq<MedSchedule>,
    medLogs: seq<MedLog>,
    bpSchedules: seq<CheckSchedule>,
    bpLogs: seq<BpLog>,
    sugarSchedules: seq<CheckSchedule>,
    sugarLogs: seq<SugarLog>,
    nextId: int)

  /** The table constraints of the models that the operations rely on:
      `unique_medicine_strength`, `unique_medication`, `unique_medication_time`,
      the unique user e-mail, and every id (and every schedule's medication id) below
      the next one handed out. */
  predicate UniqueMedicines(rows: seq<Medicine>) {
    forall i, j :: 0 <= i < j < |rows| ==> (rows[i].name, rows[i].strength) != (rows[j].name, rows[j].strength)
  }

  predicate UniqueMedications(rows: seq<Medication>) {
    forall i, j :: 0 <= i < j < |rows| ==> (rows[i].medicineId, rows[i].userId) != (rows[j].medicineId, rows[j].userId)
  }

  predicate UniqueScheduleTimes(rows: seq<MedSchedule>) {
    forall i, j :: 0 <= i < j < |rows| ==> (rows[i].medicationId, rows[i].time) != (rows[j].medicationId, rows[j].time)
  }

  predicate UniqueEmails(rows: seq<User>) {
    forall i, j :: 0 <= i < j < |rows| ==> rows[i].email != rows[j].email
  }

  predicate IdsBelow(s: State) {
    0 < s.nextId
    && (forall x :: x in s.users ==> x.id < s.nextId)
    && (forall x :: x in s.medicines ==> x.id < s.nextId)
    && (forall x :: x in s.medications ==> x.id < s.nextId)
    && (forall x :: x in s.medSchedules ==> x.id < s.nextId && x.medicationId < s.nextId)
    && (forall x :: x in s.bpSchedules ==> x.id < s.nextId)
    && (forall x :: x in s.sugarSchedules ==> x.id < s.nextId)
    && (forall x :: x in s.bpLogs ==> x.id < s.nextId)
  }

  predicate ValidState(s: State) {
    IdsBelow(s)
    && UniqueMedicines(s.medicines)
    && UniqueMedications(s.medications)
    && UniqueScheduleTimes(s.medSchedules)
    && UniqueEmails(s.users)
  }

  /** The position of the first row satisfying `p`, as `query(...).filter(p).first()`
      finds it. */
  function FirstWhere<T>(rows: seq<T>, p: T -> bool): (r: Option<nat>)
    ensures r.Some? ==> r.value < |rows| && p(rows[r.value]) && forall j :: 0 <= j < r.value ==> !p(rows[j])
    ensures r.None? <==> forall j :: 0 <= j < |rows| ==> !p(rows[j])
  {
    if rows == [] then None
    else if p(rows[0]) then Some(0)
    else match FirstWhere(rows[1..], p)
      case None => None
      case Some(k) => Some(k + 1)
  }

  class Database {
    var users: seq<User>
    var medicines: seq<Medicine>
    var medications: seq<Medication>
    var medSchedules: seq<MedSchedule>
    var medLogs: seq<MedLog>
    var bpSchedules: seq<CheckSchedule>
    var bpLogs: seq<BpLog>
    var sugarSchedules: seq<CheckSchedule>
    var sugarLogs: seq<SugarLog>
    var nextId: int

    function St(): State
      reads this
    {
      State(users, medicines, medications, medSchedules, medLogs, bpSchedules, bpLogs,
            sugarSchedules, sugarLogs, nextId)
    }

    ghost predicate Valid()
      reads this
    {
      ValidState(St())
    }

    /** An empty store. */
    constructor ()
      ensures Valid()
      ensures St() == State([], [], [], [], [], [], [], [], [], 1)
    {
      users, medicines, medications, medSchedules, medLogs := [], [], [], [], [];
      bpSchedules, bpLogs, sugarSchedules, sugarLogs := [], [], [], [];
      nextId := 1;
    }

    /** The read-only view the report and alert routes work on. */
    function Snap(): Snapshot
      reads this
    {
      Snapshot(medicines, medications, medSchedules, medLogs, bpSchedules, bpLogs, sugarSchedules, sugarLogs)
    }
  }
}
