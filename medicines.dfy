/** `create_medicine`: the catalogue of medicines is shared by all users and
    holds at most one record per (name, strength). */
module Medicines {
  import opened Wrappers
  import opened Entities
  import opened Store

  /** `get_medicine_by_name_and_strength`: the first record with both fields. */
  function FindByNameStrength(rows: seq<Medicine>, name: string, strength: string): (r: Option<Medicine>)
    ensures r.Some? ==> r.value in rows && r.value.name == name && r.value.strength == strength
    ensures r.None? <==> forall m :: m in rows ==> (m.name, m.strength) != (name, strength)
  {
    if rows == [] then None
    else if rows[0].name == name && rows[0].strength == strength then Some(rows[0])
    else FindByNameStrength(rows[1..], name, strength)
  }

  /** The record handed back, the medicine table afterwards and the next id. */
  datatype Got = Got(medicine: Medicine, rows: seq<Medicine>, nextId: int)

  /** Get-or-create: an existing (name, strength) record is returned with
      nothing inserted; otherwise a new record takes the next id.  An empty
      name or strength breaks `check_medicine_name_not_empty` /
      `check_strength_not_empty` at the flush. */
  function GetOrCreate(rows: seq<Medicine>, next: int, name: string, strength: string): Result<Got> {
    match FindByNameStrength(rows, name, strength)
    case Some(m) => Ok(Got(m, rows, next))
    case None =>
      if name == "" || strength == "" then Err(Raised("IntegrityError"))
      else Ok(Got(Medicine(next, name, strength), rows + [Medicine(next, name, strength)], next + 1))
  }

  /** The record returned carries the requested name and strength and is in
      the table afterwards; an existing one is returned with the table and the
      id counter untouched, a missing one is appended with a fresh id. */
  lemma GetOrCreateMeaning(rows: seq<Medicine>, next: int, name: string, strength: string)
    ensures var r := GetOrCreate(rows, next, name, strength);
            r.Ok? ==> r.value.medicine.name == name && r.value.medicine.strength == strength
                      && r.value.medicine in r.value.rows
    ensures var r := GetOrCreate(rows, next, name, strength);
            (exists m :: m in rows && (m.name, m.strength) == (name, strength)) ==>
              r.Ok? && r.value.medicine in rows && r.value.rows == rows && r.value.nextId == next
    ensures var r := GetOrCreate(rows, next, name, strength);
            (forall m :: m in rows ==> (m.name, m.strength) != (name, strength)) ==>
              if name == "" || strength == "" then r.Err?
              else r.Ok? && r.value.medicine.id == next && r.value.nextId == next + 1
                   && r.value.rows == rows + [r.value.medicine]
  {
  }

  /** A second call with the same arguments returns the same record and
      changes nothing. */
  lemma GetOrCreateIdempotent(rows: seq<Medicine>, next: int, name: string, strength: string)
    requires UniqueMedicines(rows)
    requires GetOrCreate(rows, next, name, strength).Ok?
    ensures var g := GetOrCreate(rows, next, name, strength).value;
            GetOrCreate(g.rows, g.nextId, name, strength) == Ok(g)
  {
    var g := GetOrCreate(rows, next, name, strength).value;
    var found := FindByNameStrength(rows, name, strength);
    if found.Some? {
      var i :| 0 <= i < |rows| && rows[i] == found.value;
      FindFirst(rows, name, strength, i);
    } else {
      assert g.rows == rows + [g.medicine];
      assert UniqueMedicines(g.rows) by {
        forall a, b | 0 <= a < b < |g.rows|
          ensures (g.rows[a].name, g.rows[a].strength) != (g.rows[b].name, g.rows[b].strength)
        {
          if b == |rows| {
            assert g.rows[a] in rows;
          }
        }
      }
      FindFirst(g.rows, name, strength, |g.rows| - 1);
    }
  }

  /** In a table without duplicates, the lookup finds the one matching row. */
  lemma {:induction false} FindFirst(rows: seq<Medicine>, name: string, strength: string, i: int)
    requires UniqueMedicines(rows)
    requires 0 <= i < |rows|
    requires (rows[i].name, rows[i].strength) == (name, strength)
    ensures FindByNameStrength(rows, name, strength) == Some(rows[i])
  {
    if i > 0 {
      assert (rows[0].name, rows[0].strength) != (name, strength);
      assert UniqueMedicines(rows[1..]) by {
        forall a, b | 0 <= a < b < |rows[1..]|
          ensures (rows[1..][a].name, rows[1..][a].strength) != (rows[1..][b].name, rows[1..][b].strength)
        {
          assert rows[1..][a] == rows[a + 1] && rows[1..][b] == rows[b + 1];
        }
      }
      assert rows[1..][i - 1] == rows[i];
      FindFirst(rows[1..], name, strength, i - 1);
    }
  }

  /** At most one record per (name, strength) before means the same after,
      and every earlier record keeps its place. */
  lemma GetOrCreateKeepsTable(rows: seq<Medicine>, next: int, name: string, strength: string)
    requires UniqueMedicines(rows)
    requires forall m :: m in rows ==> m.id < next
    ensures var r := GetOrCreate(rows, next, name, strength);
            r.Ok? ==> UniqueMedicines(r.value.rows)
                      && |rows| <= |r.value.rows| && r.value.rows[..|rows|] == rows
                      && r.value.nextId >= next
                      && forall m :: m in r.value.rows ==> m.id < r.value.nextId
  {
    var r := GetOrCreate(rows, next, name, strength);
    if r.Ok? && r.value.rows != rows {
      assert r.value.rows[..|rows|] == rows;
    }
  }

  /** The route's call: the lookup, then the insert when it misses. */
  method CreateMedicine(db: Database, name: string, strength: string) returns (r: Result<Medicine>)
    requires db.Valid()
    modifies db
    ensures db.Valid()
    ensures var g := GetOrCreate(old(db.medicines), old(db.nextId), name, strength);
            if g.Ok? then r == Ok(g.value.medicine) && db.medicines == g.value.rows && db.nextId == g.value.nextId
            else r == Err(g.failure) && db.medicines == old(db.medicines) && db.nextId == old(db.nextId)
    ensures db.St() == old(db.St()).(medicines := db.medicines, nextId := db.nextId)
  {
    var existing := FindByNameStrength(db.medicines, name, strength);
    if existing.Some? {
      return Ok(existing.value);
    }
    if name == "" || strength == "" {
      return Err(Raised("IntegrityError"));
    }
    var m := Medicine(db.nextId, name, strength);
    GetOrCreateKeepsTable(db.medicines, db.nextId, name, strength);
    db.medicines := db.medicines + [m];
    db.nextId := db.nextId + 1;
    r := Ok(m);
  }
}
