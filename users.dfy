/** The user profile operations of the CRUD layer: the partial profile update,
    and the list of attendant e-mail addresses that alerts are copied to. */
module Users {
  import opened Wrappers
  import opened Entities
  import opened Store
  import opened Text

  /** `query(User).filter(User.id == …).first()`: the position of the first
      user with that id. */
  function UserIndex(rows: seq<User>, id: int): (r: Option<nat>)
    ensures r.Some? ==> r.value < |rows| && rows[r.value].id == id && forall j :: 0 <= j < r.value ==> rows[j].id != id
    ensures r.None? <==> forall j :: 0 <= j < |rows| ==> rows[j].id != id
  {
    if rows == [] then None
    else if rows[0].id == id then Some(0)
    else match UserIndex(rows[1..], id)
      case None => None
      case Some(j) => Some(j + 1)
  }

  /** Replacing the user found for `id` by one with the same id leaves the
      lookup pointing at the same place. */
  lemma IndexAfterReplace(rows: seq<User>, i: nat, u: User)
    requires i < |rows| && UserIndex(rows, rows[i].id) == Some(i) && u.id == rows[i].id
    ensures UserIndex(rows[i := u], u.id) == Some(i)
  {
    var after := rows[i := u];
    var r := UserIndex(after, u.id);
    assert after[i].id == u.id;
  }

  /** A list without repeated entries. */
  predicate Distinct(l: seq<string>) {
    forall i, j :: 0 <= i < j < |l| ==> l[i] != l[j]
  }

  /** Replacing a user by one with the same id and e-mail keeps the store valid. */
  lemma ReplaceUserKeepsValid(s: State, i: nat, u: User)
    requires ValidState(s)
    requires i < |s.users| && u.id == s.users[i].id && u.email == s.users[i].email
    ensures ValidState(s.(users := s.users[i := u]))
  {
    var rows := s.users[i := u];
    forall y | y in rows
      ensures y.id < s.nextId
    {
      var j :| 0 <= j < |rows| && rows[j] == y;
      assert s.users[j] in s.users;
    }
  }

  // ---------------------------------------------------------------- update_user

  /** The update payload: every field optional, the eight thresholds in the
      same shape as the stored ones. */
  datatype UserUpdate = UserUpdate(name: Option<string>, attendantEmails: Option<seq<string>>, thresholds: Thresholds)

  /** A field written when the payload carries a value, kept otherwise. */
  function Overlay<T>(given: Option<T>, current: Option<T>): Option<T> {
    if given.Some? then given else current
  }

  /** `given` overwrites `before` exactly when it is set. */
  predicate Overwrites<T(==)>(given: Option<T>, before: Option<T>, after: Option<T>) {
    (given.Some? ==> after == given) && (given.None? ==> after == before)
  }

  function OverlayThresholds(cur: Thresholds, p: Thresholds): Thresholds {
    Thresholds(
      Overlay(p.bpSystolicMin, cur.bpSystolicMin), Overlay(p.bpSystolicMax, cur.bpSystolicMax),
      Overlay(p.bpDiastolicMin, cur.bpDiastolicMin), Overlay(p.bpDiastolicMax, cur.bpDiastolicMax),
      Overlay(p.sugarFastingMin, cur.sugarFastingMin), Overlay(p.sugarFastingMax, cur.sugarFastingMax),
      Overlay(p.sugarRandomMin, cur.sugarRandomMin), Overlay(p.sugarRandomMax, cur.sugarRandomMax))
  }

  function Revised(u: User, p: UserUpdate): User {
    u.(name := OrElse(p.name, u.name),
       attendantEmails := Overlay(p.attendantEmails, u.attendantEmails),
       thresholds := OverlayThresholds(u.thresholds, p.thresholds))
  }

  /** `update_user` on the store: None for an unknown id; an empty name
      breaks `check_name_not_empty` at the commit; otherwise that one user
      is replaced. */
  function Updated(s: State, id: int, p: UserUpdate): (Result<Option<User>>, State) {
    match UserIndex(s.users, id)
    case None => (Ok(None), s)
    case Some(i) =>
      if p.name == Some("") then (Err(Raised("IntegrityError")), s)
      else
        var u := Revised(s.users[i], p);
        (Ok(Some(u)), s.(users := s.users[i := u]))
  }

  /** Each of the name, the attendant list and the eight thresholds is
      overwritten exactly when the payload sets it, and no other column or
      user changes; an unknown id gives None and a refusal changes nothing. */
  lemma UpdatedMeaning(s: State, id: int, p: UserUpdate)
    ensures var res := Updated(s, id, p);
            (res.0 == Ok(None) <==> forall j :: 0 <= j < |s.users| ==> s.users[j].id != id)
            && (res.0.Err? <==> (exists j :: 0 <= j < |s.users| && s.users[j].id == id) && p.name == Some(""))
            && (res.0.Err? || res.0 == Ok(None) ==> res.1 == s)
    ensures var res := Updated(s, id, p);
            res.0.Ok? && res.0.value.Some? ==>
              exists i :: (0 <= i < |s.users| && s.users[i].id == id
                && var before, x := s.users[i], res.0.value.value;
                   res.1 == s.(users := s.users[i := x])
                   && Overwrites(p.name, Some(before.name), Some(x.name))
                   && Overwrites(p.attendantEmails, before.attendantEmails, x.attendantEmails)
                   && Overwrites(p.thresholds.bpSystolicMin, before.thresholds.bpSystolicMin, x.thresholds.bpSystolicMin)
                   && Overwrites(p.thresholds.bpSystolicMax, before.thresholds.bpSystolicMax, x.thresholds.bpSystolicMax)
                   && Overwrites(p.thresholds.bpDiastolicMin, before.thresholds.bpDiastolicMin, x.thresholds.bpDiastolicMin)
                   && Overwrites(p.thresholds.bpDiastolicMax, before.thresholds.bpDiastolicMax, x.thresholds.bpDiastolicMax)
                   && Overwrites(p.thresholds.sugarFastingMin, before.thresholds.sugarFastingMin, x.thresholds.sugarFastingMin)
                   && Overwrites(p.thresholds.sugarFastingMax, before.thresholds.sugarFastingMax, x.thresholds.sugarFastingMax)
                   && Overwrites(p.thresholds.sugarRandomMin, before.thresholds.sugarRandomMin, x.thresholds.sugarRandomMin)
                   && Overwrites(p.thresholds.sugarRandomMax, before.thresholds.sugarRandomMax, x.thresholds.sugarRandomMax)
                   && x.(name := before.name, attendantEmails := before.attendantEmails, thresholds := before.thresholds) == before)
  {
    var f := UserIndex(s.users, id);
    if f.Some? && p.name != Some("") {
      var i := f.value;
      assert 0 <= i < |s.users| && s.users[i].id == id;
    }
  }

  /** The route's call of `update_user`: the user is changed field by field as
      the code does, and written back at the commit. */
  method UpdateUser(db: Database, id: int, p: UserUpdate) returns (r: Result<Option<User>>)
    requires db.Valid()
    modifies db
    ensures db.Valid()
    ensures (r, db.St()) == Updated(old(db.St()), id, p)
  {
    var found := UserIndex(db.users, id);
    if found.None? {
      return Ok(None);
    }
    var i := found.value;
    var u := db.users[i];
    if p.name.Some? {
      u := u.(name := p.name.value);
    }
    if p.attendantEmails.Some? {
      u := u.(attendantEmails := p.attendantEmails);
    }
    u := u.(thresholds := OverlayThresholds(u.thresholds, p.thresholds));
    if p.name == Some("") {
      return Err(Raised("IntegrityError"));
    }
    assert u == Revised(db.users[i], p);
    ReplaceUserKeepsValid(db.St(), i, u);
    db.users := db.users[i := u];
    r := Ok(Some(u));
  }

  // ---------------------------------------------------------------- the attendant list

  /** The first position of `e` in `l`: `l.index(e)`. */
  function IndexOf(l: seq<string>, e: string): (k: nat)
    requires e in l
    ensures k < |l| && l[k] == e && forall j :: 0 <= j < k ==> l[j] != e
  {
    if l[0] == e then 0 else 1 + IndexOf(l[1..], e)
  }

  /** `l.remove(e)`: the first occurrence taken out. */
  function RemoveFirst(l: seq<string>, e: string): seq<string>
    requires e in l
  {
    l[..IndexOf(l, e)] + l[IndexOf(l, e) + 1..]
  }

  /** Removing takes out exactly one copy of `e` and keeps the others. */
  lemma RemoveFirstMeaning(l: seq<string>, e: string)
    requires e in l
    ensures |RemoveFirst(l, e)| == |l| - 1
    ensures multiset(RemoveFirst(l, e)) == multiset(l) - multiset{e}
  {
    var k := IndexOf(l, e);
    assert l == l[..k] + [e] + l[k + 1..];
    assert multiset(l) == multiset(l[..k]) + multiset{e} + multiset(l[k + 1..]);
  }

  /** From a list without repeats, removing leaves none and `e` is gone. */
  lemma RemoveFirstDistinct(l: seq<string>, e: string)
    requires e in l && Distinct(l)
    ensures Distinct(RemoveFirst(l, e)) && e !in RemoveFirst(l, e)
  {
    var k := IndexOf(l, e);
    var r := RemoveFirst(l, e);
    {
      forall a, b | 0 <= a < b < |r|
        ensures r[a] != r[b]
      {
        var a' := if a < k then a else a + 1;
        var b' := if b < k then b else b + 1;
        assert r[a] == l[a'] && r[b] == l[b'];
      }
      forall j | 0 <= j < |r|
        ensures r[j] != e
      {
        var j' := if j < k then j else j + 1;
        assert r[j] == l[j'];
      }
    }
  }

  /** The list after `add_attendant_email`: the address appended when absent. */
  function AddedEmail(l: seq<string>, e: string): seq<string> {
    if e in l then l else l + [e]
  }

  /** Adding keeps every earlier entry in place, contains the address
      afterwards, introduces no repeat, and a second add changes nothing;
      removing a fresh address after adding it gives the list back. */
  lemma AddedEmailMeaning(l: seq<string>, e: string)
    ensures var r := AddedEmail(l, e);
            e in r && |l| <= |r| <= |l| + 1 && r[..|l|] == l
            && (forall x :: x in r <==> x in l || x == e)
            && (Distinct(l) ==> Distinct(r))
            && AddedEmail(r, e) == r
    ensures e !in l ==> RemoveFirst(AddedEmail(l, e), e) == l
  {
    var r := AddedEmail(l, e);
    assert r[..|l|] == l;
    if e !in l {
      assert IndexOf(r, e) == |l|;
      assert r[..|l|] + r[|l| + 1..] == l;
    }
  }

  const InvalidEmail: Failure := Http(400, "Invalid email format")

  /** `add_attendant_email` on the store; `valid` is the verdict of the
      e-mail validator. */
  function AttendantAdded(s: State, id: int, email: string, valid: string -> bool): (Result<Option<User>>, State) {
    match UserIndex(s.users, id)
    case None => (Ok(None), s)
    case Some(i) =>
      if !valid(email) then (Err(InvalidEmail), s)
      else
        var u := s.users[i].(attendantEmails := Some(AddedEmail(OrElse(s.users[i].attendantEmails, []), Lower(email))));
        (Ok(Some(u)), s.(users := s.users[i := u]))
  }

  /** An unknown user gives None and an invalid address 400, both changing
      nothing; otherwise the lower-cased address is in the list afterwards,
      earlier entries keep their places, no repeat appears, and only that
      user's list changes. */
  lemma AttendantAddedMeaning(s: State, id: int, email: string, valid: string -> bool)
    ensures var res := AttendantAdded(s, id, email, valid);
            (res.0 == Ok(None) <==> forall j :: 0 <= j < |s.users| ==> s.users[j].id != id)
            && (res.0.Err? ==> res.0.failure == InvalidEmail && !valid(email))
            && (res.0.Err? || res.0 == Ok(None) ==> res.1 == s)
    ensures var res := AttendantAdded(s, id, email, valid);
            res.0.Ok? && res.0.value.Some? ==>
              exists i :: (0 <= i < |s.users| && s.users[i].id == id && valid(email)
                && var before, x := s.users[i], res.0.value.value;
                   var l := OrElse(before.attendantEmails, []);
                   res.1 == s.(users := s.users[i := x])
                   && x.attendantEmails.Some?
                   && Lower(email) in x.attendantEmails.value
                   && |l| <= |x.attendantEmails.value| <= |l| + 1
                   && x.attendantEmails.value[..|l|] == l
                   && (Distinct(l) ==> Distinct(x.attendantEmails.value))
                   && x.(attendantEmails := before.attendantEmails) == before)
  {
    var f := UserIndex(s.users, id);
    if f.Some? && valid(email) {
      var i := f.value;
      AddedEmailMeaning(OrElse(s.users[i].attendantEmails, []), Lower(email));
      assert 0 <= i < |s.users| && s.users[i].id == id;
    }
  }

  /** Adding the same address twice is adding it once. */
  lemma AttendantAddedIdempotent(s: State, id: int, email: string, valid: string -> bool)
    ensures var once := AttendantAdded(s, id, email, valid);
            AttendantAdded(once.1, id, email, valid) == once
  {
    var once := AttendantAdded(s, id, email, valid);
    var f := UserIndex(s.users, id);
    if f.Some? && valid(email) {
      var i := f.value;
      var u := once.0.value.value;
      IndexAfterReplace(s.users, i, u);
      AddedEmailMeaning(OrElse(s.users[i].attendantEmails, []), Lower(email));
      assert u.(attendantEmails := Some(AddedEmail(OrElse(u.attendantEmails, []), Lower(email)))) == u;
      assert once.1.users[i := u] == once.1.users;
    }
  }

  /** The route's call of `add_attendant_email`. */
  method AddAttendantEmail(db: Database, id: int, email: string, valid: string -> bool) returns (r: Result<Option<User>>)
    requires db.Valid()
    modifies db
    ensures db.Valid()
    ensures (r, db.St()) == AttendantAdded(old(db.St()), id, email, valid)
  {
    var found := UserIndex(db.users, id);
    if found.None? {
      return Ok(None);
    }
    var i := found.value;
    if !valid(email) {
      return Err(InvalidEmail);
    }
    var u := db.users[i];
    if u.attendantEmails.None? {
      u := u.(attendantEmails := Some([]));
    }
    var e := Lower(email);
    if e !in u.attendantEmails.value {
      u := u.(attendantEmails := Some(u.attendantEmails.value + [e]));
    }
    ReplaceUserKeepsValid(db.St(), i, u);
    db.users := db.users[i := u];
    r := Ok(Some(u));
  }

  /** `delete_attendant_email` as written: membership is checked with the
      lower-cased address, but the raw address is the one removed, and
      `list.remove` raises ValueError when it is absent. */
  function AttendantDeletedAsWritten(s: State, id: int, email: string): (Result<Option<User>>, State) {
    match UserIndex(s.users, id)
    case None => (Ok(None), s)
    case Some(i) =>
      var l := OrElse(s.users[i].attendantEmails, []);
      if l == [] then (Ok(None), s)
      else if Lower(email) !in l then (Ok(Some(s.users[i])), s)
      else if email !in l then (Err(Raised("ValueError")), s)
      else
        var u := s.users[i].(attendantEmails := Some(RemoveFirst(l, email)));
        (Ok(Some(u)), s.(users := s.users[i := u]))
  }

  /** A stored lower-case address given back with any capital letter passes the
      membership test and then makes `remove` raise. */
  lemma DeleteRaisesValueError()
    ensures var u := User(1, "p@q.r", "P", None, Some(["a@b.c"]), Thresholds(None, None, None, None, None, None, None, None),
                          None, None, None, None, None, None, false);
            var s := State([u], [], [], [], [], [], [], [], [], 2);
            AttendantDeletedAsWritten(s, 1, "A@b.c").0 == Err(Raised("ValueError"))
  {
    assert Lower("A@b.c") == "a@b.c";
    assert "A@b.c" != "a@b.c";
  }

  /** `delete_attendant_email` with the lower-cased address removed, as the
      membership test intends. */
  function AttendantDeleted(s: State, id: int, email: string): (Result<Option<User>>, State) {
    match UserIndex(s.users, id)
    case None => (Ok(None), s)
    case Some(i) =>
      var l := OrElse(s.users[i].attendantEmails, []);
      if l == [] then (Ok(None), s)
      else if Lower(email) !in l then (Ok(Some(s.users[i])), s)
      else
        var u := s.users[i].(attendantEmails := Some(RemoveFirst(l, Lower(email))));
        (Ok(Some(u)), s.(users := s.users[i := u]))
  }

  /** The corrected delete never fails, and the as-written delete agrees
      with it whenever the address is given in lower case. */
  lemma AttendantDeletedAgrees(s: State, id: int, email: string)
    ensures AttendantDeleted(s, id, email).0.Ok?
    ensures Lower(email) == email ==> AttendantDeletedAsWritten(s, id, email) == AttendantDeleted(s, id, email)
  {
  }

  /** The corrected delete answers None exactly for an unknown user or an
      empty list, and returns the user unchanged when the lower-cased address
      is not listed.  It changes the store exactly when that address is
      listed; then exactly one copy of it is gone from that user's list and,
      in a list without repeats, the address is gone; nothing else changes. */
  lemma AttendantDeletedMeaning(s: State, id: int, email: string)
    ensures var res := AttendantDeleted(s, id, email);
            var f := UserIndex(s.users, id);
            (res.0 == Ok(None) <==> f.None? || OrElse(s.users[f.value].attendantEmails, []) == [])
            && (res.0 == Ok(None) ==> res.1 == s)
    ensures var res := AttendantDeleted(s, id, email);
            var f := UserIndex(s.users, id);
            f.Some? ==>
              var l := OrElse(s.users[f.value].attendantEmails, []);
              (res.1 != s <==> Lower(email) in l)
              && (l != [] && Lower(email) !in l ==> res == (Ok(Some(s.users[f.value])), s))
    ensures var res := AttendantDeleted(s, id, email);
            res.1 != s ==>
              exists i :: (0 <= i < |s.users| && s.users[i].id == id
                && var l := OrElse(s.users[i].attendantEmails, []);
                   res.0.Ok? && res.0.value.Some?
                   && res.1 == s.(users := s.users[i := res.0.value.value])
                   && Lower(email) in l
                   && res.0.value.value == s.users[i].(attendantEmails := Some(RemoveFirst(l, Lower(email))))
                   && multiset(RemoveFirst(l, Lower(email))) == multiset(l) - multiset{Lower(email)}
                   && (Distinct(l) ==> Lower(email) !in RemoveFirst(l, Lower(email))))
  {
    var f := UserIndex(s.users, id);
    if f.Some? {
      var i := f.value;
      var l := OrElse(s.users[i].attendantEmails, []);
      if l != [] && Lower(email) in l {
        RemoveFirstMeaning(l, Lower(email));
        assert |RemoveFirst(l, Lower(email))| < |l| by {
          assert |multiset(RemoveFirst(l, Lower(email)))| == |multiset(l)| - 1;
        }
        assert AttendantDeleted(s, id, email).1.users[i] != s.users[i];
        if Distinct(l) {
          RemoveFirstDistinct(l, Lower(email));
        }
        assert 0 <= i < |s.users| && s.users[i].id == id;
      }
    }
  }

  /** The route's call of `delete_attendant_email`, removing the lower-cased
      address the membership test looks for. */
  method DeleteAttendantEmail(db: Database, id: int, email: string) returns (r: Result<Option<User>>)
    requires db.Valid()
    modifies db
    ensures db.Valid()
    ensures (r, db.St()) == AttendantDeleted(old(db.St()), id, email)
  {
    var found := UserIndex(db.users, id);
    if found.None? {
      return Ok(None);
    }
    var i := found.value;
    var u := db.users[i];
    if u.attendantEmails.None? || u.attendantEmails.value == [] {
      return Ok(None);
    }
    var l := u.attendantEmails.value;
    if Lower(email) !in l {
      return Ok(Some(u));
    }
    u := u.(attendantEmails := Some(RemoveFirst(l, Lower(email))));
    ReplaceUserKeepsValid(db.St(), i, u);
    db.users := db.users[i := u];
    r := Ok(Some(u));
  }

  const UserMissing: Failure := Http(404, "User not found.")
  const NoAttendants: Failure := Http(404, "No attendant emails configured.")
  const InvalidOld: Failure := Http(400, "Invalid old email format")
  const InvalidNew: Failure := Http(400, "Invalid new email format")
  const OldMissing: Failure := Http(404, "Old email not found in user's attendant emails.")
  const NewPresent: Failure := Http(400, "New email already exists in user's attendant emails.")

  /** The checks of `update_single_attendant_email`, in the order the code
      makes them, on the list of user `i`. */
  function ReplaceRefusal(l: seq<string>, old_: string, new_: string, valid: string -> bool): Option<Failure> {
    if l == [] then Some(NoAttendants)
    else if !valid(old_) then Some(InvalidOld)
    else if !valid(new_) then Some(InvalidNew)
    else if Lower(old_) !in l then Some(OldMissing)
    else if Lower(new_) in l then Some(NewPresent)
    else None
  }

  /** `update_single_attendant_email` as written: the position is looked up
      with the raw old address, which raises ValueError when only its
      lower-cased form is listed. */
  function AttendantReplacedAsWritten(s: State, id: int, old_: string, new_: string, valid: string -> bool): (Result<User>, State) {
    match UserIndex(s.users, id)
    case None => (Err(UserMissing), s)
    case Some(i) =>
      var l := OrElse(s.users[i].attendantEmails, []);
      match ReplaceRefusal(l, old_, new_, valid)
      case Some(f) => (Err(f), s)
      case None =>
        if old_ !in l then (Err(Raised("ValueError")), s)
        else
          var u := s.users[i].(attendantEmails := Some(l[IndexOf(l, old_) := Lower(new_)]));
          (Ok(u), s.(users := s.users[i := u]))
  }

  /** An old address listed in lower case but given with a capital letter
      passes every check and then makes `index` raise. */
  lemma ReplaceRaisesValueError(valid: string -> bool)
    requires valid("A@b.c") && valid("d@e.f")
    ensures var u := User(1, "p@q.r", "P", None, Some(["a@b.c"]), Thresholds(None, None, None, None, None, None, None, None),
                          None, None, None, None, None, None, false);
            var s := State([u], [], [], [], [], [], [], [], [], 2);
            AttendantReplacedAsWritten(s, 1, "A@b.c", "d@e.f", valid).0 == Err(Raised("ValueError"))
  {
    assert Lower("A@b.c") == "a@b.c";
    assert Lower("d@e.f") == "d@e.f";
    assert "A@b.c" != "a@b.c";
  }

  /** `update_single_attendant_email` with the position of the lower-cased
      old address, as the membership test intends. */
  function AttendantReplaced(s: State, id: int, old_: string, new_: string, valid: string -> bool): (Result<User>, State) {
    match UserIndex(s.users, id)
    case None => (Err(UserMissing), s)
    case Some(i) =>
      var l := OrElse(s.users[i].attendantEmails, []);
      match ReplaceRefusal(l, old_, new_, valid)
      case Some(f) => (Err(f), s)
      case None =>
        var u := s.users[i].(attendantEmails := Some(l[IndexOf(l, Lower(old_)) := Lower(new_)]));
        (Ok(u), s.(users := s.users[i := u]))
  }

  /** The corrected replace fails only with the six refusals, and changes
      nothing then.  For a known user each refusal holds exactly when its own
      condition fails and every earlier one passes, in the code's order, and
      the replace succeeds exactly when none fails; on success the list keeps its length, the old
      address's slot holds the lower-cased new one, every other entry stays,
      and a list without repeats stays so.  The as-written replace agrees with
      it whenever the old address is given in lower case. */
  lemma AttendantReplacedMeaning(s: State, id: int, old_: string, new_: string, valid: string -> bool)
    ensures Lower(old_) == old_ ==>
              AttendantReplacedAsWritten(s, id, old_, new_, valid) == AttendantReplaced(s, id, old_, new_, valid)
    ensures var res := AttendantReplaced(s, id, old_, new_, valid);
            res.0.Err? ==> res.1 == s && res.0.failure in {UserMissing, NoAttendants, InvalidOld, InvalidNew, OldMissing, NewPresent}
    ensures var res := AttendantReplaced(s, id, old_, new_, valid);
            res.0 == Err(UserMissing) <==> forall j :: 0 <= j < |s.users| ==> s.users[j].id != id
    ensures var res := AttendantReplaced(s, id, old_, new_, valid);
            var f := UserIndex(s.users, id);
            f.Some? ==>
              var l := OrElse(s.users[f.value].attendantEmails, []);
              (res.0 == Err(NoAttendants) <==> l == [])
              && (res.0 == Err(InvalidOld) <==> l != [] && !valid(old_))
              && (res.0 == Err(InvalidNew) <==> l != [] && valid(old_) && !valid(new_))
              && (res.0 == Err(OldMissing) <==> l != [] && valid(old_) && valid(new_) && Lower(old_) !in l)
              && (res.0 == Err(NewPresent) <==> l != [] && valid(old_) && valid(new_) && Lower(old_) in l && Lower(new_) in l)
              && (res.0.Ok? <==> l != [] && valid(old_) && valid(new_) && Lower(old_) in l && Lower(new_) !in l)
    ensures var res := AttendantReplaced(s, id, old_, new_, valid);
            res.0.Ok? ==>
              exists i :: (0 <= i < |s.users| && s.users[i].id == id
                && var l, x := OrElse(s.users[i].attendantEmails, []), res.0.value;
                   res.1 == s.(users := s.users[i := x])
                   && valid(old_) && valid(new_) && Lower(old_) in l && Lower(new_) !in l
                   && x.attendantEmails.Some? && |x.attendantEmails.value| == |l|
                   && x.attendantEmails.value[IndexOf(l, Lower(old_))] == Lower(new_)
                   && (forall j :: 0 <= j < |l| && j != IndexOf(l, Lower(old_)) ==> x.attendantEmails.value[j] == l[j])
                   && (Distinct(l) ==> Distinct(x.attendantEmails.value))
                   && x.(attendantEmails := s.users[i].attendantEmails) == s.users[i])
  {
    var f := UserIndex(s.users, id);
    if f.Some? {
      var i := f.value;
      var l := OrElse(s.users[i].attendantEmails, []);
      if ReplaceRefusal(l, old_, new_, valid).None? {
        var k := IndexOf(l, Lower(old_));
        var m := l[k := Lower(new_)];
        if Distinct(l) {
          forall a, b | 0 <= a < b < |m|
            ensures m[a] != m[b]
          {
            if a == k {
              assert l[b] in l;
            } else if b == k {
              assert l[a] in l;
            }
          }
        }
        assert 0 <= i < |s.users| && s.users[i].id == id;
      }
    }
  }

  /** The route's call of `update_single_attendant_email`, replacing the slot
      of the lower-cased old address the membership test looks for. */
  method UpdateSingleAttendantEmail(db: Database, id: int, old_: string, new_: string, valid: string -> bool) returns (r: Result<User>)
    requires db.Valid()
    modifies db
    ensures db.Valid()
    ensures (r, db.St()) == AttendantReplaced(old(db.St()), id, old_, new_, valid)
  {
    var found := UserIndex(db.users, id);
    if found.None? {
      return Err(UserMissing);
    }
    var i := found.value;
    var u := db.users[i];
    if u.attendantEmails.None? || u.attendantEmails.value == [] {
      return Err(NoAttendants);
    }
    var l := u.attendantEmails.value;
    if !valid(old_) {
      return Err(InvalidOld);
    }
    if !valid(new_) {
      return Err(InvalidNew);
    }
    if Lower(old_) !in l {
      return Err(OldMissing);
    }
    if Lower(new_) in l {
      return Err(NewPresent);
    }
    var index := IndexOf(l, Lower(old_));
    u := u.(attendantEmails := Some(l[index := Lower(new_)]));
    ReplaceUserKeepsValid(db.St(), i, u);
    db.users := db.users[i := u];
    r := Ok(u);
  }

  // ---------------------------------------------------------------- sending

  /** The addresses whose delivery had outcome `ok`, in input order. */
  function WithOutcome(emails: seq<string>, delivers: string -> bool, ok: bool): (r: seq<string>)
    ensures forall e :: e in r ==> e in emails && delivers(e) == ok
  {
    if emails == [] then []
    else
      var last := emails[|emails| - 1];
      WithOutcome(emails[..|emails| - 1], delivers, ok) + (if delivers(last) == ok then [last] else [])
  }

  /** Every address lands in exactly one of the two lists, as often as it
      occurs in the input. */
  lemma {:induction false} OutcomesPartition(emails: seq<string>, delivers: string -> bool)
    ensures multiset(WithOutcome(emails, delivers, true)) + multiset(WithOutcome(emails, delivers, false)) == multiset(emails)
    ensures |WithOutcome(emails, delivers, true)| + |WithOutcome(emails, delivers, false)| == |emails|
  {
    if emails != [] {
      var init, last := emails[..|emails| - 1], emails[|emails| - 1];
      OutcomesPartition(init, delivers);
      assert emails == init + [last];
      var yes, no := WithOutcome(init, delivers, true), WithOutcome(init, delivers, false);
      if delivers(last) {
        assert WithOutcome(emails, delivers, true) == yes + [last];
        assert WithOutcome(emails, delivers, false) == no;
      } else {
        assert WithOutcome(emails, delivers, true) == yes;
        assert WithOutcome(emails, delivers, false) == no + [last];
      }
    }
  }

  /** `send_email_to_attendants`: one send per address in order, `delivers`
      telling whether the send returned or raised. */
  method SendEmailToAttendants(emails: seq<string>, delivers: string -> bool) returns (sentTo: seq<string>, failed: seq<string>)
    ensures sentTo == WithOutcome(emails, delivers, true)
    ensures failed == WithOutcome(emails, delivers, false)
  {
    if emails == [] {
      return [], [];
    }
    sentTo, failed := [], [];
    var i := 0;
    while i < |emails|
      invariant 0 <= i <= |emails|
      invariant sentTo == WithOutcome(emails[..i], delivers, true)
      invariant failed == WithOutcome(emails[..i], delivers, false)
    {
      assert emails[..i + 1][..i] == emails[..i];
      if delivers(emails[i]) {
        sentTo := sentTo + [emails[i]];
      } else {
        failed := failed + [emails[i]];
      }
      i := i + 1;
    }
    assert emails[..i] == emails;
  }
}
