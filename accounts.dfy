/** The account routes: password reset by e-mailed token, e-mail verification,
    password change, sign-up, and log-in by password or by a Firebase identity.
    Password hashing and checking, token generation, the clock and Firebase's
    token check are parameters; the clock reads whole seconds of UTC. */
module Accounts {
  import opened Wrappers
  import opened Entities
  import opened Store
  import Users

  /** How long a reset or verification token stays valid: `timedelta(hours=1)`. */
  const TokenLifetime: int := 3600

  /** What a user row is looked up by. */
  datatype Key = Email(email: string) | ResetToken(token: string) | VerificationToken(token: string)

  predicate Holds(u: User, k: Key) {
    match k
    case Email(e) => u.email == e
    case ResetToken(t) => u.resetToken == Some(t)
    case VerificationToken(t) => u.verificationToken == Some(t)
  }

  /** `query(User).filter(<column> == …).first()`. */
  function UserWhere(rows: seq<User>, k: Key): (r: Option<nat>)
    ensures r.Some? ==> r.value < |rows| && Holds(rows[r.value], k) && forall j :: 0 <= j < r.value ==> !Holds(rows[j], k)
    ensures r.None? <==> forall j :: 0 <= j < |rows| ==> !Holds(rows[j], k)
  {
    if rows == [] then None
    else if Holds(rows[0], k) then Some(0)
    else match UserWhere(rows[1..], k)
      case None => None
      case Some(j) => Some(j + 1)
  }

  /** At most one user matches `k`. */
  predicate HeldOnce(rows: seq<User>, k: Key) {
    forall a, b :: 0 <= a < b < |rows| ==> !(Holds(rows[a], k) && Holds(rows[b], k))
  }

  /** A Python string or optional string that is falsy: None or empty. */
  predicate Falsy(o: Option<string>) {
    o.None? || o.value == ""
  }

  /** `pwd_context.verify(plain, stored)`; a user without a password never matches. */
  predicate Matches(verify: (string, string) -> bool, plain: string, stored: Option<string>) {
    stored.Some? && verify(plain, stored.value)
  }

  /** An expiry that is set and not yet passed at `now`. */
  predicate Live(expiry: Option<int>, now: int) {
    expiry.Some? && !(expiry.value < now)
  }

  /** Appending a user with the next id and an e-mail nobody has keeps the store valid. */
  lemma AppendKeepsValid(s: State, u: User)
    requires ValidState(s)
    requires u.id == s.nextId && UserWhere(s.users, Email(u.email)).None?
    ensures ValidState(s.(users := s.users + [u], nextId := s.nextId + 1))
  {
  }

  // ---------------------------------------------------------------- reset by token

  const UserMissing: Failure := Http(404, "User not found")
  const BadToken: Failure := Http(400, "Invalid or expired token")

  /** `forgot_password`: the user with that e-mail gets `token`, valid for an hour. */
  function ForgotPassword(s: State, email: string, token: string, now: int): (Result<()>, State) {
    match UserWhere(s.users, Email(email))
    case None => (Err(UserMissing), s)
    case Some(i) =>
      var u := s.users[i].(resetToken := Some(token), resetTokenExpiry := Some(now + TokenLifetime));
      (Ok(()), s.(users := s.users[i := u]))
  }

  /** `reset_password`: the first user holding the token, if its expiry is set
      and not passed, gets the new password and loses the token. */
  function PasswordReset(s: State, token: string, newPassword: string, hash: string -> string, now: int): (Result<()>, State) {
    match UserWhere(s.users, ResetToken(token))
    case None => (Err(BadToken), s)
    case Some(i) =>
      if !Live(s.users[i].resetTokenExpiry, now) then (Err(BadToken), s)
      else
        var u := s.users[i].(password := Some(hash(newPassword)), resetToken := None, resetTokenExpiry := None);
        (Ok(()), s.(users := s.users[i := u]))
  }

  /** A reset succeeds exactly when a user holds the token and that user's
      expiry is set and not passed; it then sets that user's password and
      clears both token columns, and changes nothing else.  A refused reset
      changes nothing. */
  lemma PasswordResetMeaning(s: State, token: string, newPassword: string, hash: string -> string, now: int)
    ensures var res := PasswordReset(s, token, newPassword, hash, now);
            var f := UserWhere(s.users, ResetToken(token));
            (res.0.Ok? <==> f.Some? && Live(s.users[f.value].resetTokenExpiry, now))
            && (res.0.Err? ==> res.0.failure == BadToken && res.1 == s)
            && (res.0.Ok? ==>
                  var before := s.users[f.value];
                  res.1 == s.(users := s.users[f.value := before.(password := Some(hash(newPassword)), resetToken := None, resetTokenExpiry := None)]))
  {
  }

  /** A token works once: when only one user held it, a second reset with it
      is refused. */
  lemma PasswordResetSingleUse(s: State, token: string, p1: string, p2: string, hash: string -> string, now: int, later: int)
    requires HeldOnce(s.users, ResetToken(token))
    requires PasswordReset(s, token, p1, hash, now).0.Ok?
    ensures PasswordReset(PasswordReset(s, token, p1, hash, now).1, token, p2, hash, later) == (Err(BadToken), PasswordReset(s, token, p1, hash, now).1)
  {
    var i := UserWhere(s.users, ResetToken(token)).value;
    var t := PasswordReset(s, token, p1, hash, now).1;
    forall j | 0 <= j < |t.users|
      ensures !Holds(t.users[j], ResetToken(token))
    {
      if j != i {
        assert t.users[j] == s.users[j];
      }
    }
  }

  /** A reset with the token just sent succeeds for an hour and not later,
      provided nobody else held that token, and it is the requesting user who
      gets the new password. */
  lemma ForgotThenReset(s: State, email: string, token: string, newPassword: string, hash: string -> string, now: int, later: int)
    requires UserWhere(s.users, ResetToken(token)).None?
    requires ForgotPassword(s, email, token, now).0.Ok?
    ensures var t := ForgotPassword(s, email, token, now).1;
            var i := UserWhere(s.users, Email(email)).value;
            (PasswordReset(t, token, newPassword, hash, later).0.Ok? <==> later <= now + TokenLifetime)
            && (later <= now + TokenLifetime ==>
                  PasswordReset(t, token, newPassword, hash, later).1.users[i].password == Some(hash(newPassword)))
  {
    var t := ForgotPassword(s, email, token, now).1;
    var i := UserWhere(s.users, Email(email)).value;
    var f := UserWhere(t.users, ResetToken(token));
    assert Holds(t.users[i], ResetToken(token));
    assert f == Some(i);
  }

  /** The `forgot_password` route. */
  method ForgotPasswordRoute(db: Database, email: string, token: string, now: int) returns (r: Result<()>)
    requires db.Valid()
    modifies db
    ensures db.Valid()
    ensures (r, db.St()) == ForgotPassword(old(db.St()), email, token, now)
  {
    var found := UserWhere(db.users, Email(email));
    if found.None? {
      return Err(UserMissing);
    }
    var i := found.value;
    var u := db.users[i];
    u := u.(resetToken := Some(token));
    u := u.(resetTokenExpiry := Some(now + TokenLifetime));
    Users.ReplaceUserKeepsValid(db.St(), i, u);
    db.users := db.users[i := u];
    r := Ok(());
  }

  /** The `reset_password` route. */
  method ResetPasswordRoute(db: Database, token: string, newPassword: string, hash: string -> string, now: int) returns (r: Result<()>)
    requires db.Valid()
    modifies db
    ensures db.Valid()
    ensures (r, db.St()) == PasswordReset(old(db.St()), token, newPassword, hash, now)
  {
    var found := UserWhere(db.users, ResetToken(token));
    if found.None? || db.users[found.value].resetTokenExpiry.None? || db.users[found.value].resetTokenExpiry.value < now {
      return Err(BadToken);
    }
    var i := found.value;
    var u := db.users[i];
    u := u.(password := Some(hash(newPassword)));
    u := u.(resetToken := None);
    u := u.(resetTokenExpiry := None);
    Users.ReplaceUserKeepsValid(db.St(), i, u);
    db.users := db.users[i := u];
    r := Ok(());
  }

  // ---------------------------------------------------------------- e-mail verification

  /** `verify_email`: the same token check on the verification columns; the
      user is marked verified and the token cleared.  The result is the id the
      access token is issued for. */
  function EmailVerified(s: State, token: string, now: int): (Result<int>, State) {
    match UserWhere(s.users, VerificationToken(token))
    case None => (Err(BadToken), s)
    case Some(i) =>
      if !Live(s.users[i].verificationTokenExpiry, now) then (Err(BadToken), s)
      else
        var u := s.users[i].(verificationToken := None, verificationTokenExpiry := None, emailVerified := true);
        (Ok(u.id), s.(users := s.users[i := u]))
  }

  /** Verification succeeds exactly when a user holds the token with a live
      expiry; that user is then verified, holds no token, and is the one the
      access token names.  A token works once when only one user held it. */
  lemma EmailVerifiedMeaning(s: State, token: string, now: int, later: int)
    ensures var res := EmailVerified(s, token, now);
            var f := UserWhere(s.users, VerificationToken(token));
            (res.0.Ok? <==> f.Some? && Live(s.users[f.value].verificationTokenExpiry, now))
            && (res.0.Err? ==> res.0.failure == BadToken && res.1 == s)
            && (res.0.Ok? ==>
                  var before := s.users[f.value];
                  res.0.value == before.id
                  && res.1 == s.(users := s.users[f.value := before.(verificationToken := None, verificationTokenExpiry := None, emailVerified := true)]))
    ensures var res := EmailVerified(s, token, now);
            res.0.Ok? && HeldOnce(s.users, VerificationToken(token)) ==> EmailVerified(res.1, token, later) == (Err(BadToken), res.1)
  {
    var res := EmailVerified(s, token, now);
    if res.0.Ok? && HeldOnce(s.users, VerificationToken(token)) {
      var i := UserWhere(s.users, VerificationToken(token)).value;
      forall j | 0 <= j < |res.1.users|
        ensures !Holds(res.1.users[j], VerificationToken(token))
      {
        if j != i {
          assert res.1.users[j] == s.users[j];
        }
      }
    }
  }

  /** The `verify_email` route. */
  method VerifyEmailRoute(db: Database, token: string, now: int) returns (r: Result<int>)
    requires db.Valid()
    modifies db
    ensures db.Valid()
    ensures (r, db.St()) == EmailVerified(old(db.St()), token, now)
  {
    var found := UserWhere(db.users, VerificationToken(token));
    if found.None? || db.users[found.value].verificationTokenExpiry.None? || db.users[found.value].verificationTokenExpiry.value < now {
      return Err(BadToken);
    }
    var i := found.value;
    var u := db.users[i];
    u := u.(verificationToken := None);
    u := u.(verificationTokenExpiry := None);
    u := u.(emailVerified := true);
    Users.ReplaceUserKeepsValid(db.St(), i, u);
    db.users := db.users[i := u];
    r := Ok(u.id);
  }

  // ---------------------------------------------------------------- password change

  const PasswordsRequired: Failure := Http(400, "Old and new passwords are required")
  const OldPasswordWrong: Failure := Http(401, "Old password is incorrect")

  /** `change_password` for the user the access token names.  A token naming a
      deleted user yields None from the lookup, and reading its password
      raises AttributeError. */
  function PasswordChanged(s: State, userId: int, oldPassword: string, newPassword: string,
                           hash: string -> string, verify: (string, string) -> bool): (Result<()>, State) {
    if oldPassword == "" || newPassword == "" then (Err(PasswordsRequired), s)
    else
      match Users.UserIndex(s.users, userId)
      case None => (Err(Raised("AttributeError")), s)
      case Some(i) =>
        if !Matches(verify, oldPassword, s.users[i].password) then (Err(OldPasswordWrong), s)
        else (Ok(()), s.(users := s.users[i := s.users[i].(password := Some(hash(newPassword)))]))
  }

  /** The password changes only when both passwords are given and the old one
      checks against the stored hash; it then becomes the hash of the new one,
      and nothing else changes.  Every refusal leaves the store alone. */
  lemma PasswordChangedMeaning(s: State, userId: int, oldPassword: string, newPassword: string,
                               hash: string -> string, verify: (string, string) -> bool)
    ensures var res := PasswordChanged(s, userId, oldPassword, newPassword, hash, verify);
            var f := Users.UserIndex(s.users, userId);
            (res.0.Ok? <==> oldPassword != "" && newPassword != "" && f.Some? && Matches(verify, oldPassword, s.users[f.value].password))
            && (res.0.Err? ==> res.1 == s)
            && (res.0 == Err(OldPasswordWrong) <==>
                  oldPassword != "" && newPassword != "" && f.Some? && !Matches(verify, oldPassword, s.users[f.value].password))
            && (res.0.Ok? ==> res.1 == s.(users := s.users[f.value := s.users[f.value].(password := Some(hash(newPassword)))]))
  {
  }

  /** The `change_password` route. */
  method ChangePasswordRoute(db: Database, userId: int, oldPassword: string, newPassword: string,
                             hash: string -> string, verify: (string, string) -> bool) returns (r: Result<()>)
    requires db.Valid()
    modifies db
    ensures db.Valid()
    ensures (r, db.St()) == PasswordChanged(old(db.St()), userId, oldPassword, newPassword, hash, verify)
  {
    if oldPassword == "" || newPassword == "" {
      return Err(PasswordsRequired);
    }
    var found := Users.UserIndex(db.users, userId);
    if found.None? {
      return Err(Raised("AttributeError"));
    }
    var i := found.value;
    if !Matches(verify, oldPassword, db.users[i].password) {
      return Err(OldPasswordWrong);
    }
    var u := db.users[i].(password := Some(hash(newPassword)));
    Users.ReplaceUserKeepsValid(db.St(), i, u);
    db.users := db.users[i := u];
    r := Ok(());
  }

  // ---------------------------------------------------------------- Firebase users

  /** What Firebase's token check yields: the uid, e-mail, sign-in provider and name. */
  datatype FirebaseUser = FirebaseUser(uid: string, email: string, provider: string, name: string)

  /** The provider names a new row is compared with: `("google", "microsoft")`
      in the code, `("google.com", "microsoft.com")` as intended. */
  datatype ProviderNames = ProviderNames(google: string, microsoft: string)

  const WrittenNames: ProviderNames := ProviderNames("google", "microsoft")
  const IntendedNames: ProviderNames := ProviderNames("google.com", "microsoft.com")

  /** A new row as `User(...)` builds it from the column defaults: no
      password, an empty attendant list, no thresholds, not verified. */
  function NewUser(id: int, email: string, name: string, password: Option<string>, googleUid: Option<string>, microsoftUid: Option<string>): User {
    User(id, email, name, password, Some([]), Thresholds(None, None, None, None, None, None, None, None),
         googleUid, microsoftUid, None, None, None, None, false)
  }

  /** `check_name_not_empty` and `check_email_format`, checked at the commit. */
  predicate Insertable(email: string, name: string) {
    name != "" && '@' in email
  }

  /** `get_or_create_firebase_user`: an existing row with the e-mail gets the
      provider's uid when that column is still falsy; otherwise a new row is
      inserted, with the uid stored only when the provider equals the
      name in `names`. */
  function FirebaseUserGot(s: State, f: FirebaseUser, names: ProviderNames): (Result<User>, State) {
    match UserWhere(s.users, Email(f.email))
    case Some(i) =>
      var u := s.users[i];
      var v :=
        if f.provider == "google.com" && Falsy(u.googleUid) then u.(googleUid := Some(f.uid))
        else if f.provider == "microsoft.com" && Falsy(u.microsoftUid) then u.(microsoftUid := Some(f.uid))
        else u;
      (Ok(v), s.(users := s.users[i := v]))
    case None =>
      if !Insertable(f.email, f.name) then (Err(Raised("IntegrityError")), s)
      else
        var u := NewUser(s.nextId, f.email, f.name, None,
                         if f.provider == names.google then Some(f.uid) else None,
                         if f.provider == names.microsoft then Some(f.uid) else None);
        (Ok(u), s.(users := s.users + [u], nextId := s.nextId + 1))
  }

  /** As written, a first Google sign-in (provider "google.com") creates a user
      with no Google uid recorded. */
  lemma FirebaseUidDropped(s: State, uid: string, email: string, name: string)
    requires UserWhere(s.users, Email(email)).None? && Insertable(email, name)
    ensures var res := FirebaseUserGot(s, FirebaseUser(uid, email, "google.com", name), WrittenNames);
            res.0.Ok? && res.0.value.googleUid.None? && res.0.value.microsoftUid.None?
  {
  }

  /** With the intended names, after a sign-in through an allowed provider the
      returned user is the one with that e-mail, and its uid column for that
      provider is set: to the new uid when it was falsy or the user is new,
      kept otherwise; no other column changes for an existing user. */
  lemma FirebaseUserGotIntended(s: State, f: FirebaseUser)
    requires f.provider in ["google.com", "microsoft.com"]
    ensures var res := FirebaseUserGot(s, f, IntendedNames);
            var w := UserWhere(s.users, Email(f.email));
            (res.0.Err? <==> w.None? && !Insertable(f.email, f.name))
            && (res.0.Err? ==> res.1 == s)
            && (res.0.Ok? ==>
                  var u := res.0.value;
                  u.email == f.email
                  && (f.provider == "google.com" ==>
                        u.googleUid.Some? && (w.None? || Falsy(s.users[w.value].googleUid) ==> u.googleUid == Some(f.uid)))
                  && (f.provider == "microsoft.com" ==>
                        u.microsoftUid.Some? && (w.None? || Falsy(s.users[w.value].microsoftUid) ==> u.microsoftUid == Some(f.uid)))
                  && (w.Some? ==> u.(googleUid := s.users[w.value].googleUid, microsoftUid := s.users[w.value].microsoftUid) == s.users[w.value]
                                  && res.1 == s.(users := s.users[w.value := u]))
                  && (w.None? ==> u.id == s.nextId && u.password.None? && !u.emailVerified
                                  && res.1 == s.(users := s.users + [u], nextId := s.nextId + 1)))
  {
  }

  /** Firebase sign-in keeps the store valid: the e-mail stays unique. */
  lemma FirebaseUserGotKeepsValid(s: State, f: FirebaseUser, names: ProviderNames)
    requires ValidState(s)
    ensures ValidState(FirebaseUserGot(s, f, names).1)
  {
    match UserWhere(s.users, Email(f.email)) {
      case Some(i) =>
        var u := s.users[i];
        var v :=
          if f.provider == "google.com" && Falsy(u.googleUid) then u.(googleUid := Some(f.uid))
          else if f.provider == "microsoft.com" && Falsy(u.microsoftUid) then u.(microsoftUid := Some(f.uid))
          else u;
        Users.ReplaceUserKeepsValid(s, i, v);
      case None =>
    }
  }

  // ---------------------------------------------------------------- log-in

  /** The log-in payload. */
  datatype LoginIn = LoginIn(email: Option<string>, password: Option<string>, firebaseToken: Option<string>)

  const InvalidFirebaseToken: Failure := Http(401, "Invalid Firebase token")
  const ProviderNotAllowed: Failure := Http(401, "Sign-in provider not allowed. Please use Google or Microsoft.")
  const CredentialsRequired: Failure := Http(400, "Email and password are required")
  const BadCredentials: Failure := Http(401, "Invalid email or password")
  const Unverified: Failure := Http(401, "Your email address hasn't been verified yet. Please check your inbox for our verification email and click the link to activate your account.")

  /** `login_user`.  `firebase` is what the token check returned; `token` and
      `now` feed the fresh verification token an unverified user receives,
      which is committed before the 401 is raised; `names` are the provider
      names `get_or_create_firebase_user` compares with.  The result is the id
      the access token is issued for. */
  function LoggedIn(s: State, p: LoginIn, firebase: Option<FirebaseUser>, names: ProviderNames,
                    verify: (string, string) -> bool, token: string, now: int): (Result<int>, State) {
    if !Falsy(p.firebaseToken) then
      if firebase.None? then (Err(InvalidFirebaseToken), s)
      else if firebase.value.provider !in ["google.com", "microsoft.com"] then (Err(ProviderNotAllowed), s)
      else
        var got := FirebaseUserGot(s, firebase.value, names);
        match got.0
        case Err(e) => (Err(e), s)
        case Ok(u) => (Ok(u.id), got.1)
    else if Falsy(p.email) || Falsy(p.password) then (Err(CredentialsRequired), s)
    else
      match UserWhere(s.users, Email(p.email.value))
      case None => (Err(BadCredentials), s)
      case Some(i) =>
        var u := s.users[i];
        if !Matches(verify, p.password.value, u.password) then (Err(BadCredentials), s)
        else if !u.emailVerified then
          (Err(Unverified),
           s.(users := s.users[i := u.(verificationToken := Some(token), verificationTokenExpiry := Some(now + TokenLifetime))]))
        else (Ok(u.id), s)
  }

  /** Password log-in: it succeeds exactly for a verified user whose password
      checks, naming that user, and changes nothing then; an unverified user
      with the right password is refused but receives a fresh token valid for
      an hour; every other refusal changes nothing.  Firebase log-in refuses
      a token that does not check and every provider but Google and
      Microsoft; otherwise it answers with the id of the user
      `get_or_create_firebase_user` finds or makes, keeping what it stored. */
  lemma LoggedInMeaning(s: State, p: LoginIn, firebase: Option<FirebaseUser>, names: ProviderNames,
                        verify: (string, string) -> bool, token: string, now: int)
    ensures var res := LoggedIn(s, p, firebase, names, verify, token, now);
            Falsy(p.firebaseToken) && !Falsy(p.email) && !Falsy(p.password) ==>
              var w := UserWhere(s.users, Email(p.email.value));
              (res.0.Ok? <==> w.Some? && Matches(verify, p.password.value, s.users[w.value].password) && s.users[w.value].emailVerified)
              && (res.0.Ok? ==> res.0.value == s.users[w.value].id && res.1 == s)
              && (res.0 == Err(Unverified) <==> w.Some? && Matches(verify, p.password.value, s.users[w.value].password) && !s.users[w.value].emailVerified)
              && (res.0 == Err(Unverified) ==>
                    res.1 == s.(users := s.users[w.value := s.users[w.value].(verificationToken := Some(token), verificationTokenExpiry := Some(now + TokenLifetime))]))
              && (res.0.Err? && res.0 != Err(Unverified) ==> res.0 == Err(BadCredentials) && res.1 == s)
    ensures var res := LoggedIn(s, p, firebase, names, verify, token, now);
            Falsy(p.firebaseToken) && (Falsy(p.email) || Falsy(p.password)) ==> res == (Err(CredentialsRequired), s)
    ensures var res := LoggedIn(s, p, firebase, names, verify, token, now);
            !Falsy(p.firebaseToken) && firebase.Some? && firebase.value.provider !in ["google.com", "microsoft.com"] ==>
              res == (Err(ProviderNotAllowed), s)
    ensures var res := LoggedIn(s, p, firebase, names, verify, token, now);
            !Falsy(p.firebaseToken) && firebase.None? ==> res == (Err(InvalidFirebaseToken), s)
    ensures var res := LoggedIn(s, p, firebase, names, verify, token, now);
            !Falsy(p.firebaseToken) && firebase.Some? && firebase.value.provider in ["google.com", "microsoft.com"] ==>
              var got := FirebaseUserGot(s, firebase.value, names);
              (res.0.Ok? <==> got.0.Ok?)
              && (res.0.Ok? ==> res.0.value == got.0.value.id && res.1 == got.1)
              && (res.0.Err? ==> res.0 == Err(got.0.failure) && res.1 == s)
  {
  }

  /** With the corrected provider names, a Firebase log-in through an allowed
      provider answers with the id of the user holding that e-mail, or with
      the next id when it makes one; it fails only when a new row would break
      the table's CHECK constraints, and then changes nothing. */
  lemma FirebaseLoginIdentifies(s: State, p: LoginIn, f: FirebaseUser, verify: (string, string) -> bool, token: string, now: int)
    requires !Falsy(p.firebaseToken) && f.provider in ["google.com", "microsoft.com"]
    ensures var res := LoggedIn(s, p, Some(f), IntendedNames, verify, token, now);
            var w := UserWhere(s.users, Email(f.email));
            (res.0.Err? <==> w.None? && !Insertable(f.email, f.name))
            && (res.0.Err? ==> res == (Err(Raised("IntegrityError")), s))
            && (res.0.Ok? && w.Some? ==> res.0.value == s.users[w.value].id && |res.1.users| == |s.users|
                                         && res.1.users[w.value].email == f.email)
            && (res.0.Ok? && w.None? ==> res.0.value == s.nextId && res.1.users == s.users + [res.1.users[|s.users|]]
                                         && res.1.users[|s.users|].email == f.email)
  {
    FirebaseUserGotIntended(s, f);
  }

  /** The verification token an unverified log-in sends works for an hour and
      then marks that user verified, provided nobody else held that token. */
  lemma UnverifiedLoginThenVerify(s: State, p: LoginIn, firebase: Option<FirebaseUser>, names: ProviderNames, verify: (string, string) -> bool,
                                  token: string, now: int, later: int)
    requires UserWhere(s.users, VerificationToken(token)).None?
    requires LoggedIn(s, p, firebase, names, verify, token, now).0 == Err(Unverified)
    ensures var t := LoggedIn(s, p, firebase, names, verify, token, now).1;
            var i := UserWhere(s.users, Email(p.email.value)).value;
            (EmailVerified(t, token, later).0.Ok? <==> later <= now + TokenLifetime)
            && (later <= now + TokenLifetime ==> EmailVerified(t, token, later).1.users[i].emailVerified)
  {
    var t := LoggedIn(s, p, firebase, names, verify, token, now).1;
    var i := UserWhere(s.users, Email(p.email.value)).value;
    var f := UserWhere(t.users, VerificationToken(token));
    assert Holds(t.users[i], VerificationToken(token));
    assert f == Some(i);
  }

  /** `get_or_create_firebase_user`, with a new row's uid stored when the
      provider equals the name in `names`: `WrittenNames` is the code as
      written, `IntendedNames` the corrected function. */
  method GetOrCreateFirebaseUser(db: Database, f: FirebaseUser, names: ProviderNames) returns (r: Result<User>)
    requires db.Valid()
    modifies db
    ensures db.Valid()
    ensures (r, db.St()) == FirebaseUserGot(old(db.St()), f, names)
  {
    FirebaseUserGotKeepsValid(db.St(), f, names);
    var found := UserWhere(db.users, Email(f.email));
    if found.Some? {
      var i := found.value;
      var u := db.users[i];
      if f.provider == "google.com" && Falsy(u.googleUid) {
        u := u.(googleUid := Some(f.uid));
      } else if f.provider == "microsoft.com" && Falsy(u.microsoftUid) {
        u := u.(microsoftUid := Some(f.uid));
      }
      db.users := db.users[i := u];
      return Ok(u);
    }
    if !Insertable(f.email, f.name) {
      return Err(Raised("IntegrityError"));
    }
    var u := NewUser(db.nextId, f.email, f.name, None,
                     if f.provider == names.google then Some(f.uid) else None,
                     if f.provider == names.microsoft then Some(f.uid) else None);
    db.users := db.users + [u];
    db.nextId := db.nextId + 1;
    r := Ok(u);
  }

  /** The `login_user` route, calling `get_or_create_firebase_user` with
      `names`: `WrittenNames` is the route as written, `IntendedNames` the
      corrected one. */
  method LoginRoute(db: Database, p: LoginIn, firebase: Option<FirebaseUser>, names: ProviderNames,
                    verify: (string, string) -> bool, token: string, now: int) returns (r: Result<int>)
    requires db.Valid()
    modifies db
    ensures db.Valid()
    ensures (r, db.St()) == LoggedIn(old(db.St()), p, firebase, names, verify, token, now)
  {
    if !Falsy(p.firebaseToken) {
      if firebase.None? {
        return Err(InvalidFirebaseToken);
      }
      if firebase.value.provider !in ["google.com", "microsoft.com"] {
        return Err(ProviderNotAllowed);
      }
      var got := GetOrCreateFirebaseUser(db, firebase.value, names);
      if got.Err? {
        return Err(got.failure);
      }
      return Ok(got.value.id);
    }
    if Falsy(p.email) || Falsy(p.password) {
      return Err(CredentialsRequired);
    }
    var found := UserWhere(db.users, Email(p.email.value));
    if found.None? || !Matches(verify, p.password.value, db.users[found.value].password) {
      return Err(BadCredentials);
    }
    var i := found.value;
    var u := db.users[i];
    if !u.emailVerified {
      u := u.(verificationToken := Some(token), verificationTokenExpiry := Some(now + TokenLifetime));
      Users.ReplaceUserKeepsValid(db.St(), i, u);
      db.users := db.users[i := u];
      return Err(Unverified);
    }
    r := Ok(u.id);
  }

  // ---------------------------------------------------------------- sign-up

  /** The sign-up payload. */
  datatype SignupIn = SignupIn(email: string, name: string, password: Option<string>,
                               attendantEmails: Option<seq<string>>, thresholds: Thresholds)

  const PasswordRequired: Failure := Http(400, "Password is required")
  const AlreadyRegistered: Failure := Http(400, "Email already registered")

  /** `create_new_user`: an existing password-less user (one made by Firebase
      sign-in) gets the password and no token; a new user is inserted by
      `create_user` and then given a verification token valid for an hour. */
  function SignedUp(s: State, p: SignupIn, hash: string -> string, token: string, now: int): (Result<()>, State) {
    if Falsy(p.password) then (Err(PasswordRequired), s)
    else
      match UserWhere(s.users, Email(p.email))
      case Some(i) =>
        if !Falsy(s.users[i].password) then (Err(AlreadyRegistered), s)
        else (Ok(()), s.(users := s.users[i := s.users[i].(password := Some(hash(p.password.value)))]))
      case None =>
        if !Insertable(p.email, p.name) then (Err(Raised("IntegrityError")), s)
        else
          var u := NewUser(s.nextId, p.email, p.name, Some(hash(p.password.value)), None, None)
                     .(attendantEmails := Some(OrElse(p.attendantEmails, [])), thresholds := p.thresholds,
                       verificationToken := Some(token), verificationTokenExpiry := Some(now + TokenLifetime));
          (Ok(()), s.(users := s.users + [u], nextId := s.nextId + 1))
  }

  /** Sign-up refuses a missing password and an e-mail whose user has one;
      it completes a password-less user without sending a token; and it adds
      exactly one unverified user with the hashed password and a token valid
      for an hour when the e-mail is new.  Refusals change nothing. */
  lemma SignedUpMeaning(s: State, p: SignupIn, hash: string -> string, token: string, now: int)
    ensures var res := SignedUp(s, p, hash, token, now);
            var w := UserWhere(s.users, Email(p.email));
            (res.0 == Err(PasswordRequired) <==> Falsy(p.password))
            && (res.0 == Err(AlreadyRegistered) <==> !Falsy(p.password) && w.Some? && !Falsy(s.users[w.value].password))
            && (res.0.Err? ==> res.1 == s)
            && (res.0.Ok? && w.Some? ==>
                  res.1 == s.(users := s.users[w.value := s.users[w.value].(password := Some(hash(p.password.value)))]))
            && (res.0.Ok? && w.None? ==>
                  res.1.nextId == s.nextId + 1 && |res.1.users| == |s.users| + 1
                  && res.1.users[..|s.users|] == s.users
                  && var u := res.1.users[|s.users|];
                     u.id == s.nextId && u.email == p.email && u.name == p.name
                     && u.password == Some(hash(p.password.value)) && !u.emailVerified
                     && u.verificationToken == Some(token) && u.verificationTokenExpiry == Some(now + TokenLifetime)
                     && res.1.(users := s.users, nextId := s.nextId) == s)
  {
    var res := SignedUp(s, p, hash, token, now);
    if res.0.Ok? && UserWhere(s.users, Email(p.email)).None? {
      assert res.1.users[..|s.users|] == s.users;
    }
  }

  /** After a sign-up with a new e-mail, that e-mail and password log in,
      once the token sent is used within the hour. */
  lemma SignUpThenVerifyThenLogin(s: State, p: SignupIn, names: ProviderNames, hash: string -> string, verify: (string, string) -> bool,
                                  token: string, now: int, later: int)
    requires UserWhere(s.users, Email(p.email)).None? && UserWhere(s.users, VerificationToken(token)).None?
    requires SignedUp(s, p, hash, token, now).0.Ok?
    requires later <= now + TokenLifetime
    requires verify(p.password.value, hash(p.password.value))
    ensures var t := EmailVerified(SignedUp(s, p, hash, token, now).1, token, later);
            t.0 == Ok(s.nextId)
            && LoggedIn(t.1, LoginIn(Some(p.email), p.password, None), None, names, verify, token, later).0 == Ok(s.nextId)
  {
    var a := SignedUp(s, p, hash, token, now).1;
    var n := |s.users|;
    assert a.users == s.users + [a.users[n]];
    var f := UserWhere(a.users, VerificationToken(token));
    assert Holds(a.users[n], VerificationToken(token));
    assert f == Some(n);
    var t := EmailVerified(a, token, later);
    var g := UserWhere(t.1.users, Email(p.email));
    assert Holds(t.1.users[n], Email(p.email));
    assert g == Some(n);
  }

  /** The `create_new_user` route. */
  method SignupRoute(db: Database, p: SignupIn, hash: string -> string, token: string, now: int) returns (r: Result<()>)
    requires db.Valid()
    modifies db
    ensures db.Valid()
    ensures (r, db.St()) == SignedUp(old(db.St()), p, hash, token, now)
  {
    if Falsy(p.password) {
      return Err(PasswordRequired);
    }
    var found := UserWhere(db.users, Email(p.email));
    if found.Some? {
      var i := found.value;
      if !Falsy(db.users[i].password) {
        return Err(AlreadyRegistered);
      }
      var u := db.users[i].(password := Some(hash(p.password.value)));
      Users.ReplaceUserKeepsValid(db.St(), i, u);
      db.users := db.users[i := u];
      return Ok(());
    }
    if !Insertable(p.email, p.name) {
      return Err(Raised("IntegrityError"));
    }
    var u := NewUser(db.nextId, p.email, p.name, Some(hash(p.password.value)), None, None);
    u := u.(attendantEmails := Some(OrElse(p.attendantEmails, [])), thresholds := p.thresholds);
    u := u.(verificationToken := Some(token), verificationTokenExpiry := Some(now + TokenLifetime));
    AppendKeepsValid(db.St(), u);
    db.users := db.users + [u];
    db.nextId := db.nextId + 1;
    r := Ok(());
  }
}
