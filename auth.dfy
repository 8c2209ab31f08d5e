/** Sign-in and sign-up. Sign-in checks the password of the user found by
    email; sign-up writes a User, then a Patient profile built from the
    display name, then links the two, in three separate store calls. */
module AuthController {
  import opened Common
  import opened Text
  import opened Models
  import opened Store

  /** `s.split(' ')`: the pieces between single spaces, in order; a string
      without spaces is one piece, and two spaces in a row give an empty piece. */
  function Split(s: string): (parts: seq<string>)
    ensures |parts| >= 1
  {
    if s == [] then [""]
    else if s[0] == ' ' then [""] + Split(s[1..])
    else var rest := Split(s[1..]); [[s[0]] + rest[0]] + rest[1..]
  }

  /** `parts.join(' ')`. */
  function Join(parts: seq<string>): string
  {
    if parts == [] then ""
    else if |parts| == 1 then parts[0]
    else parts[0] + " " + Join(parts[1..])
  }

  lemma {:induction false} JoinSplit(s: string)
    ensures Join(Split(s)) == s
  {
    if s != [] {
      JoinSplit(s[1..]);
      var rest := Split(s[1..]);
      if s[0] == ' ' {
        assert Split(s) == [""] + rest;
        assert (["" ] + rest)[1..] == rest;
      } else {
        var parts := [[s[0]] + rest[0]] + rest[1..];
        assert Split(s) == parts;
        if |rest| == 1 {
          assert Join(rest) == rest[0];
        } else {
          assert parts[1..] == rest[1..];
          assert Join(rest) == rest[0] + " " + Join(rest[1..]);
        }
      }
    }
  }

  lemma {:induction false} SplitHasNoSpaces(s: string)
    ensures forall i :: 0 <= i < |Split(s)| ==> ' ' !in Split(s)[i]
  {
    if s != [] {
      SplitHasNoSpaces(s[1..]);
      var rest := Split(s[1..]);
      if s[0] == ' ' {
        assert Split(s) == [""] + rest;
      } else {
        assert Split(s) == [[s[0]] + rest[0]] + rest[1..];
        assert ' ' !in rest[0];
      }
    }
  }

  /** The index of the first space at or after `i`, or `|s|` when there is none. */
  function SpaceFrom(s: string, i: nat): (r: nat)
    requires i <= |s|
    ensures i <= r <= |s|
    decreases |s| - i
  {
    if i == |s| || s[i] == ' ' then i else SpaceFrom(s, i + 1)
  }

  lemma {:induction false} SpaceFromSpec(s: string, i: nat)
    requires i <= |s|
    ensures i <= SpaceFrom(s, i) <= |s|
    ensures SpaceFrom(s, i) < |s| ==> s[SpaceFrom(s, i)] == ' '
    ensures forall j :: i <= j < SpaceFrom(s, i) ==> s[j] != ' '
    decreases |s| - i
  {
    if i < |s| && s[i] != ' ' {
      SpaceFromSpec(s, i + 1);
    }
  }

  /** The part of the display name before the first space. */
  function FirstName(name: string): string
  {
    name[..SpaceFrom(name, 0)]
  }

  /** The display name after its first space; empty when it has none. */
  function RestOfName(name: string): string
  {
    if SpaceFrom(name, 0) == |name| then "" else name[SpaceFrom(name, 0) + 1..]
  }

  /** `names.slice(1).join(' ') || 'Patient'`. */
  function LastName(name: string): string
  {
    if RestOfName(name) == "" then "Patient" else RestOfName(name)
  }

  /** The first name is the first piece of `name.split(' ')` and the rest is
      the other pieces joined back with spaces. So the display name is the
      first name, then, if it has a space at all, a space and the rest; the
      first name has no space in it, and the last name is never empty. */
  lemma NameParts(name: string)
    ensures FirstName(name) == Split(name)[0]
    ensures RestOfName(name) == Join(Split(name)[1..])
    ensures ' ' !in FirstName(name)
    ensures ' ' !in name ==> FirstName(name) == name && RestOfName(name) == ""
    ensures ' ' in name ==> name == FirstName(name) + " " + RestOfName(name)
    ensures LastName(name) != ""
  {
    var parts := Split(name);
    var i := SpaceFrom(name, 0);
    SpaceFromSpec(name, 0);
    JoinSplit(name);
    SplitHasNoSpaces(name);
    assert ' ' !in parts[0];
    if |parts| == 1 {
      assert Join(parts) == parts[0];
      assert parts[1..] == [];
      assert name == parts[0];
      assert i == |name|;
    } else {
      assert name == parts[0] + " " + Join(parts[1..]);
      assert name[|parts[0]|] == ' ';
      forall j | 0 <= j < |parts[0]| ensures name[j] != ' ' {
        assert name[j] == parts[0][j];
      }
      assert i == |parts[0]|;
      assert name[..i] == parts[0];
      assert name[i + 1..] == Join(parts[1..]);
    }
    if ' ' in name {
      var j :| 0 <= j < |name| && name[j] == ' ';
      assert i < |name|;
      assert name == name[..i] + " " + name[i + 1..];
    }
  }

  /** "Madonna" and "Madonna " both give the last name "Patient"; a name with a
      leading space gives an empty first name, which the Patient schema refuses. */
  lemma NameExamples()
    ensures FirstName("Madonna") == "Madonna" && LastName("Madonna") == "Patient"
    ensures FirstName("Madonna ") == "Madonna" && LastName("Madonna ") == "Patient"
    ensures FirstName(" Madonna") == "" && LastName(" Madonna") == "Madonna"
  {
    assert SpaceFrom("Madonna", 0) == 7 by {
      SpaceFromSpec("Madonna", 0);
      assert ' ' !in "Madonna";
    }
    assert SpaceFrom("Madonna ", 0) == 7 by {
      SpaceFromSpec("Madonna ", 0);
      assert "Madonna "[7] == ' ';
    }
    assert SpaceFrom(" Madonna", 0) == 0;
  }

  datatype Credentials = Credentials(email: Option<string>, password: Option<string>)

  /** What sign-in reports about the user. `patientId` is the linked profile
      when it still resolves (populate gives null otherwise). */
  datatype Profile = Profile(email: string, name: string, id: Id, role: Role, patientId: Option<Id>)

  datatype Session = Session(user: Profile, token: string)

  const TokenPrefix: string := "valid_session_token_"

  /** `User.findOne({ email })`, compared with the stored email as it is. */
  function UserByEmail(users: map<Id, User>, email: string, bound: nat): Option<Id>
  {
    FindFirst(users, (u: User) => u.email == email, 0, bound)
  }

  lemma UserByEmailSpec(users: map<Id, User>, email: string, bound: nat)
    requires KeysBelow(users, bound) && UserEmailsUnique(users)
    ensures UserByEmail(users, email, bound).Some? <==> UserEmailTaken(users, email)
    ensures forall k :: k in users && users[k].email == email ==> UserByEmail(users, email, bound) == Some(k)
  {
    forall k | k in users && users[k].email == email
      ensures UserByEmail(users, email, bound) == Some(k)
    {
      FindFirstUnique(users, (u: User) => u.email == email, bound, k);
    }
  }

  /** `login`. `stamp` stands for `Date.now()`, which ends the session token. */
  function Login(db: Database, c: Credentials, stamp: string): Reply<Session>
    reads db
  {
    if !Present(c.email) || !Present(c.password) then Reply(400, Error(Message("Email and password required")))
    else if !db.online then Reply(500, Error(Raised(Unreachable)))
    else match UserByEmail(db.users, c.email.value, db.nextId)
      case None => Reply(401, Error(Message("Invalid credentials")))
      case Some(k) =>
        var u := db.users[k];
        if u.password != c.password.value then Reply(401, Error(Message("Invalid credentials")))
        else
          var patientId := if u.patientProfile.Some? && u.patientProfile.value in db.patients then u.patientProfile else None;
          Reply(200, Json(Session(Profile(u.email, u.name, k, u.role, patientId), TokenPrefix + stamp)))
  }

  /** With both fields given and the store reachable, sign-in succeeds exactly
      when some user has that email and that password, and reports that user;
      every other outcome is the same 401, so the reply does not tell an
      unknown email from a wrong password. */
  lemma LoginSpec(db: Database, c: Credentials, stamp: string)
    requires db.Valid() && db.online && Present(c.email) && Present(c.password)
    ensures Login(db, c, stamp).status == 200 || Login(db, c, stamp) == Reply(401, Error(Message("Invalid credentials")))
    ensures Login(db, c, stamp).status == 200 <==>
              exists k :: k in db.users && db.users[k].email == c.email.value && db.users[k].password == c.password.value
    ensures forall k :: k in db.users && db.users[k].email == c.email.value && db.users[k].password == c.password.value ==>
              && Login(db, c, stamp).body.Json?
              && Login(db, c, stamp).body.value.user.id == k
              && Login(db, c, stamp).body.value.user.email == c.email.value
              && Login(db, c, stamp).body.value.user.name == db.users[k].name
              && Login(db, c, stamp).body.value.user.role == db.users[k].role
              && Login(db, c, stamp).body.value.token == TokenPrefix + stamp
              && Login(db, c, stamp).body.value.user.patientId ==
                   (if db.users[k].patientProfile.Some? && db.users[k].patientProfile.value in db.patients
                    then db.users[k].patientProfile else None)
  {
    UserByEmailSpec(db.users, c.email.value, db.nextId);
  }

  /** A missing or empty field is refused before the store is consulted,
      whatever it holds and whether or not it is reachable. */
  lemma LoginNeedsBothFields(db: Database, c: Credentials, stamp: string)
    requires !Present(c.email) || !Present(c.password)
    ensures Login(db, c, stamp) == Reply(400, Error(Message("Email and password required")))
  {
  }

  /** In this model the lookup compares the email exactly as supplied, while
      stored emails are normalised; under that reading an email given in any
      other form (capitals, surrounding spaces) finds no user, and sign-in
      answers 401 even with the right password. */
  lemma LoginNeedsStoredForm(db: Database, c: Credentials, stamp: string)
    requires db.Valid() && db.online && Present(c.email) && Present(c.password)
    requires NormalizeEmail(c.email.value) != c.email.value
    ensures Login(db, c, stamp).status == 401
  {
    UserByEmailSpec(db.users, c.email.value, db.nextId);
    forall k | k in db.users ensures db.users[k].email != c.email.value {
      if db.users[k].email == c.email.value {
        StoredEmailIsNormal(db.users[k].email);
      }
    }
  }

  datatype SignUp = SignUp(name: Option<string>, email: Option<string>, password: Option<string>)

  datatype Account = Account(id: Id, name: string, email: string, role: Role, patientId: Id)

  /** The User that sign-up writes: always a patient. */
  function SignUpUser(form: SignUp, createdAt: nat): Result<User, StoreError>
  {
    NewUser(form.name, form.email, form.password, Some(PatientRole), createdAt)
  }

  /** The Patient profile that sign-up writes for the user `userId`. */
  function SignUpPatient(form: SignUp, userId: Id, createdAt: nat): Result<Patient, StoreError>
    requires form.name.Some?
  {
    NewPatient(Some(FirstName(form.name.value)), Some(LastName(form.name.value)), form.email,
               Some("Not updated"), Some(userId), createdAt)
  }

  /** Whether both documents of a sign-up can be written, once the form is
      complete, the store reachable and no user holds the email as supplied. */
  predicate SignUpAccepted(users: map<Id, User>, patients: map<Id, Patient>, form: SignUp)
    requires form.name.Some? && form.email.Some?
  {
    && NormalizeEmail(form.email.value) != ""
    && !UserEmailTaken(users, NormalizeEmail(form.email.value))
    && FirstName(form.name.value) != ""
    && !PatientEmailTaken(patients, NormalizeEmail(form.email.value))
  }

  lemma UpdateTwice<V>(m: map<Id, V>, k: Id, a: V, b: V)
    ensures m[k := a][k := b] == m[k := b]
  {
  }

  /** Steps 2 and 3 of `register`, once step 1 has written the account
      `SignUpUser(form, clock0)` under `userId` into `users0`: the Patient
      profile, then the link from the account to it. */
  method WriteProfile(db: Database, form: SignUp, userId: Id, ghost users0: map<Id, User>, ghost clock0: nat)
    returns (r: Result<Id, StoreError>)
    requires db.Valid() && db.online && form.name.Some?
    requires SignUpUser(form, clock0).Success?
    requires db.users == users0[userId := SignUpUser(form, clock0).value]
    requires db.nextId == userId + 1 && db.clock == clock0 + 1
    modifies db
    ensures db.Valid() && db.online
    ensures db.doctors == old(db.doctors) && db.departments == old(db.departments)
    ensures db.appointments == old(db.appointments)
    ensures var doc := SignUpPatient(form, userId, clock0 + 1);
            r.Success? <==> doc.Success? && !PatientEmailTaken(old(db.patients), doc.value.email)
    ensures r.Success? ==>
              && r.value == userId + 1 && r.value !in old(db.patients)
              && db.patients == old(db.patients)[userId + 1 := SignUpPatient(form, userId, clock0 + 1).value]
              && db.users == users0[userId := SignUpUser(form, clock0).value.(patientProfile := Some(userId + 1))]
    ensures r.Failure? ==> db.patients == old(db.patients) && db.users == old(db.users)
  {
    var first, last := FirstName(form.name.value), LastName(form.name.value);
    r := db.CreatePatient(Some(first), Some(last), form.email, Some("Not updated"), Some(userId));
    if r.Failure? {
      return;
    }
    // The store is reachable, so the save goes through.
    var linked := db.SetPatientProfile(userId, r.value);
    ghost var u := SignUpUser(form, clock0).value;
    UpdateTwice(users0, userId, u, u.(patientProfile := Some(userId + 1)));
  }

  /** What sign-up's three writes leave behind, starting from the collections
      `users0` and `patients0`, the next identifier `id0` and the clock
      `clock0`: on 201 the new User (a patient, linked to its profile) and the
      new Patient; on 500 no profile, and the User of step 1 exactly when that
      step went through, left without a profile. */
  ghost predicate SignUpWrites(form: SignUp, users0: map<Id, User>, patients0: map<Id, Patient>, id0: Id, clock0: nat,
                               reply: Reply<Account>, users: map<Id, User>, patients: map<Id, Patient>)
    requires form.name.Some? && form.email.Some?
  {
    && (reply.status == 201 || reply.status == 500)
    && (reply.status == 201 <==> reply.body.Json?)
    && (reply.status == 201 <==> SignUpAccepted(users0, patients0, form))
    && (reply.status == 201 ==>
          var a := reply.body.value;
          && a.id == id0 && a.patientId == id0 + 1
          && a.id !in users0 && a.patientId !in patients0
          && SignUpUser(form, clock0).Success? && SignUpPatient(form, a.id, clock0 + 1).Success?
          && users == users0[a.id := SignUpUser(form, clock0).value.(patientProfile := Some(a.patientId))]
          && patients == patients0[a.patientId := SignUpPatient(form, a.id, clock0 + 1).value]
          && a.name == form.name.value && a.email == NormalizeEmail(form.email.value) && a.role == PatientRole)
    && (reply.status != 201 ==>
          && patients == patients0
          && users == (if SignUpUser(form, clock0).Success? && !UserEmailTaken(users0, SignUpUser(form, clock0).value.email)
                       then users0[id0 := SignUpUser(form, clock0).value]
                       else users0))
  }

  /** Step 1 refused the User: nothing was written. */
  lemma UserRefusedWrites(form: SignUp, users0: map<Id, User>, patients0: map<Id, Patient>, id0: Id, clock0: nat,
                          reply: Reply<Account>, users: map<Id, User>, patients: map<Id, Patient>)
    requires Present(form.name) && form.email.Some? && Present(form.password)
    requires SignUpUser(form, clock0).Failure? || UserEmailTaken(users0, SignUpUser(form, clock0).value.email)
    requires reply.status == 500 && reply.body.Error? && users == users0 && patients == patients0
    ensures SignUpWrites(form, users0, patients0, id0, clock0, reply, users, patients)
  {
  }

  /** Step 2 refused the Patient: the User of step 1 stays, without a profile. */
  lemma ProfileRefusedWrites(form: SignUp, users0: map<Id, User>, patients0: map<Id, Patient>, id0: Id, clock0: nat,
                             reply: Reply<Account>, users: map<Id, User>, patients: map<Id, Patient>)
    requires form.name.Some? && form.email.Some?
    requires SignUpUser(form, clock0).Success? && id0 !in users0
    requires !UserEmailTaken(users0, SignUpUser(form, clock0).value.email)
    requires var p := SignUpPatient(form, id0, clock0 + 1);
             p.Failure? || PatientEmailTaken(patients0, p.value.email)
    requires reply.status == 500 && reply.body.Error?
    requires users == users0[id0 := SignUpUser(form, clock0).value] && patients == patients0
    ensures SignUpWrites(form, users0, patients0, id0, clock0, reply, users, patients)
  {
  }

  /** Both documents written and linked. */
  lemma AccountWritten(form: SignUp, users0: map<Id, User>, patients0: map<Id, Patient>, id0: Id, clock0: nat,
                       reply: Reply<Account>, users: map<Id, User>, patients: map<Id, Patient>)
    requires form.name.Some? && form.email.Some?
    requires SignUpUser(form, clock0).Success? && id0 !in users0
    requires !UserEmailTaken(users0, SignUpUser(form, clock0).value.email)
    requires SignUpPatient(form, id0, clock0 + 1).Success? && id0 + 1 !in patients0
    requires !PatientEmailTaken(patients0, SignUpPatient(form, id0, clock0 + 1).value.email)
    requires var linked := SignUpUser(form, clock0).value.(patientProfile := Some(id0 + 1));
             && users == users0[id0 := linked]
             && reply == Reply(201, Json(Account(id0, linked.name, linked.email, linked.role, id0 + 1)))
    requires patients == patients0[id0 + 1 := SignUpPatient(form, id0, clock0 + 1).value]
    ensures SignUpWrites(form, users0, patients0, id0, clock0, reply, users, patients)
  {
  }

  /** Steps 1 to 3 of `register`: the User, the Patient, the link. */
  method WriteAccount(db: Database, form: SignUp) returns (reply: Reply<Account>)
    requires db.Valid() && db.online
    requires Present(form.name) && Present(form.email) && Present(form.password)
    modifies db
    ensures db.Valid() && db.online
    ensures db.doctors == old(db.doctors) && db.departments == old(db.departments)
    ensures db.appointments == old(db.appointments)
    ensures SignUpWrites(form, old(db.users), old(db.patients), old(db.nextId), old(db.clock), reply, db.users, db.patients)
  {
    ghost var users0, patients0, id0, clock0 := db.users, db.patients, db.nextId, db.clock;
    // Step 1: the login account.
    var created := db.CreateUser(form.name, form.email, form.password, Some(PatientRole));
    if created.Failure? {
      reply := Reply(500, Error(Raised(created.error)));
      UserRefusedWrites(form, users0, patients0, id0, clock0, reply, db.users, db.patients);
      return;
    }
    reply := FinishAccount(db, form, created.value, users0, patients0, clock0);
  }

  /** Steps 2 and 3 of `register`, once step 1 has written the User `userId`. */
  method FinishAccount(db: Database, form: SignUp, userId: Id, ghost users0: map<Id, User>,
                       ghost patients0: map<Id, Patient>, ghost clock0: nat) returns (reply: Reply<Account>)
    requires db.Valid() && db.online
    requires Present(form.name) && Present(form.email) && Present(form.password)
    requires SignUpUser(form, clock0).Success? && userId !in users0
    requires !UserEmailTaken(users0, SignUpUser(form, clock0).value.email)
    requires db.users == users0[userId := SignUpUser(form, clock0).value] && db.patients == patients0
    requires db.nextId == userId + 1 && db.clock == clock0 + 1
    modifies db
    ensures db.Valid() && db.online
    ensures db.doctors == old(db.doctors) && db.departments == old(db.departments)
    ensures db.appointments == old(db.appointments)
    ensures SignUpWrites(form, users0, patients0, userId, clock0, reply, db.users, db.patients)
    ensures reply.status == 500 ==> db.users == old(db.users) && db.patients == old(db.patients)
  {
    var profile := WriteProfile(db, form, userId, users0, clock0);
    if profile.Failure? {
      reply := Reply(500, Error(Raised(profile.error)));
      ProfileRefusedWrites(form, users0, patients0, userId, clock0, reply, db.users, db.patients);
      return;
    }
    var u := db.users[userId];
    reply := Reply(201, Json(Account(userId, u.name, u.email, u.role, profile.value)));
    AccountWritten(form, users0, patients0, userId, clock0, reply, db.users, db.patients);
  }

  /** `register`. */
  method Register(db: Database, form: SignUp) returns (reply: Reply<Account>)
    requires db.Valid()
    modifies db
    ensures db.Valid() && db.online == old(db.online)
    ensures db.doctors == old(db.doctors) && db.departments == old(db.departments)
    ensures db.appointments == old(db.appointments)
    ensures !Present(form.name) || !Present(form.email) || !Present(form.password) ==>
              reply == Reply(400, Error(Message("All fields are required"))) && unchanged(db)
    ensures Present(form.name) && Present(form.email) && Present(form.password) && !old(db.online) ==>
              reply == Reply(500, Error(Raised(Unreachable))) && unchanged(db)
    ensures Present(form.name) && Present(form.email) && Present(form.password) && old(db.online)
            && old(UserEmailTaken(db.users, form.email.value)) ==>
              reply == Reply(400, Error(Message("User already exists"))) && unchanged(db)
    // Otherwise the three writes, which succeed exactly when SignUpAccepted holds.
    ensures Present(form.name) && Present(form.email) && Present(form.password) && old(db.online)
            && !old(UserEmailTaken(db.users, form.email.value)) ==>
              SignUpWrites(form, old(db.users), old(db.patients), old(db.nextId), old(db.clock), reply, db.users, db.patients)
  {
    if !Present(form.name) || !Present(form.email) || !Present(form.password) {
      return Reply(400, Error(Message("All fields are required")));
    }
    if !db.online {
      return Reply(500, Error(Raised(Unreachable)));
    }
    var existing := UserByEmail(db.users, form.email.value, db.nextId);
    UserByEmailSpec(db.users, form.email.value, db.nextId);
    if existing.Some? {
      return Reply(400, Error(Message("User already exists")));
    }
    reply := WriteAccount(db, form);
  }

  /** The profile sign-up writes points back at the new user, shares its
      email, takes its two names from the display name and has the
      placeholder phone. */
  lemma SignUpProfileFields(form: SignUp, userId: Id, createdAt: nat)
    requires SignUpUser(form, createdAt).Success? && form.name.Some?
    requires SignUpPatient(form, userId, createdAt + 1).Success?
    ensures SignUpPatient(form, userId, createdAt + 1).value.user == Some(userId)
    ensures SignUpPatient(form, userId, createdAt + 1).value.email == SignUpUser(form, createdAt).value.email
    ensures SignUpPatient(form, userId, createdAt + 1).value.phone == "Not updated"
    ensures SignUpPatient(form, userId, createdAt + 1).value.firstName == FirstName(form.name.value)
    ensures SignUpPatient(form, userId, createdAt + 1).value.lastName == LastName(form.name.value)
  {
  }

  /** The duplicate check reads only the User collection: when a Patient
      already holds the email (a profile made by booking, say) `register` goes
      on to its writes, the User is written, the Patient is refused by its
      unique index, and the reply is 500 with that User left behind without a
      profile. `reply`, `users` and `patients` are any outcome `Register`
      allows from `db`. */
  lemma SignUpOverBookedPatient(db: Database, form: SignUp, k: Id,
                                reply: Reply<Account>, users: map<Id, User>, patients: map<Id, Patient>)
    requires db.Valid() && db.online
    requires Present(form.name) && Present(form.email) && Present(form.password)
    requires k in db.patients && db.patients[k].email == NormalizeEmail(form.email.value)
    requires !UserEmailTaken(db.users, NormalizeEmail(form.email.value))
    requires SignUpWrites(form, db.users, db.patients, db.nextId, db.clock, reply, users, patients)
    // The supplied email is not found among the users, so the writes happen.
    ensures !UserEmailTaken(db.users, form.email.value)
    ensures reply.status == 500 && patients == db.patients
    ensures SignUpUser(form, db.clock).Success?
    ensures users == db.users[db.nextId := SignUpUser(form, db.clock).value]
    ensures db.nextId !in db.users && users[db.nextId].patientProfile.None?
    ensures users[db.nextId].email == db.patients[k].email
  {
    assert db.patients[k].Valid();
    if UserEmailTaken(db.users, form.email.value) {
      var j :| j in db.users && db.users[j].email == form.email.value;
      assert db.users[j].Valid();
      StoredEmailIsNormal(db.users[j].email);
      assert false;
    }
    assert !SignUpAccepted(db.users, db.patients, form);
  }
}
