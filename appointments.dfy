/** The appointment handlers: booking (find-or-create the patient, resolve the
    department by name, save a Scheduled appointment), cancellation, the four
    status counts, and the by-patient and by-doctor filters. */
module AppointmentController {
  import opened Common
  import opened Text
  import opened Pattern
  import opened Models
  import opened Store

  /** The fields booking reads from the request body; any other field (a
      `status`, a `doctor`) is never read. */
  datatype BookingForm = BookingForm(
    firstName: Option<string>,
    lastName: Option<string>,
    email: Option<string>,
    phone: Option<string>,
    date: Option<string>,
    time: Option<string>,
    department: Option<string>,
    reason: Option<string>)

  /** `Patient.findOne({ email })`: the supplied string is compared with the
      stored email as it is; a missing email matches no patient. */
  function PatientByEmail(patients: map<Id, Patient>, email: Option<string>, bound: nat): Option<Id>
  {
    if email.None? then None else FindFirst(patients, (p: Patient) => p.email == email.value, 0, bound)
  }

  lemma PatientByEmailSpec(patients: map<Id, Patient>, email: Option<string>, bound: nat)
    requires KeysBelow(patients, bound)
    ensures PatientByEmail(patients, email, bound).Some? <==> email.Some? && PatientEmailTaken(patients, email.value)
    ensures PatientByEmail(patients, email, bound).Some? ==>
              PatientByEmail(patients, email, bound).value in patients
              && patients[PatientByEmail(patients, email, bound).value].email == email.value
  {
    if email.Some? && PatientEmailTaken(patients, email.value) {
      var k :| k in patients && patients[k].email == email.value;
      assert k < bound;
    }
  }

  /** The patient document booking creates for an email it did not find. */
  function BookedPatient(form: BookingForm, createdAt: nat): Result<Patient, StoreError>
  {
    NewPatient(form.firstName, form.lastName, form.email, form.phone, None, createdAt)
  }

  /** How the `^name$` pattern, under the `i` flag, matches a stored
      department name that has no syntax characters in it. */
  predicate NameMatches(stored: string, name: string)
  {
    EqualsIgnoreCase(stored, name) || EqualsIgnoreCase(stored, name + "\n")
  }

  /** `Department.findOne({ name: { $regex: new RegExp('^' + name + '$', 'i') } })`.
      The name is NOT escaped. A pattern the engine rejects throws. */
  function ResolveDepartment(departments: map<Id, Department>, name: string, engine: Engine, bound: nat)
    : Result<Option<Id>, StoreError>
  {
    var pattern := "^" + name + "$";
    match Compile(pattern)
    case Some(lit) => Success(FindFirst(departments, (d: Department) => Matches(lit, d.name), 0, bound))
    case None =>
      if engine.accepts(pattern) then Success(FindFirst(departments, (d: Department) => engine.test(pattern, d.name), 0, bound))
      else Failure(InvalidPattern)
  }

  /** For a name without syntax characters the lookup cannot fail, does not
      depend on the engine, and finds the first department whose name equals
      the given one ignoring case; a name that matches nothing gives null. */
  lemma ResolveMetaFreeName(departments: map<Id, Department>, name: string, engine: Engine, bound: nat)
    requires MetaFree(name) && KeysBelow(departments, bound)
    ensures ResolveDepartment(departments, name, engine, bound).Success?
    ensures var r := ResolveDepartment(departments, name, engine, bound).value;
            r.Some? ==> r.value in departments && NameMatches(departments[r.value].name, name)
                        && forall j :: j in departments && j < r.value ==> !NameMatches(departments[j].name, name)
    ensures ResolveDepartment(departments, name, engine, bound).value.None? <==>
              forall k :: k in departments ==> !NameMatches(departments[k].name, name)
  {
    CompileAnchoredMetaFree(name);
    var r := FindFirst(departments, (d: Department) => Matches(Whole(name), d.name), 0, bound);
    assert ResolveDepartment(departments, name, engine, bound) == Success(r);
    if r.None? {
      forall k | k in departments ensures !NameMatches(departments[k].name, name) {
        assert !Matches(Whole(name), departments[k].name);
      }
    }
  }

  /** With one department on file, the lookup of a name without syntax
      characters finds it exactly when the names agree ignoring case. */
  lemma ResolveSingle(engine: Engine, d: Department, name: string)
    requires MetaFree(name)
    ensures ResolveDepartment(map[0 := d], name, engine, 1)
            == Success(if NameMatches(d.name, name) then Some(0) else None)
  {
    var m := map[0 := d];
    ResolveMetaFreeName(m, name, engine, 1);
  }

  /** "cardiology" names the department "Cardiology" ignoring case: with
      ResolveSingle, booking with "cardiology" links that department. */
  lemma CardiologyIgnoresCase()
    ensures MetaFree("cardiology") && EqualsIgnoreCase("Cardiology", "cardiology")
  {
    assert MetaFree("cardiology") by {
      forall i | 0 <= i < 10 ensures !IsSyntaxChar("cardiology"[i]) {
      }
    }
    var tail := "ardiology";
    assert "Cardiology" == ['C'] + tail;
    assert "cardiology" == ['c'] + tail;
    LowerCons('C', tail);
    LowerCons('c', tail);
  }

  /** "Cardio" does not name the department "Cardiology": the anchors rule out
      a substring match, so booking with "Cardio" links no department. */
  lemma CardioIsNotCardiology()
    ensures MetaFree("Cardio") && !NameMatches("Cardiology", "Cardio")
  {
    assert MetaFree("Cardio") by {
      forall i | 0 <= i < 6 ensures !IsSyntaxChar("Cardio"[i]) {
      }
    }
    assert |Lower("Cardiology")| == 10 && |Lower("Cardio")| == 6 && |Lower("Cardio" + "\n")| == 7;
  }

  lemma ResolveAnyBound(departments: map<Id, Department>, name: string, engine: Engine, b1: nat, b2: nat)
    requires KeysBelow(departments, b1) && b1 <= b2
    ensures ResolveDepartment(departments, name, engine, b1) == ResolveDepartment(departments, name, engine, b2)
  {
    var pattern := "^" + name + "$";
    match Compile(pattern)
    case Some(lit) =>
      FindFirstAnyBound(departments, (d: Department) => Matches(lit, d.name), 0, b1, b2);
    case None =>
      FindFirstAnyBound(departments, (d: Department) => engine.test(pattern, d.name), 0, b1, b2);
  }

  /** `createAppointment`. Success is 201 with the saved appointment; every
      failure, whichever step threw, is 400 with the exception's message. */
  method CreateAppointment(db: Database, form: BookingForm, engine: Engine) returns (reply: Reply<Doc<Appointment>>)
    requires db.Valid()
    modifies db
    ensures db.Valid() && db.online == old(db.online)
    ensures db.users == old(db.users) && db.doctors == old(db.doctors) && db.departments == old(db.departments)
    ensures reply.status == 201 || reply.status == 400
    ensures reply.status == 201 <==> reply.body.Json?
    ensures reply.status == 400 ==> reply.body.Error? && reply.body.failure.Raised?
    ensures reply.status == 400 ==> db.appointments == old(db.appointments)
    ensures !old(db.online) ==> reply == Reply(400, Error(Raised(Unreachable))) && unchanged(db)
    // Step 1: an email already on file writes nothing to the Patient collection ...
    ensures old(PatientByEmail(db.patients, form.email, db.nextId)).Some? ==> db.patients == old(db.patients)
    // ... and otherwise the patient built from the form is added exactly when
    // its document is valid and its email free, and stays whatever the later
    // steps do.
    ensures old(db.online) ==>
              db.patients == (if && old(PatientByEmail(db.patients, form.email, db.nextId)).None?
                                 && BookedPatient(form, old(db.clock)).Success?
                                 && !PatientEmailTaken(old(db.patients), BookedPatient(form, old(db.clock)).value.email)
                              then old(db.patients)[old(db.nextId) := BookedPatient(form, old(db.clock)).value]
                              else old(db.patients))
    ensures db.patients != old(db.patients) ==> old(db.nextId) !in old(db.patients)
    // The booking succeeds exactly when every step succeeds.
    ensures reply.status == 201 <==>
              && old(db.online)
              && (|| old(PatientByEmail(db.patients, form.email, db.nextId)).Some?
                  || (&& BookedPatient(form, old(db.clock)).Success?
                      && !PatientEmailTaken(old(db.patients), BookedPatient(form, old(db.clock)).value.email)))
              && (!Present(form.department)
                  || ResolveDepartment(old(db.departments), form.department.value, engine, old(db.nextId)).Success?)
              && Present(form.date)
    // The saved appointment.
    ensures reply.status == 201 ==>
              var a := reply.body.value;
              && a.id !in old(db.appointments)
              && db.appointments == old(db.appointments)[a.id := a.fields]
              && a.fields.patient in db.patients
              && a.fields.patient == (if old(PatientByEmail(db.patients, form.email, db.nextId)).Some?
                                      then old(PatientByEmail(db.patients, form.email, db.nextId)).value
                                      else old(db.nextId))
              && (old(PatientByEmail(db.patients, form.email, db.nextId)).None? ==> db.patients != old(db.patients))
              && a.fields.status == Scheduled && a.fields.doctor.None?
              && a.fields.duration == 30 && a.fields.notes.None?
              && form.date.Some? && a.fields.appointmentDate == form.date.value
              && a.fields.time == form.time && a.fields.reason == form.reason
              && a.fields.department == (if Present(form.department)
                                         then ResolveDepartment(old(db.departments), form.department.value, engine, old(db.nextId)).value
                                         else None)
  {
    if !db.online {
      return Reply(400, Error(Raised(Unreachable)));
    }
    ghost var bound0 := db.nextId;
    // Step 1: identify or register the patient.
    var found := PatientByEmail(db.patients, form.email, db.nextId);
    PatientByEmailSpec(db.patients, form.email, db.nextId);
    var patientId: Id;
    if found.Some? {
      patientId := found.value;
    } else {
      var created := db.CreatePatient(form.firstName, form.lastName, form.email, form.phone, None);
      if created.Failure? {
        return Reply(400, Error(Raised(created.error)));
      }
      patientId := created.value;
    }
    // Step 2: resolve the department name.
    var departmentId: Option<Id> := None;
    if Present(form.department) {
      var resolved := ResolveDepartment(db.departments, form.department.value, engine, db.nextId);
      ResolveAnyBound(db.departments, form.department.value, engine, bound0, db.nextId);
      if resolved.Failure? {
        return Reply(400, Error(Raised(resolved.error)));
      }
      departmentId := resolved.value;
    }
    // Step 3: save the appointment, Scheduled whatever the request said.
    var saved := db.SaveAppointment(Some(patientId), None, departmentId, form.date, form.time, form.reason, Some(Scheduled));
    if saved.Failure? {
      return Reply(400, Error(Raised(saved.error)));
    }
    reply := Reply(201, Json(Doc(saved.value, db.appointments[saved.value])));
  }

  /** `cancelAppointment`: the only write is the status; an unknown identifier
      answers 200 with a null body. */
  method CancelAppointment(db: Database, id: Id) returns (reply: Reply<Option<Doc<Appointment>>>)
    requires db.Valid()
    modifies db
    ensures db.Valid() && db.online == old(db.online)
    ensures db.patients == old(db.patients) && db.users == old(db.users) && db.doctors == old(db.doctors)
    ensures db.departments == old(db.departments) && db.nextId == old(db.nextId) && db.clock == old(db.clock)
    ensures !old(db.online) ==> reply == Reply(500, Error(Raised(Unreachable))) && db.appointments == old(db.appointments)
    ensures old(db.online) && id !in old(db.appointments) ==>
              reply == Reply(200, Json(None)) && db.appointments == old(db.appointments)
    ensures old(db.online) && id in old(db.appointments) ==>
              && db.appointments == old(db.appointments)[id := old(db.appointments)[id].(status := Cancelled)]
              && reply == Reply(200, Json(Some(Doc(id, db.appointments[id]))))
  {
    var updated := db.SetAppointmentStatus(id, Cancelled);
    match updated
    case Failure(e) => reply := Reply(500, Error(Raised(e)));
    case Success(None) => reply := Reply(200, Json(None));
    case Success(Some(a)) => reply := Reply(200, Json(Some(Doc(id, a))));
  }

  datatype Stats = Stats(total: nat, completed: nat, scheduled: nat, cancelled: nat)

  /** `Appointment.countDocuments({ status })`. */
  function CountStatus(m: map<Id, Appointment>, status: AppointmentStatus): nat
  {
    |WithStatus(m, status)|
  }

  function WithStatus(m: map<Id, Appointment>, status: AppointmentStatus): set<Id>
  {
    set k | k in m && m[k].status == status
  }

  /** `getStats`: four independent counts. */
  function GetStats(db: Database): Reply<Stats>
    reads db
  {
    if !db.online then Reply(500, Error(Raised(Unreachable)))
    else Reply(200, Json(Stats(|db.appointments|, CountStatus(db.appointments, Completed),
                               CountStatus(db.appointments, Scheduled), CountStatus(db.appointments, Cancelled))))
  }

  lemma CardDisjointUnion(x: set<Id>, y: set<Id>)
    requires x !! y
    ensures |x + y| == |x| + |y|
  {
  }

  lemma StatusesCoverKeys(m: map<Id, Appointment>)
    ensures m.Keys == WithStatus(m, Completed) + WithStatus(m, Scheduled)
                      + WithStatus(m, Cancelled) + WithStatus(m, NoShow)
  {
    forall k | k in m
      ensures k in WithStatus(m, Completed) + WithStatus(m, Scheduled)
                   + WithStatus(m, Cancelled) + WithStatus(m, NoShow)
    {
      assert k in WithStatus(m, m[k].status);
    }
  }

  /** The four statuses split the appointments: No-show is the remainder. */
  lemma StatusCountsPartition(m: map<Id, Appointment>)
    ensures CountStatus(m, Completed) + CountStatus(m, Scheduled) + CountStatus(m, Cancelled)
            + CountStatus(m, NoShow) == |m|
  {
    var a, b, c, d := WithStatus(m, Completed), WithStatus(m, Scheduled), WithStatus(m, Cancelled), WithStatus(m, NoShow);
    assert a !! b && a !! c && b !! c && a !! d && b !! d && c !! d;
    CardDisjointUnion(a, b);
    CardDisjointUnion(a + b, c);
    CardDisjointUnion(a + b + c, d);
    StatusesCoverKeys(m);
  }

  /** completed + scheduled + cancelled never exceeds total; the gap is the
      number of No-show appointments, which only the total counts. */
  lemma GetStatsBound(db: Database)
    requires db.online
    ensures GetStats(db).status == 200
    ensures var s := GetStats(db).body.value;
            s.completed + s.scheduled + s.cancelled <= s.total
            && s.total - (s.completed + s.scheduled + s.cancelled) == CountStatus(db.appointments, NoShow)
  {
    StatusCountsPartition(db.appointments);
  }

  /** `getAppointmentsByPatient`: `Appointment.find({ patient: patientId })`. */
  function AppointmentsByPatient(db: Database, patientId: Id): Reply<map<Id, Appointment>>
    reads db
  {
    if !db.online then Reply(500, Error(Raised(Unreachable)))
    else Reply(200, Json(map k | k in db.appointments && db.appointments[k].patient == patientId :: db.appointments[k]))
  }

  /** `getAppointmentsByDoctor`: `Appointment.find({ doctor: doctorId })`. */
  function AppointmentsByDoctor(db: Database, doctorId: Id): Reply<map<Id, Appointment>>
    reads db
  {
    if !db.online then Reply(500, Error(Raised(Unreachable)))
    else Reply(200, Json(map k | k in db.appointments && db.appointments[k].doctor == Some(doctorId) :: db.appointments[k]))
  }

  /** Every appointment is listed for its own patient and for no other; it is
      listed for a doctor exactly when it is assigned to that doctor, so an
      unassigned appointment is in no doctor's list. Both replies copy the
      stored appointment unchanged. */
  lemma FiltersSelectByReference(db: Database, k: Id, p: Id, d: Id)
    requires db.online && k in db.appointments
    ensures AppointmentsByPatient(db, p).status == 200 && AppointmentsByDoctor(db, d).status == 200
    ensures k in AppointmentsByPatient(db, p).body.value <==> db.appointments[k].patient == p
    ensures k in AppointmentsByDoctor(db, d).body.value <==> db.appointments[k].doctor == Some(d)
    ensures k in AppointmentsByPatient(db, p).body.value ==> AppointmentsByPatient(db, p).body.value[k] == db.appointments[k]
    ensures k in AppointmentsByDoctor(db, d).body.value ==> AppointmentsByDoctor(db, d).body.value[k] == db.appointments[k]
    ensures db.appointments[k].doctor.None? ==> k !in AppointmentsByDoctor(db, d).body.value
  {
  }

  /** Two different patients' lists never share an appointment. */
  lemma PatientListsDisjoint(db: Database, p1: Id, p2: Id)
    requires db.online && p1 != p2
    ensures AppointmentsByPatient(db, p1).body.value.Keys !! AppointmentsByPatient(db, p2).body.value.Keys
  {
  }
}
