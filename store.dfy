/** An in-memory document store standing in for the database: one map per
    collection, fresh identifiers from a counter, and a creation counter that
    plays the part of the `createdAt` timestamp. Every store call the
    controllers make is one method or function here. */
module Store {
  import opened Common
  import opened Models

  /** `Model.findOne(filter)`: a document that satisfies the filter. The store
      does not promise which of several matches it returns; the model takes
      the one with the lowest identifier, searching from `from` up to `bound`. */
  function FindFirst<T>(m: map<Id, T>, matches: T -> bool, from: nat, bound: nat): (r: Option<Id>)
    ensures r.Some? ==> from <= r.value < bound && r.value in m && matches(m[r.value])
    ensures r.Some? ==> forall j :: from <= j < r.value && j in m ==> !matches(m[j])
    ensures r.None? ==> forall j :: from <= j < bound && j in m ==> !matches(m[j])
    decreases bound - from
  {
    if from >= bound then None
    else if from in m && matches(m[from]) then Some(from)
    else FindFirst(m, matches, from + 1, bound)
  }

  /** Every identifier in use is below `bound`. */
  ghost predicate KeysBelow<T>(m: map<Id, T>, bound: nat)
  {
    forall k :: k in m ==> k < bound
  }

  /** When the filter selects exactly one document, findOne returns it. */
  lemma FindFirstUnique<T>(m: map<Id, T>, matches: T -> bool, bound: nat, k: Id)
    requires KeysBelow(m, bound) && k in m && matches(m[k])
    requires forall j :: j in m && matches(m[j]) ==> j == k
    ensures FindFirst(m, matches, 0, bound) == Some(k)
  {
  }

  /** A larger bound than the identifiers in use does not change findOne. */
  lemma {:induction false} FindFirstAnyBound<T>(m: map<Id, T>, matches: T -> bool, from: nat, b1: nat, b2: nat)
    requires KeysBelow(m, b1) && b1 <= b2
    ensures FindFirst(m, matches, from, b1) == FindFirst(m, matches, from, b2)
    decreases b2 - from
  {
    if from < b1 {
      if !(from in m && matches(m[from])) {
        FindFirstAnyBound(m, matches, from + 1, b1, b2);
      }
    } else if from < b2 {
      assert from !in m;
      FindFirstAnyBound(m, matches, from + 1, b1, b2);
    }
  }

  predicate PatientEmailTaken(m: map<Id, Patient>, email: string)
  {
    exists k :: k in m && m[k].email == email
  }

  predicate UserEmailTaken(m: map<Id, User>, email: string)
  {
    exists k :: k in m && m[k].email == email
  }

  predicate DoctorEmailTaken(m: map<Id, Doctor>, email: string)
  {
    exists k :: k in m && m[k].email == email
  }

  predicate DepartmentNameTaken(m: map<Id, Department>, name: string)
  {
    exists k :: k in m && m[k].name == name
  }

  /** The unique indexes: email within Patient, User and Doctor; name within Department. */
  ghost predicate PatientEmailsUnique(m: map<Id, Patient>)
  {
    forall j, k :: j in m && k in m && m[j].email == m[k].email ==> j == k
  }

  ghost predicate UserEmailsUnique(m: map<Id, User>)
  {
    forall j, k :: j in m && k in m && m[j].email == m[k].email ==> j == k
  }

  ghost predicate DoctorEmailsUnique(m: map<Id, Doctor>)
  {
    forall j, k :: j in m && k in m && m[j].email == m[k].email ==> j == k
  }

  ghost predicate DepartmentNamesUnique(m: map<Id, Department>)
  {
    forall j, k :: j in m && k in m && m[j].name == m[k].name ==> j == k
  }

  /** What a collection of each kind keeps: identifiers below the next one
      to hand out, valid documents created before the current clock, and its
      unique index. */
  ghost predicate PatientsOk(m: map<Id, Patient>, bound: nat, clock: nat)
  {
    && KeysBelow(m, bound) && PatientEmailsUnique(m)
    && forall k :: k in m ==> m[k].Valid() && m[k].createdAt < clock
  }

  ghost predicate UsersOk(m: map<Id, User>, bound: nat, clock: nat)
  {
    && KeysBelow(m, bound) && UserEmailsUnique(m)
    && forall k :: k in m ==> m[k].Valid() && m[k].createdAt < clock
  }

  ghost predicate DoctorsOk(m: map<Id, Doctor>, bound: nat, clock: nat)
  {
    && KeysBelow(m, bound) && DoctorEmailsUnique(m)
    && forall k :: k in m ==> m[k].Valid() && m[k].createdAt < clock
  }

  ghost predicate DepartmentsOk(m: map<Id, Department>, bound: nat, clock: nat)
  {
    && KeysBelow(m, bound) && DepartmentNamesUnique(m)
    && forall k :: k in m ==> m[k].Valid() && m[k].createdAt < clock
  }

  ghost predicate AppointmentsOk(m: map<Id, Appointment>, bound: nat, clock: nat)
  {
    && KeysBelow(m, bound)
    && forall k :: k in m ==> m[k].Valid() && m[k].createdAt < clock
  }

  class Database {
    var patients: map<Id, Patient>
    var doctors: map<Id, Doctor>
    var departments: map<Id, Department>
    var appointments: map<Id, Appointment>
    var users: map<Id, User>
    /** The next identifier to hand out; no document of any collection uses it yet. */
    var nextId: nat
    /** The creation counter: the `createdAt` of the next document created. */
    var clock: nat
    /** Whether the store can be reached; when it cannot, every store call throws. */
    var online: bool

    ghost predicate Valid()
      reads this
    {
      && PatientsOk(patients, nextId, clock) && UsersOk(users, nextId, clock)
      && DoctorsOk(doctors, nextId, clock) && DepartmentsOk(departments, nextId, clock)
      && AppointmentsOk(appointments, nextId, clock)
    }

    constructor (online: bool)
      ensures Valid() && this.online == online
      ensures patients == map[] && doctors == map[] && departments == map[]
      ensures appointments == map[] && users == map[]
    {
      patients, doctors, departments, appointments, users := map[], map[], map[], map[], map[];
      nextId, clock := 0, 0;
      this.online := online;
    }

    /** `Patient.create(fields)`: validation, then the insert, which the
        unique index on email may refuse. */
    method CreatePatient(firstName: Option<string>, lastName: Option<string>, email: Option<string>,
                         phone: Option<string>, user: Option<Id>) returns (r: Result<Id, StoreError>)
      requires Valid()
      modifies this
      ensures Valid() && online == old(online)
      ensures users == old(users) && doctors == old(doctors) && departments == old(departments)
      ensures appointments == old(appointments)
      ensures var doc := NewPatient(firstName, lastName, email, phone, user, old(clock));
        if doc.Failure? then r == Failure(doc.error)
        else if !old(online) then r == Failure(Unreachable)
        else if PatientEmailTaken(old(patients), doc.value.email) then r == Failure(DuplicateKey("Patient", "email"))
        else r == Success(old(nextId)) && patients == old(patients)[old(nextId) := doc.value]
      ensures r.Failure? ==> unchanged(this)
      ensures r.Success? ==> nextId == old(nextId) + 1 && clock == old(clock) + 1
    {
      var doc := NewPatient(firstName, lastName, email, phone, user, clock);
      if doc.Failure? {
        return Failure(doc.error);
      }
      if !online {
        return Failure(Unreachable);
      }
      var e := doc.value.email;
      var clash := FindFirst(patients, (p: Patient) => p.email == e, 0, nextId);
      if clash.Some? {
        return Failure(DuplicateKey("Patient", "email"));
      }
      assert !PatientEmailTaken(patients, e);
      r := Success(nextId);
      patients := patients[nextId := doc.value];
      nextId, clock := nextId + 1, clock + 1;
    }

    /** `User.create(fields)`. */
    method CreateUser(name: Option<string>, email: Option<string>, password: Option<string>,
                      role: Option<Role>) returns (r: Result<Id, StoreError>)
      requires Valid()
      modifies this
      ensures Valid() && online == old(online)
      ensures patients == old(patients) && doctors == old(doctors) && departments == old(departments)
      ensures appointments == old(appointments)
      ensures var doc := NewUser(name, email, password, role, old(clock));
        if doc.Failure? then r == Failure(doc.error)
        else if !old(online) then r == Failure(Unreachable)
        else if UserEmailTaken(old(users), doc.value.email) then r == Failure(DuplicateKey("User", "email"))
        else r == Success(old(nextId)) && users == old(users)[old(nextId) := doc.value]
      ensures r.Success? ==> r.value !in old(users)
      ensures r.Failure? ==> unchanged(this)
      ensures r.Success? ==> nextId == old(nextId) + 1 && clock == old(clock) + 1
    {
      var doc := NewUser(name, email, password, role, clock);
      if doc.Failure? {
        return Failure(doc.error);
      }
      if !online {
        return Failure(Unreachable);
      }
      var e := doc.value.email;
      var clash := FindFirst(users, (u: User) => u.email == e, 0, nextId);
      if clash.Some? {
        return Failure(DuplicateKey("User", "email"));
      }
      assert !UserEmailTaken(users, e);
      r := Success(nextId);
      users := users[nextId := doc.value];
      nextId, clock := nextId + 1, clock + 1;
    }

    /** `Doctor.create(fields)`. */
    method CreateDoctor(firstName: Option<string>, lastName: Option<string>, email: Option<string>,
                        phone: Option<string>, specialization: Option<string>, department: Option<Id>)
      returns (r: Result<Id, StoreError>)
      requires Valid()
      modifies this
      ensures Valid() && online == old(online)
      ensures patients == old(patients) && users == old(users) && departments == old(departments)
      ensures appointments == old(appointments)
      ensures var doc := NewDoctor(firstName, lastName, email, phone, specialization, department, old(clock));
        if doc.Failure? then r == Failure(doc.error)
        else if !old(online) then r == Failure(Unreachable)
        else if DoctorEmailTaken(old(doctors), doc.value.email) then r == Failure(DuplicateKey("Doctor", "email"))
        else r == Success(old(nextId)) && doctors == old(doctors)[old(nextId) := doc.value]
      ensures r.Failure? ==> unchanged(this)
      ensures r.Success? ==> nextId == old(nextId) + 1 && clock == old(clock) + 1
    {
      var doc := NewDoctor(firstName, lastName, email, phone, specialization, department, clock);
      if doc.Failure? {
        return Failure(doc.error);
      }
      if !online {
        return Failure(Unreachable);
      }
      var e := doc.value.email;
      var clash := FindFirst(doctors, (d: Doctor) => d.email == e, 0, nextId);
      if clash.Some? {
        return Failure(DuplicateKey("Doctor", "email"));
      }
      assert !DoctorEmailTaken(doctors, e);
      r := Success(nextId);
      doctors := doctors[nextId := doc.value];
      nextId, clock := nextId + 1, clock + 1;
    }

    /** `Department.create(fields)`: the unique index compares names exactly. */
    method CreateDepartment(name: Option<string>, description: Option<string>, doctor: Option<Id>,
                            floor: Option<int>, phone: Option<string>, email: Option<string>)
      returns (r: Result<Id, StoreError>)
      requires Valid()
      modifies this
      ensures Valid() && online == old(online)
      ensures patients == old(patients) && users == old(users) && doctors == old(doctors)
      ensures appointments == old(appointments)
      ensures var doc := NewDepartment(name, description, doctor, floor, phone, email, old(clock));
        if doc.Failure? then r == Failure(doc.error)
        else if !old(online) then r == Failure(Unreachable)
        else if DepartmentNameTaken(old(departments), doc.value.name) then r == Failure(DuplicateKey("Department", "name"))
        else r == Success(old(nextId)) && departments == old(departments)[old(nextId) := doc.value]
      ensures r.Failure? ==> unchanged(this)
      ensures r.Success? ==> nextId == old(nextId) + 1 && clock == old(clock) + 1
    {
      var doc := NewDepartment(name, description, doctor, floor, phone, email, clock);
      if doc.Failure? {
        return Failure(doc.error);
      }
      if !online {
        return Failure(Unreachable);
      }
      var n := doc.value.name;
      var clash := FindFirst(departments, (d: Department) => d.name == n, 0, nextId);
      if clash.Some? {
        return Failure(DuplicateKey("Department", "name"));
      }
      assert !DepartmentNameTaken(departments, n);
      r := Success(nextId);
      departments := departments[nextId := doc.value];
      nextId, clock := nextId + 1, clock + 1;
    }

    /** `new Appointment(fields).save()`; appointments have no unique index. */
    method SaveAppointment(patient: Option<Id>, doctor: Option<Id>, department: Option<Id>,
                           appointmentDate: Option<string>, time: Option<string>, reason: Option<string>,
                           status: Option<AppointmentStatus>) returns (r: Result<Id, StoreError>)
      requires Valid()
      modifies this
      ensures Valid() && online == old(online)
      ensures patients == old(patients) && users == old(users) && doctors == old(doctors)
      ensures departments == old(departments)
      ensures var doc := NewAppointment(patient, doctor, department, appointmentDate, time, reason, status, old(clock));
        if doc.Failure? then r == Failure(doc.error)
        else if !old(online) then r == Failure(Unreachable)
        else r == Success(old(nextId)) && appointments == old(appointments)[old(nextId) := doc.value]
      ensures r.Failure? ==> unchanged(this)
      ensures r.Success? ==> nextId == old(nextId) + 1 && clock == old(clock) + 1
    {
      var doc := NewAppointment(patient, doctor, department, appointmentDate, time, reason, status, clock);
      if doc.Failure? {
        return Failure(doc.error);
      }
      if !online {
        return Failure(Unreachable);
      }
      r := Success(nextId);
      appointments := appointments[nextId := doc.value];
      nextId, clock := nextId + 1, clock + 1;
    }

    /** `Appointment.findByIdAndUpdate(id, {status}, {new: true})`: the updated
        document, or null when no appointment has that identifier. */
    method SetAppointmentStatus(id: Id, status: AppointmentStatus) returns (r: Result<Option<Appointment>, StoreError>)
      requires Valid()
      modifies this
      ensures Valid() && online == old(online)
      ensures patients == old(patients) && users == old(users) && doctors == old(doctors)
      ensures departments == old(departments) && nextId == old(nextId) && clock == old(clock)
      ensures !old(online) ==> r == Failure(Unreachable) && appointments == old(appointments)
      ensures old(online) && id !in old(appointments) ==> r == Success(None) && appointments == old(appointments)
      ensures old(online) && id in old(appointments) ==>
                && appointments == old(appointments)[id := old(appointments)[id].(status := status)]
                && r == Success(Some(appointments[id]))
    {
      if !online {
        return Failure(Unreachable);
      }
      if id !in appointments {
        return Success(None);
      }
      appointments := appointments[id := appointments[id].(status := status)];
      r := Success(Some(appointments[id]));
    }

    /** `user.patientProfile = patientId; await user.save()`. */
    method SetPatientProfile(userId: Id, patientId: Id) returns (r: Result<(), StoreError>)
      requires Valid() && userId in users
      modifies this
      ensures Valid() && online == old(online)
      ensures patients == old(patients) && doctors == old(doctors) && departments == old(departments)
      ensures appointments == old(appointments) && nextId == old(nextId) && clock == old(clock)
      ensures !old(online) ==> r == Failure(Unreachable) && users == old(users)
      ensures old(online) ==> r == Success(())
                              && users == old(users)[userId := old(users)[userId].(patientProfile := Some(patientId))]
    {
      if !online {
        return Failure(Unreachable);
      }
      users := users[userId := users[userId].(patientProfile := Some(patientId))];
      r := Success(());
    }
  }
}
