/** The five document schemas: each record type with its validity predicate
    (what the schema's `required`, `enum`, `lowercase` and `trim` options
    guarantee of a stored document) and a constructor that applies the
    schema's defaults and validation to the fields a handler supplies. */
module Models {
  import opened Common
  import opened Text

  /** Appointment.status enum: Scheduled, Completed, Cancelled, No-show. */
  datatype AppointmentStatus = Scheduled | Completed | Cancelled | NoShow

  /** User.role enum: admin, doctor, patient. */
  datatype Role = AdminRole | DoctorRole | PatientRole

  /** Patient.gender enum: Male, Female, Other. */
  datatype Gender = Male | Female | Other

  /** What the `lowercase` and `trim` options of an email path store. */
  function NormalizeEmail(s: string): string
  {
    Trim(Lower(s))
  }

  lemma NormalizeEmailIdempotent(s: string)
    ensures NormalizeEmail(NormalizeEmail(s)) == NormalizeEmail(s)
  {
    var t := NormalizeEmail(s);
    LowerIsLower(s);
    TrimKeepsLower(Lower(s));
    LowerOfLower(t);
    TrimIdempotent(Lower(s));
  }

  /** A stored email: present, lower case, and neither starting nor ending
      with white space. */
  predicate IsStoredEmail(e: string)
  {
    e != "" && IsLower(e) && !IsSpace(e[0]) && !IsSpace(e[|e| - 1])
  }

  /** A stored email is its own normal form ... */
  lemma StoredEmailIsNormal(e: string)
    requires IsStoredEmail(e)
    ensures NormalizeEmail(e) == e
  {
    LowerOfLower(e);
    assert TrimStart(e) == e;
    assert TrimEnd(e) == e;
  }

  /** ... and every non-empty normal form is a stored email. */
  lemma NormalizedIsStored(s: string)
    requires NormalizeEmail(s) != ""
    ensures IsStoredEmail(NormalizeEmail(s))
  {
    var u := TrimStart(Lower(s));
    var t := TrimEnd(u);
    LowerIsLower(s);
    TrimKeepsLower(Lower(s));
    TrimStartSpec(Lower(s));
    TrimEndSpec(u);
    assert t[0] == u[0];
  }

  /** The email a create stores, when the request supplied one. */
  function CastEmail(email: Option<string>): string
  {
    if email.Some? then NormalizeEmail(email.value) else ""
  }

  lemma CastEmailStored(email: Option<string>)
    requires CastEmail(email) != ""
    ensures IsStoredEmail(CastEmail(email))
  {
    NormalizedIsStored(email.value);
  }

  datatype Patient = Patient(
    firstName: string,
    lastName: string,
    email: string,
    phone: string,
    user: Option<Id>,
    dateOfBirth: Option<string>,
    gender: Option<Gender>,
    bloodGroup: Option<string>,
    address: Option<string>,
    emergencyContact: Option<string>,
    insurance: Option<string>,
    medicalHistory: seq<string>,
    avatar: Option<string>,
    status: string,
    lastVisit: Option<string>,
    createdAt: nat)
  {
    predicate Valid()
    {
      firstName != "" && lastName != "" && phone != "" && IsStoredEmail(email)
    }
  }

  /** `Patient.create` of the given fields, before the unique index is consulted:
      the email is normalised, the other fields take their defaults, and the
      document must have every required path. */
  function NewPatient(firstName: Option<string>, lastName: Option<string>, email: Option<string>,
                      phone: Option<string>, user: Option<Id>, createdAt: nat): (r: Result<Patient, StoreError>)
    ensures r.Success? <==> Present(firstName) && Present(lastName) && Present(phone) && CastEmail(email) != ""
    ensures r.Failure? ==> r.error == ValidationFailed("Patient")
    ensures r.Success? ==> r.value.Valid()
    ensures r.Success? ==> r.value.firstName == firstName.value && r.value.lastName == lastName.value
                           && r.value.phone == phone.value && r.value.email == NormalizeEmail(email.value)
                           && r.value.user == user && r.value.createdAt == createdAt
    ensures r.Success? ==> r.value.status == "Active" && r.value.gender.None? && r.value.medicalHistory == []
  {
    var e := CastEmail(email);
    if Present(firstName) && Present(lastName) && Present(phone) && e != "" then
      CastEmailStored(email);
      Success(Patient(firstName.value, lastName.value, e, phone.value, user,
                      None, None, None, None, None, None, [], None, "Active", None, createdAt))
    else
      Failure(ValidationFailed("Patient"))
  }

  datatype User = User(
    email: string,
    patientProfile: Option<Id>,
    password: string,
    role: Role,
    name: string,
    createdAt: nat)
  {
    predicate Valid()
    {
      IsStoredEmail(email) && password != "" && name != ""
    }
  }

  /** `User.create`: the role defaults to admin when none is given. */
  function NewUser(name: Option<string>, email: Option<string>, password: Option<string>,
                   role: Option<Role>, createdAt: nat): (r: Result<User, StoreError>)
    ensures r.Success? <==> Present(name) && Present(password) && CastEmail(email) != ""
    ensures r.Failure? ==> r.error == ValidationFailed("User")
    ensures r.Success? ==> r.value.Valid()
    ensures r.Success? ==> r.value.name == name.value && r.value.password == password.value
                           && r.value.email == NormalizeEmail(email.value)
                           && r.value.patientProfile.None? && r.value.createdAt == createdAt
    ensures r.Success? ==> r.value.role == (if role.Some? then role.value else AdminRole)
  {
    var e := CastEmail(email);
    if Present(name) && Present(password) && e != "" then
      CastEmailStored(email);
      Success(User(e, None, password.value, if role.Some? then role.value else AdminRole, name.value, createdAt))
    else
      Failure(ValidationFailed("User"))
  }

  datatype Doctor = Doctor(
    firstName: string,
    lastName: string,
    email: string,
    phone: string,
    specialization: Option<string>,
    department: Option<Id>,
    experience: Option<int>,
    qualifications: seq<string>,
    bio: Option<string>,
    rating: int,
    totalPatients: int,
    availableSlots: seq<string>,
    avatar: Option<string>,
    status: string,
    createdAt: nat)
  {
    predicate Valid()
    {
      firstName != "" && lastName != "" && phone != "" && IsStoredEmail(email)
    }
  }

  /** `Doctor.create` of the identifying fields; rating and patient count start at 0. */
  function NewDoctor(firstName: Option<string>, lastName: Option<string>, email: Option<string>,
                     phone: Option<string>, specialization: Option<string>, department: Option<Id>,
                     createdAt: nat): (r: Result<Doctor, StoreError>)
    ensures r.Success? <==> Present(firstName) && Present(lastName) && Present(phone) && CastEmail(email) != ""
    ensures r.Failure? ==> r.error == ValidationFailed("Doctor")
    ensures r.Success? ==> r.value.Valid()
    ensures r.Success? ==> r.value.firstName == firstName.value && r.value.lastName == lastName.value
                           && r.value.phone == phone.value && r.value.email == NormalizeEmail(email.value)
                           && r.value.specialization == specialization && r.value.department == department
                           && r.value.createdAt == createdAt
    ensures r.Success? ==> r.value.rating == 0 && r.value.totalPatients == 0 && r.value.status == "Active"
  {
    var e := CastEmail(email);
    if Present(firstName) && Present(lastName) && Present(phone) && e != "" then
      CastEmailStored(email);
      Success(Doctor(firstName.value, lastName.value, e, phone.value, specialization, department,
                     None, [], None, 0, 0, [], None, "Active", createdAt))
    else
      Failure(ValidationFailed("Doctor"))
  }

  datatype Department = Department(
    name: string,
    description: Option<string>,
    doctor: Option<Id>,
    floor: Option<int>,
    phone: Option<string>,
    email: Option<string>,
    status: string,
    createdAt: nat)
  {
    predicate Valid()
    {
      name != ""
    }
  }

  /** `Department.create`: only the name is required; status defaults to Active. */
  function NewDepartment(name: Option<string>, description: Option<string>, doctor: Option<Id>,
                         floor: Option<int>, phone: Option<string>, email: Option<string>,
                         createdAt: nat): (r: Result<Department, StoreError>)
    ensures r.Success? <==> Present(name)
    ensures r.Failure? ==> r.error == ValidationFailed("Department")
    ensures r.Success? ==> r.value.Valid() && r.value.name == name.value && r.value.status == "Active"
    ensures r.Success? ==> r.value.description == description && r.value.doctor == doctor
                           && r.value.floor == floor && r.value.phone == phone && r.value.email == email
                           && r.value.createdAt == createdAt
  {
    if Present(name) then
      Success(Department(name.value, description, doctor, floor, phone, email, "Active", createdAt))
    else
      Failure(ValidationFailed("Department"))
  }

  datatype Appointment = Appointment(
    patient: Id,
    doctor: Option<Id>,
    department: Option<Id>,
    appointmentDate: string,
    time: Option<string>,
    reason: Option<string>,
    status: AppointmentStatus,
    notes: Option<string>,
    duration: int,
    createdAt: nat)
  {
    predicate Valid()
    {
      appointmentDate != ""
    }
  }

  /** `new Appointment({...}).save()`: the patient and the date are required;
      status defaults to Scheduled and duration to 30 minutes. */
  function NewAppointment(patient: Option<Id>, doctor: Option<Id>, department: Option<Id>,
                          appointmentDate: Option<string>, time: Option<string>, reason: Option<string>,
                          status: Option<AppointmentStatus>, createdAt: nat): (r: Result<Appointment, StoreError>)
    ensures r.Success? <==> patient.Some? && Present(appointmentDate)
    ensures r.Failure? ==> r.error == ValidationFailed("Appointment")
    ensures r.Success? ==> r.value.Valid() && r.value.patient == patient.value
                           && r.value.appointmentDate == appointmentDate.value
    ensures r.Success? ==> r.value.doctor == doctor && r.value.department == department
                           && r.value.time == time && r.value.reason == reason
                           && r.value.notes.None? && r.value.createdAt == createdAt
    ensures r.Success? ==> r.value.status == (if status.Some? then status.value else Scheduled)
                           && r.value.duration == 30
  {
    if patient.Some? && Present(appointmentDate) then
      Success(Appointment(patient.value, doctor, department, appointmentDate.value, time, reason,
                          if status.Some? then status.value else Scheduled, None, 30, createdAt))
    else
      Failure(ValidationFailed("Appointment"))
  }
}
