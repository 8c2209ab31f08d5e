# Hospital management back end: a verified model of its domain rules

This project models the request handlers of a hospital-management REST back end
(Express over a MongoDB/Mongoose document store) and proves what they promise.
The document store is a `Database` class with one map per collection (Patient,
Doctor, Department, Appointment, User), a counter that hands out fresh
identifiers, a creation counter standing in for the `createdAt` timestamp, and an
`online` flag: when the store cannot be reached every store call throws, which
is how each handler's `catch` branch is reached.

- `common.dfy` (`Common`): `Option`, `Result`, identifiers, the store's errors,
  the `{ status, body }` reply, and JavaScript truthiness of an optional string
  (`Present`: neither missing nor empty).
- `text.dfy` (`Text`): ASCII `toLowerCase`, `String.prototype.trim`, substring
  search, and case-insensitive comparison as the regular-expression `i` flag
  performs it.
- `pattern.dfy` (`Pattern`): the search handlers' escape, which puts a backslash
  before every SyntaxCharacter of ECMA-262 (section 22.2.1), and the literal
  fragment of the pattern language (ordinary and escaped characters, optionally
  anchored with `^…$`). A pattern outside that fragment is handed to an
  `Engine` parameter that stands for the store's regular-expression engine.
- `models.dfy` (`Models`): the five schemas as datatypes with validity
  predicates (required paths, enums, normalised emails) and `New*` functions
  that apply the schema's defaults and validation.
- `store.dfy` (`Store`): `findOne` taken as the match with the lowest identifier, the unique
  indexes, and the `Database` class whose methods are the store writes the
  handlers make.
- `appointments.dfy` (`AppointmentController`): booking, cancellation, the
  status counts, and the by-patient and by-doctor filters.
- `auth.dfy` (`AuthController`): sign-in and sign-up.
- `patients.dfy` (`PatientController`), `doctors.dfy` (`DoctorController`):
  the two searches and the doctors-by-department filter.
- `dashboard.dfy` (`DashboardController`): the dashboard summary.

Behaviours of the code that the model makes explicit:

- Lookups by email (`findOne({ email })` in booking, sign-in and sign-up) are
  modelled as comparing the supplied string with the stored email as it is;
  whether the store applies the schema's `lowercase`/`trim` setters to the
  query is left open (see "Left out"). Stored emails are lower-cased and
  trimmed, so under this reading an email supplied in another form finds
  nothing: sign-in then answers 401 (`AuthController.LoginNeedsStoredForm`),
  and booking or sign-up go on to a create that the unique index refuses.
- Booking does not escape the department name (appointmentController.js:82).
  For a name with no syntax characters the lookup is a whole-name,
  case-insensitive comparison. A name with syntax characters is read as a
  pattern (`Pattern.UnescapedOperatorsStayOperators`).
- Sign-up checks only the User collection for the email
  (authController.js:63). When a Patient already holds it (one created by
  booking, say), the User is written, the Patient create fails on its unique
  index, and the reply is 500 with a User left behind that has no profile
  (`AuthController.SignUpOverBookedPatient`, `AuthController.SignUpWrites`).
  Booking likewise keeps the Patient it created when a later step fails
  (`AppointmentController.CreateAppointment`). A
  display name that starts with a space gives an empty first name and ends the
  same way.
- The name split is `split(' ')` on single spaces, as the code does. A looser
  "split on white space" does not describe it. The last name is everything
  after the first space, spacing kept, or `Patient` when that is empty.

## Model

| member | source | states |
|---|---|---|
| Text.LowerAt | backend/server/models/Patient.js:23 | lower-casing keeps the length and maps each character on its own |
| Text.TrimStartSpec | backend/server/models/Patient.js:24 | trimming the start removes only white space and leaves a suffix of the input that does not begin with white space |
| Text.TrimEndSpec | backend/server/models/Patient.js:24 | trimming the end removes only white space and leaves a prefix of the input that does not end with white space |
| Text.TrimIdempotent | backend/server/models/Patient.js:24 | trimming twice is trimming once |
| Text.TrimKeepsLower | backend/server/models/Patient.js:23-24 | trimming a lower-case string keeps it lower case |
| Text.IsInfixMeaning | backend/server/controllers/patientController.js:83-89 | substring search succeeds exactly when the query occurs at some position of the subject |
| Models.NormalizeEmailIdempotent | backend/server/models/Patient.js:23-24 | normalising a stored email again changes nothing |
| Models.StoredEmailIsNormal | backend/server/models/User.js:8-14 | a stored email (non-empty, lower case, trimmed) is its own normal form |
| Models.NormalizedIsStored | backend/server/models/Doctor.js:18-25 | every non-empty normalised email satisfies the stored-email invariant |
| Models.NewPatient | backend/server/models/Patient.js:6-66 | creation succeeds exactly when first name, last name, phone and email are given; the email is stored normalised, status defaults to Active, gender unset, empty history; the result is valid |
| Models.NewUser | backend/server/models/User.js:6-40 | creation succeeds exactly when name, password and email are given; the role defaults to admin; no profile link; the result is valid |
| Models.NewDoctor | backend/server/models/Doctor.js:6-67 | creation succeeds exactly when first name, last name, phone and email are given; rating and patient count start at 0, status Active |
| Models.NewDepartment | backend/server/models/Department.js:6-34 | creation succeeds exactly when the name is given; status defaults to Active; the optional fields are copied |
| Models.NewAppointment | backend/server/models/Appointment.js:6-52 | creation succeeds exactly when a patient and a date are given; status defaults to Scheduled, duration to 30, doctor and department optional |
| Pattern.Escape | backend/server/controllers/patientController.js:78 | the escaped query is as long as the query plus its number of syntax characters |
| Pattern.StripEscapesOfEscape | backend/server/controllers/patientController.js:78 | removing the inserted backslashes gives back the query |
| Pattern.EscapeInjective | backend/server/controllers/patientController.js:78 | different queries give different patterns |
| Pattern.EscapeIdentity | backend/server/controllers/doctorController.js:90 | a query without syntax characters is passed through unchanged |
| Pattern.CompileEscape | backend/server/controllers/patientController.js:77-78 | every escaped query is a plain literal pattern looking for the query itself |
| Pattern.CompileAnchoredEscape | backend/server/controllers/appointmentController.js:82 | `^` + escaped name + `$` would match exactly the name, ignoring case |
| Pattern.CompileAnchoredMetaFree | backend/server/controllers/appointmentController.js:82 | a department name without syntax characters compiles to a whole-name literal although it is not escaped |
| Pattern.UnescapedOperatorsStayOperators | backend/server/controllers/appointmentController.js:82 | an unescaped `.*` in a department name leaves the literal fragment, where escaping would have kept it literal |
| Store.FindFirst | backend/server/controllers/appointmentController.js:66 | `findOne`: the result is in the collection and matches, and no document with a smaller identifier matches; none means nothing matches |
| Store.FindFirstUnique | backend/server/controllers/authController.js:19 | when exactly one document matches, `findOne` returns it |
| Store.Database.CreatePatient | backend/server/controllers/appointmentController.js:69-74 | validation error, unreachable store, duplicate email (unique index) or the insert of the new document under a fresh identifier; nothing else changes |
| Store.Database.CreateUser | backend/server/controllers/authController.js:69-74 | as for patients, with the User unique index on email |
| Store.Database.CreateDoctor | backend/server/models/Doctor.js:18-25 | as for patients, with the Doctor unique index on email |
| Store.Database.CreateDepartment | backend/server/models/Department.js:8-12 | as for patients, with the unique index on the exact name |
| Store.Database.SaveAppointment | backend/server/controllers/appointmentController.js:89-99 | validation error, unreachable store, or the insert under a fresh identifier |
| Store.Database.SetAppointmentStatus | backend/server/controllers/appointmentController.js:123 | only the status of that appointment changes; an unknown identifier gives null and changes nothing |
| Store.Database.SetPatientProfile | backend/server/controllers/authController.js:92-93 | only that user's profile link changes |
| AppointmentController.PatientByEmailSpec | backend/server/controllers/appointmentController.js:66 | a patient is found exactly when one holds the email as supplied, and it has that email |
| AppointmentController.ResolveMetaFreeName | backend/server/controllers/appointmentController.js:79-86 | for a name without syntax characters the lookup cannot fail, does not depend on the engine, returns the first department whose name equals it ignoring case, and null exactly when none does |
| AppointmentController.ResolveSingle | backend/server/controllers/appointmentController.js:82 | with one department on file, the lookup finds it exactly when the names agree ignoring case |
| AppointmentController.CardiologyIgnoresCase | backend/server/controllers/appointmentController.js:82 | "cardiology" names the department "Cardiology" |
| AppointmentController.CardioIsNotCardiology | backend/server/controllers/appointmentController.js:82 | "Cardio" does not name "Cardiology": the anchors rule out a substring match |
| AppointmentController.ResolveAnyBound | backend/server/controllers/appointmentController.js:82 | the lookup does not depend on how far identifiers are searched once all are covered |
| AppointmentController.CreateAppointment | backend/server/controllers/appointmentController.js:59-107 | 201 exactly when the patient is found or created, the department lookup does not throw and a date is given; whatever the reply, a known email writes no Patient and a new one writes the form's Patient exactly when it is valid and its email free, and that Patient stays when a later step fails; the appointment references that patient, is Scheduled, has no doctor, duration 30, copies date, time and reason, and carries the resolved department or null; every failure is 400 and writes no appointment |
| AppointmentController.CancelAppointment | backend/server/controllers/appointmentController.js:120-128 | only the status of that appointment becomes Cancelled; an unknown identifier answers 200 with null; an unreachable store answers 500 |
| AppointmentController.StatusCountsPartition | backend/server/controllers/appointmentController.js:144-147 | the four status counts add up to the number of appointments |
| AppointmentController.GetStatsBound | backend/server/controllers/appointmentController.js:141-154 | completed + scheduled + cancelled never exceeds total, and the gap is the No-show count |
| AppointmentController.FiltersSelectByReference | backend/server/controllers/appointmentController.js:35-56 | an appointment is listed for a patient (doctor) exactly when its reference equals that identifier, unchanged; an unassigned appointment is in no doctor's list |
| AppointmentController.PatientListsDisjoint | backend/server/controllers/appointmentController.js:37 | two patients' lists share no appointment |
| AuthController.Split | backend/server/controllers/authController.js:78 | `split(' ')` always gives at least one piece |
| AuthController.JoinSplit | backend/server/controllers/authController.js:78-80 | joining the pieces with spaces gives back the name |
| AuthController.SplitHasNoSpaces | backend/server/controllers/authController.js:78 | no piece contains a space |
| AuthController.SpaceFromSpec | backend/server/controllers/authController.js:78-79 | the index found is the first space at or after the start, or the end |
| AuthController.NameParts | backend/server/controllers/authController.js:78-80 | the first name is the first piece of the split and the rest is the other pieces joined with spaces; the name is first + " " + rest when it has a space; the last name is never empty |
| AuthController.NameExamples | backend/server/controllers/authController.js:80 | "Madonna" and "Madonna " get the last name Patient; " Madonna" gets an empty first name |
| AuthController.UserByEmailSpec | backend/server/controllers/authController.js:19 | a user is found exactly when one has the email as supplied, and it is that user |
| AuthController.LoginSpec | backend/server/controllers/authController.js:7-49 | the reply is 200 or the single 401 "Invalid credentials"; 200 exactly when some user has that email and password, reporting that user's id, email, name, role, its patient profile only when linked and on file, and a token that starts with the fixed prefix |
| AuthController.LoginNeedsBothFields | backend/server/controllers/authController.js:13-15 | a missing or empty field gives 400 "Email and password required" before the store is read |
| AuthController.LoginNeedsStoredForm | backend/server/controllers/authController.js:19 | an email not in normal form never signs in |
| AuthController.WriteProfile | backend/server/controllers/authController.js:83-93 | the Patient is written exactly when its document is valid and its email free; then the user is linked to it |
| AuthController.UserRefusedWrites | backend/server/controllers/authController.js:69-74 | a refused User create writes nothing and answers 500 |
| AuthController.ProfileRefusedWrites | backend/server/controllers/authController.js:83-89 | a refused Patient create answers 500 with the Patient collection unchanged and the User collection holding exactly the new User, without a profile |
| AuthController.AccountWritten | backend/server/controllers/authController.js:96-106 | the 201 reply carries the new user's id, name, normalised email, role patient and the new profile's id |
| AuthController.FinishAccount | backend/server/controllers/authController.js:83-106 | once the User is written: 201 with the linked Account exactly when the Patient is accepted, else 500 with both collections as they were, so the User stays without a profile |
| AuthController.WriteAccount | backend/server/controllers/authController.js:68-106 | the three writes end in 201 exactly when the sign-up is accepted, with User and Patient linked both ways, or in 500 with no Patient and the new User kept, without a profile, exactly when its own create went through |
| AuthController.Register | backend/server/controllers/authController.js:52-111 | 400 "All fields are required" or 400 "User already exists" (email as supplied found among users) write nothing; otherwise the outcome of the three writes |
| AuthController.SignUpProfileFields | backend/server/controllers/authController.js:83-89 | the profile points back at the user, shares its email, takes first and last name from the split and has phone "Not updated" |
| AuthController.SignUpOverBookedPatient | backend/server/controllers/authController.js:63-110 | with a Patient already holding the email and no User, register goes on to its writes and ends in 500 with the Patients unchanged and exactly one new User, which has no profile |
| PatientController.SearchPatientsSpec | backend/server/controllers/patientController.js:70-95 | with a query the search cannot fail and returns exactly the patients whose first name, last name or email contains it ignoring case, unchanged |
| PatientController.SearchPatientsEmptyQuery | backend/server/controllers/patientController.js:73-75 | a missing or empty query gives an empty list without reading the store |
| PatientController.SearchPatientsParenthesis | backend/server/controllers/patientController.js:77-78 | "(" is searched as text and does not make the search fail |
| DoctorController.SearchDoctorsSpec | backend/server/controllers/doctorController.js:82-106 | with a query the search cannot fail and returns exactly the doctors whose first name, last name or specialization contains it ignoring case; the email is not searched |
| DoctorController.SearchDoctorsEmptyQuery | backend/server/controllers/doctorController.js:87 | a missing or empty query gives an empty list |
| DoctorController.DoctorsByDepartmentSpec | backend/server/controllers/doctorController.js:31-40 | a doctor is listed exactly when assigned to that department, so two departments' lists are disjoint |
| DashboardController.NewestFrom | backend/server/controllers/dashboardController.js:18 | the appointment chosen is in the collection and within range |
| DashboardController.NewestFromSpec | backend/server/controllers/dashboardController.js:17-18 | the appointment chosen is created no earlier than any other, and none is chosen only when there is none |
| DashboardController.Recent | backend/server/controllers/dashboardController.js:17-19 | at most n identifiers, each of an appointment |
| DashboardController.RecentSpec | backend/server/controllers/dashboardController.js:17-19 | min(n, total) distinct appointments, newest first, and no appointment left out is newer than one listed |
| DashboardController.FormatAt | backend/server/controllers/dashboardController.js:27-35 | one entry per appointment, in order |
| DashboardController.DashboardSpec | backend/server/controllers/dashboardController.js:8-51 | the overview is the four collection sizes; the list has min(5, total) entries, newest first, none omitted newer, each copying id, time and status with both labels |
| DashboardController.PatientLabelFallback | backend/server/controllers/dashboardController.js:30 | the label is "Unknown Patient" exactly when the patient does not resolve or is literally named Unknown Patient |
| DashboardController.PatientLabelAmbiguity | backend/server/controllers/dashboardController.js:30 | a patient named Unknown Patient reads exactly like a missing one |
| DashboardController.DoctorLabelFallback | backend/server/controllers/dashboardController.js:32 | the label starts with "Dr. " exactly when the doctor resolves |

## Left out

- The front end, the HTTP routes, the server wiring, environment configuration and the database connection: no domain rules live there.
- The plain create, read, update and delete handlers, `updateAppointment` and `logout`: each is one store call with a fixed status mapping.
- Concurrency: each request is one sequential method, so the races in booking's find-or-create and in sign-up's three writes are not modelled.
- `Date.now()`: the login token's suffix is a parameter, and creation times come from a counter; `updatedAt` is not modelled.
- Case folding is ASCII only; Unicode case folding under the `i` flag and Unicode white space beyond the listed trim set are not modelled.
- Whether Mongoose applies the `lowercase`/`trim` setters to query values is not modelled: lookups by email use the supplied string exactly.
- Dates are opaque strings: casting a malformed date string is not modelled, only a missing or empty one.
- Identifiers are naturals: the CastError that a malformed ObjectId in a path parameter raises is not modelled.
- Request fields are optional strings: non-string JSON values (numbers, arrays, objects) are not modelled.
- `populate` and `select` in the by-patient, by-doctor, by-department and search replies, and the order of the documents in those replies: the model returns the matching documents as a map from identifier to document.
- AppointmentController.ResolveDepartment: a department name with syntax characters is delegated to an `Engine` parameter; full regular-expression semantics are not modelled.
- AuthController.WriteProfile: the final `save()` of the user is not given its own failure, because the store stays reachable for the whole request in the model.
- DashboardController.Recent: among appointments with the same creation time the lowest identifier comes first; the store does not fix an order for such ties.
- Plaintext passwords and the unverified session token are modelled as the code has them.
- Which of several matching documents `findOne` returns: the store does not promise one, and the model takes the lowest identifier. AppointmentController.ResolveMetaFreeName's "first department" and Store.FindFirst's order rest on that choice; it matters only for the department lookup: names that differ in case alone or by a final newline, and unescaped names that are themselves patterns (`Cardio.*` matches both `Cardiology` and `Cardiothoracic`).
- PatientController.SearchPatientsSpec: the store's refusal of a pattern with an embedded NUL byte, or of one longer than its pattern limit, is not modelled, so such a query is answered as an ordinary search instead of 500.
- DoctorController.SearchDoctorsSpec: the store's refusal of a pattern with an embedded NUL byte, or of one longer than its pattern limit, is not modelled, so such a query is answered as an ordinary search instead of 500.
- AppointmentController.ResolveMetaFreeName: the store's refusal of a pattern with an embedded NUL byte, or of one longer than its pattern limit, is not modelled, so such a department name is looked up instead of throwing.
- AppointmentController.CreateAppointment: for the same reason a department name with an embedded NUL byte, or one past the store's pattern limit, books the appointment where the store would refuse it with 400.
- Number paths (`Doctor.rating`, `Doctor.experience`, `Department.floor`, `Appointment.duration`) are modelled as unbounded integers, not as JavaScript floating-point numbers.
- AppointmentController.CreateAppointment: like sign-up, booking assumes the store stays reachable for the whole request once its first call succeeds; a failure in the middle of booking is not modelled.
- The `console.error` logging in the handlers' `catch` branches (appointmentController.js:104, for one) is dropped: it has no effect on the reply or the store.
