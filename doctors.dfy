/** The doctor search handler and the by-department filter. */
module DoctorController {
  import opened Common
  import opened Text
  import opened Pattern
  import opened Models
  import opened Store

  /** The `$or` of the three `$regex` conditions on a doctor; a doctor
      without a specialization fails that condition. The email is not searched. */
  predicate DoctorMatches(lit: Literal, d: Doctor)
  {
    || Matches(lit, d.firstName) || Matches(lit, d.lastName)
    || (d.specialization.Some? && Matches(lit, d.specialization.value))
  }

  /** `searchDoctors`. */
  function SearchDoctors(db: Database, query: Option<string>): Reply<map<Id, Doctor>>
    reads db
  {
    if !Present(query) then Reply(200, Json(map[]))
    else if !db.online then Reply(500, Error(Raised(Unreachable)))
    else match Compile(Escape(query.value))
      case None => Reply(500, Error(Raised(InvalidPattern)))
      case Some(lit) =>
        Reply(200, Json(map k | k in db.doctors && DoctorMatches(lit, db.doctors[k]) :: db.doctors[k]))
  }

  /** With a query and a reachable store the search cannot fail and returns
      exactly the doctors whose first name, last name or specialization
      contains the query ignoring case; a match on the email alone does not count. */
  lemma SearchDoctorsSpec(db: Database, query: Option<string>)
    requires db.online && Present(query)
    ensures SearchDoctors(db, query).status == 200 && SearchDoctors(db, query).body.Json?
    ensures var found := SearchDoctors(db, query).body.value;
            forall k :: k in found <==>
              && k in db.doctors
              && (|| ContainsIgnoreCase(db.doctors[k].firstName, query.value)
                  || ContainsIgnoreCase(db.doctors[k].lastName, query.value)
                  || (db.doctors[k].specialization.Some?
                      && ContainsIgnoreCase(db.doctors[k].specialization.value, query.value)))
    ensures var found := SearchDoctors(db, query).body.value;
            forall k :: k in found ==> found[k] == db.doctors[k]
  {
    CompileEscape(query.value);
  }

  /** A missing or empty query returns nothing. */
  lemma SearchDoctorsEmptyQuery(db: Database, query: Option<string>)
    requires !Present(query)
    ensures SearchDoctors(db, query) == Reply(200, Json(map[]))
  {
  }

  /** `getDoctorsByDepartment`: `Doctor.find({ department: departmentId })`. */
  function DoctorsByDepartment(db: Database, departmentId: Id): Reply<map<Id, Doctor>>
    reads db
  {
    if !db.online then Reply(500, Error(Raised(Unreachable)))
    else Reply(200, Json(map k | k in db.doctors && db.doctors[k].department == Some(departmentId) :: db.doctors[k]))
  }

  /** A doctor is listed for a department exactly when assigned to it, so a
      doctor appears under at most one department and an unassigned doctor
      under none. */
  lemma DoctorsByDepartmentSpec(db: Database, departmentId: Id, other: Id)
    requires db.online
    ensures DoctorsByDepartment(db, departmentId).status == 200
    ensures var found := DoctorsByDepartment(db, departmentId).body.value;
            forall k :: k in found <==> k in db.doctors && db.doctors[k].department == Some(departmentId)
    ensures departmentId != other ==>
              DoctorsByDepartment(db, departmentId).body.value.Keys !! DoctorsByDepartment(db, other).body.value.Keys
  {
  }
}
