/** The patient search handler. */
module PatientController {
  import opened Common
  import opened Text
  import opened Pattern
  import opened Models
  import opened Store

  /** The `$or` of the three `$regex` conditions on a patient. */
  predicate PatientMatches(lit: Literal, p: Patient)
  {
    Matches(lit, p.firstName) || Matches(lit, p.lastName) || Matches(lit, p.email)
  }

  /** `searchPatients`: no query gives an empty list without touching the
      store; otherwise the query is escaped and every patient is matched against it. */
  function SearchPatients(db: Database, query: Option<string>): Reply<map<Id, Patient>>
    reads db
  {
    if !Present(query) then Reply(200, Json(map[]))
    else if !db.online then Reply(500, Error(Raised(Unreachable)))
    else match Compile(Escape(query.value))
      case None => Reply(500, Error(Raised(InvalidPattern)))
      case Some(lit) =>
        Reply(200, Json(map k | k in db.patients && PatientMatches(lit, db.patients[k]) :: db.patients[k]))
  }

  /** With a query and a reachable store the search cannot fail, whatever
      characters the query holds, and it returns exactly the patients whose
      first name, last name or email contains the query ignoring case, each
      as stored. */
  lemma SearchPatientsSpec(db: Database, query: Option<string>)
    requires db.online && Present(query)
    ensures SearchPatients(db, query).status == 200 && SearchPatients(db, query).body.Json?
    ensures var found := SearchPatients(db, query).body.value;
            forall k :: k in found <==>
              && k in db.patients
              && (|| ContainsIgnoreCase(db.patients[k].firstName, query.value)
                  || ContainsIgnoreCase(db.patients[k].lastName, query.value)
                  || ContainsIgnoreCase(db.patients[k].email, query.value))
    ensures var found := SearchPatients(db, query).body.value;
            forall k :: k in found ==> found[k] == db.patients[k]
  {
    CompileEscape(query.value);
  }

  /** A missing or empty query returns nothing, however many patients there
      are and whether or not the store is reachable. */
  lemma SearchPatientsEmptyQuery(db: Database, query: Option<string>)
    requires !Present(query)
    ensures SearchPatients(db, query) == Reply(200, Json(map[]))
  {
  }

  /** Syntax characters in the query are searched for as text: "(" finds the
      patients whose fields contain a parenthesis. */
  lemma SearchPatientsParenthesis(db: Database)
    requires db.online
    ensures SearchPatients(db, Some("(")).status == 200
    ensures forall k :: k in SearchPatients(db, Some("(")).body.value <==>
              && k in db.patients
              && (|| ContainsIgnoreCase(db.patients[k].firstName, "(")
                  || ContainsIgnoreCase(db.patients[k].lastName, "(")
                  || ContainsIgnoreCase(db.patients[k].email, "("))
  {
    SearchPatientsSpec(db, Some("("));
  }
}
