/** The dashboard summary: four collection sizes and the five most recently
    created appointments, each formatted with patient and doctor labels. */
module DashboardController {
  import opened Common
  import opened Models
  import opened Store

  /** The identifier in [from, bound) of the appointment created last; among
      appointments created at the same moment the lowest identifier wins. */
  function NewestFrom(m: map<Id, Appointment>, from: nat, bound: nat): (r: Option<Id>)
    ensures r.Some? ==> r.value in m && from <= r.value < bound
    decreases bound - from
  {
    if from >= bound then None
    else
      var rest := NewestFrom(m, from + 1, bound);
      if from !in m then rest
      else if rest.Some? && m[rest.value].createdAt > m[from].createdAt then rest
      else Some(from)
  }

  lemma {:induction false} NewestFromSpec(m: map<Id, Appointment>, from: nat, bound: nat)
    ensures NewestFrom(m, from, bound).None? <==> forall k :: k in m ==> !(from <= k < bound)
    ensures NewestFrom(m, from, bound).Some? ==>
              var k := NewestFrom(m, from, bound).value;
              && k in m && from <= k < bound
              && forall j :: j in m && from <= j < bound ==> m[j].createdAt <= m[k].createdAt
    decreases bound - from
  {
    if from < bound {
      NewestFromSpec(m, from + 1, bound);
    }
  }

  /** `Appointment.find().sort({ createdAt: -1 }).limit(n)`, as identifiers. */
  function Recent(m: map<Id, Appointment>, n: nat, bound: nat): (r: seq<Id>)
    ensures |r| <= n
    ensures forall i :: 0 <= i < |r| ==> r[i] in m
    decreases n
  {
    if n == 0 then []
    else match NewestFrom(m, 0, bound)
      case None => []
      case Some(k) => [k] + Recent(m - {k}, n - 1, bound)
  }

  /** Every appointment in [0, bound) is at most as new as the one NewestFrom picks. */
  lemma NewestIsNewest(m: map<Id, Appointment>, bound: nat, k: Id)
    requires KeysBelow(m, bound) && NewestFrom(m, 0, bound) == Some(k)
    ensures forall j :: j in m ==> m[j].createdAt <= m[k].createdAt
  {
    NewestFromSpec(m, 0, bound);
    forall j | j in m ensures m[j].createdAt <= m[k].createdAt {
      assert 0 <= j < bound;
    }
  }

  /** As many appointments as there are, up to `n`. */
  lemma {:induction false} RecentLength(m: map<Id, Appointment>, n: nat, bound: nat)
    requires KeysBelow(m, bound)
    ensures |Recent(m, n, bound)| == (if |m| < n then |m| else n)
    decreases n
  {
    if n > 0 {
      NewestFromSpec(m, 0, bound);
      match NewestFrom(m, 0, bound)
      case None =>
        assert m.Keys == {};
      case Some(k) =>
        RecentLength(m - {k}, n - 1, bound);
        assert |m - {k}| == |m| - 1;
    }
  }

  /** No appointment is listed twice. */
  lemma {:induction false} RecentDistinct(m: map<Id, Appointment>, n: nat, bound: nat)
    ensures forall i, j :: 0 <= i < j < |Recent(m, n, bound)| ==> Recent(m, n, bound)[i] != Recent(m, n, bound)[j]
    decreases n
  {
    if n > 0 && NewestFrom(m, 0, bound).Some? {
      var k := NewestFrom(m, 0, bound).value;
      RecentDistinct(m - {k}, n - 1, bound);
      var rest := Recent(m - {k}, n - 1, bound);
      var r := Recent(m, n, bound);
      assert r == [k] + rest;
      forall i, j | 0 <= i < j < |r| ensures r[i] != r[j] {
        assert r[j] == rest[j - 1] && r[j] in m - {k};
        if i == 0 {
          assert r[i] == k;
        } else {
          assert r[i] == rest[i - 1] && rest[i - 1] != rest[j - 1];
        }
      }
    }
  }

  /** Newest first. */
  lemma {:induction false} RecentNewestFirst(m: map<Id, Appointment>, n: nat, bound: nat)
    requires KeysBelow(m, bound)
    ensures forall i, j :: 0 <= i < j < |Recent(m, n, bound)| ==>
              m[Recent(m, n, bound)[i]].createdAt >= m[Recent(m, n, bound)[j]].createdAt
    decreases n
  {
    if n > 0 && NewestFrom(m, 0, bound).Some? {
      var k := NewestFrom(m, 0, bound).value;
      NewestIsNewest(m, bound, k);
      var rest := Recent(m - {k}, n - 1, bound);
      RecentNewestFirst(m - {k}, n - 1, bound);
      var r := Recent(m, n, bound);
      assert r == [k] + rest;
      forall i, j | 0 <= i < j < |r| ensures m[r[i]].createdAt >= m[r[j]].createdAt {
        assert r[j] == rest[j - 1] && r[j] in m - {k} && (m - {k})[r[j]] == m[r[j]];
        if i == 0 {
          assert r[i] == k;
        } else {
          assert r[i] == rest[i - 1] && r[i] in m - {k} && (m - {k})[r[i]] == m[r[i]];
          assert (m - {k})[rest[i - 1]].createdAt >= (m - {k})[rest[j - 1]].createdAt;
        }
      }
    }
  }

  /** No appointment left out is newer than one listed. */
  lemma {:induction false} RecentNoneOmittedNewer(m: map<Id, Appointment>, n: nat, bound: nat)
    requires KeysBelow(m, bound)
    ensures forall k, i :: k in m && k !in Recent(m, n, bound) && 0 <= i < |Recent(m, n, bound)| ==>
              m[k].createdAt <= m[Recent(m, n, bound)[i]].createdAt
    decreases n
  {
    if n > 0 && NewestFrom(m, 0, bound).Some? {
      var k := NewestFrom(m, 0, bound).value;
      NewestIsNewest(m, bound, k);
      RecentNoneOmittedNewer(m - {k}, n - 1, bound);
      assert Recent(m, n, bound) == [k] + Recent(m - {k}, n - 1, bound);
    }
  }

  /** At most `n` appointments, as many as there are up to `n`, no appointment
      twice, newest first, and no appointment left out is newer than one listed. */
  lemma RecentSpec(m: map<Id, Appointment>, n: nat, bound: nat)
    requires KeysBelow(m, bound)
    ensures var r := Recent(m, n, bound);
            && |r| == (if |m| < n then |m| else n)
            && (forall i :: 0 <= i < |r| ==> r[i] in m)
            && (forall i, j :: 0 <= i < j < |r| ==> r[i] != r[j])
            && (forall i, j :: 0 <= i < j < |r| ==> m[r[i]].createdAt >= m[r[j]].createdAt)
            && (forall k, i :: k in m && k !in r && 0 <= i < |r| ==> m[k].createdAt <= m[r[i]].createdAt)
  {
    RecentLength(m, n, bound);
    RecentDistinct(m, n, bound);
    RecentNewestFirst(m, n, bound);
    RecentNoneOmittedNewer(m, n, bound);
  }

  /** What the `patient` column shows: the populated names, or a fallback when
      the reference does not resolve. */
  function PatientLabel(patients: map<Id, Patient>, a: Appointment): string
  {
    if a.patient in patients then patients[a.patient].firstName + " " + patients[a.patient].lastName
    else "Unknown Patient"
  }

  /** What the `doctor` column shows. */
  function DoctorLabel(doctors: map<Id, Doctor>, a: Appointment): string
  {
    if a.doctor.Some? && a.doctor.value in doctors
    then "Dr. " + doctors[a.doctor.value].firstName + " " + doctors[a.doctor.value].lastName
    else "No Doctor Assigned"
  }

  datatype Overview = Overview(totalPatients: nat, totalDoctors: nat, appointments: nat, departments: nat)

  datatype RecentEntry = RecentEntry(id: Id, patient: string, doctor: string, time: Option<string>,
                                     status: AppointmentStatus)

  datatype Dashboard = Dashboard(overview: Overview, recentAppointments: seq<RecentEntry>)

  function Entry(patients: map<Id, Patient>, doctors: map<Id, Doctor>, id: Id, a: Appointment): RecentEntry
  {
    RecentEntry(id, PatientLabel(patients, a), DoctorLabel(doctors, a), a.time, a.status)
  }

  /** The formatted list, one entry per listed identifier, in order. */
  function Format(patients: map<Id, Patient>, doctors: map<Id, Doctor>, appointments: map<Id, Appointment>,
                  ids: seq<Id>): seq<RecentEntry>
    requires forall i :: 0 <= i < |ids| ==> ids[i] in appointments
  {
    if ids == [] then []
    else [Entry(patients, doctors, ids[0], appointments[ids[0]])] + Format(patients, doctors, appointments, ids[1..])
  }

  lemma {:induction false} FormatAt(patients: map<Id, Patient>, doctors: map<Id, Doctor>,
                                    appointments: map<Id, Appointment>, ids: seq<Id>)
    requires forall i :: 0 <= i < |ids| ==> ids[i] in appointments
    ensures |Format(patients, doctors, appointments, ids)| == |ids|
    ensures forall i :: 0 <= i < |ids| ==>
              Format(patients, doctors, appointments, ids)[i] == Entry(patients, doctors, ids[i], appointments[ids[i]])
  {
    if ids != [] {
      FormatAt(patients, doctors, appointments, ids[1..]);
    }
  }

  /** `getDashboardStats`. */
  function GetDashboardStats(db: Database): Reply<Dashboard>
    reads db
  {
    if !db.online then Reply(500, Error(Raised(Unreachable)))
    else
      Reply(200, Json(Dashboard(
        Overview(|db.patients|, |db.doctors|, |db.appointments|, |db.departments|),
        Format(db.patients, db.doctors, db.appointments, Recent(db.appointments, 5, db.nextId)))))
  }

  /** The overview holds the four collection sizes; the recent list holds
      min(5, total) entries, the newest appointments first, no appointment
      left out being newer than one shown; each entry copies the
      appointment's id, time and status and carries its two labels. */
  lemma DashboardSpec(db: Database)
    requires db.Valid() && db.online
    ensures GetDashboardStats(db).status == 200 && GetDashboardStats(db).body.Json?
    ensures GetDashboardStats(db).body.value.overview
            == Overview(|db.patients|, |db.doctors|, |db.appointments|, |db.departments|)
    ensures var list := GetDashboardStats(db).body.value.recentAppointments;
            && |list| == (if |db.appointments| < 5 then |db.appointments| else 5)
            && (forall i :: 0 <= i < |list| ==>
                  && list[i].id in db.appointments
                  && list[i].time == db.appointments[list[i].id].time
                  && list[i].status == db.appointments[list[i].id].status
                  && list[i].patient == PatientLabel(db.patients, db.appointments[list[i].id])
                  && list[i].doctor == DoctorLabel(db.doctors, db.appointments[list[i].id]))
            && (forall i, j :: 0 <= i < j < |list| ==>
                  && list[i].id != list[j].id
                  && db.appointments[list[i].id].createdAt >= db.appointments[list[j].id].createdAt)
            && (forall k, i ::
                  (k in db.appointments && 0 <= i < |list| && forall j :: 0 <= j < |list| ==> list[j].id != k) ==>
                  db.appointments[k].createdAt <= db.appointments[list[i].id].createdAt)
  {
    var ids := Recent(db.appointments, 5, db.nextId);
    RecentSpec(db.appointments, 5, db.nextId);
    FormatAt(db.patients, db.doctors, db.appointments, ids);
    var list := GetDashboardStats(db).body.value.recentAppointments;
    forall k, i | k in db.appointments && 0 <= i < |list| && (forall j :: 0 <= j < |list| ==> list[j].id != k)
      ensures db.appointments[k].createdAt <= db.appointments[list[i].id].createdAt
    {
      assert k !in ids by {
        forall j | 0 <= j < |ids| ensures ids[j] != k {
          assert list[j].id == ids[j];
        }
      }
    }
  }

  /** The doctor label starts with "Dr. " exactly when the reference resolves,
      so the fallback cannot be mistaken for a doctor's name. */
  lemma DoctorLabelFallback(doctors: map<Id, Doctor>, a: Appointment)
    ensures var l := DoctorLabel(doctors, a);
            (|l| >= 4 && l[..4] == "Dr. ") <==> a.doctor.Some? && a.doctor.value in doctors
  {
    if !(a.doctor.Some? && a.doctor.value in doctors) {
      assert DoctorLabel(doctors, a)[1] == 'o';
    }
  }

  /** The patient label is the fallback exactly when the reference does not
      resolve or the patient is literally named "Unknown" "Patient". */
  lemma PatientLabelFallback(patients: map<Id, Patient>, a: Appointment)
    ensures PatientLabel(patients, a) == "Unknown Patient" <==>
              || a.patient !in patients
              || (patients[a.patient].firstName == "Unknown" && patients[a.patient].lastName == "Patient")
  {
    if a.patient in patients {
      var p := patients[a.patient];
      var l := p.firstName + " " + p.lastName;
      if l == "Unknown Patient" {
        assert l[|p.firstName|] == ' ';
        assert |p.firstName| == 7 by {
          forall i | 0 <= i < |l| && i != 7 ensures l[i] != ' ' {
          }
        }
        assert p.firstName == l[..7];
        assert p.lastName == l[8..];
      }
    }
  }

  /** A patient named "Unknown Patient" is shown exactly like an appointment
      whose patient no longer exists. */
  lemma PatientLabelAmbiguity(p: Patient, a: Appointment, b: Appointment)
    requires p.firstName == "Unknown" && p.lastName == "Patient"
    requires a.patient == 0 && b.patient == 1
    ensures PatientLabel(map[0 := p], a) == PatientLabel(map[0 := p], b)
  {
    PatientLabelFallback(map[0 := p], a);
    PatientLabelFallback(map[0 := p], b);
  }
}
