/** `src/context/AppContext.tsx`: the in-memory store of patients,
    dentists, appointments and treatments, its mutators and its getters. */
module AppContext {
  import opened Wrappers
  import opened Collections
  import opened Types

  /** `prev.map(x => x.id === item.id ? item : x)`: every element with the
      item's id is replaced by the item. */
  function ReplaceById<T>(s: seq<T>, idOf: T -> string, item: T): (r: seq<T>)
    ensures |r| == |s|
    ensures forall i :: 0 <= i < |s| ==> r[i] == if idOf(s[i]) == idOf(item) then item else s[i]
  {
    if s == [] then []
    else [if idOf(s[0]) == idOf(item) then item else s[0]] + ReplaceById(s[1..], idOf, item)
  }

  function NotId<T>(idOf: T -> string, id: string): T -> bool
  {
    x => idOf(x) != id
  }

  function HasId<T>(idOf: T -> string, id: string): T -> bool
  {
    x => idOf(x) == id
  }

  /** `prev.filter(x => x.id !== id)`. */
  function RemoveById<T(==,!new)>(s: seq<T>, idOf: T -> string, id: string): (r: seq<T>)
    ensures forall x :: multiset(r)[x] == if idOf(x) != id then multiset(s)[x] else 0
    ensures Subsequence(r, s)
  {
    FilterExact(s, NotId(idOf, id));
    Filter(s, NotId(idOf, id))
  }

  /** `list.filter(x => key(x) === k)`: every element whose key is `k`, as
      often as it occurs, in list order. */
  function WithKey<T(==,!new)>(s: seq<T>, keyOf: T -> string, key: string): (r: seq<T>)
    ensures forall i :: 0 <= i < |r| ==> keyOf(r[i]) == key
    ensures forall x :: multiset(r)[x] == if keyOf(x) == key then multiset(s)[x] else 0
    ensures Subsequence(r, s)
  {
    FilterExact(s, HasId(keyOf, key));
    Filter(s, HasId(keyOf, key))
  }

  function PatientOf(a: Appointment): string { a.patientId }
  function DentistOf(a: Appointment): string { a.dentistId }

  /** `list.find(x => x.id === id)`. */
  function FindById<T>(s: seq<T>, idOf: T -> string, id: string): (r: Option<T>)
    ensures r.None? <==> forall i :: 0 <= i < |s| ==> idOf(s[i]) != id
    ensures r.Some? ==> idOf(r.value) == id
                        && exists k :: 0 <= k < |s| && s[k] == r.value && forall j :: 0 <= j < k ==> idOf(s[j]) != id
  {
    var p := HasId(idOf, id);
    assert forall i :: 0 <= i < |s| ==> (p(s[i]) <==> idOf(s[i]) == id);
    FindFirst(s, p)
  }

  /** Removing keeps exactly the elements with another id, each as often as
      it occurred, in their original order. */
  lemma RemoveByIdSpec<T(!new)>(s: seq<T>, idOf: T -> string, id: string, x: T)
    ensures x in RemoveById(s, idOf, id) <==> x in s && idOf(x) != id
    ensures multiset(RemoveById(s, idOf, id))[x] == if idOf(x) != id then multiset(s)[x] else 0
    ensures Subsequence(RemoveById(s, idOf, id), s)
    ensures |RemoveById(s, idOf, id)| <= |s|
  {
    FilterMembers(s, NotId(idOf, id), x);
    FilterIsSubsequence(s, NotId(idOf, id));
  }

  /** Removing an id nobody has changes nothing. */
  lemma RemoveAbsent<T(!new)>(s: seq<T>, idOf: T -> string, id: string)
    requires forall i :: 0 <= i < |s| ==> idOf(s[i]) != id
    ensures RemoveById(s, idOf, id) == s
  {
    FilterKeepsAll(s, NotId(idOf, id));
  }

  /** After removal no element with that id can be found. */
  lemma FindAfterRemove<T(!new)>(s: seq<T>, idOf: T -> string, id: string)
    ensures FindById(RemoveById(s, idOf, id), idOf, id) == None
  {
    var r := RemoveById(s, idOf, id);
    forall i | 0 <= i < |r| ensures idOf(r[i]) != id {
      assert NotId(idOf, id)(r[i]);
    }
  }

  /** Replacing with an id nobody has changes nothing. */
  lemma ReplaceAbsent<T>(s: seq<T>, idOf: T -> string, item: T)
    requires forall i :: 0 <= i < |s| ==> idOf(s[i]) != idOf(item)
    ensures ReplaceById(s, idOf, item) == s
  {
  }

  /** Replacing twice with the same item is replacing once. */
  lemma ReplaceIdempotent<T>(s: seq<T>, idOf: T -> string, item: T)
    ensures ReplaceById(ReplaceById(s, idOf, item), idOf, item) == ReplaceById(s, idOf, item)
  {
  }

  /** After a replacement that hit, the lookup of that id finds the new
      item; the elements before the first hit are kept. */
  lemma FindAfterReplace<T>(s: seq<T>, idOf: T -> string, item: T, k: nat)
    requires k < |s| && idOf(s[k]) == idOf(item)
    ensures FindById(ReplaceById(s, idOf, item), idOf, idOf(item)) == Some(item)
  {
    var r := ReplaceById(s, idOf, item);
    var p := HasId(idOf, idOf(item));
    assert p(r[k]);
    var f := FindById(r, idOf, idOf(item));
    var j :| 0 <= j < |r| && f.value == r[j] && p(r[j]);
    assert r[j] == item;
  }

  /** An appended element is found by its id unless an earlier element has
      the same id: the store does not reject duplicates, and `find` returns
      the first. */
  lemma FindAfterAppend<T>(s: seq<T>, idOf: T -> string, x: T, id: string)
    ensures FindById(s + [x], idOf, id)
            == if FindById(s, idOf, id).Some? then FindById(s, idOf, id)
               else if idOf(x) == id then Some(x) else None
  {
    var p := HasId(idOf, id);
    var t := s + [x];
    assert forall i :: 0 <= i < |s| ==> t[i] == s[i];
    assert t[|s|] == x;
    if FindById(s, idOf, id).Some? {
      var k :| 0 <= k < |s| && FindById(s, idOf, id).value == s[k] && p(s[k]) && forall j :: 0 <= j < k ==> !p(s[j]);
      var g := FindById(t, idOf, id);
      var m :| 0 <= m < |t| && g.value == t[m] && p(t[m]) && forall j :: 0 <= j < m ==> !p(t[j]);
      assert !(m < k) && !(k < m);
    } else if idOf(x) == id {
      var g := FindById(t, idOf, id);
      var m :| 0 <= m < |t| && g.value == t[m] && p(t[m]) && forall j :: 0 <= j < m ==> !p(t[j]);
      assert m == |s|;
    }
  }

  /** The `AppProvider` state and the operations of its context value. Each
      mutator reassigns one state array, as its `setX(prev => ...)` call
      does; the seed data is a constructor argument. */
  class AppStore {
    var patients: seq<Patient>
    var dentists: seq<Dentist>
    var appointments: seq<Appointment>
    var treatments: seq<Treatment>

    constructor(patients0: seq<Patient>, dentists0: seq<Dentist>, appointments0: seq<Appointment>,
                treatments0: seq<Treatment>)
      ensures patients == patients0 && dentists == dentists0
      ensures appointments == appointments0 && treatments == treatments0
    {
      patients := patients0;
      dentists := dentists0;
      appointments := appointments0;
      treatments := treatments0;
    }

    /** `addPatient`: appends, without a duplicate check. */
    method AddPatient(patient: Patient)
      modifies this`patients
      ensures patients == old(patients) + [patient]
      ensures dentists == old(dentists) && appointments == old(appointments) && treatments == old(treatments)
      ensures old(GetPatientById(patient.id)).None? ==> GetPatientById(patient.id) == Some(patient)
    {
      FindAfterAppend(patients, PatientId, patient, patient.id);
      patients := patients + [patient];
    }

    /** `updatePatient`: replaces every patient with the same id. */
    method UpdatePatient(patient: Patient)
      modifies this`patients
      ensures patients == ReplaceById(old(patients), PatientId, patient)
      ensures dentists == old(dentists) && appointments == old(appointments) && treatments == old(treatments)
      ensures old(GetPatientById(patient.id)).Some? ==> GetPatientById(patient.id) == Some(patient)
    {
      if GetPatientById(patient.id).Some? {
        var k := FirstIndex(patients, HasId(PatientId, patient.id));
        FindAfterReplace(patients, PatientId, patient, k);
      }
      patients := ReplaceById(patients, PatientId, patient);
    }

    /** `deletePatient`: removes every patient with that id; the patient's
        appointments stay. */
    method DeletePatient(id: string)
      modifies this`patients
      ensures patients == RemoveById(old(patients), PatientId, id)
      ensures dentists == old(dentists) && appointments == old(appointments) && treatments == old(treatments)
      ensures GetPatientById(id).None?
    {
      FindAfterRemove(patients, PatientId, id);
      patients := RemoveById(patients, PatientId, id);
    }

    /** `addAppointment`: appends, with neither a duplicate-id nor a
        conflict check. */
    method AddAppointment(appointment: Appointment)
      modifies this`appointments
      ensures appointments == old(appointments) + [appointment]
      ensures patients == old(patients) && dentists == old(dentists) && treatments == old(treatments)
      ensures old(GetAppointmentById(appointment.id)).None? ==> GetAppointmentById(appointment.id) == Some(appointment)
    {
      FindAfterAppend(appointments, AppointmentId, appointment, appointment.id);
      appointments := appointments + [appointment];
    }

    /** `updateAppointment`: replaces every appointment with the same id. */
    method UpdateAppointment(appointment: Appointment)
      modifies this`appointments
      ensures appointments == ReplaceById(old(appointments), AppointmentId, appointment)
      ensures patients == old(patients) && dentists == old(dentists) && treatments == old(treatments)
      ensures old(GetAppointmentById(appointment.id)).Some? ==> GetAppointmentById(appointment.id) == Some(appointment)
    {
      if GetAppointmentById(appointment.id).Some? {
        var k := FirstIndex(appointments, HasId(AppointmentId, appointment.id));
        FindAfterReplace(appointments, AppointmentId, appointment, k);
      }
      appointments := ReplaceById(appointments, AppointmentId, appointment);
    }

    /** `deleteAppointment`: removes every appointment with that id. */
    method DeleteAppointment(id: string)
      modifies this`appointments
      ensures appointments == RemoveById(old(appointments), AppointmentId, id)
      ensures patients == old(patients) && dentists == old(dentists) && treatments == old(treatments)
      ensures GetAppointmentById(id).None?
    {
      FindAfterRemove(appointments, AppointmentId, id);
      appointments := RemoveById(appointments, AppointmentId, id);
    }

    /** `getPatientById`: the first patient with that id. */
    function GetPatientById(id: string): (r: Option<Patient>)
      reads this
      ensures r.None? <==> forall i :: 0 <= i < |patients| ==> patients[i].id != id
      ensures r.Some? ==> r.value.id == id
                          && exists k :: 0 <= k < |patients| && patients[k] == r.value
                                         && forall j :: 0 <= j < k ==> patients[j].id != id
    {
      FindById(patients, PatientId, id)
    }

    function GetDentistById(id: string): (r: Option<Dentist>)
      reads this
      ensures r.None? <==> forall i :: 0 <= i < |dentists| ==> dentists[i].id != id
      ensures r.Some? ==> r.value.id == id
                          && exists k :: 0 <= k < |dentists| && dentists[k] == r.value
                                         && forall j :: 0 <= j < k ==> dentists[j].id != id
    {
      FindById(dentists, DentistId, id)
    }

    function GetAppointmentById(id: string): (r: Option<Appointment>)
      reads this
      ensures r.None? <==> forall i :: 0 <= i < |appointments| ==> appointments[i].id != id
      ensures r.Some? ==> r.value.id == id
                          && exists k :: 0 <= k < |appointments| && appointments[k] == r.value
                                         && forall j :: 0 <= j < k ==> appointments[j].id != id
    {
      FindById(appointments, AppointmentId, id)
    }

    function GetTreatmentById(id: string): (r: Option<Treatment>)
      reads this
      ensures r.None? <==> forall i :: 0 <= i < |treatments| ==> treatments[i].id != id
      ensures r.Some? ==> r.value.id == id
                          && exists k :: 0 <= k < |treatments| && treatments[k] == r.value
                                         && forall j :: 0 <= j < k ==> treatments[j].id != id
    {
      FindById(treatments, TreatmentId, id)
    }

    /** `getPatientAppointments`: every appointment of the patient, as often as it
        is stored, in store order. */
    function GetPatientAppointments(patientId: string): (r: seq<Appointment>)
      reads this
      ensures forall i :: 0 <= i < |r| ==> r[i].patientId == patientId
      ensures forall a :: multiset(r)[a] == if a.patientId == patientId then multiset(appointments)[a] else 0
      ensures Subsequence(r, appointments)
    {
      WithKey(appointments, PatientOf, patientId)
    }

    /** `getDentistAppointments`: every appointment of the dentist, as often as it
        is stored, in store order. */
    function GetDentistAppointments(dentistId: string): (r: seq<Appointment>)
      reads this
      ensures forall i :: 0 <= i < |r| ==> r[i].dentistId == dentistId
      ensures forall a :: multiset(r)[a] == if a.dentistId == dentistId then multiset(appointments)[a] else 0
      ensures Subsequence(r, appointments)
    {
      WithKey(appointments, DentistOf, dentistId)
    }
  }
}
