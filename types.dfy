/** The records of `src/types/index.ts` and the tallies over the two closed
    enums of an appointment. */
module Types {
  import opened Wrappers
  import opened Collections

  /** A time of day as minutes after midnight: "HH:mm" with HH < 24, mm < 60. */
  type Minutes = m: int | 0 <= m < 1440

  datatype Status = Scheduled | Confirmed | Completed | Cancelled | NoShow

  datatype AppointmentType = Checkup | Cleaning | Filling | Extraction | RootCanal | Crown | Other

  /** The string literal each status is stored as. */
  function StatusName(s: Status): string
  {
    match s
    case Scheduled => "scheduled"
    case Confirmed => "confirmed"
    case Completed => "completed"
    case Cancelled => "cancelled"
    case NoShow => "no-show"
  }

  /** The string literal each appointment type is stored as. */
  function TypeName(t: AppointmentType): string
  {
    match t
    case Checkup => "checkup"
    case Cleaning => "cleaning"
    case Filling => "filling"
    case Extraction => "extraction"
    case RootCanal => "root-canal"
    case Crown => "crown"
    case Other => "other"
  }

  /** The status a string names, if it names one (a `z.enum` check). */
  function ParseStatus(s: string): (r: Option<Status>)
    ensures forall st :: r == Some(st) <==> StatusName(st) == s
  {
    if s == "scheduled" then Some(Scheduled)
    else if s == "confirmed" then Some(Confirmed)
    else if s == "completed" then Some(Completed)
    else if s == "cancelled" then Some(Cancelled)
    else if s == "no-show" then Some(NoShow)
    else None
  }

  /** The appointment type a string names, if it names one. */
  function ParseType(s: string): (r: Option<AppointmentType>)
    ensures forall t :: r == Some(t) <==> TypeName(t) == s
  {
    if s == "checkup" then Some(Checkup)
    else if s == "cleaning" then Some(Cleaning)
    else if s == "filling" then Some(Filling)
    else if s == "extraction" then Some(Extraction)
    else if s == "root-canal" then Some(RootCanal)
    else if s == "crown" then Some(Crown)
    else if s == "other" then Some(Other)
    else None
  }

  datatype Patient = Patient(
    id: string,
    name: string,
    email: string,
    phone: string,
    dateOfBirth: string,
    address: string,
    notes: Option<string>,
    insuranceProvider: Option<string>,
    insuranceNumber: Option<string>)

  datatype Availability = Availability(day: string, startTime: string, endTime: string)

  datatype Dentist = Dentist(
    id: string,
    name: string,
    email: string,
    phone: string,
    specialization: string,
    availability: seq<Availability>)

  /** An appointment; its two times are already-parsed "HH:mm" strings. */
  datatype Appointment = Appointment(
    id: string,
    patientId: string,
    dentistId: string,
    date: string,
    startTime: Minutes,
    endTime: Minutes,
    status: Status,
    appointmentType: AppointmentType,
    notes: Option<string>)

  datatype Treatment = Treatment(id: string, name: string, duration: int, cost: int, description: string)

  function PatientId(p: Patient): string { p.id }
  function DentistId(d: Dentist): string { d.id }
  function AppointmentId(a: Appointment): string { a.id }
  function TreatmentId(t: Treatment): string { t.id }

  function HasStatus(st: Status): Appointment -> bool
  {
    (a: Appointment) => a.status == st
  }

  function HasType(t: AppointmentType): Appointment -> bool
  {
    (a: Appointment) => a.appointmentType == t
  }

  /** `appointments.filter(app => app.status === st).length`. */
  function StatusCount(apps: seq<Appointment>, st: Status): nat
  {
    Count(apps, HasStatus(st))
  }

  /** `appointments.filter(app => app.type === t).length`. */
  function TypeCount(apps: seq<Appointment>, t: AppointmentType): nat
  {
    Count(apps, HasType(t))
  }

  /** Every appointment has exactly one of the five statuses, so the five
      status counts add up to the number of appointments. */
  lemma {:induction false} StatusCountsSum(apps: seq<Appointment>)
    ensures StatusCount(apps, Scheduled) + StatusCount(apps, Confirmed) + StatusCount(apps, Completed)
            + StatusCount(apps, Cancelled) + StatusCount(apps, NoShow) == |apps|
  {
    if apps != [] {
      StatusCountsSum(apps[1..]);
    }
  }

  /** Likewise the seven type counts add up to the number of appointments. */
  lemma {:induction false} TypeCountsSum(apps: seq<Appointment>)
    ensures TypeCount(apps, Checkup) + TypeCount(apps, Cleaning) + TypeCount(apps, Filling)
            + TypeCount(apps, Extraction) + TypeCount(apps, RootCanal) + TypeCount(apps, Crown)
            + TypeCount(apps, Other) == |apps|
  {
    if apps != [] {
      TypeCountsSum(apps[1..]);
    }
  }
}
