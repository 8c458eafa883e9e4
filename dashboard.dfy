/** `src/pages/Dashboard.tsx`: today's appointments, the status tallies, the
    upcoming count and the dentists working today. */
module Dashboard {
  import opened Text
  import opened Collections
  import opened Types
  import opened DateUtils

  function OnDate(today: string): Appointment -> bool
  {
    (a: Appointment) => a.date == today
  }

  /** `appointments.filter(app => app.date === today)`. */
  function TodayAppointments(apps: seq<Appointment>, today: string): (r: seq<Appointment>)
    ensures forall i :: 0 <= i < |r| ==> r[i].date == today
  {
    Filter(apps, OnDate(today))
  }

  /** Today's list is exactly the store's appointments dated today, each as
      often as it is stored, in store order. */
  lemma TodayAppointmentsSpec(apps: seq<Appointment>, today: string, a: Appointment)
    ensures a in TodayAppointments(apps, today) <==> a in apps && a.date == today
    ensures multiset(TodayAppointments(apps, today))[a] == if a.date == today then multiset(apps)[a] else 0
    ensures Subsequence(TodayAppointments(apps, today), apps)
  {
    FilterMembers(apps, OnDate(today), a);
    FilterMultiset(apps, OnDate(today), a);
    FilterIsSubsequence(apps, OnDate(today));
  }

  datatype AppointmentCounts = AppointmentCounts(
    total: nat, scheduled: nat, confirmed: nat, completed: nat, cancelled: nat, noShow: nat)

  /** `appointmentCounts`. */
  function CountAppointments(apps: seq<Appointment>): (c: AppointmentCounts)
    ensures c.total == |apps|
    ensures c.scheduled + c.confirmed + c.completed + c.cancelled + c.noShow == c.total
  {
    StatusCountsSum(apps);
    AppointmentCounts(|apps|, StatusCount(apps, Scheduled), StatusCount(apps, Confirmed),
                      StatusCount(apps, Completed), StatusCount(apps, Cancelled), StatusCount(apps, NoShow))
  }

  /** With no appointments every tally is zero. */
  lemma CountAppointmentsEmpty()
    ensures CountAppointments([]) == AppointmentCounts(0, 0, 0, 0, 0, 0)
  {
  }

  /** One more appointment raises the total and the tally of its own status
      by one and leaves the other four tallies alone; with
      `CountAppointmentsEmpty` this determines every tally of every list. */
  lemma CountAppointmentsAdd(apps: seq<Appointment>, a: Appointment)
    ensures var before, after := CountAppointments(apps), CountAppointments(apps + [a]);
            && after.total == before.total + 1
            && after.scheduled == before.scheduled + (if a.status == Scheduled then 1 else 0)
            && after.confirmed == before.confirmed + (if a.status == Confirmed then 1 else 0)
            && after.completed == before.completed + (if a.status == Completed then 1 else 0)
            && after.cancelled == before.cancelled + (if a.status == Cancelled then 1 else 0)
            && after.noShow == before.noShow + (if a.status == NoShow then 1 else 0)
  {
    CountAppend(apps, [a], HasStatus(Scheduled));
    CountAppend(apps, [a], HasStatus(Confirmed));
    CountAppend(apps, [a], HasStatus(Completed));
    CountAppend(apps, [a], HasStatus(Cancelled));
    CountAppend(apps, [a], HasStatus(NoShow));
  }

  /** `(a, b) => a.startTime.localeCompare(b.startTime)`, as `<= 0`. */
  predicate StartLe(a: Appointment, b: Appointment)
  {
    Compare(FormatHHmm(a.startTime), FormatHHmm(b.startTime)) <= 0
  }

  lemma StartLeIff(a: Appointment, b: Appointment)
    ensures StartLe(a, b) <==> a.startTime <= b.startTime
  {
    CompareHHmm(a.startTime, b.startTime);
  }

  lemma StartLeTotalPreorder()
    ensures TotalPreorder(StartLe)
  {
    forall a, b ensures StartLe(a, b) || StartLe(b, a) {
      StartLeIff(a, b);
      StartLeIff(b, a);
    }
    forall a, b, c | StartLe(a, b) && StartLe(b, c) ensures StartLe(a, c) {
      StartLeIff(a, b);
      StartLeIff(b, c);
      StartLeIff(a, c);
    }
  }

  /** `sortedTodayAppointments`. */
  function SortedTodayAppointments(apps: seq<Appointment>, today: string): (r: seq<Appointment>)
    ensures multiset(r) == multiset(TodayAppointments(apps, today))
  {
    SortBy(TodayAppointments(apps, today), StartLe)
  }

  /** The sorted list holds today's appointments in ascending start time,
      and appointments with the same start keep their list order. */
  lemma SortedTodayAppointmentsSpec(apps: seq<Appointment>, today: string, k: Appointment)
    ensures forall i :: 0 <= i < |SortedTodayAppointments(apps, today)| ==>
              SortedTodayAppointments(apps, today)[i].date == today
    ensures forall i, j :: 0 <= i < j < |SortedTodayAppointments(apps, today)| ==>
              SortedTodayAppointments(apps, today)[i].startTime <= SortedTodayAppointments(apps, today)[j].startTime
    ensures Filter(SortedTodayAppointments(apps, today), EquivalentTo(StartLe, k))
            == Filter(TodayAppointments(apps, today), EquivalentTo(StartLe, k))
  {
    var t := TodayAppointments(apps, today);
    var r := SortedTodayAppointments(apps, today);
    StartLeTotalPreorder();
    SortBySorted(t, StartLe);
    SortByStable(t, StartLe, k);
    forall i | 0 <= i < |r| ensures r[i].date == today {
      assert r[i] in multiset(t);
    }
    forall i, j | 0 <= i < j < |r| ensures r[i].startTime <= r[j].startTime {
      StartLeIff(r[i], r[j]);
    }
  }

  /** `app.date > today && app.status !== 'cancelled'`. */
  function IsUpcoming(today: string): Appointment -> bool
  {
    (a: Appointment) => LexLess(today, a.date) && a.status != Cancelled
  }

  function IsLater(today: string): Appointment -> bool
  {
    (a: Appointment) => LexLess(today, a.date)
  }

  function IsLaterCancelled(today: string): Appointment -> bool
  {
    (a: Appointment) => LexLess(today, a.date) && a.status == Cancelled
  }

  /** The upcoming count (the same expression appears on the reports page). */
  function UpcomingCount(apps: seq<Appointment>, today: string): (n: nat)
    ensures n <= |apps|
  {
    Count(apps, IsUpcoming(today))
  }

  /** Only cancelled appointments are left out of the later-dated ones:
      no-show and every other status still count. */
  lemma UpcomingCountSpec(apps: seq<Appointment>, today: string)
    ensures UpcomingCount(apps, today) + Count(apps, IsLaterCancelled(today)) == Count(apps, IsLater(today))
  {
    CountSplit(apps, IsLater(today), (a: Appointment) => a.status == Cancelled,
               IsLaterCancelled(today), IsUpcoming(today));
  }

  /** A later-dated appointment that is not cancelled raises the count by
      one, whatever its status. */
  lemma UpcomingCountsNoShow(apps: seq<Appointment>, today: string, a: Appointment)
    requires LexLess(today, a.date) && a.status != Cancelled
    ensures UpcomingCount(apps + [a], today) == UpcomingCount(apps, today) + 1
  {
    FilterAppend(apps, [a], IsUpcoming(today));
  }

  /** `d.availability.some(a => a.day === dayOfWeek)`. */
  predicate WorksOn(d: Dentist, weekday: string)
  {
    exists i :: 0 <= i < |d.availability| && d.availability[i].day == weekday
  }

  function WorksOnBy(weekday: string): Dentist -> bool
  {
    (d: Dentist) => WorksOn(d, weekday)
  }

  /** "Dentists Available Today": `weekday` is today's English weekday name. */
  function DentistsAvailableToday(dentists: seq<Dentist>, weekday: string): (n: nat)
    ensures n <= |dentists|
  {
    Count(dentists, WorksOnBy(weekday))
  }

  /** The count is the number of dentists with an availability entry for that
      day, so a dentist added with such an entry raises it by one. */
  lemma DentistsAvailableTodaySpec(dentists: seq<Dentist>, weekday: string, d: Dentist)
    ensures DentistsAvailableToday(dentists + [d], weekday)
            == DentistsAvailableToday(dentists, weekday) + (if WorksOn(d, weekday) then 1 else 0)
  {
    FilterAppend(dentists, [d], WorksOnBy(weekday));
  }

  /** The dentists shipped in `src/data/mockData.ts`. */
  const AmandaLee: Dentist := Dentist("1", "Dr. Amanda Lee", "dr.lee@dentalclinic.com", "(555) 111-2222",
    "General Dentistry", [Availability("Monday", "09:00", "17:00"), Availability("Tuesday", "09:00", "17:00"),
                          Availability("Wednesday", "09:00", "17:00"), Availability("Thursday", "09:00", "17:00"),
                          Availability("Friday", "09:00", "15:00")])
  const RobertGarcia: Dentist := Dentist("2", "Dr. Robert Garcia", "dr.garcia@dentalclinic.com", "(555) 222-3333",
    "Orthodontics", [Availability("Monday", "10:00", "18:00"), Availability("Wednesday", "10:00", "18:00"),
                     Availability("Friday", "10:00", "18:00")])
  const JenniferKim: Dentist := Dentist("3", "Dr. Jennifer Kim", "dr.kim@dentalclinic.com", "(555) 333-4444",
    "Pediatric Dentistry", [Availability("Tuesday", "08:00", "16:00"), Availability("Thursday", "08:00", "16:00"),
                            Availability("Saturday", "09:00", "13:00")])
  const JamesWilson: Dentist := Dentist("4", "Dr. James Wilson", "dr.wilson@dentalclinic.com", "(555) 444-5555",
    "Endodontics", [Availability("Monday", "09:00", "17:00"), Availability("Tuesday", "09:00", "17:00"),
                    Availability("Thursday", "09:00", "17:00"), Availability("Friday", "09:00", "17:00")])

  const MockDentists: seq<Dentist> := [AmandaLee, RobertGarcia, JenniferKim, JamesWilson]

  /** On a Monday three of the four shipped dentists are available: only the
      pediatric dentist has no Monday entry. */
  lemma MockMondayAvailability()
    ensures DentistsAvailableToday(MockDentists, "Monday") == 3
  {
    assert WorksOn(AmandaLee, "Monday") by { assert AmandaLee.availability[0].day == "Monday"; }
    assert WorksOn(RobertGarcia, "Monday") by { assert RobertGarcia.availability[0].day == "Monday"; }
    assert WorksOn(JamesWilson, "Monday") by { assert JamesWilson.availability[0].day == "Monday"; }
    assert !WorksOn(JenniferKim, "Monday") by {
      forall i | 0 <= i < |JenniferKim.availability| ensures JenniferKim.availability[i].day != "Monday" {
        assert JenniferKim.availability[i].day[0] != 'M';
      }
    }
    var p := WorksOnBy("Monday");
    DentistsAvailableTodaySpec([AmandaLee], "Monday", RobertGarcia);
    DentistsAvailableTodaySpec([AmandaLee, RobertGarcia], "Monday", JenniferKim);
    DentistsAvailableTodaySpec([AmandaLee, RobertGarcia, JenniferKim], "Monday", JamesWilson);
    assert [AmandaLee] + [RobertGarcia] == [AmandaLee, RobertGarcia];
    assert [AmandaLee, RobertGarcia] + [JenniferKim] == [AmandaLee, RobertGarcia, JenniferKim];
    assert [AmandaLee, RobertGarcia, JenniferKim] + [JamesWilson] == MockDentists;
    assert Filter([AmandaLee], p) == [AmandaLee];
  }
}
