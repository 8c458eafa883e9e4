/** `src/pages/ReportsPage.tsx`: breakdowns by status, type and dentist, the
    two rates and the date-based counts. */
module ReportsPage {
  import opened Text
  import opened Collections
  import opened Types
  import opened Dashboard

  datatype ByStatus = ByStatus(scheduled: nat, confirmed: nat, completed: nat, cancelled: nat, noShow: nat)

  /** `appointmentsByStatus`. */
  function AppointmentsByStatus(apps: seq<Appointment>): (r: ByStatus)
    ensures r.scheduled + r.confirmed + r.completed + r.cancelled + r.noShow == |apps|
  {
    StatusCountsSum(apps);
    ByStatus(StatusCount(apps, Scheduled), StatusCount(apps, Confirmed), StatusCount(apps, Completed),
             StatusCount(apps, Cancelled), StatusCount(apps, NoShow))
  }

  datatype ByType = ByType(checkup: nat, cleaning: nat, filling: nat, extraction: nat,
                           rootCanal: nat, crown: nat, other: nat)

  /** `appointmentsByType`. */
  function AppointmentsByType(apps: seq<Appointment>): (r: ByType)
    ensures r.checkup + r.cleaning + r.filling + r.extraction + r.rootCanal + r.crown + r.other == |apps|
  {
    TypeCountsSum(apps);
    ByType(TypeCount(apps, Checkup), TypeCount(apps, Cleaning), TypeCount(apps, Filling),
           TypeCount(apps, Extraction), TypeCount(apps, RootCanal), TypeCount(apps, Crown),
           TypeCount(apps, Other))
  }

  /** Each type tally counts exactly the appointments of that type: adding
      one appointment raises its own type's tally and no other. */
  lemma AppointmentsByTypeAdd(apps: seq<Appointment>, a: Appointment, t: AppointmentType)
    ensures TypeCount(apps + [a], t) == TypeCount(apps, t) + (if a.appointmentType == t then 1 else 0)
  {
    FilterAppend(apps, [a], HasType(t));
  }

  /** Likewise for the status tallies. */
  lemma AppointmentsByStatusAdd(apps: seq<Appointment>, a: Appointment, st: Status)
    ensures StatusCount(apps + [a], st) == StatusCount(apps, st) + (if a.status == st then 1 else 0)
  {
    FilterAppend(apps, [a], HasStatus(st));
  }

  datatype DentistCount = DentistCount(dentistName: string, count: nat)

  function ForDentist(id: string): Appointment -> bool
  {
    (a: Appointment) => a.dentistId == id
  }

  /** `appointmentsByDentist`: one entry per dentist, in the dentists'
      order, counting the appointments booked with that dentist's id. */
  function AppointmentsByDentist(dentists: seq<Dentist>, apps: seq<Appointment>): (r: seq<DentistCount>)
    ensures |r| == |dentists|
    ensures forall i :: 0 <= i < |r| ==>
              r[i].dentistName == dentists[i].name && r[i].count <= |apps|
  {
    seq(|dentists|, (i: int) requires 0 <= i < |dentists| =>
      DentistCount(dentists[i].name, Count(apps, ForDentist(dentists[i].id))))
  }

  /** An entry's count is the number of appointments with its dentist's id. */
  lemma AppointmentsByDentistCount(dentists: seq<Dentist>, apps: seq<Appointment>, i: int, a: Appointment)
    requires 0 <= i < |dentists|
    ensures AppointmentsByDentist(dentists, apps)[i].count == Count(apps, ForDentist(dentists[i].id))
    ensures AppointmentsByDentist(dentists, apps + [a])[i].count
            == AppointmentsByDentist(dentists, apps)[i].count + (if a.dentistId == dentists[i].id then 1 else 0)
  {
    FilterAppend(apps, [a], ForDentist(dentists[i].id));
  }

  /** `(a, b) => b.count - a.count`, as `<= 0`. */
  predicate CountGe(a: DentistCount, b: DentistCount)
  {
    b.count - a.count <= 0
  }

  lemma CountGeTotalPreorder()
    ensures TotalPreorder(CountGe)
  {
  }

  /** `sortedDentistsByAppointments`. */
  function SortedDentistsByAppointments(byDentist: seq<DentistCount>): (r: seq<DentistCount>)
    ensures multiset(r) == multiset(byDentist)
  {
    SortBy(byDentist, CountGe)
  }

  /** The sorted list is in non-increasing count order, and dentists with
      equal counts stay in their original order. */
  lemma SortedDentistsSpec(byDentist: seq<DentistCount>, k: DentistCount)
    ensures forall i, j :: 0 <= i < j < |SortedDentistsByAppointments(byDentist)| ==>
              SortedDentistsByAppointments(byDentist)[i].count >= SortedDentistsByAppointments(byDentist)[j].count
    ensures Filter(SortedDentistsByAppointments(byDentist), EquivalentTo(CountGe, k))
            == Filter(byDentist, EquivalentTo(CountGe, k))
  {
    CountGeTotalPreorder();
    SortBySorted(byDentist, CountGe);
    SortByStable(byDentist, CountGe, k);
  }

  /** `part / total * 100` for a part of a non-empty whole. */
  function Percent(part: nat, total: nat): (r: real)
    requires 0 < total && part <= total
    ensures 0.0 <= r <= 100.0
    ensures r == 0.0 <==> part == 0
    ensures r == 100.0 <==> part == total
  {
    var q := part as real / total as real;
    assert q * total as real == part as real;
    assert (1.0 - q) * total as real == (total - part) as real;
    assert q == 1.0 <==> part == total;
    q * 100.0
  }

  /** `completionRate`: 0 for an empty store, otherwise the percentage of
      completed appointments. */
  function CompletionRate(apps: seq<Appointment>): (r: real)
    ensures 0.0 <= r <= 100.0
    ensures |apps| == 0 ==> r == 0.0
    ensures |apps| > 0 ==> (r == 0.0 <==> StatusCount(apps, Completed) == 0)
  {
    var s := AppointmentsByStatus(apps);
    if |apps| > 0 then Percent(s.completed, |apps|) else 0.0
  }

  /** `cancellationRate`: 0 for an empty store, otherwise the percentage of
      cancelled and no-show appointments together. */
  function CancellationRate(apps: seq<Appointment>): (r: real)
    ensures 0.0 <= r <= 100.0
    ensures |apps| == 0 ==> r == 0.0
    ensures |apps| > 0 ==> (r == 0.0 <==> StatusCount(apps, Cancelled) + StatusCount(apps, NoShow) == 0)
  {
    var s := AppointmentsByStatus(apps);
    if |apps| > 0 then Percent(s.cancelled + s.noShow, |apps|) else 0.0
  }

  /** `todayAppointments`: the length of the dashboard's list for today. */
  function TodayCount(apps: seq<Appointment>, today: string): (n: nat)
    ensures n <= |apps|
  {
    |TodayAppointments(apps, today)|
  }

  /** One more appointment raises today's count exactly when it is dated
      today. */
  lemma TodayCountAdd(apps: seq<Appointment>, today: string, a: Appointment)
    ensures TodayCount(apps + [a], today) == TodayCount(apps, today) + (if a.date == today then 1 else 0)
  {
    FilterAppend(apps, [a], OnDate(today));
  }

  function InMonth(month: string): Appointment -> bool
  {
    (a: Appointment) => StartsWith(a.date, month)
  }

  /** `thisMonthAppointments`: dates starting with `today.substring(0, 7)`. */
  function ThisMonthCount(apps: seq<Appointment>, today: string): (n: nat)
    ensures n <= |apps|
  {
    Count(apps, InMonth(Prefix(today, 7)))
  }

  /** Every appointment dated today is in today's month, so the month count
      is never below today's. */
  lemma TodayWithinMonth(apps: seq<Appointment>, today: string)
    ensures TodayCount(apps, today) <= ThisMonthCount(apps, today)
  {
    CountMonotonic(apps, OnDate(today), InMonth(Prefix(today, 7)));
  }

  /** An appointment counts for the month exactly when its date has the same
      first seven characters as today (the `YYYY-MM` of ISO dates). */
  lemma ThisMonthSpec(a: Appointment, today: string)
    requires |today| >= 7 && |a.date| >= 7
    ensures InMonth(Prefix(today, 7))(a) <==> a.date[..7] == today[..7]
  {
  }
}
