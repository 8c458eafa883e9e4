/** `src/pages/AppointmentsPage.tsx`: the search, status and date filters
    and the sort by date, then start time. */
module AppointmentsPage {
  import opened Wrappers
  import opened Text
  import opened Collections
  import opened Types
  import opened DateUtils

  /** The lower-cased query occurs in the lower-cased patient id, dentist id
      or type. */
  predicate SearchMatches(a: Appointment, query: string)
  {
    var q := ToLower(query);
    Includes(ToLower(a.patientId), q) || Includes(ToLower(a.dentistId), q)
    || Includes(ToLower(TypeName(a.appointmentType)), q)
  }

  /** `statusFilter === 'all' || appointment.status === statusFilter`. */
  predicate StatusMatches(a: Appointment, statusFilter: string)
  {
    statusFilter == "all" || StatusName(a.status) == statusFilter
  }

  /** The `dateMatch` chain: any filter other than the three named ones
      keeps everything. */
  predicate DateMatches(a: Appointment, dateFilter: string, today: string)
  {
    if dateFilter == "today" then a.date == today
    else if dateFilter == "upcoming" then LexLess(today, a.date)
    else if dateFilter == "past" then LexLess(a.date, today)
    else true
  }

  predicate Shown(a: Appointment, query: string, statusFilter: string, dateFilter: string, today: string)
  {
    SearchMatches(a, query) && StatusMatches(a, statusFilter) && DateMatches(a, dateFilter, today)
  }

  function ShownBy(query: string, statusFilter: string, dateFilter: string, today: string): Appointment -> bool
  {
    (a: Appointment) => Shown(a, query, statusFilter, dateFilter, today)
  }

  /** `filteredAppointments`; `today` is the clock's date. */
  function FilteredAppointments(apps: seq<Appointment>, query: string, statusFilter: string,
                                dateFilter: string, today: string): (r: seq<Appointment>)
    ensures forall i :: 0 <= i < |r| ==> Shown(r[i], query, statusFilter, dateFilter, today)
  {
    Filter(apps, ShownBy(query, statusFilter, dateFilter, today))
  }

  /** The filtered list holds exactly the appointments passing all three
      filters, each as often as it is stored, and is a subsequence of the store: nothing is added and the
      order is kept. */
  lemma FilteredAppointmentsSpec(apps: seq<Appointment>, query: string, statusFilter: string,
                                 dateFilter: string, today: string, a: Appointment)
    ensures a in FilteredAppointments(apps, query, statusFilter, dateFilter, today)
            <==> a in apps && Shown(a, query, statusFilter, dateFilter, today)
    ensures multiset(FilteredAppointments(apps, query, statusFilter, dateFilter, today))[a]
            == if Shown(a, query, statusFilter, dateFilter, today) then multiset(apps)[a] else 0
    ensures Subsequence(FilteredAppointments(apps, query, statusFilter, dateFilter, today), apps)
  {
    FilterMembers(apps, ShownBy(query, statusFilter, dateFilter, today), a);
    FilterMultiset(apps, ShownBy(query, statusFilter, dateFilter, today), a);
    FilterIsSubsequence(apps, ShownBy(query, statusFilter, dateFilter, today));
  }

  /** `'all'` keeps every status; a status name keeps exactly that status. */
  lemma StatusFilterSpec(a: Appointment, st: Status)
    ensures StatusMatches(a, "all")
    ensures StatusMatches(a, StatusName(st)) <==> a.status == st
  {
    assert ParseStatus(StatusName(st)) == Some(st);
    assert StatusName(a.status) == StatusName(st) ==> ParseStatus(StatusName(a.status)) == Some(st);
    assert ParseStatus(StatusName(a.status)) == Some(a.status);
  }

  /** Every appointment is in exactly one of today, upcoming and past. */
  lemma DateFiltersPartition(a: Appointment, today: string)
    ensures DateMatches(a, "today", today) || DateMatches(a, "upcoming", today) || DateMatches(a, "past", today)
    ensures !(DateMatches(a, "today", today) && DateMatches(a, "upcoming", today))
    ensures !(DateMatches(a, "today", today) && DateMatches(a, "past", today))
    ensures !(DateMatches(a, "upcoming", today) && DateMatches(a, "past", today))
    ensures DateMatches(a, "all", today)
  {
    LexLessTrichotomy(a.date, today);
  }

  /** The empty query matches every appointment. */
  lemma EmptyQueryMatches(a: Appointment)
    ensures SearchMatches(a, "")
  {
    assert ToLower("") == "";
    assert OccursAt("", ToLower(a.patientId), 0);
    IncludesIff(ToLower(a.patientId), "");
  }

  /** With no search text and both filters on 'all' the page lists the
      whole store. */
  lemma NoFilterKeepsAll(apps: seq<Appointment>, today: string)
    ensures FilteredAppointments(apps, "", "all", "all", today) == apps
  {
    forall i | 0 <= i < |apps| ensures ShownBy("", "all", "all", today)(apps[i]) {
      EmptyQueryMatches(apps[i]);
    }
    FilterKeepsAll(apps, ShownBy("", "all", "all", today));
  }

  /** The page's comparator: by date, then by start time, each with
      `localeCompare` on the stored text. */
  function CompareByDateTime(a: Appointment, b: Appointment): int
  {
    var dateComparison := Compare(a.date, b.date);
    if dateComparison != 0 then dateComparison else Compare(FormatHHmm(a.startTime), FormatHHmm(b.startTime))
  }

  /** `a` may come before `b`: the comparator is not positive. */
  predicate DateTimeLe(a: Appointment, b: Appointment)
  {
    CompareByDateTime(a, b) <= 0
  }

  /** The comparator is the lexicographic order on (date, start time). */
  lemma DateTimeLeIff(a: Appointment, b: Appointment)
    ensures DateTimeLe(a, b) <==> LexLess(a.date, b.date) || (a.date == b.date && a.startTime <= b.startTime)
  {
    CompareHHmm(a.startTime, b.startTime);
  }

  /** It is a consistent comparator, so sorting by it is meaningful. */
  lemma DateTimeLeTotalPreorder()
    ensures TotalPreorder(DateTimeLe)
  {
    forall a, b ensures DateTimeLe(a, b) || DateTimeLe(b, a) {
      DateTimeLeIff(a, b);
      DateTimeLeIff(b, a);
      LexLessTrichotomy(a.date, b.date);
    }
    forall a, b, c | DateTimeLe(a, b) && DateTimeLe(b, c) ensures DateTimeLe(a, c) {
      DateTimeLeIff(a, b);
      DateTimeLeIff(b, c);
      DateTimeLeIff(a, c);
      if LexLess(a.date, b.date) && LexLess(b.date, c.date) {
        LexLessTransitive(a.date, b.date, c.date);
      }
    }
  }

  /** `sortedAppointments`: a sorted copy of the filtered list. */
  function SortedAppointments(filtered: seq<Appointment>): (r: seq<Appointment>)
    ensures multiset(r) == multiset(filtered)
  {
    SortBy(filtered, DateTimeLe)
  }

  /** The sorted list is ordered by date and then start time, and
      appointments tied on both keep their filtered order. */
  lemma SortedAppointmentsSpec(filtered: seq<Appointment>, k: Appointment)
    ensures forall i, j :: 0 <= i < j < |SortedAppointments(filtered)| ==>
              var a, b := SortedAppointments(filtered)[i], SortedAppointments(filtered)[j];
              LexLess(a.date, b.date) || (a.date == b.date && a.startTime <= b.startTime)
    ensures Filter(SortedAppointments(filtered), EquivalentTo(DateTimeLe, k))
            == Filter(filtered, EquivalentTo(DateTimeLe, k))
  {
    DateTimeLeTotalPreorder();
    SortBySorted(filtered, DateTimeLe);
    SortByStable(filtered, DateTimeLe, k);
    var r := SortedAppointments(filtered);
    forall i, j | 0 <= i < j < |r|
      ensures LexLess(r[i].date, r[j].date) || (r[i].date == r[j].date && r[i].startTime <= r[j].startTime)
    {
      DateTimeLeIff(r[i], r[j]);
    }
  }
}
