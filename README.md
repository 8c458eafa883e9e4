# Dental clinic scheduler — a Dafny model of its scheduling core

The application is a single-page dental clinic scheduler. It keeps patients,
dentists, appointments and treatments in an in-memory store. Its small amount
of real logic is modelled here:

- **Date utilities** (`dateutils.dfy`):
  - the end time of a booking;
  - the 12-hour display of a time;
  - the conflict check `checkTimeSlotAvailable`;
  - the free-slot generator `getAvailableTimeSlots`, as an imperative method with two nested loops, proved equal to a specification function.
- **The store** (`appcontext.dfy`): a class `AppStore` whose four sequence fields are updated by the add, update and delete methods, plus the `find`/`filter` getters.
- **The appointment form** (`appointmentform.dfy`):
  - the validation schema;
  - the treatment lookup that picks the duration;
  - the appointment that `onFormSubmit` builds.
- **The pages** (`appointmentspage.dfy`, `dashboard.dfy`, `reportspage.dfy`): the filters, sorts, counts and rates they compute from the store.
- **Shared pieces**:
  - `types.dfy`: the records and the two closed enums.
  - `text.dfy`: JavaScript string operations.
  - `collections.dfy`: `filter`, `find` and a stable sort, with their lemmas.
  - `wrappers.dfy`: `Option` and `Result`.

How the model represents the source's values:

- **Times.** A time of day is a number of minutes, `Minutes` (0 up to, but not including, 1440).
  - The "HH:mm" text the source stores is tied to it by `FormatHHmm` and `ParseHHmm`, with round-trip lemmas.
  - Zero-padded times sort as strings exactly as their minutes sort as numbers. So the source's `localeCompare` on start times agrees with numeric order (`DateUtils.CompareHHmm`, `DateUtils.FormatHHmmOrder`).
- **Dates** are ISO `YYYY-MM-DD` strings.
  - JavaScript's `<` and `>` on them are the code-unit lexicographic order `Text.LexLess`.
  - `localeCompare` is taken in the same order (`Text.Compare`).
- **Clock readings** are parameters:
  - "today" is a string;
  - the weekday name is a string;
  - `Date.now()` is a natural number.

The overlap test is date-fns `areIntervalsOverlapping`, taken in its version 2 behaviour (see "## Left out"). It is exclusive at the ends, and it throws `RangeError` when an interval ends before it starts. That throw is modelled as `Err(InvalidInterval)`, and `some` stops at its first true element, as in JavaScript. So the checker, the slot generator and the form all keep their error path rather than excluding the input by a precondition.

Four behaviours of the code are easy to miss; the model follows the code:

- **Status.** Cancelled and no-show appointments still block a slot, because the conflict check never reads the status (`DateUtils.CheckIgnoresStatus`).
- **No conflict check in the store.** The store never calls the conflict checker: adding an appointment is a plain append.
- **The root-canal duration.** The treatment lookup finds no treatment for the type `root-canal`, because the shipped treatment is named "Root Canal" without a hyphen. That booking therefore falls back to 30 minutes (`AppointmentForm.MockDurationRootCanal`).
- **Midnight wrap.** A duration long enough to carry the end past midnight wraps to the early morning. The end then passes the slot generator's closing-time test, so on a free day such slots are offered with an end before their start (`DateUtils.WrappedSlotsOffered`). The form likewise stores a booking that runs past midnight with an end before its start (`AppointmentForm.FormBooksAcrossMidnight`). Once stored, it makes every later check for that dentist and date throw when `some` reaches it (`DateUtils.CheckThrowsOnInvertedBooking`).

## Model

| member | source | states |
|---|---|---|
| DateUtils.ParseFormatHHmm | src/utils/dateUtils.ts:22-24 | parsing the "HH:mm" text of any time of day gives that time back |
| DateUtils.FormatParseHHmm | src/utils/dateUtils.ts:22-24 | any text that parses with pattern "HH:mm" is reproduced exactly by formatting its value |
| DateUtils.FormatHHmmOrder | src/pages/AppointmentsPage.tsx:78 | two zero-padded times compare as strings exactly as their minute values compare |
| DateUtils.CompareHHmm | src/pages/Dashboard.tsx:32 | `localeCompare` on two formatted times is negative iff the first is earlier and zero iff they are equal |
| DateUtils.FormatTime | src/utils/dateUtils.ts:9-12 | formatting fails with an invalid time value exactly when the input is not valid "HH:mm"; otherwise the 12-hour text reads back as the same time of day |
| DateUtils.ParseTwelveHourText | src/utils/dateUtils.ts:9-12 | the 12-hour text "h:mm AM/PM" determines the time of day it was made from: reading it back gives the same minutes |
| DateUtils.TwelveHourTextInjective | src/utils/dateUtils.ts:9-12 | two different times never get the same 12-hour text |
| DateUtils.TwelveHourClock | src/utils/dateUtils.ts:11 | the 12-hour hour (12 for hours 0 and 12), the AM/PM half and the minutes together recover the time of day |
| DateUtils.FormatTimeMidnight | src/utils/dateUtils.ts:9-12 | "00:05" is shown as "12:05 AM" |
| DateUtils.FormatTimeMorning | src/utils/dateUtils.ts:9-12 | "09:30" is shown as "9:30 AM", with no leading zero on the hour |
| DateUtils.FormatTimeNoon | src/utils/dateUtils.ts:9-12 | "12:00" is shown as "12:00 PM" |
| DateUtils.FormatTimeAfternoon | src/utils/dateUtils.ts:9-12 | "13:45" is shown as "1:45 PM" |
| DateUtils.AddMinutesOfDay | src/utils/dateUtils.ts:22-24 | the end is start plus duration when that stays within the day, wraps by one day past midnight, and always differs from start plus duration by whole days |
| DateUtils.CalculateEndTime | src/utils/dateUtils.ts:21-25 | fails exactly when the start does not parse; otherwise the result is "HH:mm" text of start plus duration taken modulo the day |
| DateUtils.AppointmentToCalendarEvent | src/utils/dateUtils.ts:27-41 | the event's title names the type, start and end fall on the appointment's date, and every field of the appointment except its notes is recovered from the event |
| DateUtils.FormatDateTimeOrder | src/utils/dateUtils.ts:14-19 | instants made for one date order as their times of day, and an earlier date comes before a later one whatever the times |
| DateUtils.AreIntervalsOverlappingSpec | src/utils/dateUtils.ts:62-65 | the overlap test throws exactly when an interval ends before it starts, is symmetric, and does not count touching intervals as overlapping |
| DateUtils.CheckTimeSlotAvailable | src/utils/dateUtils.ts:43-67 | with no existing appointments every slot is available |
| DateUtils.SomeOverlapsSameDate | src/utils/dateUtils.ts:58-66 | on one date and with well-formed intervals, `some` over `areIntervalsOverlapping` is true iff some appointment starts before the candidate ends and ends after it starts |
| DateUtils.SomeOverlapsFirst | src/utils/dateUtils.ts:58-66 | `some` returns the answer of the first appointment whose overlap test is not `false`, a throw included |
| DateUtils.CheckTimeSlotAvailableIff | src/utils/dateUtils.ts:43-67 | for well-formed intervals the slot is available iff no appointment of that dentist, on that date and not excluded, strictly overlaps it; back-to-back bookings do not conflict |
| DateUtils.CheckThrowsOnInvertedCandidate | src/utils/dateUtils.ts:62-65 | a candidate ending before it starts makes the check fail with an invalid interval once any appointment is considered |
| DateUtils.CheckThrowsOnInvertedBooking | src/utils/dateUtils.ts:54-66 | when the first considered stored appointment ends before it starts, the check fails with an invalid interval whatever the candidate |
| DateUtils.CheckIgnoresUnconsidered | src/utils/dateUtils.ts:54-56 | inserting or removing an appointment of another dentist, another date or the excluded id never changes the answer |
| DateUtils.CheckIgnoresStatus | src/utils/dateUtils.ts:54-56 | changing an appointment's status never changes the answer, so cancelled and no-show bookings still block |
| DateUtils.CheckExamples | src/utils/dateUtils.ts:43-67 | a back-to-back booking is free, a one-minute overlap conflicts, a cancelled booking blocks, and an excluded id does not |
| DateUtils.EndsAfterHours | src/utils/dateUtils.ts:87-88 | the hour/minute test on the end text is true exactly when the end is later than 17:00 |
| DateUtils.GetAvailableTimeSlots | src/utils/dateUtils.ts:69-99 | the nested loops over hours 9 to 16 and minutes 0 and 30 visit the 16 half-hour starts from 09:00 in order and return exactly the slot list of the specification function, including its error |
| DateUtils.VisitCandidate | src/utils/dateUtils.ts:83-94 | one pass of the loop body: a slot ending after 17:00 is skipped, a throwing check ends the scan, and a free slot is pushed; the lemmas below state what the whole scan then returns |
| DateUtils.SlotsAmongErr | src/utils/dateUtils.ts:81-96 | the generator fails iff some candidate's check throws |
| DateUtils.SlotsAmongSound | src/utils/dateUtils.ts:84-94 | every slot returned comes from a candidate, has its computed end, ends by closing and is available |
| DateUtils.SlotsAmongComplete | src/utils/dateUtils.ts:84-94 | every candidate that ends by closing and is available is returned |
| DateUtils.SlotsAmongAscending | src/utils/dateUtils.ts:81-82 | slots come out in strictly ascending start order |
| DateUtils.AvailableTimeSlotsSpec | src/utils/dateUtils.ts:69-99 | at most 16 slots, each from the 09:00–16:30 grid, with end as computed, ending by 17:00 and available; ascending; and every such candidate is included |
| DateUtils.AvailableTimeSlotsErr | src/utils/dateUtils.ts:69-99 | the slot list fails iff the check throws on some candidate |
| DateUtils.EmptyDaySlots | src/utils/dateUtils.ts:69-99 | a free day offers all 16 half-hour slots, from 09:00–09:30 to 16:30–17:00 |
| DateUtils.WrappedSlotsOffered | src/utils/dateUtils.ts:84-90 | a 1000-minute duration wraps past midnight and all 16 slots are offered with an end before their start |
| DateUtils.BookedSlotExcluded | src/utils/dateUtils.ts:69-99 | a booking from 12:00 to 12:30 removes exactly the 12:00 slot and leaves the other 15 |
| AppContext.FindById | src/context/AppContext.tsx:62-76 | `find` by id is none iff no element has the id, and otherwise the first element with it |
| AppContext.ReplaceById | src/context/AppContext.tsx:54-56 | the `map` keeps the length and replaces exactly the elements whose id matches |
| AppContext.RemoveById | src/context/AppContext.tsx:46-48 | the `filter` keeps every element with another id as often as it occurs, drops every element with the id, and keeps the order |
| AppContext.RemoveByIdSpec | src/context/AppContext.tsx:58-60 | an element is kept iff it is present and has another id, with its multiplicity unchanged; the result is an order-preserving subsequence |
| AppContext.WithKey | src/context/AppContext.tsx:78-84 | the `filter` by a foreign key holds every element with that key as often as it occurs, and nothing else, in order |
| AppContext.RemoveAbsent | src/context/AppContext.tsx:58-60 | deleting an id that is not present changes nothing |
| AppContext.FindAfterRemove | src/context/AppContext.tsx:58-72 | after deleting an id, finding that id gives nothing |
| AppContext.ReplaceAbsent | src/context/AppContext.tsx:54-56 | updating with an id that is not present changes nothing |
| AppContext.ReplaceIdempotent | src/context/AppContext.tsx:54-56 | updating twice with the same record is the same as updating once |
| AppContext.FindAfterReplace | src/context/AppContext.tsx:54-72 | after updating a present id, finding it gives the new record |
| AppContext.FindAfterAppend | src/context/AppContext.tsx:50-72 | after an append, finding an id gives the earlier match if there was one, else the appended record if its id matches |
| AppContext.AppStore.constructor | src/context/AppContext.tsx:27-30 | the store starts with the given patients, dentists, appointments and treatments |
| AppContext.AppStore.AddPatient | src/context/AppContext.tsx:38-40 | appends the patient and touches no other collection; a new id then finds it |
| AppContext.AppStore.UpdatePatient | src/context/AppContext.tsx:42-44 | replaces the patients with that id, touching no other collection |
| AppContext.AppStore.DeletePatient | src/context/AppContext.tsx:46-48 | removes the patients with that id, leaves the appointments as they were (no cascade), and the id is then not found |
| AppContext.AppStore.AddAppointment | src/context/AppContext.tsx:50-52 | appends the appointment with no duplicate or conflict check, touching no other collection |
| AppContext.AppStore.UpdateAppointment | src/context/AppContext.tsx:54-56 | replaces the appointments with that id, touching no other collection |
| AppContext.AppStore.DeleteAppointment | src/context/AppContext.tsx:58-60 | removes the appointments with that id, touching no other collection; the id is then not found |
| AppContext.AppStore.GetPatientById | src/context/AppContext.tsx:62-64 | the first patient with the id, or none when there is none |
| AppContext.AppStore.GetDentistById | src/context/AppContext.tsx:66-68 | the first dentist with the id, or none when there is none |
| AppContext.AppStore.GetAppointmentById | src/context/AppContext.tsx:70-72 | the first appointment with the id, or none when there is none |
| AppContext.AppStore.GetTreatmentById | src/context/AppContext.tsx:74-76 | the first treatment with the id, or none when there is none |
| AppContext.AppStore.GetPatientAppointments | src/context/AppContext.tsx:78-80 | every appointment of the patient, each as often as it is stored, nothing else, in store order |
| AppContext.AppStore.GetDentistAppointments | src/context/AppContext.tsx:82-84 | every appointment of the dentist, each as often as it is stored, nothing else, in store order |
| AppointmentForm.FieldErrors | src/components/appointments/AppointmentForm.tsx:13-21 | lists exactly the fields that break their rule |
| AppointmentForm.ValidateAppointmentForm | src/components/appointments/AppointmentForm.tsx:13-21 | accepts iff the four ids and texts are non-empty and type and status are enum members; rejection names exactly the failing fields; accepted data copies every field |
| AppointmentForm.SelectedTreatment | src/components/appointments/AppointmentForm.tsx:57 | none iff no treatment's lower-cased name contains the type, otherwise the first that does |
| AppointmentForm.DraftId | src/components/appointments/AppointmentForm.tsx:66 | the id is never empty; an edited appointment with an id keeps it; otherwise the id is "appointment-" followed by digits that read back as the clock reading |
| AppointmentForm.FreshIdsDistinct | src/components/appointments/AppointmentForm.tsx:66 | fresh ids made at different clock readings differ |
| AppointmentForm.TreatmentDuration | src/components/appointments/AppointmentForm.tsx:62 | the duration is never 0: a found treatment with a non-zero duration gives its duration, and a treatment with duration 0 or no treatment gives 30 |
| AppointmentForm.OnFormSubmit | src/components/appointments/AppointmentForm.tsx:59-70 | fails iff the start does not parse; otherwise the end is the computed end for the selected duration, every form field is copied and the id is the kept or fresh id |
| AppointmentForm.EditKeepsId | src/components/appointments/AppointmentForm.tsx:66 | editing an appointment with a non-empty id keeps that id |
| AppointmentForm.FormBooksAcrossMidnight | src/components/appointments/AppointmentForm.tsx:59-70 | a 23:45 booking with no matching treatment is stored ending at 00:15, before its start |
| AppointmentForm.MockDurationCheckup | src/data/mockData.ts:140-147 | with the shipped treatments a checkup lasts 30 minutes |
| AppointmentForm.MockDurationCleaning | src/data/mockData.ts:148-154 | a cleaning lasts 60 minutes |
| AppointmentForm.MockDurationFilling | src/data/mockData.ts:155-161 | a filling lasts 45 minutes |
| AppointmentForm.MockDurationExtraction | src/data/mockData.ts:169-175 | an extraction lasts 45 minutes |
| AppointmentForm.MockDurationCrown | src/data/mockData.ts:176-182 | a crown lasts 60 minutes |
| AppointmentForm.MockDurationRootCanal | src/data/mockData.ts:162-168 | a root canal gets the 30-minute default, since "root canal" does not contain "root-canal" |
| AppointmentForm.MockDurationOther | src/data/mockData.ts:140-190 | the type "other" matches no shipped treatment and gets the 30-minute default |
| AppointmentForm.MockTreatmentDurations | src/components/appointments/AppointmentForm.tsx:57-63 | the duration for every type with the shipped treatments |
| AppointmentsPage.FilteredAppointments | src/pages/AppointmentsPage.tsx:48-69 | every appointment kept passes the search, status and date tests |
| AppointmentsPage.FilteredAppointmentsSpec | src/pages/AppointmentsPage.tsx:48-69 | an appointment is kept iff it is in the list and passes all three tests, as often as it occurs there; the result is a subsequence of the list |
| AppointmentsPage.StatusFilterSpec | src/pages/AppointmentsPage.tsx:56 | "all" keeps every appointment and a status name keeps exactly that status |
| AppointmentsPage.DateFiltersPartition | src/pages/AppointmentsPage.tsx:59-66 | every appointment is exactly one of today, upcoming and past; "all" keeps it |
| AppointmentsPage.EmptyQueryMatches | src/pages/AppointmentsPage.tsx:50-53 | the empty search matches every appointment |
| AppointmentsPage.NoFilterKeepsAll | src/pages/AppointmentsPage.tsx:48-69 | with no search and both filters on "all" the list is returned unchanged |
| AppointmentsPage.DateTimeLeIff | src/pages/AppointmentsPage.tsx:72-79 | the comparator orders by date, then by start time |
| AppointmentsPage.DateTimeLeTotalPreorder | src/pages/AppointmentsPage.tsx:72-79 | the comparator is a total preorder |
| AppointmentsPage.SortedAppointments | src/pages/AppointmentsPage.tsx:72 | the sorted list is a permutation of the filtered list |
| AppointmentsPage.SortedAppointmentsSpec | src/pages/AppointmentsPage.tsx:72-79 | the sorted list is ascending by (date, start time), and appointments that tie keep their relative order |
| Dashboard.TodayAppointments | src/pages/Dashboard.tsx:18 | every appointment kept is dated today |
| Dashboard.TodayAppointmentsSpec | src/pages/Dashboard.tsx:18 | an appointment is kept iff it is in the list and dated today, as often as it occurs there, in list order |
| Dashboard.CountAppointments | src/pages/Dashboard.tsx:21-28 | the total is the list length and the five status counts add up to it |
| Dashboard.CountAppointmentsEmpty | src/pages/Dashboard.tsx:21-28 | with no appointments the total and every tally are 0 |
| Dashboard.CountAppointmentsAdd | src/pages/Dashboard.tsx:21-28 | one more appointment raises the total and its own status tally by one and leaves the other four tallies alone |
| Dashboard.StartLeIff | src/pages/Dashboard.tsx:31-33 | the comparator orders by start time |
| Dashboard.StartLeTotalPreorder | src/pages/Dashboard.tsx:31-33 | the comparator is a total preorder |
| Dashboard.SortedTodayAppointments | src/pages/Dashboard.tsx:31 | the sorted list is a permutation of today's list |
| Dashboard.SortedTodayAppointmentsSpec | src/pages/Dashboard.tsx:31-33 | every element of the sorted list is dated today, in ascending start-time order, and appointments with the same start keep today's list order |
| Dashboard.UpcomingCount | src/pages/Dashboard.tsx:75 | the count never exceeds the number of appointments |
| Dashboard.UpcomingCountSpec | src/pages/ReportsPage.tsx:54 | the reports page counts upcoming appointments with the dashboard's expression (Dashboard.tsx:75): the upcoming count plus the later cancelled ones is the number of later appointments: only cancelled ones are left out |
| Dashboard.UpcomingCountsNoShow | src/pages/Dashboard.tsx:75 | any later appointment that is not cancelled, no-show included, adds one |
| Dashboard.DentistsAvailableToday | src/pages/Dashboard.tsx:91-97 | the count never exceeds the number of dentists |
| Dashboard.DentistsAvailableTodaySpec | src/pages/Dashboard.tsx:91-97 | a dentist adds one iff some availability entry names today's weekday |
| Dashboard.MockMondayAvailability | src/data/mockData.ts:86-138 | three of the four shipped dentists work on Mondays |
| ReportsPage.AppointmentsByStatus | src/pages/ReportsPage.tsx:15-21 | the five status counts add up to the number of appointments |
| ReportsPage.AppointmentsByStatusAdd | src/pages/ReportsPage.tsx:15-21 | an added appointment raises exactly its own status count |
| ReportsPage.AppointmentsByType | src/pages/ReportsPage.tsx:24-32 | the seven type counts add up to the number of appointments |
| ReportsPage.AppointmentsByTypeAdd | src/pages/ReportsPage.tsx:24-32 | an added appointment raises exactly its own type count |
| Types.StatusCountsSum | src/types/index.ts:35 | the five statuses cover every appointment once |
| Types.TypeCountsSum | src/types/index.ts:36 | the seven types cover every appointment once |
| Types.ParseStatus | src/types/index.ts:35 | a string is accepted as a status iff it is that status's name |
| Types.ParseType | src/types/index.ts:36 | a string is accepted as a type iff it is that type's name |
| ReportsPage.AppointmentsByDentist | src/pages/ReportsPage.tsx:35-38 | one entry per dentist, in dentist order, carrying that dentist's name |
| ReportsPage.AppointmentsByDentistCount | src/pages/ReportsPage.tsx:35-38 | each count is the number of appointments with that dentist's id; an added appointment raises only its own dentist's count |
| ReportsPage.CountGeTotalPreorder | src/pages/ReportsPage.tsx:41 | ordering by descending count is a total preorder |
| ReportsPage.SortedDentistsByAppointments | src/pages/ReportsPage.tsx:41 | the sorted list is a permutation of the per-dentist list |
| ReportsPage.SortedDentistsSpec | src/pages/ReportsPage.tsx:41 | the sorted list has non-increasing counts, and entries with equal counts keep their order |
| ReportsPage.Percent | src/pages/ReportsPage.tsx:44-51 | a share of a non-empty total lies between 0 and 100, is 0 iff the part is empty and 100 iff it is everything |
| ReportsPage.CompletionRate | src/pages/ReportsPage.tsx:44-46 | between 0 and 100, 0 with no appointments, and otherwise 0 iff none is completed |
| ReportsPage.CancellationRate | src/pages/ReportsPage.tsx:49-51 | between 0 and 100, 0 with no appointments, and otherwise 0 iff none is cancelled or no-show |
| ReportsPage.TodayCount | src/pages/ReportsPage.tsx:57 | today's count never exceeds the number of appointments |
| ReportsPage.TodayCountAdd | src/pages/ReportsPage.tsx:57 | one more appointment raises today's count exactly when it is dated today |
| ReportsPage.ThisMonthCount | src/pages/ReportsPage.tsx:60-61 | the count never exceeds the number of appointments |
| ReportsPage.TodayWithinMonth | src/pages/ReportsPage.tsx:57-61 | today's count never exceeds this month's |
| ReportsPage.ThisMonthSpec | src/pages/ReportsPage.tsx:60-61 | for dates of full length, the month test holds iff the first seven characters equal today's |
| Text.Compare | src/pages/AppointmentsPage.tsx:74-78 | `localeCompare` is negative, zero or positive iff the first string sorts before, equals or sorts after the second |
| Text.IncludesIff | src/pages/AppointmentsPage.tsx:50-53 | `includes` holds iff the substring occurs at some index |

## Left out

- date-fns is taken in version 2: `areIntervalsOverlapping` throws `RangeError` on an interval that ends before it starts. No package manifest fixes the version. Under version 3 the function orders each interval's endpoints instead of throwing, and the model's `Err(InvalidInterval)` path would not exist.
- Dates are assumed to be ISO `YYYY-MM-DD` strings. A date string `new Date` cannot read gives an invalid date, on which date-fns version 2 throws. The model does not represent that error.
- Time zones, daylight saving and JavaScript `Date` objects are not modelled. `formatDateTime` becomes a pair of the date string and the minutes of the day (`DateUtils.FormatDateTime`), and the "HH:mm" fields of an appointment are held as minutes.
- `formatDate` is not modelled, because its output depends on the locale's month names and the host time zone.
- `ParseHHmm` accepts only two hour digits, a colon and two minute digits. The date-fns parser is more lenient: it also takes a single-digit hour or minute ("9:30", "09:5") and tolerates trailing whitespace. The model rejects all of these.
- `Text.ToLower` changes only the ASCII letters `A`–`Z`, because Unicode case mapping is not modelled.
- `Text.Compare` is code-unit order, not a locale collation. For the zero-padded times and ISO dates the pages sort, the two agree.
- The percentages are exact `real` values, not IEEE doubles. `toFixed` and the bar widths are presentation.
- Durations are integers. A `NaN` or fractional treatment duration is not modelled.
- Reading the clock is not modelled. "Today", the weekday name and `Date.now()` are parameters.
- The seed generator `generateAppointments` is left out, because it is driven by `Math.random` and the clock. The constant dentist and treatment tables are modelled as fixtures.
- The slot generator ignores a dentist's availability windows, exactly as the source does. The model adds nothing there.
- These parts are not part of this model:
  - the login and signup code of `src/context/AuthContext.tsx`;
  - the calendar page's month navigation;
  - the dentists page, which calls store operations the store does not provide;
  - the JSX rendering of every page and component.
- `DateUtils.CheckTimeSlotAvailableIff` assumes well-formed intervals, each ending no earlier than it starts. An inverted candidate is covered by `DateUtils.CheckThrowsOnInvertedCandidate`, and an inverted stored appointment that is the first one considered by `DateUtils.CheckThrowsOnInvertedBooking`. An inverted stored appointment reached after other considered ones follows from `DateUtils.SomeOverlapsFirst` without a lemma of its own.
- `DateUtils.CheckTimeSlotAvailable`'s own contract states only the empty-list case. Its full meaning is given by `DateUtils.CheckTimeSlotAvailableIff`.
- `ReportsPage.ThisMonthSpec` is stated only for dates of at least seven characters. Shorter strings follow `Text.Prefix` and `Text.StartsWith` without a separate lemma.
- The loop body of `getAvailableTimeSlots` is a separate method, `DateUtils.VisitCandidate`, called by the two nested loops of `DateUtils.GetAvailableTimeSlots`.
