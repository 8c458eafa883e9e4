/** `src/utils/dateUtils.ts`: time-of-day text, end times, the instants the
    overlap test compares, `checkTimeSlotAvailable` and
    `getAvailableTimeSlots`. */
module DateUtils {
  import opened Wrappers
  import opened Text
  import opened Collections
  import opened Types

  /** The RangeErrors date-fns throws here: formatting an Invalid Date, and
      an interval that starts after it ends. */
  datatype DateError = InvalidTimeValue | InvalidInterval

  /** `format(date, 'HH:mm')` of a time of day. */
  function FormatHHmm(t: Minutes): (s: string)
    ensures |s| == 5 && s[2] == ':'
  {
    Pad2(t / 60) + ":" + Pad2(t % 60)
  }

  /** `parse(s, 'HH:mm', ...)` for two-digit fields: the time of day, or
      None where date-fns yields an Invalid Date. */
  function ParseHHmm(s: string): Option<Minutes>
  {
    if |s| == 5 && IsDigit(s[0]) && IsDigit(s[1]) && s[2] == ':' && IsDigit(s[3]) && IsDigit(s[4]) then
      var h := 10 * DigitValue(s[0]) + DigitValue(s[1]);
      var m := 10 * DigitValue(s[3]) + DigitValue(s[4]);
      if h < 24 && m < 60 then Some(60 * h + m) else None
    else None
  }

  lemma ParseFormatHHmm(t: Minutes)
    ensures ParseHHmm(FormatHHmm(t)) == Some(t)
  {
    var s := FormatHHmm(t);
    assert s[0] == Pad2(t / 60)[0] && s[1] == Pad2(t / 60)[1];
    assert s[3] == Pad2(t % 60)[0] && s[4] == Pad2(t % 60)[1];
  }

  /** A parsable "HH:mm" text is the canonical text of the time it denotes. */
  lemma FormatParseHHmm(s: string)
    requires ParseHHmm(s).Some?
    ensures FormatHHmm(ParseHHmm(s).value) == s
  {
    var t := ParseHHmm(s).value;
    var h := 10 * DigitValue(s[0]) + DigitValue(s[1]);
    var m := 10 * DigitValue(s[3]) + DigitValue(s[4]);
    assert t / 60 == h && t % 60 == m;
    var f := FormatHHmm(t);
    assert f[0] == s[0] && f[1] == s[1] && f[3] == s[3] && f[4] == s[4];
  }

  /** Because of the zero padding, the string order of two "HH:mm" texts
      (what `localeCompare` and `<` see) is the order of the times. */
  lemma FormatHHmmOrder(a: Minutes, b: Minutes)
    ensures LexLess(FormatHHmm(a), FormatHHmm(b)) <==> a < b
  {
    LexLessAppend(Pad2(a / 60), ":" + Pad2(a % 60), Pad2(b / 60), ":" + Pad2(b % 60));
    LexLessAppend(":", Pad2(a % 60), ":", Pad2(b % 60));
    LexLessIrreflexive(":");
    Pad2Order(a / 60, b / 60);
    Pad2Order(a % 60, b % 60);
    assert Pad2(a / 60) == Pad2(b / 60) <==> a / 60 == b / 60;
    assert FormatHHmm(a) == Pad2(a / 60) + (":" + Pad2(a % 60));
    assert FormatHHmm(b) == Pad2(b / 60) + (":" + Pad2(b % 60));
    assert a < b <==> a / 60 < b / 60 || (a / 60 == b / 60 && a % 60 < b % 60);
  }

  /** `localeCompare` on two formatted times agrees with the order of the
      times themselves. */
  lemma CompareHHmm(a: Minutes, b: Minutes)
    ensures Compare(FormatHHmm(a), FormatHHmm(b)) < 0 <==> a < b
    ensures Compare(FormatHHmm(a), FormatHHmm(b)) == 0 <==> a == b
  {
    FormatHHmmOrder(a, b);
    ParseFormatHHmm(a);
    ParseFormatHHmm(b);
  }

  /** `format(date, 'h:mm a')` of a time of day. */
  function TwelveHourText(t: Minutes): string
  {
    var h := t / 60;
    NatToString(if h % 12 == 0 then 12 else h % 12) + TwelveHourTailText(t % 60, h)
  }

  /** ":mm AM" or ":mm PM". */
  function TwelveHourTailText(m: nat, hour: int): string
    requires m < 60
  {
    ":" + Pad2(m) + " " + Meridiem(hour)
  }

  function Meridiem(hour: int): string
  {
    if hour < 12 then "AM" else "PM"
  }

  /** `formatTime(timeString)`: 24-hour text to 12-hour text. An unparsable
      time makes `format` throw. */
  function FormatTime(timeString: string): (r: Result<string, DateError>)
    ensures r.Err? <==> ParseHHmm(timeString).None?
    ensures r.Err? ==> r.error == InvalidTimeValue
    ensures r.Ok? ==> ParseTwelveHour(r.value) == ParseHHmm(timeString)
  {
    match ParseHHmm(timeString)
    case None => Err(InvalidTimeValue)
    case Some(t) =>
      ParseTwelveHourText(t);
      Ok(TwelveHourText(t))
  }

  /** Reads "h:mm AM" / "h:mm PM" back into a time of day. */
  function ParseTwelveHour(s: string): Option<Minutes>
  {
    if |s| < 7 then None else ParseTwelveHourSplit(s[..|s| - 6], s[|s| - 6..])
  }

  /** The hour digits, then ":mm AM" or ":mm PM". */
  function ParseTwelveHourSplit(hourText: string, rest: string): Option<Minutes>
    requires |rest| == 6
  {
    if (|hourText| == 1 || |hourText| == 2) && (forall i :: 0 <= i < |hourText| ==> IsDigit(hourText[i]))
       && rest[0] == ':' && IsDigit(rest[1]) && IsDigit(rest[2]) && rest[3] == ' '
       && (rest[4..] == "AM" || rest[4..] == "PM")
    then
      var h12 := ParseNat(hourText);
      var m := 10 * DigitValue(rest[1]) + DigitValue(rest[2]);
      if 1 <= h12 <= 12 && m < 60 then Some(60 * (h12 % 12 + (if rest[4..] == "PM" then 12 else 0)) + m)
      else None
    else None
  }

  lemma NatToStringSmall(n: nat)
    requires 1 <= n <= 12
    ensures |NatToString(n)| == (if n < 10 then 1 else 2)
  {
    if n >= 10 {
      assert NatToString(n) == NatToString(1) + [DigitChar(n % 10)];
    }
  }

  /** The ":mm AM" / ":mm PM" tail of a 12-hour text. */
  lemma TwelveHourTail(m: nat, hour: int)
    requires m < 60
    ensures var rest := TwelveHourTailText(m, hour);
            && |rest| == 6 && rest[0] == ':' && rest[3] == ' '
            && IsDigit(rest[1]) && IsDigit(rest[2]) && 10 * DigitValue(rest[1]) + DigitValue(rest[2]) == m
            && rest[4..] == if hour >= 12 then "PM" else "AM"
  {
    var rest := TwelveHourTailText(m, hour);
    assert rest[1] == Pad2(m)[0] && rest[2] == Pad2(m)[1];
    assert rest[4..] == Meridiem(hour);
  }

  /** The last six characters are the tail. */
  lemma SplitTwelveHour(hourText: string, rest: string)
    requires |hourText| >= 1 && |rest| == 6
    ensures ParseTwelveHour(hourText + rest) == ParseTwelveHourSplit(hourText, rest)
  {
    var s := hourText + rest;
    assert s[..|s| - 6] == hourText && s[|s| - 6..] == rest;
  }

  lemma ParseTwelveHourParts(hourText: string, m: nat, hour: int)
    requires |hourText| == 1 || |hourText| == 2
    requires forall i :: 0 <= i < |hourText| ==> IsDigit(hourText[i])
    requires 1 <= ParseNat(hourText) <= 12 && m < 60
    ensures ParseTwelveHour(hourText + TwelveHourTailText(m, hour))
            == Some(60 * (ParseNat(hourText) % 12 + (if hour < 12 then 0 else 12)) + m)
  {
    var rest := TwelveHourTailText(m, hour);
    TwelveHourTail(m, hour);
    SplitTwelveHour(hourText, rest);
    ParseTwelveHourAccepts(hourText, rest, m, hour >= 12);
  }

  lemma ParseTwelveHourAccepts(hourText: string, rest: string, m: nat, pm: bool)
    requires |hourText| == 1 || |hourText| == 2
    requires forall i :: 0 <= i < |hourText| ==> IsDigit(hourText[i])
    requires 1 <= ParseNat(hourText) <= 12 && m < 60
    requires |rest| == 6 && rest[0] == ':' && rest[3] == ' ' && IsDigit(rest[1]) && IsDigit(rest[2])
    requires 10 * DigitValue(rest[1]) + DigitValue(rest[2]) == m
    requires rest[4..] == if pm then "PM" else "AM"
    ensures ParseTwelveHourSplit(hourText, rest) == Some(60 * (ParseNat(hourText) % 12 + (if pm then 12 else 0)) + m)
  {
    assert "AM" != "PM" by { assert "AM"[0] != "PM"[0]; }
  }

  /** The 12-hour text determines the time: 0 reads as 12 AM, 12 as 12 PM,
      13 as 1 PM, and the minutes are kept. */
  lemma ParseTwelveHourText(t: Minutes)
    ensures ParseTwelveHour(TwelveHourText(t)) == Some(t)
  {
    var h := t / 60;
    var h12: nat := if h % 12 == 0 then 12 else h % 12;
    NatToStringSmall(h12);
    ParseNatToString(h12);
    ParseTwelveHourParts(NatToString(h12), t % 60, h);
    TwelveHourClock(t);
    assert 60 * (h12 % 12 + (if h < 12 then 0 else 12)) + t % 60 == t;
  }

  /** Hour 0 is 12 AM and hour 12 is 12 PM. */
  lemma TwelveHourClock(t: Minutes)
    ensures var h := t / 60;
            var h12 := if h % 12 == 0 then 12 else h % 12;
            60 * (h12 % 12 + (if h < 12 then 0 else 12)) + t % 60 == t
  {
    var h := t / 60;
    if h < 12 { assert h % 12 == h; } else { assert h % 12 == h - 12; }
  }

  /** Different times never print the same 12-hour text. */
  lemma TwelveHourTextInjective(a: Minutes, b: Minutes)
    requires TwelveHourText(a) == TwelveHourText(b)
    ensures a == b
  {
    ParseTwelveHourText(a);
    ParseTwelveHourText(b);
  }

  lemma NatToStringTwelve()
    ensures NatToString(12) == "12"
  {
    assert NatToString(12) == NatToString(1) + [DigitChar(2)];
  }

  /** Midnight hour reads as 12 AM. */
  lemma FormatTimeMidnight()
    ensures FormatTime("00:05") == Ok("12:05 AM")
  {
    NatToStringTwelve();
    assert ParseHHmm("00:05") == Some(5);
    assert TwelveHourText(5) == "12:05 AM";
  }

  /** Morning hours lose their leading zero. */
  lemma FormatTimeMorning()
    ensures FormatTime("09:30") == Ok("9:30 AM")
  {
    assert ParseHHmm("09:30") == Some(570);
    assert TwelveHourText(570) == "9:30 AM";
  }

  /** Noon reads as 12 PM. */
  lemma FormatTimeNoon()
    ensures FormatTime("12:00") == Ok("12:00 PM")
  {
    NatToStringTwelve();
    assert ParseHHmm("12:00") == Some(720);
    assert TwelveHourText(720) == "12:00 PM";
  }

  /** Afternoon hours count from 1 PM. */
  lemma FormatTimeAfternoon()
    ensures FormatTime("13:45") == Ok("1:45 PM")
  {
    assert ParseHHmm("13:45") == Some(825);
    assert TwelveHourText(825) == "1:45 PM";
  }

  /** The time of day `duration` minutes after `start`: `addMinutes` moves
      the instant, and formatting with 'HH:mm' keeps only its time of day,
      so the end wraps past midnight. */
  function AddMinutesOfDay(start: Minutes, duration: int): (e: Minutes)
    ensures 0 <= start + duration < 1440 ==> e == start + duration
    ensures 1440 <= start + duration < 2880 ==> e == start + duration - 1440
    ensures (start + duration - e) % 1440 == 0
  {
    (start + duration) % 1440
  }

  /** `calculateEndTime(startTime, durationMinutes)`. */
  function CalculateEndTime(startTime: string, durationMinutes: int): (r: Result<string, DateError>)
    ensures r.Err? <==> ParseHHmm(startTime).None?
    ensures r.Ok? ==> ParseHHmm(r.value) == Some(AddMinutesOfDay(ParseHHmm(startTime).value, durationMinutes))
  {
    match ParseHHmm(startTime)
    case None => Err(InvalidTimeValue)
    case Some(t) =>
      var e := AddMinutesOfDay(t, durationMinutes);
      ParseFormatHHmm(e);
      Ok(FormatHHmm(e))
  }

  /** An instant built by `formatDateTime(date, time)`: the given calendar
      day at the given time of day. */
  datatype Instant = Instant(date: string, minute: Minutes)

  function FormatDateTime(date: string, time: Minutes): Instant
  {
    Instant(date, time)
  }

  /** `getTime()` order of two instants; `YYYY-MM-DD` dates order
      chronologically as strings. */
  predicate InstantLe(a: Instant, b: Instant)
  {
    LexLess(a.date, b.date) || (a.date == b.date && a.minute <= b.minute)
  }

  predicate InstantLt(a: Instant, b: Instant)
  {
    LexLess(a.date, b.date) || (a.date == b.date && a.minute < b.minute)
  }

  /** Instants of one day order by their time of day, and an earlier date
      comes first whatever the times. */
  lemma FormatDateTimeOrder(date: string, a: Minutes, b: Minutes, later: string)
    ensures InstantLt(FormatDateTime(date, a), FormatDateTime(date, b)) <==> a < b
    ensures InstantLe(FormatDateTime(date, a), FormatDateTime(date, b)) <==> a <= b
    ensures LexLess(date, later) ==> InstantLt(FormatDateTime(date, a), FormatDateTime(later, b))
                                     && !InstantLe(FormatDateTime(later, b), FormatDateTime(date, a))
  {
    LexLessIrreflexive(date);
    LexLessTrichotomy(date, later);
  }

  datatype Interval = Interval(start: Instant, end: Instant)

  /** date-fns (v2) `areIntervalsOverlapping(left, right)`: exclusive at the
      ends, and a RangeError when either interval starts after it ends. */
  function AreIntervalsOverlapping(left: Interval, right: Interval): Result<bool, DateError>
  {
    if !(InstantLe(left.start, left.end) && InstantLe(right.start, right.end)) then Err(InvalidInterval)
    else Ok(InstantLt(left.start, right.end) && InstantLt(right.start, left.end))
  }

  /** The overlap test throws exactly when an interval ends before it
      starts, does not depend on the order of its arguments, and does not
      count intervals that only touch as overlapping. */
  lemma AreIntervalsOverlappingSpec(left: Interval, right: Interval)
    ensures AreIntervalsOverlapping(left, right).Err?
            <==> InstantLt(left.end, left.start) || InstantLt(right.end, right.start)
    ensures AreIntervalsOverlapping(left, right) == AreIntervalsOverlapping(right, left)
    ensures AreIntervalsOverlapping(left, right).Ok? && left.end == right.start
            ==> AreIntervalsOverlapping(left, right) == Ok(false)
  {
    LexLessTrichotomy(left.start.date, left.end.date);
    LexLessTrichotomy(right.start.date, right.end.date);
    LexLessIrreflexive(left.end.date);
    if AreIntervalsOverlapping(left, right).Ok? && left.end == right.start
       && InstantLt(right.start, left.end) {
      LexLessIrreflexive(right.start.date);
    }
  }

  datatype CalendarEvent = CalendarEvent(
    id: string,
    title: string,
    start: Instant,
    end: Instant,
    patientId: string,
    dentistId: string,
    status: Status,
    eventType: AppointmentType)

  /** `appointmentToCalendarEvent`: copies every field but the notes and
      titles the event after the type. */
  function AppointmentToCalendarEvent(a: Appointment): (e: CalendarEvent)
    ensures e.title == "Appointment: " + TypeName(a.appointmentType)
    ensures e.start.date == e.end.date
    ensures Appointment(e.id, e.patientId, e.dentistId, e.start.date, e.start.minute, e.end.minute,
                        e.status, e.eventType, a.notes) == a
  {
    CalendarEvent(a.id, "Appointment: " + TypeName(a.appointmentType),
                  FormatDateTime(a.date, a.startTime), FormatDateTime(a.date, a.endTime),
                  a.patientId, a.dentistId, a.status, a.appointmentType)
  }

  /** The filter of `checkTimeSlotAvailable`: same dentist, same date, and
      not the excluded id (an absent `excludeAppointmentId` excludes none). */
  predicate Considered(app: Appointment, date: string, dentistId: string, exclude: Option<string>)
  {
    app.dentistId == dentistId && app.date == date && (exclude.None? || app.id != exclude.value)
  }

  function ConsideredBy(date: string, dentistId: string, exclude: Option<string>): Appointment -> bool
  {
    app => Considered(app, date, dentistId, exclude)
  }

  function AppointmentInterval(app: Appointment): Interval
  {
    Interval(FormatDateTime(app.date, app.startTime), FormatDateTime(app.date, app.endTime))
  }

  /** `apps.some(app => areIntervalsOverlapping(candidate, app))`: stops at
      the first overlap, and a RangeError thrown on the way propagates. */
  function SomeOverlaps(candidate: Interval, apps: seq<Appointment>): Result<bool, DateError>
  {
    if apps == [] then Ok(false)
    else match AreIntervalsOverlapping(candidate, AppointmentInterval(apps[0]))
      case Err(e) => Err(e)
      case Ok(true) => Ok(true)
      case Ok(false) => SomeOverlaps(candidate, apps[1..])
  }

  /** `some` stops at the first appointment the overlap test does not
      answer `false` for, and returns that answer. */
  lemma {:induction false} SomeOverlapsFirst(candidate: Interval, apps: seq<Appointment>, k: nat)
    requires k < |apps|
    requires forall j :: 0 <= j < k ==> AreIntervalsOverlapping(candidate, AppointmentInterval(apps[j])) == Ok(false)
    requires AreIntervalsOverlapping(candidate, AppointmentInterval(apps[k])) != Ok(false)
    ensures SomeOverlaps(candidate, apps) == AreIntervalsOverlapping(candidate, AppointmentInterval(apps[k]))
  {
    if k > 0 {
      forall j | 0 <= j < k - 1
        ensures AreIntervalsOverlapping(candidate, AppointmentInterval(apps[1..][j])) == Ok(false)
      {
        assert apps[1..][j] == apps[j + 1];
      }
      SomeOverlapsFirst(candidate, apps[1..], k - 1);
    }
  }

  /** `checkTimeSlotAvailable(date, startTime, endTime, dentistId,
      existingAppointments, excludeAppointmentId)`. */
  function CheckTimeSlotAvailable(date: string, startTime: Minutes, endTime: Minutes, dentistId: string,
                                  existing: seq<Appointment>, exclude: Option<string>): (r: Result<bool, DateError>)
    ensures existing == [] ==> r == Ok(true)
  {
    var candidate := Interval(FormatDateTime(date, startTime), FormatDateTime(date, endTime));
    match SomeOverlaps(candidate, Filter(existing, ConsideredBy(date, dentistId, exclude)))
    case Err(e) => Err(e)
    case Ok(overlapping) => Ok(!overlapping)
  }

  /** The source's collision: the existing appointment starts before the
      candidate ends and the candidate starts before it ends. */
  predicate Conflicts(startTime: Minutes, endTime: Minutes, app: Appointment)
  {
    app.startTime < endTime && startTime < app.endTime
  }

  lemma {:induction false} SomeOverlapsSameDate(candidate: Interval, apps: seq<Appointment>)
    requires candidate.start.date == candidate.end.date
    requires candidate.start.minute <= candidate.end.minute
    requires forall i :: 0 <= i < |apps| ==> apps[i].date == candidate.start.date && apps[i].startTime <= apps[i].endTime
    ensures SomeOverlaps(candidate, apps)
            == Ok(exists i :: 0 <= i < |apps| && Conflicts(candidate.start.minute, candidate.end.minute, apps[i]))
  {
    if apps != [] {
      LexLessIrreflexive(candidate.start.date);
      SomeOverlapsSameDate(candidate, apps[1..]);
      if !Conflicts(candidate.start.minute, candidate.end.minute, apps[0]) {
        assert (exists i :: 0 <= i < |apps| && Conflicts(candidate.start.minute, candidate.end.minute, apps[i]))
           <==> (exists i :: 0 <= i < |apps[1..]| && Conflicts(candidate.start.minute, candidate.end.minute, apps[1..][i])) by {
          forall i | 0 < i < |apps| ensures apps[i] == apps[1..][i - 1] { }
        }
      }
    }
  }

  /** With well-formed intervals the check never throws, and it answers
      `false` exactly when some considered appointment collides; an
      appointment ending when the candidate starts does not collide. */
  lemma CheckTimeSlotAvailableIff(date: string, startTime: Minutes, endTime: Minutes, dentistId: string,
                                  existing: seq<Appointment>, exclude: Option<string>)
    requires startTime <= endTime
    requires forall i :: 0 <= i < |existing| && Considered(existing[i], date, dentistId, exclude)
                         ==> existing[i].startTime <= existing[i].endTime
    ensures CheckTimeSlotAvailable(date, startTime, endTime, dentistId, existing, exclude)
            == Ok(forall i :: 0 <= i < |existing| && Considered(existing[i], date, dentistId, exclude)
                              ==> !Conflicts(startTime, endTime, existing[i]))
  {
    var p := ConsideredBy(date, dentistId, exclude);
    var rel := Filter(existing, p);
    forall i | 0 <= i < |rel| ensures rel[i].date == date && rel[i].startTime <= rel[i].endTime {
      FilterMembers(existing, p, rel[i]);
    }
    var candidate := Interval(FormatDateTime(date, startTime), FormatDateTime(date, endTime));
    SomeOverlapsSameDate(candidate, rel);
    if i :| 0 <= i < |rel| && Conflicts(startTime, endTime, rel[i]) {
      FilterMembers(existing, p, rel[i]);
      var j :| 0 <= j < |existing| && existing[j] == rel[i];
      assert Considered(existing[j], date, dentistId, exclude) && Conflicts(startTime, endTime, existing[j]);
    }
    if j :| 0 <= j < |existing| && Considered(existing[j], date, dentistId, exclude) && Conflicts(startTime, endTime, existing[j]) {
      FilterMembers(existing, p, existing[j]);
      var i :| 0 <= i < |rel| && rel[i] == existing[j];
      assert Conflicts(startTime, endTime, rel[i]);
    }
  }

  /** A candidate that starts after it ends throws as soon as one appointment
      is considered. */
  lemma CheckThrowsOnInvertedCandidate(date: string, startTime: Minutes, endTime: Minutes, dentistId: string,
                                       existing: seq<Appointment>, exclude: Option<string>, k: nat)
    requires endTime < startTime
    requires k < |existing| && Considered(existing[k], date, dentistId, exclude)
    ensures CheckTimeSlotAvailable(date, startTime, endTime, dentistId, existing, exclude) == Err(InvalidInterval)
  {
    var rel := Filter(existing, ConsideredBy(date, dentistId, exclude));
    FilterMembers(existing, ConsideredBy(date, dentistId, exclude), existing[k]);
    LexLessIrreflexive(date);
  }

  /** A stored appointment that ends before it starts (the form makes one
      for a booking that runs past midnight) makes the check throw when it
      is the first one considered, whatever the candidate. */
  lemma CheckThrowsOnInvertedBooking(date: string, startTime: Minutes, endTime: Minutes, dentistId: string,
                                     exclude: Option<string>, before: seq<Appointment>, x: Appointment,
                                     after: seq<Appointment>)
    requires forall j :: 0 <= j < |before| ==> !Considered(before[j], date, dentistId, exclude)
    requires Considered(x, date, dentistId, exclude) && x.endTime < x.startTime
    ensures CheckTimeSlotAvailable(date, startTime, endTime, dentistId, before + [x] + after, exclude)
            == Err(InvalidInterval)
  {
    var p := ConsideredBy(date, dentistId, exclude);
    FilterMiddle(before, x, after, p);
    if Filter(before, p) != [] {
      FilterMembers(before, p, Filter(before, p)[0]);
    }
    var rel := Filter(before + [x] + after, p);
    assert rel[0] == x;
    LexLessIrreflexive(date);
    var candidate := Interval(FormatDateTime(date, startTime), FormatDateTime(date, endTime));
    SomeOverlapsFirst(candidate, rel, 0);
  }

  /** An appointment of another dentist, of another date or with the
      excluded id can be added or removed without changing the answer. */
  lemma CheckIgnoresUnconsidered(date: string, startTime: Minutes, endTime: Minutes, dentistId: string,
                                 exclude: Option<string>, before: seq<Appointment>, x: Appointment, after: seq<Appointment>)
    requires !Considered(x, date, dentistId, exclude)
    ensures CheckTimeSlotAvailable(date, startTime, endTime, dentistId, before + [x] + after, exclude)
            == CheckTimeSlotAvailable(date, startTime, endTime, dentistId, before + after, exclude)
  {
    var p := ConsideredBy(date, dentistId, exclude);
    FilterMiddle(before, x, after, p);
    FilterAppend(before, after, p);
    assert Filter(before + [x] + after, p) == Filter(before + after, p);
  }

  lemma {:induction false} SomeOverlapsMiddle(candidate: Interval, before: seq<Appointment>, x: Appointment,
                                              y: Appointment, after: seq<Appointment>)
    requires AppointmentInterval(x) == AppointmentInterval(y)
    ensures SomeOverlaps(candidate, before + [x] + after) == SomeOverlaps(candidate, before + [y] + after)
  {
    if before == [] {
      assert before + [x] + after == [x] + after && ([x] + after)[1..] == after;
      assert before + [y] + after == [y] + after && ([y] + after)[1..] == after;
    } else {
      SomeOverlapsMiddle(candidate, before[1..], x, y, after);
      assert (before + [x] + after)[1..] == before[1..] + [x] + after;
      assert (before + [y] + after)[1..] == before[1..] + [y] + after;
    }
  }

  /** The status is never consulted: a cancelled or no-show appointment
      blocks its slot exactly as a scheduled one does. */
  lemma CheckIgnoresStatus(date: string, startTime: Minutes, endTime: Minutes, dentistId: string,
                           exclude: Option<string>, before: seq<Appointment>, x: Appointment, after: seq<Appointment>,
                           status: Status)
    ensures CheckTimeSlotAvailable(date, startTime, endTime, dentistId, before + [x] + after, exclude)
            == CheckTimeSlotAvailable(date, startTime, endTime, dentistId, before + [x.(status := status)] + after, exclude)
  {
    var p := ConsideredBy(date, dentistId, exclude);
    var y := x.(status := status);
    FilterMiddle(before, x, after, p);
    FilterMiddle(before, y, after, p);
    var candidate := Interval(FormatDateTime(date, startTime), FormatDateTime(date, endTime));
    if p(x) {
      SomeOverlapsMiddle(candidate, Filter(before, p), x, y, Filter(after, p));
    } else {
      assert Filter(before + [x] + after, p) == Filter(before + [y] + after, p);
    }
  }

  /** Back-to-back bookings: 10:30-11:00 is free next to 10:00-10:30, and
      10:00-10:31 collides with 10:30-11:00. A cancelled booking still
      blocks. */
  lemma CheckExamples(date: string, dentistId: string)
    ensures CheckTimeSlotAvailable(date, 630, 660, dentistId,
              [Appointment("a", "p", dentistId, date, 600, 630, Scheduled, Checkup, None)], None) == Ok(true)
    ensures CheckTimeSlotAvailable(date, 600, 631, dentistId,
              [Appointment("a", "p", dentistId, date, 630, 660, Scheduled, Checkup, None)], None) == Ok(false)
    ensures CheckTimeSlotAvailable(date, 540, 570, dentistId,
              [Appointment("a", "p", dentistId, date, 540, 570, Cancelled, Checkup, None)], None) == Ok(false)
    ensures CheckTimeSlotAvailable(date, 540, 570, dentistId,
              [Appointment("a", "p", dentistId, date, 540, 570, Scheduled, Checkup, None)], Some("a")) == Ok(true)
  {
    var a1 := Appointment("a", "p", dentistId, date, 600, 630, Scheduled, Checkup, None);
    var a2 := Appointment("a", "p", dentistId, date, 630, 660, Scheduled, Checkup, None);
    var a3 := Appointment("a", "p", dentistId, date, 540, 570, Cancelled, Checkup, None);
    var a4 := Appointment("a", "p", dentistId, date, 540, 570, Scheduled, Checkup, None);
    CheckTimeSlotAvailableIff(date, 630, 660, dentistId, [a1], None);
    CheckTimeSlotAvailableIff(date, 600, 631, dentistId, [a2], None);
    CheckTimeSlotAvailableIff(date, 540, 570, dentistId, [a3], None);
    CheckTimeSlotAvailableIff(date, 540, 570, dentistId, [a4], Some("a"));
  }

  /** A bookable slot as `getAvailableTimeSlots` returns it. */
  datatype Slot = Slot(startTime: Minutes, endTime: Minutes)

  const StartHour := 9
  const EndHour := 17

  /** The candidate starts the loops visit: 09:00, 09:30, ..., 16:30. */
  function Candidates(): (c: seq<Minutes>)
    ensures |c| == 2 * (EndHour - StartHour)
    ensures forall k :: 0 <= k < |c| ==> c[k] == 60 * StartHour + 30 * k
  {
    seq(2 * (EndHour - StartHour), (k: int) requires 0 <= k < 2 * (EndHour - StartHour) => 60 * StartHour + 30 * k)
  }

  /** The source's test on the end's hour and minute rejects exactly the
      slots that end after 17:00. */
  predicate EndsAfterHours(endTime: Minutes): (b: bool)
    ensures b <==> endTime > 60 * EndHour
  {
    var endHour, endMinute := endTime / 60, endTime % 60;
    endHour > EndHour || (endHour == EndHour && endMinute > 0)
  }

  function SlotFor(startTime: Minutes, duration: int): Slot
  {
    Slot(startTime, AddMinutesOfDay(startTime, duration))
  }

  /** A candidate whose slot passes the closing-time test and is free. */
  predicate Keeps(c: Minutes, date: string, dentistId: string, duration: int, existing: seq<Appointment>)
  {
    var slot := SlotFor(c, duration);
    !EndsAfterHours(slot.endTime)
    && CheckTimeSlotAvailable(date, slot.startTime, slot.endTime, dentistId, existing, None) == Ok(true)
  }

  function KeepsBy(date: string, dentistId: string, duration: int, existing: seq<Appointment>): Minutes -> bool
  {
    (c: Minutes) => Keeps(c, date, dentistId, duration, existing)
  }

  /** A candidate on which the availability check throws. */
  predicate Throws(c: Minutes, date: string, dentistId: string, duration: int, existing: seq<Appointment>)
  {
    var slot := SlotFor(c, duration);
    !EndsAfterHours(slot.endTime)
    && CheckTimeSlotAvailable(date, slot.startTime, slot.endTime, dentistId, existing, None).Err?
  }

  /** The slots the loop collects from the candidates `cands`, in order; an
      exception thrown by the check ends the scan. */
  function SlotsAmong(cands: seq<Minutes>, date: string, dentistId: string, duration: int,
                      existing: seq<Appointment>): Result<seq<Slot>, DateError>
  {
    if cands == [] then Ok([])
    else ThenVisit(SlotsAmong(cands[..|cands| - 1], date, dentistId, duration, existing),
                   cands[|cands| - 1], date, dentistId, duration, existing)
  }

  /** Visits one more candidate unless the scan has already thrown. */
  function ThenVisit(sofar: Result<seq<Slot>, DateError>, c: Minutes, date: string, dentistId: string, duration: int,
                     existing: seq<Appointment>): Result<seq<Slot>, DateError>
  {
    match sofar
    case Err(e) => Err(e)
    case Ok(kept) => Visit(kept, c, date, dentistId, duration, existing)
  }

  /** One pass of the inner loop body: skip a slot that ends too late,
      otherwise check it and keep it when it is free. */
  function Visit(kept: seq<Slot>, c: Minutes, date: string, dentistId: string, duration: int,
                 existing: seq<Appointment>): (r: Result<seq<Slot>, DateError>)
    ensures r.Err? <==> Throws(c, date, dentistId, duration, existing)
    ensures r.Ok? ==> r.value == kept + (if Keeps(c, date, dentistId, duration, existing) then [SlotFor(c, duration)] else [])
  {
    var slot := SlotFor(c, duration);
    if EndsAfterHours(slot.endTime) then Ok(kept)
    else match CheckTimeSlotAvailable(date, slot.startTime, slot.endTime, dentistId, existing, None)
      case Err(e) => Err(e)
      case Ok(free) => Ok(if free then kept + [slot] else kept)
  }

  /** What `getAvailableTimeSlots(date, dentistId, duration, existing)`
      returns. */
  function AvailableTimeSlots(date: string, dentistId: string, duration: int,
                              existing: seq<Appointment>): Result<seq<Slot>, DateError>
  {
    SlotsAmong(Candidates(), date, dentistId, duration, existing)
  }

  function SlotsOf(starts: seq<Minutes>, duration: int): (r: seq<Slot>)
    ensures |r| == |starts|
    ensures forall i :: 0 <= i < |r| ==> r[i] == SlotFor(starts[i], duration)
  {
    seq(|starts|, (i: int) requires 0 <= i < |starts| => SlotFor(starts[i], duration))
  }

  /** `getAvailableTimeSlots`: two nested loops over the hours 9..16 and the
      minutes 0 and 30. */
  method GetAvailableTimeSlots(date: string, dentistId: string, duration: int, existingAppointments: seq<Appointment>)
    returns (r: Result<seq<Slot>, DateError>)
    ensures r == AvailableTimeSlots(date, dentistId, duration, existingAppointments)
  {
    ghost var cands := Candidates();
    ghost var n := 0;  // candidates visited so far
    var timeSlots: seq<Slot> := [];
    var hour := StartHour;
    while hour < EndHour
      invariant StartHour <= hour <= EndHour && n == 2 * (hour - StartHour)
      invariant SlotsAmong(cands[..n], date, dentistId, duration, existingAppointments) == Ok(timeSlots)
    {
      var minute := 0;
      while minute < 60
        invariant minute == 0 || minute == 30 || minute == 60
        invariant 30 * n == 60 * (hour - StartHour) + minute
        invariant SlotsAmong(cands[..n], date, dentistId, duration, existingAppointments) == Ok(timeSlots)
      {
        assert cands[n] == 60 * hour + minute;
        var next := VisitCandidate(timeSlots, 60 * hour + minute, date, dentistId, duration, existingAppointments);
        SlotsAmongStep(cands, n, timeSlots, next, date, dentistId, duration, existingAppointments);
        if next.Err? {
          SlotsAmongErrSticks(cands, n + 1, date, dentistId, duration, existingAppointments);
          return next;
        }
        timeSlots := next.value;
        minute := minute + 30;
        n := n + 1;
      }
      hour := hour + 1;
    }
    assert cands[..n] == cands;
    r := Ok(timeSlots);
  }

  /** The body of the inner loop for the slot starting at `startTime`: a
      slot ending after 17:00 is skipped, a free one is appended, and an
      exception from the check propagates. */
  method VisitCandidate(timeSlots: seq<Slot>, startTime: Minutes, date: string, dentistId: string, duration: int,
                        existingAppointments: seq<Appointment>) returns (r: Result<seq<Slot>, DateError>)
    ensures r == Visit(timeSlots, startTime, date, dentistId, duration, existingAppointments)
  {
    var endTime := AddMinutesOfDay(startTime, duration);
    var endHour, endMinute := endTime / 60, endTime % 60;
    if endHour > EndHour || (endHour == EndHour && endMinute > 0) {
      return Ok(timeSlots);
    }
    var available := CheckTimeSlotAvailable(date, startTime, endTime, dentistId, existingAppointments, None);
    if available.Err? {
      return Err(available.error);
    }
    if available.value {
      return Ok(timeSlots + [Slot(startTime, endTime)]);
    }
    return Ok(timeSlots);
  }

  /** Scanning one more candidate is one more `Visit`. */
  lemma SlotsAmongStep(cands: seq<Minutes>, n: nat, kept: seq<Slot>, next: Result<seq<Slot>, DateError>,
                       date: string, dentistId: string, duration: int, existing: seq<Appointment>)
    requires n < |cands|
    requires SlotsAmong(cands[..n], date, dentistId, duration, existing) == Ok(kept)
    requires next == Visit(kept, cands[n], date, dentistId, duration, existing)
    ensures SlotsAmong(cands[..n + 1], date, dentistId, duration, existing) == next
  {
    assert cands[..n + 1][..n] == cands[..n];
    assert cands[..n + 1][n] == cands[n];
  }

  /** Once the scan has thrown, the later candidates do not matter. */
  lemma {:induction false} SlotsAmongErrSticks(cands: seq<Minutes>, n: nat, date: string, dentistId: string,
                                               duration: int, existing: seq<Appointment>)
    requires n <= |cands|
    requires SlotsAmong(cands[..n], date, dentistId, duration, existing).Err?
    ensures SlotsAmong(cands, date, dentistId, duration, existing) == SlotsAmong(cands[..n], date, dentistId, duration, existing)
    decreases |cands|
  {
    if n < |cands| {
      var init := cands[..|cands| - 1];
      assert init[..n] == cands[..n];
      SlotsAmongErrSticks(init, n, date, dentistId, duration, existing);
    } else {
      assert cands[..n] == cands;
    }
  }

  /** The scan throws exactly when some candidate that ends in time makes the
      check throw. */
  lemma {:induction false} SlotsAmongErr(cands: seq<Minutes>, date: string, dentistId: string, duration: int,
                                         existing: seq<Appointment>)
    ensures SlotsAmong(cands, date, dentistId, duration, existing).Err?
            <==> exists k :: 0 <= k < |cands| && Throws(cands[k], date, dentistId, duration, existing)
  {
    if cands != [] {
      var init := cands[..|cands| - 1];
      SlotsAmongErr(init, date, dentistId, duration, existing);
      forall k | 0 <= k < |init| ensures init[k] == cands[k] { }
      if k :| 0 <= k < |cands| && Throws(cands[k], date, dentistId, duration, existing) {
        if k < |init| {
          assert Throws(init[k], date, dentistId, duration, existing);
        }
      }
    }
  }

  /** With no exception, the result is the slots of the kept candidates, in
      candidate order. */
  lemma {:induction false} SlotsAmongFilter(cands: seq<Minutes>, date: string, dentistId: string, duration: int,
                                            existing: seq<Appointment>)
    requires forall k :: 0 <= k < |cands| ==> !Throws(cands[k], date, dentistId, duration, existing)
    ensures SlotsAmong(cands, date, dentistId, duration, existing)
            == Ok(SlotsOf(Filter(cands, KeepsBy(date, dentistId, duration, existing)), duration))
  {
    if cands != [] {
      var init, last := cands[..|cands| - 1], cands[|cands| - 1];
      var p := KeepsBy(date, dentistId, duration, existing);
      SlotsAmongFilter(init, date, dentistId, duration, existing);
      assert cands == init + [last];
      FilterAppend(init, [last], p);
      FilterCons(last, [], p);
      assert !Throws(last, date, dentistId, duration, existing);
      var kept := Filter(init, p);
      SlotsOfAppend(kept, [last], duration);
      assert Filter(cands, p) == kept + (if p(last) then [last] else []);
      assert p(last) == Keeps(last, date, dentistId, duration, existing);
      if p(last) {
        assert SlotsOf(Filter(cands, p), duration) == SlotsOf(kept, duration) + [SlotFor(last, duration)];
      } else {
        assert SlotsOf(Filter(cands, p), duration) == SlotsOf(kept, duration);
      }
    }
  }

  lemma SlotsOfAppend(a: seq<Minutes>, b: seq<Minutes>, duration: int)
    ensures SlotsOf(a + b, duration) == SlotsOf(a, duration) + SlotsOf(b, duration)
  {
  }

  /** Every returned slot starts at a candidate, lasts `duration` minutes
      (modulo the day), ends by 17:00 and is free. */
  lemma {:induction false} SlotsAmongSound(cands: seq<Minutes>, date: string, dentistId: string, duration: int,
                                           existing: seq<Appointment>)
    requires SlotsAmong(cands, date, dentistId, duration, existing).Ok?
    ensures var slots := SlotsAmong(cands, date, dentistId, duration, existing).value;
            forall i :: 0 <= i < |slots| ==>
              slots[i].startTime in cands && slots[i] == SlotFor(slots[i].startTime, duration)
              && Keeps(slots[i].startTime, date, dentistId, duration, existing)
  {
    if cands != [] {
      var init := cands[..|cands| - 1];
      SlotsAmongSound(init, date, dentistId, duration, existing);
      forall x | x in init ensures x in cands { }
    }
  }

  /** Every candidate that ends in time and is free is returned. */
  lemma {:induction false} SlotsAmongComplete(cands: seq<Minutes>, date: string, dentistId: string, duration: int,
                                              existing: seq<Appointment>, k: nat)
    requires SlotsAmong(cands, date, dentistId, duration, existing).Ok?
    requires k < |cands| && Keeps(cands[k], date, dentistId, duration, existing)
    ensures SlotFor(cands[k], duration) in SlotsAmong(cands, date, dentistId, duration, existing).value
  {
    var init := cands[..|cands| - 1];
    if k < |init| {
      assert init[k] == cands[k];
      SlotsAmongComplete(init, date, dentistId, duration, existing, k);
    }
  }

  /** For strictly ascending candidates the slots come out in strictly
      ascending order of start time. */
  lemma {:induction false} SlotsAmongAscending(cands: seq<Minutes>, date: string, dentistId: string, duration: int,
                                               existing: seq<Appointment>)
    requires forall i, j :: 0 <= i < j < |cands| ==> cands[i] < cands[j]
    requires SlotsAmong(cands, date, dentistId, duration, existing).Ok?
    ensures var slots := SlotsAmong(cands, date, dentistId, duration, existing).value;
            forall i, j :: 0 <= i < j < |slots| ==> slots[i].startTime < slots[j].startTime
  {
    if cands != [] {
      var init := cands[..|cands| - 1];
      SlotsAmongAscending(init, date, dentistId, duration, existing);
      SlotsAmongSound(init, date, dentistId, duration, existing);
      var kept := SlotsAmong(init, date, dentistId, duration, existing).value;
      forall i | 0 <= i < |kept| ensures kept[i].startTime < cands[|cands| - 1] {
        var x := kept[i].startTime;
        var j :| 0 <= j < |init| && init[j] == x;
        assert cands[j] == x;
      }
    }
  }

  lemma {:induction false} SlotsAmongBounded(cands: seq<Minutes>, date: string, dentistId: string, duration: int,
                                             existing: seq<Appointment>)
    requires SlotsAmong(cands, date, dentistId, duration, existing).Ok?
    ensures |SlotsAmong(cands, date, dentistId, duration, existing).value| <= |cands|
  {
    if cands != [] {
      SlotsAmongBounded(cands[..|cands| - 1], date, dentistId, duration, existing);
    }
  }

  /** `getAvailableTimeSlots` returns free slots of the given length that
      start on the half hour between 09:00 and 16:30 and end by 17:00, at
      most 16 of them, in ascending order, and it misses no such slot. */
  lemma AvailableTimeSlotsSpec(date: string, dentistId: string, duration: int, existing: seq<Appointment>)
    requires AvailableTimeSlots(date, dentistId, duration, existing).Ok?
    ensures var slots := AvailableTimeSlots(date, dentistId, duration, existing).value;
            && |slots| <= 16
            && (forall i :: 0 <= i < |slots| ==>
                  slots[i].startTime in Candidates() && slots[i] == SlotFor(slots[i].startTime, duration)
                  && slots[i].endTime <= 60 * EndHour
                  && CheckTimeSlotAvailable(date, slots[i].startTime, slots[i].endTime, dentistId, existing, None) == Ok(true))
            && (forall i, j :: 0 <= i < j < |slots| ==> slots[i].startTime < slots[j].startTime)
            && (forall k :: 0 <= k < 16 && Keeps(Candidates()[k], date, dentistId, duration, existing)
                  ==> SlotFor(Candidates()[k], duration) in slots)
  {
    var c := Candidates();
    SlotsAmongBounded(c, date, dentistId, duration, existing);
    SlotsAmongSound(c, date, dentistId, duration, existing);
    SlotsAmongAscending(c, date, dentistId, duration, existing);
    forall k | 0 <= k < 16 && Keeps(c[k], date, dentistId, duration, existing)
      ensures SlotFor(c[k], duration) in AvailableTimeSlots(date, dentistId, duration, existing).value
    {
      SlotsAmongComplete(c, date, dentistId, duration, existing, k);
    }
  }

  /** The result is an error exactly when the check throws on a candidate
      slot that ends by 17:00. */
  lemma AvailableTimeSlotsErr(date: string, dentistId: string, duration: int, existing: seq<Appointment>)
    ensures AvailableTimeSlots(date, dentistId, duration, existing).Err?
            <==> exists k :: 0 <= k < 16 && Throws(Candidates()[k], date, dentistId, duration, existing)
  {
    SlotsAmongErr(Candidates(), date, dentistId, duration, existing);
  }

  /** A free day yields all sixteen half-hour slots from 09:00-09:30 to
      16:30-17:00. */
  lemma EmptyDaySlots(date: string, dentistId: string)
    ensures var r := AvailableTimeSlots(date, dentistId, 30, []);
            r.Ok? && |r.value| == 16 && r.value[0] == Slot(540, 570) && r.value[15] == Slot(990, 1020)
  {
    var c := Candidates();
    var p := KeepsBy(date, dentistId, 30, []);
    forall k | 0 <= k < |c| ensures p(c[k]) && !Throws(c[k], date, dentistId, 30, []) { }
    FilterKeepsAll(c, p);
    SlotsAmongFilter(c, date, dentistId, 30, []);
  }

  /** A duration that carries the end past midnight wraps it to the early
      morning, which passes the closing-time test: on a free day every
      candidate is offered with an end before its start. */
  lemma WrappedSlotsOffered(date: string, dentistId: string)
    ensures var r := AvailableTimeSlots(date, dentistId, 1000, []);
            && r.Ok? && |r.value| == 16 && r.value[0] == Slot(540, 100)
            && forall i :: 0 <= i < 16 ==> r.value[i].endTime < r.value[i].startTime
  {
    var c := Candidates();
    var p := KeepsBy(date, dentistId, 1000, []);
    forall k | 0 <= k < |c| ensures p(c[k]) && !Throws(c[k], date, dentistId, 1000, []) { }
    FilterKeepsAll(c, p);
    SlotsAmongFilter(c, date, dentistId, 1000, []);
  }

  lemma BookedSlotKeeps(date: string, dentistId: string, booked: Appointment, k: nat)
    requires booked.date == date && booked.dentistId == dentistId
    requires booked.startTime == 720 && booked.endTime == 750
    requires k < 16
    ensures Keeps(Candidates()[k], date, dentistId, 30, [booked]) <==> k != 6
    ensures !Throws(Candidates()[k], date, dentistId, 30, [booked])
  {
    var c := Candidates()[k];
    CheckTimeSlotAvailableIff(date, c, c + 30, dentistId, [booked], None);
  }

  lemma BookedSlotFilter(date: string, dentistId: string, booked: Appointment)
    requires booked.date == date && booked.dentistId == dentistId
    requires booked.startTime == 720 && booked.endTime == 750
    ensures Filter(Candidates(), KeepsBy(date, dentistId, 30, [booked])) == Candidates()[..6] + Candidates()[7..]
    ensures forall k :: 0 <= k < 16 ==> !Throws(Candidates()[k], date, dentistId, 30, [booked])
  {
    var c := Candidates();
    var p := KeepsBy(date, dentistId, 30, [booked]);
    forall k | 0 <= k < |c|
      ensures (p(c[k]) <==> k != 6) && !Throws(c[k], date, dentistId, 30, [booked])
    {
      BookedSlotKeeps(date, dentistId, booked, k);
    }
    FilterAllBut(c, p, 6);
  }

  /** One booking from 12:00 to 12:30 removes exactly the 12:00 slot: the
      other fifteen half-hour slots remain, in order. */
  lemma BookedSlotExcluded(date: string, dentistId: string, booked: Appointment)
    requires booked.date == date && booked.dentistId == dentistId
    requires booked.startTime == 720 && booked.endTime == 750
    ensures var r := AvailableTimeSlots(date, dentistId, 30, [booked]);
            r == Ok(SlotsOf(Candidates()[..6] + Candidates()[7..], 30)) && |r.value| == 15
    ensures Candidates()[6] == 720
  {
    BookedSlotFilter(date, dentistId, booked);
    SlotsAmongFilter(Candidates(), date, dentistId, 30, [booked]);
  }
}
