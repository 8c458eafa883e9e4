/** `src/components/appointments/AppointmentForm.tsx`: the form schema, the
    treatment lookup and the appointment `onFormSubmit` builds. */
module AppointmentForm {
  import opened Wrappers
  import opened Text
  import opened Collections
  import opened Types
  import opened DateUtils

  /** The form values as entered. */
  datatype FormInput = FormInput(
    patientId: string,
    dentistId: string,
    date: string,
    startTime: string,
    appointmentType: string,
    status: string,
    notes: Option<string>)

  /** The fields the schema can reject, in schema order. */
  datatype Field = PatientField | DentistField | DateField | StartTimeField | TypeField | StatusField

  /** The values `appointmentSchema` lets through. */
  datatype FormData = FormData(
    patientId: string,
    dentistId: string,
    date: string,
    startTime: string,
    appointmentType: AppointmentType,
    status: Status,
    notes: Option<string>)

  /** One schema rule: four non-empty strings and two closed enums; `notes`
      is optional and always passes. */
  predicate FieldValid(input: FormInput, f: Field)
  {
    match f
    case PatientField => |input.patientId| >= 1
    case DentistField => |input.dentistId| >= 1
    case DateField => |input.date| >= 1
    case StartTimeField => |input.startTime| >= 1
    case TypeField => ParseType(input.appointmentType).Some?
    case StatusField => ParseStatus(input.status).Some?
  }

  /** The failing fields, in schema order. */
  function FieldErrors(input: FormInput): (r: seq<Field>)
    ensures forall f :: f in r <==> !FieldValid(input, f)
  {
    (if FieldValid(input, PatientField) then [] else [PatientField])
    + (if FieldValid(input, DentistField) then [] else [DentistField])
    + (if FieldValid(input, DateField) then [] else [DateField])
    + (if FieldValid(input, StartTimeField) then [] else [StartTimeField])
    + (if FieldValid(input, TypeField) then [] else [TypeField])
    + (if FieldValid(input, StatusField) then [] else [StatusField])
  }

  /** `zodResolver(appointmentSchema)`: the typed data when every rule
      passes, otherwise exactly the fields that fail. */
  function ValidateAppointmentForm(input: FormInput): (r: Result<FormData, seq<Field>>)
    ensures r.Ok? <==> forall f :: FieldValid(input, f)
    ensures r.Err? ==> r.error == FieldErrors(input)
    ensures r.Ok? ==> && r.value.patientId == input.patientId && r.value.dentistId == input.dentistId
                      && r.value.date == input.date && r.value.startTime == input.startTime
                      && TypeName(r.value.appointmentType) == input.appointmentType
                      && StatusName(r.value.status) == input.status
                      && r.value.notes == input.notes
  {
    var errors := FieldErrors(input);
    if errors == [] then
      var t := ParseType(input.appointmentType).value;
      var st := ParseStatus(input.status).value;
      Ok(FormData(input.patientId, input.dentistId, input.date, input.startTime, t, st, input.notes))
    else Err(errors)
  }

  /** `t.name.toLowerCase().includes(selectedType)`. */
  predicate NameMatches(t: Treatment, appointmentType: AppointmentType)
  {
    Includes(ToLower(t.name), TypeName(appointmentType))
  }

  function Matcher(appointmentType: AppointmentType): Treatment -> bool
  {
    (t: Treatment) => NameMatches(t, appointmentType)
  }

  /** `selectedTreatment`: the first treatment whose lower-cased name
      contains the type's text. */
  function SelectedTreatment(treatments: seq<Treatment>, appointmentType: AppointmentType): (r: Option<Treatment>)
    ensures r.None? <==> forall i :: 0 <= i < |treatments| ==> !NameMatches(treatments[i], appointmentType)
    ensures r.Some? ==> exists k :: 0 <= k < |treatments| && r.value == treatments[k]
                                    && NameMatches(treatments[k], appointmentType)
                                    && forall j :: 0 <= j < k ==> !NameMatches(treatments[j], appointmentType)
  {
    FindFirst(treatments, Matcher(appointmentType))
  }

  /** `selectedTreatment?.duration || 30`: no treatment, or one whose
      duration is 0, gives 30. */
  function TreatmentDuration(selected: Option<Treatment>): (d: int)
    ensures d != 0
    ensures selected.Some? && selected.value.duration != 0 ==> d == selected.value.duration
    ensures selected.Some? && selected.value.duration == 0 ==> d == 30
    ensures selected.None? ==> d == 30
  {
    if selected.Some? && selected.value.duration != 0 then selected.value.duration else 30
  }

  /** `appointment?.id || \`appointment-${Date.now()}\``: the edited
      appointment's id, unless there is none or it is empty; `now` is the
      clock reading. */
  function DraftId(editing: Option<Appointment>, now: nat): (id: string)
    ensures id != ""
    ensures editing.Some? && editing.value.id != "" ==> id == editing.value.id
    ensures !(editing.Some? && editing.value.id != "") ==>
              && StartsWith(id, "appointment-")
              && var stamp := id[|"appointment-"|..];
                 (forall i :: 0 <= i < |stamp| ==> IsDigit(stamp[i])) && ParseNat(stamp) == now
  {
    ParseNatToString(now);
    assert ("appointment-" + NatToString(now))[|"appointment-"|..] == NatToString(now);
    if editing.Some? && editing.value.id != "" then editing.value.id else "appointment-" + NatToString(now)
  }

  /** Two fresh ids taken at different clock readings differ. */
  lemma FreshIdsDistinct(now1: nat, now2: nat)
    requires now1 != now2
    ensures DraftId(None, now1) != DraftId(None, now2)
  {
  }


  /** `onFormSubmit`: the validated data with an id and the computed end
      time; a start time that does not parse makes `calculateEndTime`
      throw. */
  function OnFormSubmit(data: FormData, editing: Option<Appointment>, now: nat,
                        treatments: seq<Treatment>): (r: Result<Appointment, DateError>)
    ensures r.Err? <==> ParseHHmm(data.startTime).None?
    ensures r.Ok? ==>
              var duration := TreatmentDuration(SelectedTreatment(treatments, data.appointmentType));
              && FormatHHmm(r.value.startTime) == data.startTime
              && CalculateEndTime(data.startTime, duration) == Ok(FormatHHmm(r.value.endTime))
              && r.value.endTime == AddMinutesOfDay(r.value.startTime, duration)
    ensures r.Ok? ==> && r.value.patientId == data.patientId && r.value.dentistId == data.dentistId
                      && r.value.date == data.date && r.value.status == data.status
                      && r.value.appointmentType == data.appointmentType && r.value.notes == data.notes
    ensures r.Ok? ==> r.value.id == DraftId(editing, now)
  {
    var duration := TreatmentDuration(SelectedTreatment(treatments, data.appointmentType));
    match CalculateEndTime(data.startTime, duration)
    case Err(e) => Err(e)
    case Ok(endText) =>
      var startTime := ParseHHmm(data.startTime).value;
      var endTime := ParseHHmm(endText).value;
      FormatParseHHmm(data.startTime);
      FormatParseHHmm(endText);
      Ok(Appointment(DraftId(editing, now), data.patientId, data.dentistId, data.date, startTime, endTime,
                     data.status, data.appointmentType, data.notes))
  }

  /** A booking at 23:45 whose type matches no treatment lasts the default
      30 minutes and is stored ending at 00:15, before it starts. */
  lemma FormBooksAcrossMidnight(data: FormData, editing: Option<Appointment>, now: nat)
    requires data.startTime == "23:45"
    ensures var r := OnFormSubmit(data, editing, now, []);
            r.Ok? && r.value.startTime == 1425 && r.value.endTime == 15
  {
    assert ParseHHmm("23:45") == Some(1425);
  }

  /** An edited appointment keeps its id. */
  lemma EditKeepsId(data: FormData, editing: Appointment, now: nat, treatments: seq<Treatment>)
    requires editing.id != ""
    requires OnFormSubmit(data, Some(editing), now, treatments).Ok?
    ensures OnFormSubmit(data, Some(editing), now, treatments).value.id == editing.id
  {
  }

  /** The treatments shipped in `src/data/mockData.ts`. */
  const RegularCheckup: Treatment := Treatment("1", "Regular Checkup", 30, 75, "Routine dental examination and cleaning")
  const DeepCleaning: Treatment := Treatment("2", "Deep Cleaning", 60, 150, "Thorough cleaning to remove plaque and tartar")
  const CavityFilling: Treatment := Treatment("3", "Cavity Filling", 45, 120, "Filling a cavity with composite material")
  const RootCanalTreatment: Treatment := Treatment("4", "Root Canal", 90, 800, "Treatment for infected pulp in tooth")
  const ToothExtraction: Treatment := Treatment("5", "Tooth Extraction", 45, 200, "Removal of damaged or problematic tooth")
  const CrownPlacement: Treatment := Treatment("6", "Crown Placement", 60, 950, "Fitting a crown over damaged tooth")
  const TeethWhitening: Treatment := Treatment("7", "Teeth Whitening", 60, 350, "Professional whitening treatment")

  const MockTreatments: seq<Treatment> := [RegularCheckup, DeepCleaning, CavityFilling, RootCanalTreatment, ToothExtraction, CrownPlacement, TeethWhitening]

  /** The mock names, lower-cased. */
  const MockLowered: seq<string> := ["regular checkup", "deep cleaning", "cavity filling", "root canal", "tooth extraction", "crown placement", "teeth whitening"]

  /** The duration a form gets for each type with the shipped treatments. */
  function MockDuration(t: AppointmentType): int
  {
    TreatmentDuration(SelectedTreatment(MockTreatments, t))
  }

  /** Treatment `k` is selected when each earlier lower-cased name lacks a
      character `c` of the type's text and name `k` contains the text at
      `at`. */
  lemma SelectsAt(ts: seq<Treatment>, lowered: seq<string>, t: AppointmentType, k: nat, c: char, at: nat)
    requires k < |ts| == |lowered| && c in TypeName(t)
    requires forall j :: 0 <= j < |ts| ==> ToLower(ts[j].name) == lowered[j]
    requires forall j :: 0 <= j < k ==> c !in lowered[j]
    requires OccursAt(TypeName(t), lowered[k], at)
    ensures SelectedTreatment(ts, t) == Some(ts[k])
  {
    forall j | 0 <= j < k ensures !Matcher(t)(ts[j]) {
      MissingCharNotIncluded(lowered[j], TypeName(t), c);
    }
    IncludesIff(lowered[k], TypeName(t));
    FindFirstAt(ts, Matcher(t), k);
  }

  /** No treatment is selected when no lower-cased name contains the type's
      text. */
  lemma SelectsNone(ts: seq<Treatment>, lowered: seq<string>, t: AppointmentType)
    requires |ts| == |lowered|
    requires forall j :: 0 <= j < |ts| ==> ToLower(ts[j].name) == lowered[j]
    requires forall j :: 0 <= j < |ts| ==> !Includes(lowered[j], TypeName(t))
    ensures SelectedTreatment(ts, t) == None
  {
  }

  lemma RegularCheckupLowered()
    ensures ToLower(RegularCheckup.name) == "regular checkup"
  {
    assert ToLower("Regular Checkup") == "regular checkup";
  }

  lemma DeepCleaningLowered()
    ensures ToLower(DeepCleaning.name) == "deep cleaning"
  {
    assert ToLower("Deep Cleaning") == "deep cleaning";
  }

  lemma CavityFillingLowered()
    ensures ToLower(CavityFilling.name) == "cavity filling"
  {
    assert ToLower("Cavity Filling") == "cavity filling";
  }

  lemma RootCanalTreatmentLowered()
    ensures ToLower(RootCanalTreatment.name) == "root canal"
  {
    assert ToLower("Root Canal") == "root canal";
  }

  lemma ToothExtractionLowered()
    ensures ToLower(ToothExtraction.name) == "tooth extraction"
  {
    assert ToLower("Tooth Extraction") == "tooth extraction";
  }

  lemma CrownPlacementLowered()
    ensures ToLower(CrownPlacement.name) == "crown placement"
  {
    assert ToLower("Crown Placement") == "crown placement";
  }

  lemma TeethWhiteningLowered()
    ensures ToLower(TeethWhitening.name) == "teeth whitening"
  {
    assert ToLower("Teeth Whitening") == "teeth whitening";
  }

  lemma MockNamesLowered()
    ensures |MockLowered| == |MockTreatments|
    ensures forall j :: 0 <= j < |MockTreatments| ==> ToLower(MockTreatments[j].name) == MockLowered[j]
  {
    var ts := MockTreatments;
    forall j | 0 <= j < |ts| ensures ToLower(ts[j].name) == MockLowered[j] {
      if j == 0 {
        assert ts[j] == RegularCheckup;
        RegularCheckupLowered();
      } else if j == 1 {
        assert ts[j] == DeepCleaning;
        DeepCleaningLowered();
      } else if j == 2 {
        assert ts[j] == CavityFilling;
        CavityFillingLowered();
      } else if j == 3 {
        assert ts[j] == RootCanalTreatment;
        RootCanalTreatmentLowered();
      } else if j == 4 {
        assert ts[j] == ToothExtraction;
        ToothExtractionLowered();
      } else if j == 5 {
        assert ts[j] == CrownPlacement;
        CrownPlacementLowered();
      } else {
        assert ts[j] == TeethWhitening;
        TeethWhiteningLowered();
      }
    }
  }

  lemma MockDurationCheckup()
    ensures MockDuration(Checkup) == 30
  {
    MockNamesLowered();
    assert MockLowered[0][8..15] == TypeName(Checkup);
    SelectsAt(MockTreatments, MockLowered, Checkup, 0, 'c', 8);
  }

  /** The first name lacks an 'n'. */
  lemma CleaningAbsent()
    ensures forall j :: 0 <= j < 1 ==> 'n' !in MockLowered[j]
  {
    var lw := MockLowered;
    forall j | 0 <= j < 1 ensures 'n' !in lw[j] {
      assert lw[j] == "regular checkup";
    }
  }

  lemma MockDurationCleaning()
    ensures MockDuration(Cleaning) == 60
  {
    MockNamesLowered();
    CleaningAbsent();
    assert MockLowered[1][5..13] == TypeName(Cleaning);
    SelectsAt(MockTreatments, MockLowered, Cleaning, 1, 'n', 5);
  }

  /** The first two names lack an 'f'. */
  lemma FillingAbsent()
    ensures forall j :: 0 <= j < 2 ==> 'f' !in MockLowered[j]
  {
    var lw := MockLowered;
    forall j | 0 <= j < 2 ensures 'f' !in lw[j] {
      if j == 0 {
        assert lw[j] == "regular checkup";
      } else {
        assert lw[j] == "deep cleaning";
      }
    }
  }

  lemma MockDurationFilling()
    ensures MockDuration(Filling) == 45
  {
    MockNamesLowered();
    FillingAbsent();
    assert MockLowered[2][7..14] == TypeName(Filling);
    SelectsAt(MockTreatments, MockLowered, Filling, 2, 'f', 7);
  }

  /** The first four names lack an 'x'. */
  lemma ExtractionAbsent()
    ensures forall j :: 0 <= j < 4 ==> 'x' !in MockLowered[j]
  {
    var lw := MockLowered;
    forall j | 0 <= j < 4 ensures 'x' !in lw[j] {
      if j == 0 {
        assert lw[j] == "regular checkup";
      } else if j == 1 {
        assert lw[j] == "deep cleaning";
      } else if j == 2 {
        assert lw[j] == "cavity filling";
      } else {
        assert lw[j] == "root canal";
      }
    }
  }

  lemma MockDurationExtraction()
    ensures MockDuration(Extraction) == 45
  {
    MockNamesLowered();
    ExtractionAbsent();
    assert MockLowered[4][6..16] == TypeName(Extraction);
    SelectsAt(MockTreatments, MockLowered, Extraction, 4, 'x', 6);
  }

  /** The first five names lack a 'w'. */
  lemma CrownAbsent()
    ensures forall j :: 0 <= j < 5 ==> 'w' !in MockLowered[j]
  {
    var lw := MockLowered;
    forall j | 0 <= j < 5 ensures 'w' !in lw[j] {
      if j == 0 {
        assert lw[j] == "regular checkup";
      } else if j == 1 {
        assert lw[j] == "deep cleaning";
      } else if j == 2 {
        assert lw[j] == "cavity filling";
      } else if j == 3 {
        assert lw[j] == "root canal";
      } else {
        assert lw[j] == "tooth extraction";
      }
    }
  }

  lemma MockDurationCrown()
    ensures MockDuration(Crown) == 60
  {
    MockNamesLowered();
    CrownAbsent();
    assert MockLowered[5][0..5] == TypeName(Crown);
    SelectsAt(MockTreatments, MockLowered, Crown, 5, 'w', 0);
  }

  /** No name has a hyphen. */
  lemma HyphenAbsent()
    ensures forall j :: 0 <= j < 7 ==> '-' !in MockLowered[j]
  {
    var lw := MockLowered;
    forall j | 0 <= j < 7 ensures '-' !in lw[j] {
      if j == 0 {
        assert lw[j] == "regular checkup";
      } else if j == 1 {
        assert lw[j] == "deep cleaning";
      } else if j == 2 {
        assert lw[j] == "cavity filling";
      } else if j == 3 {
        assert lw[j] == "root canal";
      } else if j == 4 {
        assert lw[j] == "tooth extraction";
      } else if j == 5 {
        assert lw[j] == "crown placement";
      } else {
        assert lw[j] == "teeth whitening";
      }
    }
  }

  /** "Root Canal" has no hyphen, so "root-canal" matches no treatment and
      the default applies. */
  lemma MockDurationRootCanal()
    ensures MockDuration(RootCanal) == 30
  {
    MockNamesLowered();
    HyphenAbsent();
    forall j | 0 <= j < 7 ensures !Includes(MockLowered[j], TypeName(RootCanal)) {
      MissingCharNotIncluded(MockLowered[j], TypeName(RootCanal), '-');
    }
    SelectsNone(MockTreatments, MockLowered, RootCanal);
  }

  /** The only 'h' in "tooth extraction" is at index 4. */
  lemma OnlyHOfToothExtraction(p: int)
    requires 0 <= p < 16 && "tooth extraction"[p] == 'h'
    ensures p == 4
  {
  }

  /** "tooth extraction" has "oth" but no "other": its 'h' is followed by a
      space. */
  lemma NotOtherInToothExtraction()
    ensures !Includes("tooth extraction", "other")
  {
    var s := "tooth extraction";
    assert s[5] == ' ';
    forall i | 0 <= i ensures !OccursAt("other", s, i) {
      if OccursAt("other", s, i) {
        OccursAtChars("other", s, i);
        assert s[i + 2] == 'h' && s[i + 3] == 'e';
        OnlyHOfToothExtraction(i + 2);
      }
    }
    IncludesIff(s, "other");
  }

  lemma OtherAbsent()
    ensures forall j :: 0 <= j < 7 ==> !Includes(MockLowered[j], "other")
  {
    var lw := MockLowered;
    forall j | 0 <= j < 7 ensures !Includes(lw[j], "other") {
      if j == 4 {
        assert lw[j] == "tooth extraction";
        NotOtherInToothExtraction();
      } else if j == 3 || j == 5 {
        assert lw[j] == "root canal" || lw[j] == "crown placement";
        MissingCharNotIncluded(lw[j], "other", 'h');
      } else {
        assert lw[j] == "regular checkup" || lw[j] == "deep cleaning" || lw[j] == "cavity filling" || lw[j] == "teeth whitening";
        MissingCharNotIncluded(lw[j], "other", 'o');
      }
    }
  }

  lemma MockDurationOther()
    ensures MockDuration(Other) == 30
  {
    MockNamesLowered();
    OtherAbsent();
    SelectsNone(MockTreatments, MockLowered, Other);
  }

  /** The duration each appointment type gets with the shipped treatments. */
  lemma MockTreatmentDurations(t: AppointmentType)
    ensures MockDuration(t) == match t
                               case Checkup => 30
                               case Cleaning => 60
                               case Filling => 45
                               case Extraction => 45
                               case Crown => 60
                               case RootCanal => 30
                               case Other => 30
  {
    match t
    case Checkup => MockDurationCheckup();
    case Cleaning => MockDurationCleaning();
    case Filling => MockDurationFilling();
    case Extraction => MockDurationExtraction();
    case Crown => MockDurationCrown();
    case RootCanal => MockDurationRootCanal();
    case Other => MockDurationOther();
  }
}
