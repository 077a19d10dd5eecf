/**
 * The patient's basic-information form: where its values come from when it is
 * shown, what a submission hands to the caller, and which days the birth-date
 * calendar lets the patient pick.
 */
module ProfileForm {
  import opened Optional
  import opened ProfileSchema

  /** The values of an empty form. The institution-managed fields are left out of
      it, so they are absent. */
  function DefaultValues(): Profile {
    Profile(
      name := "", gender := None, dob := None, address := Some(""),
      hadPreviousCheckup := Some(false), agreesToIntervention := Some(false),
      contactPhone := "", contactEmail := Some(""), bloodType := None, maritalStatus := None,
      occupation := Some(""), educationLevel := None,
      recordNumber := None, admissionDate := None, recordDate := None,
      informant := None, reliability := None)
  }

  /** The birth date as the form takes it over from the caller's data. A falsy
      value (absent or the empty string) becomes absent, other text is parsed as
      ISO 8601 (`parseIso` yields no instant for text it cannot parse, which then
      becomes an invalid date), and a date object is kept. */
  function NormaliseDob(dob: Option<DateValue>, parseIso: string -> Option<int>): (r: Option<DateValue>)
    ensures r.None? <==> dob.None? || dob == Some(IsoText(""))
    ensures r.Some? ==> !r.value.IsoText?
    ensures dob.Some? && !dob.value.IsoText? ==> r == dob
    ensures dob.Some? && dob.value.IsoText? && dob.value.text != "" ==>
      r == Some(match parseIso(dob.value.text) case Some(t) => Instant(t) case None => Invalid)
  {
    match dob
    case None => None
    case Some(IsoText(text)) =>
      if text == "" then None
      else (match parseIso(text)
        case Some(t) => Some(Instant(t))
        case None => Some(Invalid))
    case Some(d) => Some(d)
  }

  /** The values the form is reset to when it is shown with `initialData` (or
      without any): the caller's record with only its birth date normalised, or
      the empty form. */
  function InitialValues(initialData: Option<Profile>, parseIso: string -> Option<int>): (p: Profile)
    ensures initialData.None? ==> p == DefaultValues()
    ensures initialData.Some? ==>
      p.(dob := initialData.value.dob) == initialData.value
      && p.dob == NormaliseDob(initialData.value.dob, parseIso)
  {
    match initialData
    case None => DefaultValues()
    case Some(data) => data.(dob := NormaliseDob(data.dob, parseIso))
  }

  /** Without caller data the form shows both consent flags unticked, empty text
      fields, no enumeration choice and no institution-managed value. */
  lemma EmptyFormShape(parseIso: string -> Option<int>)
    ensures var p := InitialValues(None, parseIso);
      && p.hadPreviousCheckup == Some(false) && p.agreesToIntervention == Some(false)
      && p.name == "" && p.contactPhone == "" && p.contactEmail == Some("")
      && p.address == Some("") && p.occupation == Some("")
      && p.gender.None? && p.bloodType.None? && p.maritalStatus.None? && p.educationLevel.None?
      && p.dob.None?
      && p.recordNumber.None? && p.admissionDate.None? && p.recordDate.None?
      && p.informant.None? && p.reliability.None?
  {
  }

  /** Validating the empty form reports the name, gender, blood type and marital
      status together, and nothing else: the empty phone and e-mail pass. */
  lemma EmptyFormIssues(isEmail: string -> bool)
    ensures Validate(DefaultValues(), isEmail).Keys == {Name, Gender, BloodType, MaritalStatus}
    ensures Validate(DefaultValues(), isEmail)[Name] == TooShort
    ensures Validate(DefaultValues(), isEmail)[Gender] == Required
    ensures Validate(DefaultValues(), isEmail)[BloodType] == Required
    ensures Validate(DefaultValues(), isEmail)[MaritalStatus] == Required
  {
    var p := DefaultValues();
    EmptyFormKeys(isEmail);
    assert Check(p, Name, isEmail) == Some(TooShort);
    assert Check(p, Gender, isEmail) == Some(Required);
    assert Check(p, BloodType, isEmail) == Some(Required);
    assert Check(p, MaritalStatus, isEmail) == Some(Required);
  }

  lemma EmptyFormKeys(isEmail: string -> bool)
    ensures Validate(DefaultValues(), isEmail).Keys == {Name, Gender, BloodType, MaritalStatus}
  {
    EmptyFormChecks(isEmail);
    var errors := Validate(DefaultValues(), isEmail);
    forall f ensures f in errors.Keys <==> f in {Name, Gender, BloodType, MaritalStatus} {
      assert f in errors <==> Check(DefaultValues(), f, isEmail).Some?;
    }
  }

  lemma EmptyFormChecks(isEmail: string -> bool)
    ensures forall f :: Check(DefaultValues(), f, isEmail).Some? <==> f in {Name, Gender, BloodType, MaritalStatus}
  {
    var p := DefaultValues();
    forall f ensures Check(p, f, isEmail).Some? <==> f in {Name, Gender, BloodType, MaritalStatus} {
      match f {
        case Name => case Gender => case Dob => case Address =>
        case HadPreviousCheckup => case AgreesToIntervention => case ContactPhone =>
        case ContactEmail => case BloodType => case MaritalStatus => case Occupation =>
        case EducationLevel => case RecordNumber => case AdmissionDate => case RecordDate =>
        case Informant => case Reliability =>
      }
    }
  }

  /** Showing the form again with the values it already shows changes nothing:
      after initialisation the birth date is never text, so nothing is re-parsed. */
  lemma InitialValuesIdempotent(initialData: Option<Profile>, parseIso: string -> Option<int>)
    ensures var p := InitialValues(initialData, parseIso);
      InitialValues(Some(p), parseIso) == p
  {
  }

  /** After initialisation the birth date is never rejected for being text; it
      fails validation only when the caller's text did not parse. */
  lemma InitialDobValidity(initialData: Profile, parseIso: string -> Option<int>, isEmail: string -> bool)
    ensures var p := InitialValues(Some(initialData), parseIso);
      Dob in Validate(p, isEmail) <==>
        (initialData.dob == Some(Invalid)
        || (initialData.dob.Some? && initialData.dob.value.IsoText? && initialData.dob.value.text != ""
            && parseIso(initialData.dob.value.text).None?))
  {
    var p := InitialValues(Some(initialData), parseIso);
    DateAndEmailRules(p, isEmail);
  }

  /**
   * The state of one mounted form: its current values, the issues shown next to
   * the fields, and the records handed to the caller's `onSave`, in call order.
   */
  class FormState {
    var values: Profile
    var errors: map<Field, Issue>
    var saved: seq<Profile>

    /** Mounting: the form starts from the caller's record as given, or from the
        empty form. */
    constructor (initialData: Option<Profile>)
      ensures values == (match initialData case Some(d) => d case None => DefaultValues())
      ensures errors == map[] && saved == []
    {
      values := match initialData case Some(d) => d case None => DefaultValues();
      errors := map[];
      saved := [];
    }

    /** The reset run whenever `initialData` changes: the values are replaced as a
        whole and no issue from before survives. */
    method Reset(initialData: Option<Profile>, parseIso: string -> Option<int>)
      modifies this`values, this`errors
      ensures values == InitialValues(initialData, parseIso)
      ensures errors == map[]
      ensures saved == old(saved)
    {
      values := InitialValues(initialData, parseIso);
      errors := map[];
    }

    /** A submission: when every field passes, the values are handed to `onSave`
        once and unchanged; otherwise every issue is shown and nothing is saved. */
    method Submit(isEmail: string -> bool) returns (accepted: bool)
      modifies this`errors, this`saved
      ensures values == old(values)
      ensures accepted <==> Validate(values, isEmail) == map[]
      ensures accepted ==> saved == old(saved) + [values] && errors == map[]
      ensures !accepted ==> saved == old(saved) && errors == Validate(values, isEmail)
    {
      var issues := Validate(values, isEmail);
      accepted := issues == map[];
      if accepted {
        saved := saved + [values];
        errors := map[];
      } else {
        errors := issues;
      }
    }
  }

  /** Shown with no data, the form cannot be submitted until the patient fills
      in the required fields, and it reports them all at once. */
  method EmptyFormSubmission(parseIso: string -> Option<int>, isEmail: string -> bool)
  {
    var form := new FormState(None);
    form.Reset(None, parseIso);
    var accepted := form.Submit(isEmail);
    EmptyFormIssues(isEmail);
    assert !accepted && form.saved == [];
    assert form.errors.Keys == {Name, Gender, BloodType, MaritalStatus};
  }

  // -------------------------------------------------- the birth-date calendar

  const DayMillis := 86_400_000
  /** 1900-01-01 as a day number counted from 1970-01-01. */
  const FloorDay := -25_567
  /** `new Date("1900-01-01")`: a date-only ISO string denotes midnight UTC. */
  const CalendarFloor := FloorDay * DayMillis

  /** The calendar's `disabled` test, with `now` the current instant. */
  predicate CalendarDisabled(date: int, now: int) {
    date > now || date < CalendarFloor
  }

  /** The calendar offers an instant iff it lies between 1900-01-01T00:00Z and now. */
  lemma CalendarBounds(date: int, now: int)
    ensures !CalendarDisabled(date, now) <==> CalendarFloor <= date <= now
  {
  }

  /** The instant a calendar day starts at, in a time zone `utcOffsetMinutes`
      east of UTC: the calendar asks its `disabled` test about day starts. */
  function LocalMidnight(day: int, utcOffsetMinutes: int): int {
    day * DayMillis - utcOffsetMinutes * 60_000
  }

  /** As written, east of UTC (China is UTC+8) the first day of 1900 starts before
      midnight UTC and is disabled, although the year picker offers 1900. */
  lemma FirstDayOf1900DisabledEastOfUtc(utcOffsetMinutes: int, now: int)
    requires utcOffsetMinutes > 0
    ensures CalendarDisabled(LocalMidnight(FloorDay, utcOffsetMinutes), now)
  {
  }

  /** The intended test: a day is disabled when it starts after now or lies
      before 1900-01-01, comparing days rather than instants. */
  predicate DayDisabled(day: int, utcOffsetMinutes: int, now: int) {
    LocalMidnight(day, utcOffsetMinutes) > now || day < FloorDay
  }

  /** Every day from 1900-01-01 up to the current one can be picked, in every
      time zone. */
  lemma DaySelectable(day: int, utcOffsetMinutes: int, now: int)
    ensures !DayDisabled(day, utcOffsetMinutes, now) <==>
      FloorDay <= day && LocalMidnight(day, utcOffsetMinutes) <= now
    ensures LocalMidnight(FloorDay, utcOffsetMinutes) <= now ==> !DayDisabled(FloorDay, utcOffsetMinutes, now)
  {
  }

  /** At UTC and west of it (offsets of less than a day) the intended test and
      the test as written disable the same days. */
  lemma DayDisabledAgreesWestOfUtc(day: int, utcOffsetMinutes: int, now: int)
    requires -1440 < utcOffsetMinutes <= 0
    ensures DayDisabled(day, utcOffsetMinutes, now) == CalendarDisabled(LocalMidnight(day, utcOffsetMinutes), now)
  {
    if day < FloorDay {
      assert day * DayMillis <= (FloorDay - 1) * DayMillis;
    }
  }

  /** Any day the calendar lets the patient pick passes the birth-date rule. */
  lemma PickedDateIsValid(p: Profile, day: int, utcOffsetMinutes: int, now: int, isEmail: string -> bool)
    requires !DayDisabled(day, utcOffsetMinutes, now)
    ensures Dob !in Validate(p.(dob := Some(Instant(LocalMidnight(day, utcOffsetMinutes)))), isEmail)
  {
    DateAndEmailRules(p.(dob := Some(Instant(LocalMidnight(day, utcOffsetMinutes)))), isEmail);
  }
}
