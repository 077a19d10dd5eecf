/**
 * The validation schema of the patient's basic-information form: one record of
 * form values, the field names, and the rule each field must pass. Validation
 * looks at every field and reports every failing one, not just the first.
 */
module ProfileSchema {
  import opened Optional

  /** A value held by a date-typed field. A form value is a date object, which is
      either a real instant (milliseconds since 1970-01-01T00:00Z) or an invalid date;
      data handed in by the caller may also carry the date as ISO text. */
  datatype DateValue = Instant(millis: int) | Invalid | IsoText(text: string)

  /** The form's values, one field per schema entry. `None` is an absent value. */
  datatype Profile = Profile(
    name: string,
    gender: Option<string>,
    dob: Option<DateValue>,
    address: Option<string>,
    hadPreviousCheckup: Option<bool>,
    agreesToIntervention: Option<bool>,
    contactPhone: string,
    contactEmail: Option<string>,
    bloodType: Option<string>,
    maritalStatus: Option<string>,
    occupation: Option<string>,
    educationLevel: Option<string>,
    // managed by the institution, read-only for the patient
    recordNumber: Option<string>,
    admissionDate: Option<DateValue>,
    recordDate: Option<DateValue>,
    informant: Option<string>,
    reliability: Option<string>)

  datatype Field =
    | Name | Gender | Dob | Address | HadPreviousCheckup | AgreesToIntervention
    | ContactPhone | ContactEmail | BloodType | MaritalStatus | Occupation
    | EducationLevel | RecordNumber | AdmissionDate | RecordDate | Informant | Reliability

  /** Every field of the schema, in declaration order. */
  const AllFields: seq<Field> := [
    Name, Gender, Dob, Address, HadPreviousCheckup, AgreesToIntervention,
    ContactPhone, ContactEmail, BloodType, MaritalStatus, Occupation,
    EducationLevel, RecordNumber, AdmissionDate, RecordDate, Informant, Reliability]

  lemma AllFieldsListed()
    ensures forall f: Field :: f in AllFields
  {
    forall f: Field ensures f in AllFields {
      match f {
        case Name => case Gender => case Dob => case Address =>
        case HadPreviousCheckup => case AgreesToIntervention => case ContactPhone =>
        case ContactEmail => case BloodType => case MaritalStatus => case Occupation =>
        case EducationLevel => case RecordNumber => case AdmissionDate => case RecordDate =>
        case Informant => case Reliability =>
      }
    }
  }

  /** Why a field failed. */
  datatype Issue =
    | TooShort          // fewer characters than the minimum
    | TooLong           // more characters than the maximum
    | Required          // an enumeration field without a value
    | NotInEnum         // a value outside the field's closed set
    | PatternMismatch   // not a mainland-China mobile number
    | InvalidEmail
    | InvalidDate       // a date object that holds no instant
    | NotADate          // a date field holding something other than a date object

  const Genders: set<string> := {"male", "female", "other"}
  const BloodTypes: set<string> := {"A", "B", "O", "AB", "unknown"}
  const MaritalStatuses: set<string> := {"unmarried", "married", "divorced", "widowed", "other"}
  const Reliabilities: set<string> := {"reliable", "partially_reliable", "unreliable"}

  /** The choices the education-level drop-down offers. The schema does not check them. */
  const EducationLevelOptions: seq<string> := [
    "primary_school", "junior_high_school", "senior_high_school", "college",
    "bachelor", "master", "doctorate", "other"]

  const NameMinLength := 1
  const NameMaxLength := 50

  // ---------------------------------------------------------------- lengths

  /** A string's length as JavaScript counts it: in UTF-16 code units, so a
      character outside the Basic Multilingual Plane counts twice. */
  function Utf16Length(s: string): (n: nat)
    ensures |s| <= n <= 2 * |s|
    ensures n == 0 <==> s == ""
  {
    if s == [] then 0
    else (if s[0] as int >= 0x1_0000 then 2 else 1) + Utf16Length(s[1..])
  }

  // ------------------------------------------------------- mobile numbers

  predicate IsDigit(c: char) {
    '0' <= c <= '9'
  }

  predicate AllDigits(s: string) {
    forall i | 0 <= i < |s| :: IsDigit(s[i])
  }

  /** The pattern `^1[3-9]\d{9}$` read character by character: eleven ASCII
      digits, the first one `1`, the second one of `3` to `9`. */
  predicate IsMobileNumber(s: string) {
    && |s| == 11
    && s[0] == '1'
    && '3' <= s[1] <= '9'
    && forall i | 2 <= i < 11 :: IsDigit(s[i])
  }

  function Pow10(n: nat): (r: nat)
    ensures r >= 1
  {
    if n == 0 then 1 else 10 * Pow10(n - 1)
  }

  /** The number a string of digits denotes, most significant digit first. */
  function DecimalValue(s: string): int
    requires AllDigits(s)
  {
    if s == [] then 0
    else (s[0] as int - '0' as int) * Pow10(|s| - 1) + DecimalValue(s[1..])
  }

  lemma {:induction false} DecimalValueBounds(s: string)
    requires AllDigits(s)
    ensures 0 <= DecimalValue(s) < Pow10(|s|)
  {
    if s != [] {
      DecimalValueBounds(s[1..]);
      var d, p := s[0] as int - '0' as int, Pow10(|s| - 1);
      MulMonotone(d, 9, p);
      assert Pow10(|s|) == 10 * p;
    }
  }

  lemma MulMonotone(a: int, b: int, c: int)
    requires 0 <= a <= b && 0 <= c
    ensures 0 <= a * c <= b * c
  {
  }

  /** An independent reading of the mobile-number rule: the string is eleven
      digits denoting a number from 13000000000 to 19999999999. */
  lemma MobileNumberByValue(s: string)
    ensures IsMobileNumber(s) <==>
      |s| == 11 && AllDigits(s) && 13_000_000_000 <= DecimalValue(s) <= 19_999_999_999
  {
    if |s| == 11 && AllDigits(s) {
      var rest := s[2..];
      DecimalValueBounds(rest);
      assert s[1..][1..] == rest;
      assert Pow10(9) == 1_000_000_000;
      assert Pow10(10) == 10_000_000_000;
      assert DecimalValue(s) ==
        (s[0] as int - '0' as int) * 10_000_000_000 + (s[1] as int - '0' as int) * 1_000_000_000
        + DecimalValue(rest);
    }
  }

  // ------------------------------------------------------------ the rules

  /** `z.string().min(1).max(50)`. */
  function NameIssue(name: string): Option<Issue> {
    if Utf16Length(name) < NameMinLength then Some(TooShort)
    else if Utf16Length(name) > NameMaxLength then Some(TooLong)
    else None
  }

  /** `z.enum(values)`: an absent value is reported as missing. */
  function RequiredChoice(v: Option<string>, values: set<string>): Option<Issue> {
    match v
    case None => Some(Required)
    case Some(x) => if x in values then None else Some(NotInEnum)
  }

  /** `z.enum(values).optional()`. */
  function OptionalChoice(v: Option<string>, values: set<string>): Option<Issue> {
    match v
    case None => None
    case Some(x) => if x in values then None else Some(NotInEnum)
  }

  /** `z.date().optional()`: a date object passes unless it is an invalid date. */
  function OptionalDate(v: Option<DateValue>): Option<Issue> {
    match v
    case None => None
    case Some(Instant(_)) => None
    case Some(Invalid) => Some(InvalidDate)
    case Some(IsoText(_)) => Some(NotADate)
  }

  /** `z.string().regex(/^1[3-9]\d{9}$/).or(z.literal(""))`. */
  function PhoneIssue(phone: string): Option<Issue> {
    if phone == "" || IsMobileNumber(phone) then None else Some(PatternMismatch)
  }

  /** `z.string().email().or(z.literal("")).optional()`; the e-mail test itself is
      the validation library's and is taken as the parameter `isEmail`. */
  function EmailIssue(email: Option<string>, isEmail: string -> bool): Option<Issue> {
    match email
    case None => None
    case Some(e) => if e == "" || isEmail(e) then None else Some(InvalidEmail)
  }

  /** The rule of one field applied to a record. Plain optional strings and the
      optional consent flags always pass. */
  function Check(p: Profile, f: Field, isEmail: string -> bool): Option<Issue> {
    match f
    case Name => NameIssue(p.name)
    case Gender => RequiredChoice(p.gender, Genders)
    case Dob => OptionalDate(p.dob)
    case Address => None
    case HadPreviousCheckup => None
    case AgreesToIntervention => None
    case ContactPhone => PhoneIssue(p.contactPhone)
    case ContactEmail => EmailIssue(p.contactEmail, isEmail)
    case BloodType => RequiredChoice(p.bloodType, BloodTypes)
    case MaritalStatus => RequiredChoice(p.maritalStatus, MaritalStatuses)
    case Occupation => None
    case EducationLevel => None
    case RecordNumber => None
    case AdmissionDate => OptionalDate(p.admissionDate)
    case RecordDate => OptionalDate(p.recordDate)
    case Informant => None
    case Reliability => OptionalChoice(p.reliability, Reliabilities)
  }

  /** Validation of a whole record: every failing field, each with its issue. */
  function Validate(p: Profile, isEmail: string -> bool): (errors: map<Field, Issue>)
    ensures forall f :: f in errors <==> Check(p, f, isEmail).Some?
    ensures forall f | f in errors :: Check(p, f, isEmail) == Some(errors[f])
  {
    AllFieldsListed();
    map f | f in AllFields && Check(p, f, isEmail).Some? :: Check(p, f, isEmail).value
  }

  /** `name` passes iff it has 1 to 50 UTF-16 code units; the empty name is too short. */
  lemma NameRule(p: Profile, isEmail: string -> bool)
    ensures Name !in Validate(p, isEmail) <==> NameMinLength <= Utf16Length(p.name) <= NameMaxLength
    ensures p.name == "" ==> Name in Validate(p, isEmail) && Validate(p, isEmail)[Name] == TooShort
  {
    assert Check(p, Name, isEmail) == NameIssue(p.name);
  }

  /** `contactPhone` passes iff it is empty or a mainland-China mobile number. */
  lemma PhoneRule(p: Profile, isEmail: string -> bool)
    ensures ContactPhone !in Validate(p, isEmail) <==> p.contactPhone == "" || IsMobileNumber(p.contactPhone)
  {
    assert Check(p, ContactPhone, isEmail) == PhoneIssue(p.contactPhone);
  }

  /** The enumeration fields pass only for a member of their closed set; gender,
      blood type and marital status also fail when absent, reliability does not. */
  lemma ChoiceRules(p: Profile, isEmail: string -> bool)
    ensures Gender !in Validate(p, isEmail) <==> p.gender.Some? && p.gender.value in Genders
    ensures BloodType !in Validate(p, isEmail) <==> p.bloodType.Some? && p.bloodType.value in BloodTypes
    ensures MaritalStatus !in Validate(p, isEmail) <==>
      p.maritalStatus.Some? && p.maritalStatus.value in MaritalStatuses
    ensures Reliability !in Validate(p, isEmail) <==> p.reliability.None? || p.reliability.value in Reliabilities
  {
    assert Check(p, Gender, isEmail) == RequiredChoice(p.gender, Genders);
    assert Check(p, BloodType, isEmail) == RequiredChoice(p.bloodType, BloodTypes);
    assert Check(p, MaritalStatus, isEmail) == RequiredChoice(p.maritalStatus, MaritalStatuses);
    assert Check(p, Reliability, isEmail) == OptionalChoice(p.reliability, Reliabilities);
  }

  /** Dates may be absent but must otherwise be valid date objects; the e-mail may
      be absent or empty and must otherwise be an e-mail address. */
  lemma DateAndEmailRules(p: Profile, isEmail: string -> bool)
    ensures Dob !in Validate(p, isEmail) <==> p.dob.None? || p.dob.value.Instant?
    ensures AdmissionDate !in Validate(p, isEmail) <==> p.admissionDate.None? || p.admissionDate.value.Instant?
    ensures RecordDate !in Validate(p, isEmail) <==> p.recordDate.None? || p.recordDate.value.Instant?
    ensures ContactEmail !in Validate(p, isEmail) <==>
      p.contactEmail.None? || p.contactEmail.value == "" || isEmail(p.contactEmail.value)
  {
    assert Check(p, Dob, isEmail) == OptionalDate(p.dob);
    assert Check(p, AdmissionDate, isEmail) == OptionalDate(p.admissionDate);
    assert Check(p, RecordDate, isEmail) == OptionalDate(p.recordDate);
    assert Check(p, ContactEmail, isEmail) == EmailIssue(p.contactEmail, isEmail);
  }

  /** The free-text fields, the education level (whatever string it holds, listed
      option or not) and the consent flags never fail. */
  lemma UncheckedFields(p: Profile, isEmail: string -> bool)
    ensures Address !in Validate(p, isEmail) && Occupation !in Validate(p, isEmail)
    ensures EducationLevel !in Validate(p, isEmail)
    ensures RecordNumber !in Validate(p, isEmail) && Informant !in Validate(p, isEmail)
    ensures HadPreviousCheckup !in Validate(p, isEmail) && AgreesToIntervention !in Validate(p, isEmail)
  {
    assert Check(p, Address, isEmail).None? && Check(p, Occupation, isEmail).None?;
    assert Check(p, EducationLevel, isEmail).None?;
    assert Check(p, RecordNumber, isEmail).None? && Check(p, Informant, isEmail).None?;
    assert Check(p, HadPreviousCheckup, isEmail).None? && Check(p, AgreesToIntervention, isEmail).None?;
  }

  /** The examples the phone rule is known by. */
  lemma PhoneExamples()
    ensures PhoneIssue("13800138000") == None
    ensures PhoneIssue("12345") == Some(PatternMismatch)
    ensures PhoneIssue("12800138000") == Some(PatternMismatch)
  {
    assert IsMobileNumber("13800138000");
    assert "12800138000"[1] == '2';
  }
}
