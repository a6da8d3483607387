/** components/ward/patient-form.tsx: the name and age inputs of a bed. The
    form keeps no state: every keystroke yields the patient record passed to
    `onChange`, built as `{ ...patient, ...updates }`. */
module PatientForm {
  import opened Optional
  import opened Text
  import opened Types

  const MIN_AGE := 1
  const MAX_AGE := 150

  /** `{ ...patient }`: an absent patient spreads to a record without fields. */
  function Base(patient: Option<PatientData>): PatientData {
    patient.GetOr(EmptyPatient)
  }

  /** The name input's text, `patient?.name ?? ''`. */
  function NameText(patient: Option<PatientData>): string {
    Base(patient).name.GetOr("")
  }

  /** The age input's text: `String(age)`, or '' without an age. */
  function AgeText(patient: Option<PatientData>): string {
    var age := Base(patient).age;
    if age.Some? then Dec(age.value) else ""
  }

  /** The age a typed text gives: `parseInt(text, 10)` when the text is not
      empty and the number is within 1..150, otherwise none. */
  function ParsedAge(text: string): (age: Option<int>)
    ensures age.Some? ==> MIN_AGE <= age.value <= MAX_AGE && ParseInt(text) == age
    ensures age.None? ==> text == "" || ParseInt(text).None? || !(MIN_AGE <= ParseInt(text).value <= MAX_AGE)
  {
    if text == "" then None
    else
      var n := ParseInt(text);
      if n.Some? && MIN_AGE <= n.value <= MAX_AGE then n else None
  }

  /** Typing in the name input: the text, or no name for an empty text;
      every other field is kept. */
  function NameEdited(patient: Option<PatientData>, text: string): (p: PatientData)
    ensures p.name == (if text == "" then None else Some(text))
    ensures p.(name := Base(patient).name) == Base(patient)
  {
    Base(patient).(name := if text == "" then None else Some(text))
  }

  /** Typing in the age input: the parsed age; every other field is kept. */
  function AgeEdited(patient: Option<PatientData>, text: string): (p: PatientData)
    ensures p.age == ParsedAge(text)
    ensures p.(age := Base(patient).age) == Base(patient)
  {
    Base(patient).(age := ParsedAge(text))
  }

  /** The name input shows exactly what was typed. */
  lemma NameRoundTrip(patient: Option<PatientData>, text: string)
    ensures NameText(Some(NameEdited(patient, text))) == text
  {
  }

  /** Every age the form accepts prints back as text that parses to itself. */
  lemma AgeRoundTrip(patient: Option<PatientData>, n: int)
    requires MIN_AGE <= n <= MAX_AGE
    ensures var shown := AgeText(Some(Base(patient).(age := Some(n))));
      shown == Dec(n) && ParsedAge(shown) == Some(n)
  {
    var s := DecNat(n);
    ParseIntDigits(s);
    DecNatValue(n);
  }

  /** Out-of-range and unreadable numbers clear the age rather than keep the
      previous one. */
  lemma RejectedAgeClears(patient: Option<PatientData>, text: string)
    requires ParseInt(text).Some? && ParseInt(text).value > MAX_AGE
    ensures AgeEdited(patient, text).age.None?
  {
  }
}
