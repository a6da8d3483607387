/** The records of lib/types.ts. Every `field?: T` is an Option<T>. */
module Types {
  import opened Optional

  /** A row of the investigations table: a required id and three independent
      text/handwriting pairs. */
  datatype InvRow = InvRow(
    id: string,
    date: Option<string>,
    dateImage: Option<string>,
    investigation: Option<string>,
    investigationImage: Option<string>,
    findings: Option<string>,
    findingsImage: Option<string>)

  /** Typed text plus an optional base64 handwriting image. */
  datatype DxPlanContent = DxPlanContent(text: Option<string>, image: Option<string>)

  datatype Gender = Male | Female | Other

  /** Every field is optional; admissionDate and dischargeDate are
      documented as `YYYY-MM-DD`. */
  datatype PatientData = PatientData(
    name: Option<string>,
    age: Option<int>,
    gender: Option<Gender>,
    admissionDate: Option<string>,
    dischargeDate: Option<string>,
    dx: Option<DxPlanContent>,
    plan: Option<DxPlanContent>,
    inv: Option<seq<InvRow>>)

  datatype Bed = Bed(id: string, number: int, patient: Option<PatientData>)

  datatype Ward = Ward(id: string, title: string, wardNumber: Option<string>, beds: seq<Bed>)

  /** Beds per row on the home grid: 2 through 6 only. */
  type BedsPerRow = n: int | 2 <= n <= 6 witness 4

  datatype Theme = Light | Dark | System

  datatype UserPreferences = UserPreferences(
    defaultDepartment: Option<string>,
    defaultWardNumber: Option<string>,
    defaultBedCount: Option<int>,
    theme: Option<Theme>,
    bedsPerRow: Option<BedsPerRow>)

  datatype ReferenceCard = ReferenceCard(id: string, title: string, body: string, order: int)

  const EmptyPatient := PatientData(None, None, None, None, None, None, None, None)

  function GenderName(g: Gender): string {
    match g
    case Male => "Male"
    case Female => "Female"
    case Other => "Other"
  }

  /** The gender literal a string spells, if any. */
  function ParseGender(s: string): (r: Option<Gender>)
    ensures r.Some? <==> s == "Male" || s == "Female" || s == "Other"
    ensures r.Some? ==> GenderName(r.value) == s
  {
    if s == "Male" then Some(Male)
    else if s == "Female" then Some(Female)
    else if s == "Other" then Some(Other)
    else None
  }

  lemma GenderRoundTrip(g: Gender)
    ensures ParseGender(GenderName(g)) == Some(g)
  {
  }

  function ThemeName(t: Theme): string {
    match t
    case Light => "light"
    case Dark => "dark"
    case System => "system"
  }
}
