/** lib/bed-utils.ts: whether a bed holds patient data, and the four
    indicators a bed card shows. */
module BedUtils {
  import opened Optional
  import opened Text
  import opened Types

  /** `hasContent`: present and not blank after trimming. */
  predicate HasContent(value: Option<string>) {
    HasTextOpt(value)
  }

  lemma HasContentIff(value: Option<string>)
    ensures HasContent(value) <==> value.Some? && exists i :: 0 <= i < |value.value| && !IsSpace(value.value[i])
  {
    if value.Some? { HasTextIff(value.value); }
  }

  /** `hasDxPlanContent`: the content exists and has non-blank text or a
      non-empty image (any length). */
  predicate HasDxPlanContent(dx: Option<DxPlanContent>) {
    dx.Some? && (HasContent(dx.value.text) || (dx.value.image.Some? && dx.value.image.value != []))
  }

  /** `hasBedPatientData` */
  predicate HasBedPatientData(bed: Bed) {
    if bed.patient.None? then false
    else
      var p := bed.patient.value;
      HasContent(p.name) || p.age.Some? || p.gender.Some?
      || HasDxPlanContent(p.dx) || HasDxPlanContent(p.plan)
      || (p.inv.Some? && |p.inv.value| > 0)
  }

  datatype Indicators = Indicators(name: bool, dx: bool, plan: bool, inv: bool)

  /** `getBedDataIndicators` */
  function GetBedDataIndicators(bed: Bed): (r: Indicators)
    ensures bed.patient.None? ==> r == Indicators(false, false, false, false)
    ensures bed.patient.Some? ==>
      r.dx == HasDxPlanContent(bed.patient.value.dx) && r.plan == HasDxPlanContent(bed.patient.value.plan)
  {
    if bed.patient.None? then Indicators(false, false, false, false)
    else
      var p := bed.patient.value;
      Indicators(HasContent(p.name) || p.age.Some? || p.gender.Some?,
                 HasDxPlanContent(p.dx),
                 HasDxPlanContent(p.plan),
                 p.inv.Some? && |p.inv.value| > 0)
  }

  /** A bed has patient data exactly when one of its indicators is on. */
  lemma DataIffSomeIndicator(bed: Bed)
    ensures var i := GetBedDataIndicators(bed);
      HasBedPatientData(bed) <==> i.name || i.dx || i.plan || i.inv
  {
  }

  /** The name indicator: a non-blank name, any age (0 included) or a gender;
      the investigations indicator: a non-empty list. */
  lemma IndicatorMeaning(bed: Bed)
    requires bed.patient.Some?
    ensures var p := bed.patient.value; var i := GetBedDataIndicators(bed);
      && (i.name <==> HasContent(p.name) || p.age.Some? || p.gender.Some?)
      && (p.age == Some(0) ==> i.name)
      && (i.inv <==> p.inv.Some? && p.inv.value != [])
  {
  }

  /** A patient record with nothing in it is not patient data: it is what a
      discharged or emptied bed looks like. */
  lemma EmptyPatientHasNoData(id: string, number: int)
    ensures !HasBedPatientData(Bed(id, number, Some(EmptyPatient)))
    ensures !HasBedPatientData(Bed(id, number, None))
  {
  }
}
