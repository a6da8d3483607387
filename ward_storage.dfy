/** lib/storage.ts: the defensive parser that turns a stored ward document into
    a typed Ward, the JSON form `saveWard` writes, and the load/save routines.
    A ward document is all-or-nothing (one bad bed rejects it); investigation
    rows are filtered one by one; patient fields that are out of range or of the
    wrong type are dropped, never clamped. */
module WardStorage {
  import opened Optional
  import opened Json
  import opened Types
  import opened KeyValueStore

  // ---------------------------------------------------------------------------
  // Parsing (JSON value -> record)

  /** One element of `p.inv`: kept only when it is an object with a string id;
      each other field is kept only when it is a string. */
  function ParseInvRow(r: Json): (row: Option<InvRow>)
    ensures row.Some? <==> r.JObj? && StringField(r, "id").Some?
  {
    if IsJsonObject(r) && StringField(r, "id").Some? then
      Some(InvRow(StringField(r, "id").value,
                  StringField(r, "date"), StringField(r, "dateImage"),
                  StringField(r, "investigation"), StringField(r, "investigationImage"),
                  StringField(r, "findings"), StringField(r, "findingsImage")))
    else None
  }

  /** `p.dx` / `p.plan`: kept only when it is a (truthy) non-array object;
      its text and image only when they are strings. */
  function ParseDxPlan(v: Option<Json>): (r: Option<DxPlanContent>)
    ensures r.Some? <==> v.Some? && v.value.JObj?
  {
    if v.Some? && v.value.JObj? then
      Some(DxPlanContent(StringField(v.value, "text"), StringField(v.value, "image")))
    else None
  }

  /** The condition under which a stored patient object is attached to the bed
      at all: a string name, a numeric age (any value), a string gender, a
      truthy dx or plan, or an array inv. */
  predicate HasPatientTrigger(p: Json) {
    || StringField(p, "name").Some?
    || NumberField(p, "age").Some?
    || StringField(p, "gender").Some?
    || Truthy(Field(p, "dx"))
    || Truthy(Field(p, "plan"))
    || (Field(p, "inv").Some? && Field(p, "inv").value.JArr?)
  }

  /** `age` is kept only when it is a number in 1..150. */
  function ParseAge(p: Json): (r: Option<int>)
    ensures r.Some? <==> NumberField(p, "age").Some? && 1 <= NumberField(p, "age").value <= 150
    ensures r.Some? ==> r.value == NumberField(p, "age").value
  {
    match NumberField(p, "age")
    case Some(a) => if 1 <= a <= 150 then Some(a) else None
    case None => None
  }

  function ParseGenderField(p: Json): Option<Gender> {
    match StringField(p, "gender")
    case Some(g) => ParseGender(g)
    case None => None
  }

  /** The investigation rows of a patient object: the valid elements of an
      `inv` array, or none. */
  function ParseInvField(p: Json): seq<InvRow> {
    match Field(p, "inv")
    case Some(JArr(items)) => KeepParsed(items, ParseInvRow)
    case _ => []
  }

  /** `bed.patient`, built from a stored patient value; the admission and
      discharge dates are never copied. */
  function ParsePatient(p: Json): Option<PatientData> {
    if !p.JObj? || !HasPatientTrigger(p) then None
    else
      var rows := ParseInvField(p);
      Some(PatientData(
        StringField(p, "name"),
        ParseAge(p),
        ParseGenderField(p),
        None,
        None,
        ParseDxPlan(Field(p, "dx")),
        ParseDxPlan(Field(p, "plan")),
        if |rows| > 0 then Some(rows) else None))
  }

  /** `parseBedFromJson` */
  function ParseBed(v: Json): Option<Bed> {
    if !IsJsonObject(v) then None
    else match (StringField(v, "id"), NumberField(v, "number"))
      case (Some(id), Some(n)) =>
        if n < 1 then None
        else Some(Bed(id, n, match Field(v, "patient") case Some(p) => ParsePatient(p) case None => None))
      case _ => None
  }

  /** All beds, or nothing if any one bed fails to parse. */
  function ParseBeds(items: seq<Json>): Option<seq<Bed>> {
    if items == [] then Some([])
    else match (ParseBed(items[0]), ParseBeds(items[1..]))
      case (Some(b), Some(bs)) => Some([b] + bs)
      case _ => None
  }

  /** The ward a decoded document describes (`parseWardFromJson` after
      `JSON.parse`). */
  function ParseWard(v: Json): Option<Ward> {
    if !IsJsonObject(v) || StringField(v, "id").None? || StringField(v, "title").None?
       || Field(v, "beds").None? || !Field(v, "beds").value.JArr? then None
    else if WardNumberInvalid(v) then None
    else
      var beds := ParseBeds(Field(v, "beds").value.items);
      if beds.None? then None
      else Some(Ward(StringField(v, "id").value, StringField(v, "title").value, StringField(v, "wardNumber"), beds.value))
  }

  /** `wardNumber` is present but neither null nor a string. */
  predicate WardNumberInvalid(v: Json) {
    var wn := Field(v, "wardNumber");
    wn.Some? && !wn.value.JNull? && !wn.value.JStr?
  }

  function ParseWardText(raw: RawText): Option<Ward> {
    match raw
    case Undecodable => None
    case Decodable(v) => ParseWard(v)
  }

  /** `loadWard`: a read error, a missing key, the empty string or
      undecodable text all give null. */
  function LoadedWard(read: ReadResult): Option<Ward> {
    match read
    case Stored(Some(raw)) => ParseWardText(raw)
    case _ => None
  }

  // ---------------------------------------------------------------------------
  // Properties of the parser

  /** A bed parses exactly when it is an object with a string id and a numeric
      number of at least 1. */
  lemma ParseBedAccepts(v: Json)
    ensures ParseBed(v).Some? <==>
      v.JObj? && StringField(v, "id").Some? && NumberField(v, "number").Some? && NumberField(v, "number").value >= 1
    ensures ParseBed(v).Some? ==>
      ParseBed(v).value.id == StringField(v, "id").value && ParseBed(v).value.number == NumberField(v, "number").value
  {
  }

  /** Wards are all-or-nothing: the beds parse exactly when every element
      parses, and then they keep their count and order. */
  lemma {:induction false} ParseBedsAllOrNothing(items: seq<Json>)
    ensures ParseBeds(items).Some? <==> forall i :: 0 <= i < |items| ==> ParseBed(items[i]).Some?
    ensures ParseBeds(items).Some? ==>
      |ParseBeds(items).value| == |items| &&
      forall i :: 0 <= i < |items| ==> ParseBeds(items).value[i] == ParseBed(items[i]).value
  {
    if items != [] {
      ParseBedsAllOrNothing(items[1..]);
      if ParseBeds(items).Some? {
        forall i | 0 <= i < |items| ensures ParseBed(items[i]).Some? {
          if i > 0 { assert items[i] == items[1..][i - 1]; }
        }
      }
      if forall i :: 0 <= i < |items| ==> ParseBed(items[i]).Some? {
        forall i | 0 <= i < |items[1..]| ensures ParseBed(items[1..][i]).Some? {
          assert items[1..][i] == items[i + 1];
        }
      }
    }
  }

  /** One bad bed anywhere rejects the whole document. */
  lemma OneBadBedRejectsWard(v: Json, k: nat)
    requires v.JObj? && Field(v, "beds").Some? && Field(v, "beds").value.JArr?
    requires k < |Field(v, "beds").value.items| && ParseBed(Field(v, "beds").value.items[k]).None?
    ensures ParseWard(v).None?
  {
    ParseBedsAllOrNothing(Field(v, "beds").value.items);
  }

  /** The ward-number rule: a string is kept, null or absent becomes
      undefined, any other type rejects the document. */
  lemma WardNumberRule(v: Json)
    requires ParseWard(v).Some?
    ensures Field(v, "wardNumber").None? || Field(v, "wardNumber").value.JNull? || Field(v, "wardNumber").value.JStr?
    ensures ParseWard(v).value.wardNumber == StringField(v, "wardNumber")
  {
  }

  /** What a parsed ward always satisfies: numbers of at least 1, no admission
      or discharge date, ages in 1..150, and no empty investigation list. */
  ghost predicate LoadedShape(w: Ward) {
    forall i :: 0 <= i < |w.beds| ==>
      && w.beds[i].number >= 1
      && (w.beds[i].patient.Some? ==>
            var p := w.beds[i].patient.value;
            && p.admissionDate.None? && p.dischargeDate.None?
            && (p.age.Some? ==> 1 <= p.age.value <= 150)
            && (p.inv.Some? ==> |p.inv.value| > 0))
  }

  lemma ParsedWardShape(v: Json)
    requires ParseWard(v).Some?
    ensures LoadedShape(ParseWard(v).value)
  {
    var items := Field(v, "beds").value.items;
    ParseBedsAllOrNothing(items);
  }

  // ---------------------------------------------------------------------------
  // The imperative parser and loader

  /** `parseWardFromJson`: the loop pushes each parsed bed and returns null at
      the first one that fails. */
  method ParseWardFromJson(raw: RawText) returns (w: Option<Ward>)
    ensures w == ParseWardText(raw)
  {
    if raw.Undecodable? { return None; }
    var parsed := raw.value;
    if !IsJsonObject(parsed) { return None; }
    var id := StringField(parsed, "id");
    var title := StringField(parsed, "title");
    var bedsRaw := Field(parsed, "beds");
    var wardNumber := Field(parsed, "wardNumber");
    if id.None? || title.None? || bedsRaw.None? || !bedsRaw.value.JArr? { return None; }
    if wardNumber.Some? && !wardNumber.value.JNull? && !wardNumber.value.JStr? {
      assert WardNumberInvalid(parsed);
      return None;
    }
    var items := bedsRaw.value.items;
    ParseBedsAllOrNothing(items);
    var beds: seq<Bed> := [];
    var i := 0;
    while i < |items|
      invariant 0 <= i <= |items| && |beds| == i
      invariant forall j :: 0 <= j < i ==> ParseBed(items[j]) == Some(beds[j])
    {
      var bed := ParseBed(items[i]);
      if bed.None? { return None; }
      beds := beds + [bed.value];
      i := i + 1;
    }
    assert ParseBeds(items).value == beds;
    w := Some(Ward(id.value, title.value, StringField(parsed, "wardNumber"), beds));
  }

  /** `loadWard`: never throws. */
  method LoadWard(read: ReadResult) returns (w: Option<Ward>)
    ensures w == LoadedWard(read)
    ensures read.ReadFault? || read.raw.None? ==> w.None?
  {
    if read.ReadFault? || read.raw.None? { return None; }
    w := ParseWardFromJson(read.raw.value);
  }

  // ---------------------------------------------------------------------------
  // Encoding (record -> JSON value, as `JSON.stringify` writes it)

  function EncodeInvRow(r: InvRow): Json {
    JObj(Put(Put(Put(Put(Put(Put(map["id" := JStr(r.id)],
      "date", StrOpt(r.date)), "dateImage", StrOpt(r.dateImage)),
      "investigation", StrOpt(r.investigation)), "investigationImage", StrOpt(r.investigationImage)),
      "findings", StrOpt(r.findings)), "findingsImage", StrOpt(r.findingsImage)))
  }

  function EncodeDxPlan(d: DxPlanContent): Json {
    JObj(Put(Put(map[], "text", StrOpt(d.text)), "image", StrOpt(d.image)))
  }

  function EncodeInvRows(rows: seq<InvRow>): seq<Json> {
    seq(|rows|, i requires 0 <= i < |rows| => EncodeInvRow(rows[i]))
  }

  /** The name, age and gender members of a saved patient. */
  function PatientIdentity(p: PatientData): map<string, Json> {
    Put(Put(Put(map[],
      "name", StrOpt(p.name)),
      "age", if p.age.Some? then Some(JNum(p.age.value)) else None),
      "gender", if p.gender.Some? then Some(JStr(GenderName(p.gender.value))) else None)
  }

  function EncodePatient(p: PatientData): Json {
    JObj(Put(Put(Put(Put(Put(PatientIdentity(p),
      "admissionDate", StrOpt(p.admissionDate)),
      "dischargeDate", StrOpt(p.dischargeDate)),
      "dx", if p.dx.Some? then Some(EncodeDxPlan(p.dx.value)) else None),
      "plan", if p.plan.Some? then Some(EncodeDxPlan(p.plan.value)) else None),
      "inv", if p.inv.Some? then Some(JArr(EncodeInvRows(p.inv.value))) else None))
  }

  function EncodeBed(b: Bed): Json {
    JObj(Put(map["id" := JStr(b.id), "number" := JNum(b.number)],
      "patient", if b.patient.Some? then Some(EncodePatient(b.patient.value)) else None))
  }

  function EncodeBeds(beds: seq<Bed>): seq<Json> {
    seq(|beds|, i requires 0 <= i < |beds| => EncodeBed(beds[i]))
  }

  function EncodeWard(w: Ward): Json {
    JObj(Put(map["id" := JStr(w.id), "title" := JStr(w.title), "beds" := JArr(EncodeBeds(w.beds))],
      "wardNumber", StrOpt(w.wardNumber)))
  }

  // ---------------------------------------------------------------------------
  // Load after save

  /** What loading a saved patient gives back: nothing when no trigger field
      was present; otherwise the same fields minus the admission and discharge
      dates, an out-of-range age and an empty investigation list. */
  function NormalizedPatient(p: PatientData): Option<PatientData> {
    if !(p.name.Some? || p.age.Some? || p.gender.Some? || p.dx.Some? || p.plan.Some? || p.inv.Some?) then None
    else Some(p.(admissionDate := None, dischargeDate := None,
                 age := if p.age.Some? && 1 <= p.age.value <= 150 then p.age else None,
                 inv := if p.inv.Some? && |p.inv.value| > 0 then p.inv else None))
  }

  function NormalizedBed(b: Bed): Bed {
    b.(patient := if b.patient.Some? then NormalizedPatient(b.patient.value) else None)
  }

  function NormalizedBeds(beds: seq<Bed>): seq<Bed> {
    seq(|beds|, i requires 0 <= i < |beds| => NormalizedBed(beds[i]))
  }

  function NormalizedWard(w: Ward): Ward {
    w.(beds := NormalizedBeds(w.beds))
  }

  // The members of an encoded row, as the parser reads them.

  lemma EncodedRowId(r: InvRow)
    ensures StringField(EncodeInvRow(r), "id") == Some(r.id)
  {
  }

  lemma EncodedRowDates(r: InvRow)
    ensures StringField(EncodeInvRow(r), "date") == r.date
    ensures StringField(EncodeInvRow(r), "dateImage") == r.dateImage
  {
  }

  lemma EncodedRowInvestigation(r: InvRow)
    ensures StringField(EncodeInvRow(r), "investigation") == r.investigation
    ensures StringField(EncodeInvRow(r), "investigationImage") == r.investigationImage
  {
  }

  lemma EncodedRowFindings(r: InvRow)
    ensures StringField(EncodeInvRow(r), "findings") == r.findings
    ensures StringField(EncodeInvRow(r), "findingsImage") == r.findingsImage
  {
  }

  lemma InvRowRoundTrip(r: InvRow)
    ensures ParseInvRow(EncodeInvRow(r)) == Some(r)
  {
    EncodedRowId(r);
    EncodedRowDates(r);
    EncodedRowInvestigation(r);
    EncodedRowFindings(r);
  }

  lemma DxPlanRoundTrip(d: DxPlanContent)
    ensures ParseDxPlan(Some(EncodeDxPlan(d))) == Some(d)
  {
  }

  lemma {:induction false} InvRowsRoundTrip(rows: seq<InvRow>)
    ensures KeepParsed(EncodeInvRows(rows), ParseInvRow) == rows
  {
    var items := EncodeInvRows(rows);
    forall i | 0 <= i < |items| ensures ParseInvRow(items[i]) == Some(rows[i]) {
      InvRowRoundTrip(rows[i]);
    }
    KeepParsedAll(items, ParseInvRow);
  }

  // The members of an encoded patient, as the parser reads them.

  /** The later members leave the name, age and gender as they are. */
  lemma IdentityKept(p: PatientData, k: string)
    requires k == "name" || k == "age" || k == "gender"
    ensures EncodePatient(p).JObj? && Field(EncodePatient(p), k) == Field(JObj(PatientIdentity(p)), k)
  {
    var m0 := PatientIdentity(p);
    var m1 := Put(m0, "admissionDate", StrOpt(p.admissionDate));
    var m2 := Put(m1, "dischargeDate", StrOpt(p.dischargeDate));
    var m3 := Put(m2, "dx", if p.dx.Some? then Some(EncodeDxPlan(p.dx.value)) else None);
    var m4 := Put(m3, "plan", if p.plan.Some? then Some(EncodeDxPlan(p.plan.value)) else None);
    assert EncodePatient(p) == JObj(Put(m4, "inv", if p.inv.Some? then Some(JArr(EncodeInvRows(p.inv.value))) else None));
    PutKeepsOther(m0, "admissionDate", StrOpt(p.admissionDate), k);
    PutKeepsOther(m1, "dischargeDate", StrOpt(p.dischargeDate), k);
    PutKeepsOther(m2, "dx", if p.dx.Some? then Some(EncodeDxPlan(p.dx.value)) else None, k);
    PutKeepsOther(m3, "plan", if p.plan.Some? then Some(EncodeDxPlan(p.plan.value)) else None, k);
    PutKeepsOther(m4, "inv", if p.inv.Some? then Some(JArr(EncodeInvRows(p.inv.value))) else None, k);
  }

  lemma EncodedName(p: PatientData)
    ensures EncodePatient(p).JObj? && StringField(EncodePatient(p), "name") == p.name
  {
    IdentityKept(p, "name");
  }

  lemma EncodedAge(p: PatientData)
    ensures NumberField(EncodePatient(p), "age") == p.age
  {
    IdentityKept(p, "age");
  }

  lemma EncodedGender(p: PatientData)
    ensures StringField(EncodePatient(p), "gender") == (if p.gender.Some? then Some(GenderName(p.gender.value)) else None)
  {
    IdentityKept(p, "gender");
  }

  lemma EncodedDx(p: PatientData)
    ensures Field(EncodePatient(p), "dx") == (if p.dx.Some? then Some(EncodeDxPlan(p.dx.value)) else None)
  {
  }

  lemma EncodedPlan(p: PatientData)
    ensures Field(EncodePatient(p), "plan") == (if p.plan.Some? then Some(EncodeDxPlan(p.plan.value)) else None)
  {
  }

  lemma EncodedInv(p: PatientData)
    ensures Field(EncodePatient(p), "inv") == (if p.inv.Some? then Some(JArr(EncodeInvRows(p.inv.value))) else None)
  {
  }

  lemma PatientRoundTrip(p: PatientData)
    ensures ParsePatient(EncodePatient(p)) == NormalizedPatient(p)
  {
    var e := EncodePatient(p);
    EncodedName(p); EncodedAge(p); EncodedGender(p);
    EncodedDx(p); EncodedPlan(p); EncodedInv(p);
    if p.inv.Some? { InvRowsRoundTrip(p.inv.value); }
    if p.dx.Some? { DxPlanRoundTrip(p.dx.value); }
    if p.plan.Some? { DxPlanRoundTrip(p.plan.value); }
    if p.gender.Some? { GenderRoundTrip(p.gender.value); }
  }

  lemma BedRoundTrip(b: Bed)
    ensures ParseBed(EncodeBed(b)) == if b.number >= 1 then Some(NormalizedBed(b)) else None
  {
    if b.patient.Some? { PatientRoundTrip(b.patient.value); }
  }

  /** The saved bed list loads back in normalised form, or not at all when a
      bed number is below 1. */
  lemma BedsRoundTrip(beds: seq<Bed>)
    ensures ParseBeds(EncodeBeds(beds)) ==
      if forall i :: 0 <= i < |beds| ==> beds[i].number >= 1 then Some(NormalizedBeds(beds)) else None
  {
    var items := EncodeBeds(beds);
    ParseBedsAllOrNothing(items);
    forall i | 0 <= i < |beds| ensures ParseBed(items[i]) == if beds[i].number >= 1 then Some(NormalizedBed(beds[i])) else None {
      BedRoundTrip(beds[i]);
    }
    if forall i :: 0 <= i < |beds| ==> beds[i].number >= 1 {
      assert ParseBeds(items).value == NormalizedBeds(beds);
    } else {
      var k :| 0 <= k < |beds| && beds[k].number < 1;
      assert ParseBed(items[k]).None?;
    }
  }

  /** The members of a saved ward, as the parser reads them. */
  lemma EncodedWardMembers(w: Ward)
    ensures IsJsonObject(EncodeWard(w))
    ensures StringField(EncodeWard(w), "id") == Some(w.id) && StringField(EncodeWard(w), "title") == Some(w.title)
    ensures Field(EncodeWard(w), "beds") == Some(JArr(EncodeBeds(w.beds)))
    ensures StringField(EncodeWard(w), "wardNumber") == w.wardNumber && !WardNumberInvalid(EncodeWard(w))
  {
  }

  /** Load after save: a saved ward loads back as its normalised form, or is
      rejected as a whole when a bed number is below 1. */
  lemma WardRoundTrip(w: Ward)
    ensures ParseWard(EncodeWard(w)) ==
      if forall i :: 0 <= i < |w.beds| ==> w.beds[i].number >= 1 then Some(NormalizedWard(w)) else None
  {
    EncodedWardMembers(w);
    BedsRoundTrip(w.beds);
  }

  /** A ward already in loaded form (no dates, ages in range, no empty inv
      list, every patient with a trigger field) survives save and load
      unchanged. */
  lemma CanonicalWardRoundTrip(w: Ward)
    requires forall i :: 0 <= i < |w.beds| ==> w.beds[i].number >= 1 && NormalizedBed(w.beds[i]) == w.beds[i]
    ensures ParseWard(EncodeWard(w)) == Some(w)
  {
    WardRoundTrip(w);
    assert NormalizedWard(w).beds == w.beds;
  }

  /** Loading is not idempotent through a save: a patient whose only field is
      an out-of-range age loads as an empty patient, which is saved as `{}`
      and then not attached at all. */
  lemma EmptiedPatientIsDroppedOnReload()
    ensures var b := Bed("b", 1, Some(EmptyPatient.(age := Some(0))));
            && NormalizedBed(b).patient == Some(EmptyPatient)
            && NormalizedBed(NormalizedBed(b)).patient == None
  {
  }

  // ---------------------------------------------------------------------------
  // Saving

  /** Both of the next two scripted write attempts fail. */
  predicate FailsTwice(script: seq<bool>) {
    NextWriteFails(script) && NextWriteFails(Consume(script))
  }

  /** `saveWard`: writes the same payload, retries once on failure, and throws
      (ok == false) only when both attempts failed. */
  method SaveWard(store: Store, ward: Ward) returns (ok: bool)
    modifies store
    ensures ok <==> !FailsTwice(old(store.writeScript))
    ensures store.writes == old(store.writes) + (if NextWriteFails(old(store.writeScript)) then 2 else 1)
    ensures store.data == if ok then old(store.data)[WARD_KEY := Decodable(EncodeWard(ward))] else old(store.data)
    ensures store.writeScript ==
      if NextWriteFails(old(store.writeScript)) then Consume(Consume(old(store.writeScript)))
      else Consume(old(store.writeScript))
    ensures store.readFault == old(store.readFault)
  {
    var payload := EncodeWard(ward);
    ok := store.SetItem(WARD_KEY, payload);
    if !ok {
      ok := store.SetItem(WARD_KEY, payload);
    }
  }

  /** After a successful save, loading gives the normalised ward back. */
  lemma SaveThenLoad(data: map<string, RawText>, w: Ward)
    requires forall i :: 0 <= i < |w.beds| ==> w.beds[i].number >= 1
    ensures LoadedWard(Read(data[WARD_KEY := Decodable(EncodeWard(w))], false, WARD_KEY)) == Some(NormalizedWard(w))
  {
    WardRoundTrip(w);
  }
}
