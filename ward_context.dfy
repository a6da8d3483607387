/** contexts/ward-context.tsx: the ward aggregate. Every mutator computes a new
    Ward from the current one (the pure functions below) and hands it to
    `persist`, which replaces the state and saves; while no ward is loaded every
    mutator is a no-op. `generateId` is the parameter `newId`: the k-th id a
    call draws is `newId(k)`. */
module WardContext {
  import opened Optional
  import opened Json
  import opened Types
  import opened Sorting
  import opened KeyValueStore
  import opened WardStorage

  const DEFAULT_TITLE := "Surgery Department"
  const INITIAL_BED_COUNT := 12

  // ---------------------------------------------------------------------------
  // Invariants of a bed list

  /** The numbering every mutator keeps: bed k (from 0) has number k + 1. */
  predicate Dense(beds: seq<Bed>) {
    forall i :: 0 <= i < |beds| ==> beds[i].number == i + 1
  }

  predicate DistinctNumbers(beds: seq<Bed>) {
    forall i, j :: 0 <= i < j < |beds| ==> beds[i].number != beds[j].number
  }

  lemma DenseIsDistinct(beds: seq<Bed>)
    requires Dense(beds)
    ensures DistinctNumbers(beds)
  {
  }

  // ---------------------------------------------------------------------------
  // createInitialWard

  /** Twelve empty beds numbered 1..12; the bed ids are drawn first, the ward id last. */
  function CreateInitialWard(newId: nat -> string): (w: Ward)
    ensures w.title == DEFAULT_TITLE && w.wardNumber == Some("1")
    ensures |w.beds| == INITIAL_BED_COUNT && Dense(w.beds)
    ensures forall i :: 0 <= i < |w.beds| ==> w.beds[i].patient.None? && w.beds[i].id == newId(i)
  {
    Ward(newId(INITIAL_BED_COUNT), DEFAULT_TITLE, Some("1"),
         seq(INITIAL_BED_COUNT, i requires 0 <= i < INITIAL_BED_COUNT => Bed(newId(i), i + 1, None)))
  }

  // ---------------------------------------------------------------------------
  // updateTitle / updateWardNumber

  function WithTitle(w: Ward, title: string): (r: Ward)
    ensures r.title == title && r.id == w.id && r.wardNumber == w.wardNumber && r.beds == w.beds
  {
    w.(title := title)
  }

  /** `wardNumber || undefined`: the empty string clears the ward number. */
  function WithWardNumber(w: Ward, wardNumber: string): (r: Ward)
    ensures r.wardNumber.None? <==> wardNumber == ""
    ensures r.wardNumber.Some? ==> r.wardNumber.value == wardNumber
    ensures r.id == w.id && r.title == w.title && r.beds == w.beds
  {
    w.(wardNumber := if wardNumber == "" then None else Some(wardNumber))
  }

  // ---------------------------------------------------------------------------
  // addBeds

  /** `Math.max(...numbers, 0)` */
  function MaxNumber(beds: seq<Bed>): (m: int)
    ensures m >= 0
    ensures forall i :: 0 <= i < |beds| ==> beds[i].number <= m
    ensures m == 0 || exists i :: 0 <= i < |beds| && beds[i].number == m
  {
    if beds == [] then 0
    else
      var rest := MaxNumber(beds[1..]);
      if beds[0].number > rest then beds[0].number
      else
        assert forall i :: 0 <= i < |beds[1..]| ==> beds[1..][i] == beds[i + 1];
        rest
  }

  function NewBeds(start: int, count: nat, newId: nat -> string): seq<Bed> {
    seq(count, i requires 0 <= i < count => Bed(newId(i), start + i + 1, None))
  }

  /** `addBeds(count)`: nothing for a count below 1; otherwise `count` empty
      beds appended, numbered on from the highest existing number. */
  function AddBeds(w: Ward, count: int, newId: nat -> string): (r: Ward)
    ensures count < 1 ==> r == w
    ensures count >= 1 ==>
      && r.id == w.id && r.title == w.title && r.wardNumber == w.wardNumber
      && |r.beds| == |w.beds| + count
      && r.beds[..|w.beds|] == w.beds
      && forall i :: 0 <= i < count ==>
           r.beds[|w.beds| + i] == Bed(newId(i), MaxNumber(w.beds) + i + 1, None)
  {
    if count < 1 then w
    else w.(beds := w.beds + NewBeds(MaxNumber(w.beds), count, newId))
  }

  /** Every added bed is numbered above every existing bed, so distinct
      numbers stay distinct. */
  lemma AddBedsKeepsNumbersDistinct(w: Ward, count: int, newId: nat -> string)
    requires DistinctNumbers(w.beds)
    ensures var r := AddBeds(w, count, newId);
      && DistinctNumbers(r.beds)
      && forall i, j :: 0 <= i < |w.beds| <= j < |r.beds| ==> r.beds[i].number < r.beds[j].number
  {
  }

  /** On a densely numbered ward the new beds continue the numbering. */
  lemma AddBedsKeepsDense(w: Ward, count: int, newId: nat -> string)
    requires Dense(w.beds)
    ensures Dense(AddBeds(w, count, newId).beds)
  {
    if w.beds != [] {
      var n := |w.beds|;
      assert w.beds[n - 1].number == n;
      assert MaxNumber(w.beds) == n;
    }
  }

  // ---------------------------------------------------------------------------
  // deleteBed

  /** The comparator `(a, b) => a.number - b.number` as "less than or equal". */
  predicate ByNumber(a: Bed, b: Bed) {
    a.number <= b.number
  }

  lemma ByNumberIsTotalPreorder()
    ensures IsTotalPreorder(ByNumber)
  {
  }

  predicate NotId(id: string, b: Bed) {
    b.id != id
  }

  /** `beds.filter(b => b.id !== id)` */
  function Kept(beds: seq<Bed>, id: string): seq<Bed> {
    Filter(beds, b => NotId(id, b))
  }

  /** The beds that survive a deletion, in the order the sort leaves them. */
  function Survivors(beds: seq<Bed>, id: string): seq<Bed> {
    SortBy(Kept(beds, id), ByNumber)
  }

  function Renumber(beds: seq<Bed>): seq<Bed> {
    seq(|beds|, i requires 0 <= i < |beds| => beds[i].(number := i + 1))
  }

  /** `deleteBed(id)`: drop every bed with that id, sort the rest by number
      and renumber them 1..N. */
  function DeleteBed(w: Ward, id: string): (r: Ward)
    ensures r.id == w.id && r.title == w.title && r.wardNumber == w.wardNumber
    ensures Dense(r.beds)
  {
    w.(beds := Renumber(Survivors(w.beds, id)))
  }

  /** The renumbered beds are the survivors, one for one, each keeping its id
      and patient, and none of them has the deleted id. */
  lemma DeleteBedKeepsIdsAndPatients(w: Ward, id: string)
    ensures var s := Survivors(w.beds, id);
            var r := DeleteBed(w, id).beds;
      && |r| == |s|
      && (forall i :: 0 <= i < |r| ==> r[i].id == s[i].id && r[i].patient == s[i].patient && r[i].number == i + 1)
      && (forall i :: 0 <= i < |r| ==> r[i].id != id)
  {
    var kept := Kept(w.beds, id);
    var s := Survivors(w.beds, id);
    SortByPermutes(kept, ByNumber);
    forall i | 0 <= i < |s| ensures s[i].id != id {
      assert s[i] in multiset(kept);
      var k :| 0 <= k < |kept| && kept[k] == s[i];
    }
  }

  /** The survivors are a permutation of the other beds, ordered by their old
      number. */
  lemma DeleteBedSortsSurvivors(w: Ward, id: string)
    ensures multiset(Survivors(w.beds, id)) == multiset(Kept(w.beds, id))
    ensures SortedBy(Survivors(w.beds, id), ByNumber)
  {
    ByNumberIsTotalPreorder();
    SortBySorted(Kept(w.beds, id), ByNumber);
    SortByPermutes(Kept(w.beds, id), ByNumber);
  }

  /** Beds that had the same number stay in their old relative order. */
  lemma DeleteBedIsStable(w: Ward, id: string, a: Bed)
    ensures Filter(Survivors(w.beds, id), TiedWith(ByNumber, a))
         == Filter(Kept(w.beds, id), TiedWith(ByNumber, a))
  {
    ByNumberIsTotalPreorder();
    SortByStable(Kept(w.beds, id), ByNumber, a);
  }

  /** Every bed without the id survives, as many times as it was present. */
  lemma DeleteBedKeepsOthers(w: Ward, id: string, b: Bed)
    requires b.id != id
    ensures multiset(Survivors(w.beds, id))[b] == multiset(w.beds)[b]
  {
    FilterCountsKept(w.beds, id, b);
    DeleteBedSortsSurvivors(w, id);
  }

  lemma {:induction false} FilterCountsKept(beds: seq<Bed>, id: string, b: Bed)
    requires b.id != id
    ensures multiset(Kept(beds, id))[b] == multiset(beds)[b]
  {
    if beds != [] {
      FilterCountsKept(beds[1..], id, b);
      assert beds == [beds[0]] + beds[1..];
    }
  }

  // ---------------------------------------------------------------------------
  // dischargePatient / updateBedPatient / getBed

  /** Every bed with the id loses its patient; nothing else changes. */
  function DischargePatient(w: Ward, id: string): (r: Ward)
    ensures r.id == w.id && r.title == w.title && r.wardNumber == w.wardNumber
    ensures |r.beds| == |w.beds|
    ensures forall i :: 0 <= i < |w.beds| ==>
      && r.beds[i].id == w.beds[i].id && r.beds[i].number == w.beds[i].number
      && (w.beds[i].id == id ==> r.beds[i].patient.None?)
      && (w.beds[i].id != id ==> r.beds[i] == w.beds[i])
  {
    w.(beds := seq(|w.beds|, i requires 0 <= i < |w.beds| =>
                     if w.beds[i].id == id then w.beds[i].(patient := None) else w.beds[i]))
  }

  /** Every bed with the id gets exactly `patient` (no merge); nothing else changes. */
  function UpdateBedPatient(w: Ward, id: string, patient: PatientData): (r: Ward)
    ensures r.id == w.id && r.title == w.title && r.wardNumber == w.wardNumber
    ensures |r.beds| == |w.beds|
    ensures forall i :: 0 <= i < |w.beds| ==>
      && r.beds[i].id == w.beds[i].id && r.beds[i].number == w.beds[i].number
      && (w.beds[i].id == id ==> r.beds[i].patient == Some(patient))
      && (w.beds[i].id != id ==> r.beds[i] == w.beds[i])
  {
    w.(beds := seq(|w.beds|, i requires 0 <= i < |w.beds| =>
                     if w.beds[i].id == id then w.beds[i].(patient := Some(patient)) else w.beds[i]))
  }

  /** An unknown id leaves the ward as it was. */
  lemma UnknownIdChangesNothing(w: Ward, id: string, patient: PatientData)
    requires forall i :: 0 <= i < |w.beds| ==> w.beds[i].id != id
    ensures UpdateBedPatient(w, id, patient) == w && DischargePatient(w, id) == w
  {
  }

  /** Discharge, patient update, title and ward-number changes keep the bed
      numbering, so together with addBeds and deleteBed they preserve Dense. */
  lemma EditsKeepDense(w: Ward, id: string, patient: PatientData, text: string)
    requires Dense(w.beds)
    ensures Dense(DischargePatient(w, id).beds) && Dense(UpdateBedPatient(w, id, patient).beds)
    ensures Dense(WithTitle(w, text).beds) && Dense(WithWardNumber(w, text).beds)
  {
  }

  /** `beds.find(b => b.id === id)`: the first bed with the id. */
  function FindBed(beds: seq<Bed>, id: string): (r: Option<Bed>)
    ensures r.None? <==> forall i :: 0 <= i < |beds| ==> beds[i].id != id
    ensures r.Some? ==> exists i :: 0 <= i < |beds| && beds[i] == r.value
                                   && r.value.id == id
                                   && forall j :: 0 <= j < i ==> beds[j].id != id
  {
    if beds == [] then None
    else if beds[0].id == id then Some(beds[0])
    else
      var rest := FindBed(beds[1..], id);
      assert forall i :: 0 <= i < |beds[1..]| ==> beds[1..][i] == beds[i + 1];
      if rest.Some? then
        var i :| 0 <= i < |beds[1..]| && beds[1..][i] == rest.value && rest.value.id == id
                 && forall j :: 0 <= j < i ==> beds[1..][j].id != id;
        assert beds[i + 1] == rest.value;
        rest
      else rest
  }

  /** After a patient update, looking the bed up finds the new patient. */
  lemma UpdateThenFind(w: Ward, id: string, patient: PatientData)
    requires FindBed(w.beds, id).Some?
    ensures var b := FindBed(UpdateBedPatient(w, id, patient).beds, id);
            b.Some? && b.value.patient == Some(patient) && b.value.id == id
  {
    var r := UpdateBedPatient(w, id, patient);
    var k :| 0 <= k < |w.beds| && w.beds[k].id == id;
    assert r.beds[k].id == id;
  }

  // ---------------------------------------------------------------------------
  // The provider's state

  /** The first `n` scripted write attempts all fail. */
  predicate FailsFirst(script: seq<bool>, n: nat) {
    n <= |script| && forall i :: 0 <= i < n ==> script[i]
  }

  /** The store after `persist(next)`: two saves of two attempts each, so the
      ward is stored unless four attempts in a row fail. */
  function Persisted(data: map<string, RawText>, script: seq<bool>, next: Ward): map<string, RawText> {
    if FailsFirst(script, 4) then data else data[WARD_KEY := Decodable(EncodeWard(next))]
  }

  /** The write script left after one `saveWard`: one attempt, two after a failure. */
  function SaveScript(script: seq<bool>): seq<bool> {
    if NextWriteFails(script) then Consume(Consume(script)) else Consume(script)
  }

  /** How many write attempts one `saveWard` makes. */
  function SaveWrites(script: seq<bool>): nat {
    if NextWriteFails(script) then 2 else 1
  }

  /** The write script left after `persist`: a second `saveWard` only when
      the first one threw. */
  function PersistScript(script: seq<bool>): seq<bool> {
    if FailsTwice(script) then SaveScript(SaveScript(script)) else SaveScript(script)
  }

  /** How many write attempts `persist` makes: one to four. */
  function PersistWrites(script: seq<bool>): (n: nat)
    ensures 1 <= n <= 4
  {
    SaveWrites(script) + (if FailsTwice(script) then SaveWrites(SaveScript(script)) else 0)
  }

  lemma FailsTwiceIsFirstTwo(script: seq<bool>)
    ensures FailsTwice(script) <==> FailsFirst(script, 2)
    ensures FailsTwice(script) ==> Consume(Consume(script)) == script[2..]
  {
    if FailsTwice(script) {
      assert Consume(script)[0] == script[1];
    }
    if FailsFirst(script, 2) {
      assert Consume(script) == script[1..];
    }
  }

  lemma FailsFourSplit(script: seq<bool>)
    requires FailsTwice(script)
    ensures FailsTwice(Consume(Consume(script))) <==> FailsFirst(script, 4)
  {
    FailsTwiceIsFirstTwo(script);
    var rest := script[2..];
    FailsTwiceIsFirstTwo(rest);
    if FailsFirst(script, 4) {
      assert rest[0] == script[2] && rest[1] == script[3];
    }
    if FailsFirst(rest, 2) {
      assert forall i :: 2 <= i < 4 ==> script[i] == rest[i - 2];
    }
  }

  /** Where in the initialisation effect the component was unmounted, if at all. */
  datatype Cancel = NotCancelled | BeforeLoadResolved | DuringInitialSave

  class WardProvider {
    var ward: Option<Ward>
    var isLoading: bool
    const store: Store

    constructor (store: Store)
      ensures this.store == store && ward.None? && isLoading
    {
      this.store := store;
      ward := None;
      isLoading := true;
    }

    /** `getBed`: undefined while no ward is loaded. */
    function GetBed(id: string): (r: Option<Bed>)
      reads this
      ensures ward.None? ==> r.None?
      ensures ward.Some? ==> r == FindBed(ward.value.beds, id)
    {
      if ward.None? then None else FindBed(ward.value.beds, id)
    }

    /** The initialisation effect: the stored ward if one loads, else a fresh
        initial ward, which alone is saved (a failed save is swallowed). When
        a ward loads, nothing is awaited between the check of `cancelled` and
        `setIsLoading(false)`, so an unmount during the initial save only
        matters when there is a save. */
    method Initialise(newId: nat -> string, cancel: Cancel)
      modifies this, store
      ensures store.readFault == old(store.readFault)
      ensures var loaded := LoadedWard(Read(old(store.data), old(store.readFault), WARD_KEY));
        && (cancel == BeforeLoadResolved ==>
              && ward == old(ward) && isLoading == old(isLoading) && store.data == old(store.data)
              && store.writeScript == old(store.writeScript) && store.writes == old(store.writes))
        && (cancel != BeforeLoadResolved ==>
              && ward == Some(if loaded.Some? then loaded.value else CreateInitialWard(newId))
              && (loaded.Some? ==>
                    store.data == old(store.data) && store.writeScript == old(store.writeScript)
                    && store.writes == old(store.writes))
              && (loaded.None? ==>
                    && store.data == (if FailsTwice(old(store.writeScript)) then old(store.data)
                                      else old(store.data)[WARD_KEY := Decodable(EncodeWard(ward.value))])
                    && store.writeScript == SaveScript(old(store.writeScript))
                    && store.writes == old(store.writes) + SaveWrites(old(store.writeScript)))
              && isLoading == (cancel == DuringInitialSave && loaded.None? && old(isLoading)))
    {
      var loaded := LoadWard(Read(store.data, store.readFault, WARD_KEY));
      if cancel == BeforeLoadResolved { return; }
      var next := if loaded.Some? then loaded.value else CreateInitialWard(newId);
      ward := Some(next);
      if loaded.None? {
        var _ := SaveWard(store, next);
      }
      if cancel != DuringInitialSave || loaded.Some? {
        isLoading := false;
      }
    }

    /** `persist(next)`: the state is replaced first, then the ward is saved,
        and saved once more if that fails; a second failure is swallowed. */
    method Persist(next: Ward)
      modifies this, store
      ensures ward == Some(next) && isLoading == old(isLoading)
      ensures PersistedStore(next)
    {
      ward := Some(next);
      var ok := SaveWard(store, next);
      if !ok {
        FailsFourSplit(old(store.writeScript));
        FailsTwiceIsFirstTwo(old(store.writeScript));
        ok := SaveWard(store, next);
      } else {
        FailsTwiceIsFirstTwo(old(store.writeScript));
      }
    }

    /** The store after `persist(next)`: the ward is stored unless four
        attempts in a row fail, the attempts used are consumed and counted,
        and read faults are as they were. */
    twostate predicate PersistedStore(next: Ward)
      reads store
    {
      && store.data == Persisted(old(store.data), old(store.writeScript), next)
      && store.writeScript == PersistScript(old(store.writeScript))
      && store.writes == old(store.writes) + PersistWrites(old(store.writeScript))
      && store.readFault == old(store.readFault)
    }

    /** A mutator with no loaded ward: nothing changes, nothing is written. */
    twostate predicate Untouched()
      reads this, store
    {
      ward == old(ward) && isLoading == old(isLoading)
      && store.data == old(store.data) && store.writes == old(store.writes)
      && store.writeScript == old(store.writeScript) && store.readFault == old(store.readFault)
    }

    method UpdateTitle(title: string)
      modifies this, store
      ensures old(ward).None? ==> Untouched()
      ensures old(ward).Some? ==>
        ward == Some(WithTitle(old(ward).value, title)) && isLoading == old(isLoading) && PersistedStore(ward.value)
    {
      if ward.None? { return; }
      Persist(WithTitle(ward.value, title));
    }

    method UpdateWardNumber(wardNumber: string)
      modifies this, store
      ensures old(ward).None? ==> Untouched()
      ensures old(ward).Some? ==>
        ward == Some(WithWardNumber(old(ward).value, wardNumber)) && isLoading == old(isLoading) && PersistedStore(ward.value)
    {
      if ward.None? { return; }
      Persist(WithWardNumber(ward.value, wardNumber));
    }

    method AddBedsToWard(count: int, newId: nat -> string)
      modifies this, store
      ensures old(ward).None? || count < 1 ==> Untouched()
      ensures old(ward).Some? && count >= 1 ==>
        ward == Some(AddBeds(old(ward).value, count, newId)) && isLoading == old(isLoading) && PersistedStore(ward.value)
    {
      if ward.None? || count < 1 { return; }
      Persist(AddBeds(ward.value, count, newId));
    }

    method DeleteBedFromWard(id: string)
      modifies this, store
      ensures old(ward).None? ==> Untouched()
      ensures old(ward).Some? ==>
        ward == Some(DeleteBed(old(ward).value, id)) && isLoading == old(isLoading) && PersistedStore(ward.value)
    {
      if ward.None? { return; }
      Persist(DeleteBed(ward.value, id));
    }

    method Discharge(id: string)
      modifies this, store
      ensures old(ward).None? ==> Untouched()
      ensures old(ward).Some? ==>
        ward == Some(DischargePatient(old(ward).value, id)) && isLoading == old(isLoading) && PersistedStore(ward.value)
    {
      if ward.None? { return; }
      Persist(DischargePatient(ward.value, id));
    }

    method SetBedPatient(id: string, patient: PatientData)
      modifies this, store
      ensures old(ward).None? ==> Untouched()
      ensures old(ward).Some? ==>
        ward == Some(UpdateBedPatient(old(ward).value, id, patient)) && isLoading == old(isLoading) && PersistedStore(ward.value)
    {
      if ward.None? { return; }
      Persist(UpdateBedPatient(ward.value, id, patient));
    }
  }

  /** Two edits in a row with no write failing: the store ends up holding the
      second edit's ward, after exactly two writes, and loading is unaffected. */
  method RetitleTwice(provider: WardProvider, first: string, second: string)
    requires provider.ward.Some? && provider.store.writeScript == []
    modifies provider, provider.store
    ensures provider.ward == Some(WithTitle(WithTitle(old(provider.ward).value, first), second))
    ensures provider.store.data == old(provider.store.data)[WARD_KEY := Decodable(EncodeWard(provider.ward.value))]
    ensures provider.store.writes == old(provider.store.writes) + 2 && provider.store.writeScript == []
    ensures provider.isLoading == old(provider.isLoading) && provider.store.readFault == old(provider.store.readFault)
  {
    provider.UpdateTitle(first);
    provider.UpdateTitle(second);
  }
}
