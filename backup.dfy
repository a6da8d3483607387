/** lib/backup.ts: the backup envelope (export and import of the ward,
    preferences, reference cards and phrases under one versioned object), and
    the HTML the backup PDF is printed from. Reading and writing the backup
    file, printing and sharing are not modelled: the file's decoded content
    and the export date are parameters. */
module Backup {
  import opened Optional
  import opened Json
  import opened Text
  import opened Html
  import opened Types
  import opened Sorting
  import opened KeyValueStore
  import opened ListStore
  import opened WardStorage
  import opened Preferences
  import opened ReferencesStorage
  import opened PhrasesStorage

  // ---------------------------------------------------------------------------
  // Export

  /** The payload `exportBackupAsJson` serialises: version 1, the loaded ward
      (or null), the loaded preferences, references and phrases. */
  function ExportPayload(ward: Option<Ward>, prefs: UserPreferences, refs: seq<ReferenceCard>, phrases: seq<string>): Json {
    JObj(map[
      "version" := JNum(1),
      "ward" := (if ward.Some? then EncodeWard(ward.value) else JNull),
      "preferences" := EncodePreferences(prefs),
      "references" := JArr(EncodeCards(refs)),
      "phrases" := JArr(EncodePhrases(phrases))])
  }

  /** The export of what the store holds. The phrases are read inline: a read
      error, a missing or empty value, undecodable text or a non-array give [],
      otherwise the string elements, which is what `loadPhrases` gives. */
  function ExportedPayload(data: map<string, RawText>, readFault: bool): Json {
    ExportPayload(LoadedWard(Read(data, readFault, WARD_KEY)),
                  LoadedPreferences(Read(data, readFault, PREFERENCES_KEY)),
                  LoadedReferences(Read(data, readFault, REFERENCES_KEY)),
                  LoadedPhrases(Read(data, readFault, PHRASES_KEY)))
  }

  // ---------------------------------------------------------------------------
  // Import

  /** `isBackupPayload`: a non-array object whose `version` is the number 1
      and whose `ward` is null or an object with a string `id`; an absent
      `ward` is rejected. */
  predicate IsBackupPayload(v: Json) {
    && v.JObj?
    && Field(v, "version") == Some(JNum(1))
    && Field(v, "ward").Some?
    && (Field(v, "ward").value.JNull? || (Field(v, "ward").value.JObj? && StringField(Field(v, "ward").value, "id").Some?))
  }

  /** `x ?? d` on a field: the default for an absent or null field. */
  function OrDefault(f: Option<Json>, d: Json): (r: Json)
    ensures (f.None? || f.value.JNull?) ==> r == d
    ensures f.Some? && !f.value.JNull? ==> r == f.value
  {
    if f.None? || f.value.JNull? then d else f.value
  }

  /** The key/value pairs the import writes, in order: the ward only when it is
      not null, then preferences (default `{}`), references and phrases
      (default `[]`), each as found in the file. */
  function ImportPairs(v: Json): seq<(string, Json)>
    requires IsBackupPayload(v)
  {
    var ward := Field(v, "ward").value;
    (if ward.JObj? then [(WARD_KEY, ward)] else [])
    + [ (PREFERENCES_KEY, OrDefault(Field(v, "preferences"), JObj(map[]))),
        (REFERENCES_KEY, OrDefault(Field(v, "references"), JArr([]))),
        (PHRASES_KEY, OrDefault(Field(v, "phrases"), JArr([]))) ]
  }

  datatype ImportOutcome =
    | Unparsable    // `JSON.parse` throws
    | InvalidFile   // 'Invalid backup file'
    | WriteFailed   // `multiSet` throws
    | Imported

  /** `importBackupFromJson`: validate, plan the pairs, write them in one
      `multiSet`. Nothing is written unless the envelope is valid. */
  method ImportBackup(store: Store, content: RawText) returns (outcome: ImportOutcome)
    modifies store
    ensures outcome == Unparsable <==> content.Undecodable?
    ensures outcome == InvalidFile <==> content.Decodable? && !IsBackupPayload(content.value)
    ensures outcome in {Unparsable, InvalidFile} ==>
      store.data == old(store.data) && store.writes == old(store.writes) && store.writeScript == old(store.writeScript)
    ensures outcome in {WriteFailed, Imported} ==>
      && store.writes == old(store.writes) + 1
      && (outcome == Imported <==> !NextWriteFails(old(store.writeScript)))
      && store.writeScript == Consume(old(store.writeScript))
      && store.data == if outcome == Imported then WriteAll(old(store.data), ImportPairs(content.value)) else old(store.data)
    ensures store.readFault == old(store.readFault)
  {
    if content.Undecodable? {
      return Unparsable;
    }
    var parsed := content.value;
    if !IsBackupPayload(parsed) {
      return InvalidFile;
    }
    var pairs: seq<(string, Json)> := [];
    if Field(parsed, "ward").value.JObj? {
      pairs := pairs + [(WARD_KEY, Field(parsed, "ward").value)];
    }
    pairs := pairs + [(PREFERENCES_KEY, OrDefault(Field(parsed, "preferences"), JObj(map[])))];
    pairs := pairs + [(REFERENCES_KEY, OrDefault(Field(parsed, "references"), JArr([])))];
    pairs := pairs + [(PHRASES_KEY, OrDefault(Field(parsed, "phrases"), JArr([])))];
    assert pairs == ImportPairs(parsed);
    var ok := store.MultiSet(pairs);
    outcome := if ok then Imported else WriteFailed;
  }

  /** What a successful import leaves in the store: the ward only when the
      file's ward is not null (a null ward keeps the stored one), and the other
      three keys with the file's values or their defaults; every other key is
      untouched. */
  lemma ImportedContents(data: map<string, RawText>, v: Json, key: string)
    requires IsBackupPayload(v)
    ensures var after := WriteAll(data, ImportPairs(v));
      var ward := Field(v, "ward").value;
      && (ward.JObj? ==> WARD_KEY in after && after[WARD_KEY] == Decodable(ward))
      && (ward.JNull? ==> (WARD_KEY in after <==> WARD_KEY in data))
      && (ward.JNull? && WARD_KEY in data ==> after[WARD_KEY] == data[WARD_KEY])
      && PREFERENCES_KEY in after && after[PREFERENCES_KEY] == Decodable(OrDefault(Field(v, "preferences"), JObj(map[])))
      && REFERENCES_KEY in after && after[REFERENCES_KEY] == Decodable(OrDefault(Field(v, "references"), JArr([])))
      && PHRASES_KEY in after && after[PHRASES_KEY] == Decodable(OrDefault(Field(v, "phrases"), JArr([])))
      && (key !in {WARD_KEY, PREFERENCES_KEY, REFERENCES_KEY, PHRASES_KEY} ==>
            (key in after <==> key in data) && (key in data ==> after[key] == data[key]))
  {
    var pairs := ImportPairs(v);
    var w := if Field(v, "ward").value.JObj? then 1 else 0;
    assert forall i, j :: 0 <= i < j < |pairs| ==> pairs[i].0 != pairs[j].0;
    if w == 1 {
      WriteAllWritten(data, pairs, 0);
    } else {
      WriteAllUntouched(data, pairs, WARD_KEY);
    }
    WriteAllWritten(data, pairs, w);
    WriteAllWritten(data, pairs, w + 1);
    WriteAllWritten(data, pairs, w + 2);
    if key !in {WARD_KEY, PREFERENCES_KEY, REFERENCES_KEY, PHRASES_KEY} {
      WriteAllUntouched(data, pairs, key);
    }
  }

  /** An export is always a valid backup. */
  lemma ExportIsValid(ward: Option<Ward>, prefs: UserPreferences, refs: seq<ReferenceCard>, phrases: seq<string>)
    ensures IsBackupPayload(ExportPayload(ward, prefs, refs, phrases))
  {
  }

  /** The store after importing an export. */
  function AfterImport(data: map<string, RawText>, ward: Option<Ward>, prefs: UserPreferences,
                       refs: seq<ReferenceCard>, phrases: seq<string>): map<string, RawText>
  {
    ExportIsValid(ward, prefs, refs, phrases);
    WriteAll(data, ImportPairs(ExportPayload(ward, prefs, refs, phrases)))
  }

  /** What importing an export writes under each of the four keys. */
  lemma AfterImportContents(data: map<string, RawText>, ward: Option<Ward>, prefs: UserPreferences,
                            refs: seq<ReferenceCard>, phrases: seq<string>)
    ensures var after := AfterImport(data, ward, prefs, refs, phrases);
      && (ward.Some? ==> WARD_KEY in after && after[WARD_KEY] == Decodable(EncodeWard(ward.value)))
      && (ward.None? ==> Read(after, false, WARD_KEY) == Read(data, false, WARD_KEY))
      && Read(after, false, PREFERENCES_KEY) == Stored(Some(Decodable(EncodePreferences(prefs))))
      && Read(after, false, REFERENCES_KEY) == Stored(Some(Decodable(JArr(EncodeCards(refs)))))
      && Read(after, false, PHRASES_KEY) == Stored(Some(Decodable(JArr(EncodePhrases(phrases)))))
  {
    var v := ExportPayload(ward, prefs, refs, phrases);
    ExportIsValid(ward, prefs, refs, phrases);
    assert Field(v, "preferences") == Some(EncodePreferences(prefs));
    assert Field(v, "references") == Some(JArr(EncodeCards(refs)));
    assert Field(v, "phrases") == Some(JArr(EncodePhrases(phrases)));
    ImportedContents(data, v, "");
  }

  /** Importing an export restores the ward, minus what a save and load drop;
      with no ward exported the stored one stays. */
  lemma ExportThenImportWard(data: map<string, RawText>, ward: Option<Ward>, prefs: UserPreferences,
                             refs: seq<ReferenceCard>, phrases: seq<string>)
    requires ward.Some? ==> forall i :: 0 <= i < |ward.value.beds| ==> ward.value.beds[i].number >= 1
    ensures LoadedWard(Read(AfterImport(data, ward, prefs, refs, phrases), false, WARD_KEY)) ==
      if ward.Some? then Some(NormalizedWard(ward.value)) else LoadedWard(Read(data, false, WARD_KEY))
  {
    AfterImportContents(data, ward, prefs, refs, phrases);
    if ward.Some? { WardRoundTrip(ward.value); }
  }

  /** Importing an export restores the preferences, completed. */
  lemma ExportThenImportPreferences(data: map<string, RawText>, ward: Option<Ward>, prefs: UserPreferences,
                                    refs: seq<ReferenceCard>, phrases: seq<string>)
    ensures LoadedPreferences(Read(AfterImport(data, ward, prefs, refs, phrases), false, PREFERENCES_KEY)) == Completed(prefs)
  {
    AfterImportContents(data, ward, prefs, refs, phrases);
    Preferences.SaveThenLoad(data, prefs);
    assert Read(data[PREFERENCES_KEY := Decodable(EncodePreferences(prefs))], false, PREFERENCES_KEY)
        == Stored(Some(Decodable(EncodePreferences(prefs))));
  }

  /** Importing an export restores the reference cards, in load order. */
  lemma ExportThenImportReferences(data: map<string, RawText>, ward: Option<Ward>, prefs: UserPreferences,
                                   refs: seq<ReferenceCard>, phrases: seq<string>)
    ensures LoadedReferences(Read(AfterImport(data, ward, prefs, refs, phrases), false, REFERENCES_KEY)) == SortBy(refs, ByOrder)
  {
    AfterImportContents(data, ward, prefs, refs, phrases);
    LoadedCards(refs);
  }

  /** Importing an export restores the phrases. */
  lemma ExportThenImportPhrases(data: map<string, RawText>, ward: Option<Ward>, prefs: UserPreferences,
                                refs: seq<ReferenceCard>, phrases: seq<string>)
    ensures LoadedPhrases(Read(AfterImport(data, ward, prefs, refs, phrases), false, PHRASES_KEY)) == phrases
  {
    AfterImportContents(data, ward, prefs, refs, phrases);
    PhrasesStorage.SaveThenLoad(data, phrases);
    assert Read(data[PHRASES_KEY := Decodable(JArr(EncodePhrases(phrases)))], false, PHRASES_KEY)
        == Stored(Some(Decodable(JArr(EncodePhrases(phrases)))));
  }

  /** Stored cards come back in load order. */
  lemma LoadedCards(refs: seq<ReferenceCard>)
    ensures LoadedReferences(Stored(Some(Decodable(JArr(EncodeCards(refs)))))) == SortBy(refs, ByOrder)
  {
    var enc := EncodeCards(refs);
    forall i | 0 <= i < |enc| ensures ParseReferenceCard(enc[i]) == Some(refs[i]) {
      CardRoundTrip(refs[i]);
    }
    KeepParsedAll(enc, ParseReferenceCard);
    assert KeepParsed(enc, ParseReferenceCard) == refs;
  }

  // ---------------------------------------------------------------------------
  // The backup PDF

  /** The replacements of `escape`, as one per-character table. */
  function BackupEscapeChar(c: char): (r: string)
    ensures c !in "&<>\"" ==> r == [c]
  {
    if c == '&' then "&amp;"
    else if c == '<' then "&lt;"
    else if c == '>' then "&gt;"
    else if c == '"' then "&quot;"
    else [c]
  }

  /** `escape`: four global replaces, `&` first. */
  function Escape(s: string): string {
    ReplaceChar(ReplaceChar(ReplaceChar(ReplaceChar(s, '&', "&amp;"), '<', "&lt;"), '>', "&gt;"), '"', "&quot;")
  }

  function EscapeAmp(x: char): string {
    if x == '&' then "&amp;" else [x]
  }

  function EscapeAmpLt(x: char): string {
    if x == '&' then "&amp;" else if x == '<' then "&lt;" else [x]
  }

  function EscapeAmpLtGt(x: char): string {
    if x == '&' then "&amp;" else if x == '<' then "&lt;" else if x == '>' then "&gt;" else [x]
  }

  /** A one-character string through `ReplaceChar`. */
  lemma ReplaceOne(x: char, c: char, r: string)
    ensures ReplaceChar([x], c, r) == if x == c then r else [x]
  {
    assert [x][1..] == [];
  }

  lemma EscapeStep1(s: string)
    ensures ReplaceChar(s, '&', "&amp;") == MapChars(s, EscapeAmp)
  {
    ReplaceCharIsMap(s, '&', "&amp;", EscapeAmp);
  }

  lemma EscapeStep2(s: string)
    ensures ReplaceChar(MapChars(s, EscapeAmp), '<', "&lt;") == MapChars(s, EscapeAmpLt)
  {
    forall x ensures ReplaceChar(EscapeAmp(x), '<', "&lt;") == EscapeAmpLt(x) {
      if x == '&' { ReplaceCharAbsent("&amp;", '<', "&lt;"); } else { ReplaceOne(x, '<', "&lt;"); }
    }
    ReplaceCharOfMap(s, EscapeAmp, EscapeAmpLt, '<', "&lt;");
  }

  lemma EscapeStep3(s: string)
    ensures ReplaceChar(MapChars(s, EscapeAmpLt), '>', "&gt;") == MapChars(s, EscapeAmpLtGt)
  {
    forall x ensures ReplaceChar(EscapeAmpLt(x), '>', "&gt;") == EscapeAmpLtGt(x) {
      if x == '&' { ReplaceCharAbsent("&amp;", '>', "&gt;"); }
      else if x == '<' { ReplaceCharAbsent("&lt;", '>', "&gt;"); }
      else { ReplaceOne(x, '>', "&gt;"); }
    }
    ReplaceCharOfMap(s, EscapeAmpLt, EscapeAmpLtGt, '>', "&gt;");
  }

  lemma EscapeStep4(s: string)
    ensures ReplaceChar(MapChars(s, EscapeAmpLtGt), '"', "&quot;") == MapChars(s, BackupEscapeChar)
  {
    forall x ensures ReplaceChar(EscapeAmpLtGt(x), '"', "&quot;") == BackupEscapeChar(x) {
      if x == '&' { ReplaceCharAbsent("&amp;", '"', "&quot;"); }
      else if x == '<' { ReplaceCharAbsent("&lt;", '"', "&quot;"); }
      else if x == '>' { ReplaceCharAbsent("&gt;", '"', "&quot;"); }
      else { ReplaceOne(x, '"', "&quot;"); }
    }
    ReplaceCharOfMap(s, EscapeAmpLtGt, BackupEscapeChar, '"', "&quot;");
  }

  /** Replacing `&` first means no reference produced by a later step is
      touched again: the chain is the per-character table. */
  lemma EscapeIsPerChar(s: string)
    ensures Escape(s) == MapChars(s, BackupEscapeChar)
  {
    EscapeStep1(s);
    EscapeStep2(s);
    EscapeStep3(s);
    EscapeStep4(s);
  }

  /** The escaped text has no raw `<`, `>` or `"`, and decoding the references
      gives the text back. */
  lemma EscapeSafe(s: string)
    ensures '<' !in Escape(s) && '>' !in Escape(s) && '"' !in Escape(s)
    ensures Unescape(Escape(s)) == s
  {
    EscapeIsPerChar(s);
    EscapeAvoids(s);
    BackupEscapeRoundTrip(s);
  }

  /** No replacement holds a raw `<`, `>` or `"`. */
  lemma BackupEscapeCharSafe()
    ensures forall x :: '<' !in BackupEscapeChar(x) && '>' !in BackupEscapeChar(x) && '"' !in BackupEscapeChar(x)
  {
    forall x ensures '<' !in BackupEscapeChar(x) && '>' !in BackupEscapeChar(x) && '"' !in BackupEscapeChar(x) {
      if x in "&<>\"" {
        assert x == '&' || x == '<' || x == '>' || x == '"';
      }
    }
  }

  lemma EscapeAvoids(s: string)
    ensures var e := MapChars(s, BackupEscapeChar);
      '<' !in e && '>' !in e && '"' !in e
  {
    BackupEscapeCharSafe();
    MapCharsAvoids(s, BackupEscapeChar, '<');
    MapCharsAvoids(s, BackupEscapeChar, '>');
    MapCharsAvoids(s, BackupEscapeChar, '"');
  }

  lemma {:induction false} BackupEscapeRoundTrip(s: string)
    ensures Unescape(MapChars(s, BackupEscapeChar)) == s
  {
    if s != [] {
      BackupEscapeRoundTrip(s[1..]);
      UnescapeStep(BackupEscapeChar(s[0]), s[0], MapChars(s[1..], BackupEscapeChar));
      assert s == [s[0]] + s[1..];
    }
  }

  const EM_DASH := "—"

  /** `x || '—'` on a string. */
  function OrDash(s: string): (r: string)
    ensures r != []
  {
    if s == [] then EM_DASH else s
  }

  /** The text of a Dx or Plan entry, cut to 80 characters, or `—`. */
  function SummaryText(content: Option<DxPlanContent>): (r: string)
    ensures r != [] && |r| <= 80
  {
    OrDash(Take(if content.Some? then content.value.text.GetOr("") else "", 80))
  }

  /** The patient cell: the name as stored (an empty name stays empty), or
      `—` with no patient or no name. */
  function NameText(bed: Bed): string {
    if bed.patient.Some? && bed.patient.value.name.Some? then bed.patient.value.name.value else EM_DASH
  }

  function BedRowHtml(b: Bed): string {
    var p := b.patient;
    "<tr><td>" + Dec(b.number) + "</td><td>" + Escape(NameText(b))
    + "</td><td>" + Escape(SummaryText(if p.Some? then p.value.dx else None))
    + "</td><td>" + Escape(SummaryText(if p.Some? then p.value.plan else None)) + "</td></tr>"
  }

  /** `ward.beds.map(...).join('')`: one row per bed, in ward order. */
  function BedRowsHtml(beds: seq<Bed>): string {
    ConcatMap(beds, BedRowHtml)
  }

  const WARD_TABLE_HEAD := "<table class=\"inv-table\"><thead><tr><th>Bed</th><th>Patient</th><th>Diagnosis</th><th>Plan</th></tr></thead><tbody>"
  const WARD_SECTION_TAIL := "</tbody></table></div></div>"

  function WardHeader(w: Ward): string {
    "<div class=\"section\"><div class=\"section-title\">Ward</div><div class=\"section-content\"><p><strong>"
    + Escape(w.title) + "</strong> — Ward " + Escape(w.wardNumber.GetOr("")) + "</p><p>" + Dec(|w.beds|) + " bed(s)</p>"
  }

  /** The ward section, absent without a ward. */
  function WardSection(ward: Option<Ward>): (html: string)
    ensures ward.None? ==> html == ""
  {
    if ward.None? then "" else WardHeader(ward.value) + WARD_TABLE_HEAD + BedRowsHtml(ward.value.beds) + WARD_SECTION_TAIL
  }

  /** The Dx and Plan cells show at most 80 characters of the text and never
      show an empty cell: an empty or absent text shows `—`. The cells decode
      back to exactly that text. */
  lemma SummaryCell(content: Option<DxPlanContent>)
    ensures var shown := SummaryText(content); var text := if content.Some? then content.value.text.GetOr("") else "";
      && Unescape(Escape(shown)) == shown
      && (text == [] ==> shown == EM_DASH)
      && (text != [] ==> shown == text[..|shown|] && |shown| == if |text| <= 80 then |text| else 80)
  {
    EscapeSafe(SummaryText(content));
  }

  /** The rows of a ward list: adding a bed adds its row after the others. */
  lemma BedRowsHtmlAppend(beds: seq<Bed>, b: Bed)
    ensures BedRowsHtml(beds + [b]) == BedRowsHtml(beds) + BedRowHtml(b)
  {
    ConcatMapSnoc(beds, b, BedRowHtml);
  }

  function RefHtml(r: ReferenceCard): string {
    "<p><strong>" + Escape(r.title) + "</strong><br/>" + ReplaceChar(Escape(r.body), '\n', "<br/>") + "</p>"
  }

  function RefsHtml(refs: seq<ReferenceCard>): string {
    ConcatMap(refs, RefHtml)
  }

  const REF_SECTION_OPEN := "<div class=\"section\"><div class=\"section-title\">Quick reference</div><div class=\"section-content\">"

  /** The quick-reference section, absent without cards. */
  function RefSection(refs: seq<ReferenceCard>): (html: string)
    ensures html == "" <==> refs == []
  {
    if refs == [] then ""
    else
      var html := REF_SECTION_OPEN + RefsHtml(refs) + "</div></div>";
      assert |html| >= |"</div></div>"| > 0;
      html
  }

  /** A card body's line breaks become `<br/>`: the body text has no raw
      newline left. */
  lemma RefBodyLines(body: string)
    ensures '\n' !in ReplaceChar(Escape(body), '\n', "<br/>")
  {
    ReplaceCharRemoves(Escape(body), '\n', "<br/>");
  }

  /** `buildBackupPdfHtml`, without its style sheet; the preferences argument
      is unused by the source. */
  function BackupPdfHtml(ward: Option<Ward>, refs: seq<ReferenceCard>, date: string): string {
    "<!DOCTYPE html><html><head><meta charset=\"utf-8\"/></head><body><div class=\"doc-header\"><div class=\"doc-title\">RoundsHub Backup</div><div class=\"doc-subtitle\">"
    + date + "</div></div>" + WardSection(ward) + RefSection(refs) + "</body></html>"
  }
}
