# RoundsHub ward data layer and editors, in Dafny

RoundsHub is a mobile app for surgical ward rounds. A ward has a title, a
ward number and numbered beds; a bed may hold a patient with a name, an age,
Dx and Plan notes (typed text plus an optional handwritten drawing) and a
table of investigations. Everything is kept on the device in a key/value
store as JSON text: the ward, the preferences, the quick-reference cards,
the saved phrases, the checklists and the sketches. A backup exports these
keys into one JSON file and imports them again. The bed card and the ward
can also be printed as HTML, with a sanitised PDF file name.

This project models that core:

- `kv_store.dfy`: the key/value store as a class whose data, scripted write
  failures and write counter the operations update; multi-key writes are
  all-or-nothing.
- `json.dfy`, `types.dfy`, `optional.dfy`: JSON values (numbers as integers),
  the record types of the app, and `Option`.
- `ward_storage.dfy`, `preferences.dfy`, `phrases_storage.dfy`,
  `references_storage.dfy`, `checklist_storage.dfy`, `sketches_storage.dfy`,
  `list_store.dfy`, `bed_utils.dfy`: loading, normalising and saving each
  stored key, with the decode/encode round trips and the orderings the
  loaders promise.
- `ward_context.dfy`: the ward provider (a class) and the pure ward updates
  it applies: add beds, delete and renumber, discharge, update a patient,
  and the save that retries once after a failure.
- `backup.dfy`: backup export and import, and the HTML ward summary.
- `pdf_export.dfy`: the bed card as HTML and the PDF file name.
- `text.dfy`, `sorting.dfy`, `html.dfy`: `trim`, `parseInt`, `String(n)`,
  `padStart`, `slice`, string order, a stable sort, and character-wise
  replacement, each with the laws the rest relies on.
- `canvas.dfy`, `text_input_area.dfy`, `handwriting_editor.dfy`,
  `editor_modal.dfy`, `inv_table.dfy`, `inv_cell_editor.dfy`,
  `date_picker.dfy`, `patient_form.dfy`, `modal_confirmation.dfy`,
  `loading_screen.dfy`: the React components. A component's state is a
  class. Each handler, effect, canvas callback and timer is a method, and
  the values it passes to its callbacks are recorded in a field or
  returned. A timer firing is an event the caller chooses to deliver, so
  races between a canvas answer and its fallback timer can be stated as
  methods that deliver events in either order.

Three behaviours of the code are modelled as written:

- Identity fields are only checked to be strings, so an empty `id` is accepted. See `lib/storage.ts:19`, `lib/storage.ts:26`, `lib/storage.ts:61`, `lib/checklist-storage.ts:25`, `lib/references-storage.ts:14` and `lib/sketches-storage.ts:19`.
- The initial ward is built from the constants at `contexts/ward-context.tsx:31-42`. The stored preferences play no part in it.
- `addBeds` with a count below 1 returns without a change (`contexts/ward-context.tsx:115`).

## Model

| member | source | states |
|---|---|---|
| WardStorage.ParseInvRow | lib/storage.ts:26-35 | an `inv` element is kept exactly when it is an object with a string `id` |
| WardStorage.ParseDxPlan | lib/storage.ts:24-25 | `dx`/`plan` is kept exactly when it is a non-array object |
| WardStorage.ParseAge | lib/storage.ts:38 | the age is kept exactly when it is a number in 1..150, and then unchanged |
| Types.ParseGender | lib/storage.ts:39 | a gender is kept exactly when it is `Male`, `Female` or `Other`, and it spells itself |
| Types.GenderRoundTrip | lib/types.ts:26 | every gender reads back as itself |
| WardStorage.ParseBedAccepts | lib/storage.ts:15-20 | a bed parses exactly when it is an object with a string id and a number of at least 1, and keeps both |
| WardStorage.ParseBedsAllOrNothing | lib/storage.ts:63-68 | the beds parse exactly when every element parses; then they keep count and order |
| WardStorage.OneBadBedRejectsWard | lib/storage.ts:64-66 | one bed that does not parse rejects the whole ward |
| WardStorage.WardNumberRule | lib/storage.ts:60-62 | a parsed ward's `wardNumber` was absent, null or a string, and is kept only when a string |
| WardStorage.ParsedWardShape | lib/storage.ts:19-43 | every parsed ward has bed numbers of at least 1, no admission or discharge date, ages in 1..150 and no empty `inv` |
| WardStorage.ParseWardFromJson | lib/storage.ts:49-70 | the loop returns the ward of the reference function `ParseWardText`: null for undecodable text, a wrong envelope or any bad bed |
| WardStorage.LoadWard | lib/storage.ts:72-80 | a read error or a missing or empty value gives null; otherwise the parse |
| WardStorage.InvRowRoundTrip | lib/storage.ts:26-35 | a saved investigation row parses back to itself |
| WardStorage.InvRowsRoundTrip | lib/storage.ts:26-35 | a saved list of rows parses back to the same list |
| WardStorage.DxPlanRoundTrip | lib/storage.ts:40-41 | saved Dx/Plan content parses back to itself |
| WardStorage.IdentityKept | lib/storage.ts:83 | the later members of a saved patient leave its name, age and gender members alone |
| WardStorage.EncodedName | lib/storage.ts:37 | a saved patient's `name` member is read back as the name |
| WardStorage.EncodedAge | lib/storage.ts:38 | a saved patient's `age` member is read back as the age |
| WardStorage.EncodedGender | lib/storage.ts:39 | a saved patient's `gender` member is read back as the gender's name |
| WardStorage.PatientRoundTrip | lib/storage.ts:21-43 | a saved patient loads back as its normalised form: none without a trigger field, no dates, out-of-range age and empty `inv` dropped |
| WardStorage.BedRoundTrip | lib/storage.ts:15-47 | a saved bed loads back normalised, or not at all when its number is below 1 |
| WardStorage.BedsRoundTrip | lib/storage.ts:63-68 | a saved bed list loads back normalised, or not at all when any number is below 1 |
| WardStorage.EncodedWardMembers | lib/storage.ts:56-62 | a saved ward passes the envelope checks and keeps id, title, beds and ward number |
| WardStorage.WardRoundTrip | lib/storage.ts:49-70 | load after save gives the normalised ward, or null when a bed number is below 1 |
| WardStorage.CanonicalWardRoundTrip | lib/storage.ts:49-70 | a ward already in loaded form survives save and load unchanged |
| WardStorage.EmptiedPatientIsDroppedOnReload | lib/storage.ts:23 | loading is not idempotent through a save: a patient with only an out-of-range age is attached empty, then dropped |
| WardStorage.SaveWard | lib/storage.ts:82-93 | one retry on failure; it throws only when both writes fail; the store changes only on success |
| WardStorage.SaveThenLoad | lib/storage.ts:72-93 | after a successful save, loading gives the normalised ward |
| Preferences.ParseBedsPerRow | lib/preferences.ts:14-17 | exactly the numbers 2..6 are kept; anything else gives 4 |
| Preferences.ParseTheme | lib/preferences.ts:19-22 | `light` and `dark` are kept; anything else gives `system` |
| Preferences.ThemeRoundTrip | lib/preferences.ts:19-22 | every theme name reads back as the theme |
| Preferences.ParseBedCount | lib/preferences.ts:34-37 | the count is always in 1..100, and a number in 1..100 is kept |
| Preferences.PreferencesFrom | lib/preferences.ts:28-40 | every field is present and validated on its own; strings are kept, others default; a non-object gives the defaults |
| Preferences.LoadedPreferences | lib/preferences.ts:24-44 | always complete; a read error, a missing or empty value or undecodable text gives the defaults |
| Preferences.SavePreferences | lib/preferences.ts:46-55 | one write of the defaulted payload; the store changes only on success; the write consumes one scripted attempt and counts one write, and read faults are unchanged |
| Preferences.SaveThenLoad | lib/preferences.ts:24-55 | load after save gives the preferences completed with defaults and a valid bed count |
| Preferences.CompleteIsFixed | lib/preferences.ts:46-53 | complete preferences survive save and load unchanged |
| PhrasesStorage.AsString | lib/phrases-storage.ts:11 | the string type guard: exactly the JSON strings pass |
| PhrasesStorage.SavePhrases | lib/phrases-storage.ts:17-19 | one write of the list as given; the store changes only on success; the write consumes one scripted attempt and counts one write, and read faults are unchanged |
| PhrasesStorage.StringsOfStrings | lib/phrases-storage.ts:11 | an array of strings is read back whole |
| PhrasesStorage.NonStringDropped | lib/phrases-storage.ts:11 | a non-string element is dropped without disturbing the others |
| PhrasesStorage.SaveThenLoad | lib/phrases-storage.ts:5-19 | load after save gives the same phrases |
| BedUtils.HasContentIff | lib/bed-utils.ts:3-5 | a value has content exactly when it holds a character that is not white space |
| BedUtils.GetBedDataIndicators | lib/bed-utils.ts:31-41 | no patient gives all indicators off; dx and plan show whether that content is present |
| BedUtils.DataIffSomeIndicator | lib/bed-utils.ts:11-41 | a bed has patient data exactly when one of its indicators is on |
| BedUtils.IndicatorMeaning | lib/bed-utils.ts:36-39 | the name indicator is a non-blank name, any age (0 too) or a gender; the inv indicator is a non-empty list |
| BedUtils.EmptyPatientHasNoData | lib/bed-utils.ts:11-22 | an empty patient record and a missing patient are not patient data |
| ListStore.StoredArray | lib/references-storage.ts:21-24 | a non-empty result is the stored, decodable array |
| ListStore.LoadSorted | lib/references-storage.ts:19-35 | the loop pushes exactly the elements that parse, then sorts, as the loaders' reference function `LoadedList` does |
| ListStore.LoadedListSortedPermutation | lib/references-storage.ts:25-31 | the loaded list is ordered by the comparator and is a permutation of the elements that parsed |
| ListStore.LoadedListEmptyCases | lib/references-storage.ts:19-34 | a read error, a missing or empty value, undecodable text or a non-array gives [] |
| ListStore.LoadedListSkipsBad | lib/references-storage.ts:26-29 | an element that fails to parse is skipped without affecting the rest |
| ChecklistStorage.ParseItem | lib/checklist-storage.ts:17-35 | null unless an object with string id and text; `done` only when `true`; a non-number order is 0; a date only when ISO-shaped |
| ChecklistStorage.ChecklistLeIsTotalPreorder | lib/checklist-storage.ts:48-56 | the comparator is a total preorder, so the stable sort is well defined |
| ChecklistStorage.LoadChecklist | lib/checklist-storage.ts:37-61 | returns the load function's list |
| ChecklistStorage.LoadedChecklistOrder | lib/checklist-storage.ts:48-56 | dated items come first, by date; equal dates and undated items go by order; nothing is lost or added |
| ChecklistStorage.Renumbered | lib/checklist-storage.ts:64 | same length, each item with `order` set to its position |
| ChecklistStorage.SaveChecklist | lib/checklist-storage.ts:63-66 | one write of the renumbered list; the store changes only on success; the write consumes one scripted attempt and counts one write, and read faults are unchanged |
| ChecklistStorage.ItemRoundTrip | lib/checklist-storage.ts:17-35 | an item with an absent or ISO-shaped date parses back to itself |
| ChecklistStorage.SaveThenLoad | lib/checklist-storage.ts:37-66 | load after save gives the renumbered items in load order |
| ChecklistStorage.CreateChecklistItem | lib/checklist-storage.ts:68-75 | a new item is not done, undated, with the given text and order |
| ReferencesStorage.ParseReferenceCard | lib/references-storage.ts:7-17 | null unless an object with string id, title and body; a non-number order is 0 |
| ReferencesStorage.LoadReferences | lib/references-storage.ts:19-35 | returns the load function's list |
| ReferencesStorage.LoadedReferencesOrder | lib/references-storage.ts:25-31 | ascending order, a permutation of what parsed, and cards of equal order keep their stored order |
| ReferencesStorage.Renumbered | lib/references-storage.ts:38-40 | same cards in the same order, `order` set to the position |
| ReferencesStorage.SaveReferences | lib/references-storage.ts:37-42 | one write of the renumbered list; the store changes only on success; the write consumes one scripted attempt and counts one write, and read faults are unchanged |
| ReferencesStorage.CardRoundTrip | lib/references-storage.ts:7-17 | a saved card parses back to itself |
| ReferencesStorage.SaveThenLoad | lib/references-storage.ts:19-42 | load after save gives the cards back in the saved order |
| ReferencesStorage.ConsecutiveOrdersFixed | lib/references-storage.ts:30 | cards numbered k, k+1, ... in list order are left in place by the sort |
| ReferencesStorage.CreateReferenceCard | lib/references-storage.ts:44-51 | a new card has the given title, body and order |
| SketchesStorage.ParseSketch | lib/sketches-storage.ts:13-23 | null unless an object with string id and title; a non-string `updatedAt` becomes the given clock reading `now`; the image only when a string |
| SketchesStorage.NewestFirstIsTotalPreorder | lib/sketches-storage.ts:36 | the comparator is a total preorder |
| SketchesStorage.LoadSketches | lib/sketches-storage.ts:25-41 | returns the load function's list |
| SketchesStorage.LoadedSketchesOrder | lib/sketches-storage.ts:31-37 | newest first, a permutation of what parsed |
| SketchesStorage.SaveSketches | lib/sketches-storage.ts:43-45 | one write of the list as given; the store changes only on success; the write consumes one scripted attempt and counts one write, and read faults are unchanged |
| SketchesStorage.SketchRoundTrip | lib/sketches-storage.ts:13-23 | a saved sketch parses back to itself, whatever the current time |
| SketchesStorage.SaveThenLoad | lib/sketches-storage.ts:25-45 | load after save gives the saved sketches newest first |
| SketchesStorage.CreateSketch | lib/sketches-storage.ts:47-54 | a new sketch has the given title, image and time |
| SketchesStorage.SketchDisplayTitle | lib/sketches-storage.ts:57-60 | the trimmed title, or `Untitled sketch` when blank; never blank or padded |
| KeyValueStore.Read | lib/storage.ts:74 | a failing read throws; otherwise it yields the stored text exactly when the key is present, else null |
| KeyValueStore.Store.SetItem | lib/storage.ts:85 | one counted attempt: on success exactly that key takes the value, on failure nothing changes |
| KeyValueStore.Store.MultiSet | lib/backup.ts:176 | one counted, all-or-nothing attempt: on success every pair is written in order, on failure nothing |
| KeyValueStore.WriteAllUntouched | lib/backup.ts:176 | a key no pair names keeps its presence and contents |
| KeyValueStore.WriteAllWritten | lib/backup.ts:176 | a key named by exactly one pair holds that pair's value afterwards |
| Json.Field | lib/storage.ts:11-13 | a member is found exactly when the value is a (non-array) object holding the key |
| Json.StringField | lib/storage.ts:17-19 | the `typeof x === 'string'` guard: a string exactly when the member exists and is a JSON string |
| Json.NumberField | lib/storage.ts:18-19 | the `typeof x === 'number'` guard: a number exactly when the member exists and is a JSON number |
| Json.Put | lib/storage.ts:83 | `JSON.stringify` drops undefined members: an absent value adds nothing, a present one is set, other keys keep their presence |
| Json.PutKeepsOther | lib/storage.ts:83 | setting one member leaves every other member's lookup unchanged |
| Json.FieldPut | lib/storage.ts:83 | a lookup after a set gives the new value for that key when present, the old lookup otherwise |
| Json.KeepParsedAppend | lib/references-storage.ts:25-29 | the keep-what-parses loop over two lists is the loop over each, concatenated |
| Json.KeepParsedAll | lib/references-storage.ts:25-29 | when every element parses, all are kept, in order |
| Json.KeepParsedSkips | lib/references-storage.ts:25-29 | an element that does not parse is skipped without affecting its neighbours |
| Text.HasTextIff | lib/bed-utils.ts:3-5 | `value.trim()` is non-empty exactly when the value holds a character that is not white space |
| Text.TrimIsInfix | lib/sketches-storage.ts:58 | `trim()` gives a contiguous part of the text, with only white space cut at either end and none left at its ends |
| Text.TrimIdempotent | components/ward/keyboard-handwriting-editor-modal.tsx:69 | trimming twice is trimming once |
| Text.ParseInt | components/ward/patient-form.tsx:56 | `parseInt(text, 10)` is NaN exactly when no digit follows the leading white space and an optional sign |
| Text.ParseIntDigits | components/ward/patient-form.tsx:56 | a string of digits parses to its decimal value |
| Text.DecNatValue | components/ward/patient-form.tsx:26 | `String(n)` reads back as `n` |
| Text.LexLeTotal | lib/checklist-storage.ts:54 | the string order used for `localeCompare` relates any two strings |
| Text.LexLeTransitive | lib/checklist-storage.ts:54 | the string order is transitive |
| Text.LexLeAntisymmetric | lib/checklist-storage.ts:54 | strings ordered both ways are equal |
| Sorting.SortByPermutes | lib/references-storage.ts:30 | `Array.prototype.sort` loses and adds nothing: the result is a permutation of the input |
| Sorting.SortBySorted | lib/references-storage.ts:30 | under a total-preorder comparator the result is ordered |
| Sorting.SortByStable | lib/references-storage.ts:30 | the sort is stable: elements the comparator ties keep their input order |
| Sorting.SortByKeepsOrdered | lib/references-storage.ts:30 | an already ordered list is left unchanged |
| Sorting.InsertPermutes | lib/references-storage.ts:30 | one insertion step adds exactly the inserted element |
| Sorting.InsertSorted | lib/references-storage.ts:30 | inserting into an ordered list keeps it ordered |
| Sorting.InsertTies | lib/references-storage.ts:30 | inserting keeps the tied elements in input order, the inserted one first |
| Html.ConcatMapSnoc | lib/backup.ts:83-88 | `map(...).join('')` of a list with one more item ends with that item's text |
| Html.ReplaceCharRemoves | lib/backup.ts:99 | a global replace of a character by text without it leaves none of it |
| Html.MapCharsAvoids | lib/pdf-export.ts:29 | a per-character replacement whose pieces avoid a character gives text without it |
| WardContext.DenseIsDistinct | contexts/ward-context.tsx:131-133 | beds numbered 1..N have distinct numbers |
| WardContext.CreateInitialWard | contexts/ward-context.tsx:31-42 | twelve empty beds numbered 1..12 with the drawn ids, titled `Surgery Department`, ward number `1` |
| WardContext.WithTitle | contexts/ward-context.tsx:95-102 | only the title changes |
| WardContext.WithWardNumber | contexts/ward-context.tsx:104-111 | the empty string clears the ward number, any other text sets it; nothing else changes |
| WardContext.MaxNumber | contexts/ward-context.tsx:116 | `Math.max(...numbers, 0)`: at least 0, at least every bed number, and 0 or some bed's number |
| WardContext.AddBeds | contexts/ward-context.tsx:113-125 | a count below 1 changes nothing; otherwise the old beds are kept in front and `count` empty beds follow, numbered on from the maximum |
| WardContext.AddBedsKeepsNumbersDistinct | contexts/ward-context.tsx:116-121 | every new bed is numbered above every old one, so distinct numbers stay distinct |
| WardContext.AddBedsKeepsDense | contexts/ward-context.tsx:116-121 | on beds numbered 1..N the new beds continue the numbering |
| WardContext.ByNumberIsTotalPreorder | contexts/ward-context.tsx:132 | the comparator `a.number - b.number` is a total preorder |
| WardContext.DeleteBed | contexts/ward-context.tsx:127-137 | the ward keeps id, title and ward number, and the beds are numbered 1..N |
| WardContext.DeleteBedKeepsIdsAndPatients | contexts/ward-context.tsx:130-133 | the renumbered beds are the sorted survivors one for one, keeping id and patient; none has the deleted id |
| WardContext.DeleteBedSortsSurvivors | contexts/ward-context.tsx:130-132 | the survivors are a permutation of the other beds, ordered by their old numbers |
| WardContext.DeleteBedIsStable | contexts/ward-context.tsx:132 | beds with equal numbers keep their relative order |
| WardContext.DeleteBedKeepsOthers | contexts/ward-context.tsx:130 | every bed without the id survives as often as it was present |
| WardContext.FilterCountsKept | contexts/ward-context.tsx:130 | the filter keeps every occurrence of a bed with another id |
| WardContext.DischargePatient | contexts/ward-context.tsx:139-148 | beds with the id lose their patient; every other bed and field is unchanged |
| WardContext.UpdateBedPatient | contexts/ward-context.tsx:150-159 | beds with the id get exactly the given patient (no merge); everything else is unchanged |
| WardContext.UnknownIdChangesNothing | contexts/ward-context.tsx:139-159 | an id no bed has leaves the ward unchanged under discharge and update |
| WardContext.EditsKeepDense | contexts/ward-context.tsx:95-159 | title, ward-number, discharge and patient edits keep beds numbered 1..N |
| WardContext.FindBed | contexts/ward-context.tsx:162 | `find`: none exactly when no bed has the id, else the first bed with it |
| WardContext.UpdateThenFind | contexts/ward-context.tsx:150-164 | after an update, looking the bed up finds the new patient |
| WardContext.FailsTwiceIsFirstTwo | lib/storage.ts:82-93 | a save fails exactly when its first two write attempts fail |
| WardContext.FailsFourSplit | contexts/ward-context.tsx:82-93 | the retried save also fails exactly when the first four attempts fail |
| WardContext.WardProvider.constructor | contexts/ward-context.tsx:45-46 | no ward, loading |
| WardContext.WardProvider.GetBed | contexts/ward-context.tsx:161-164 | undefined while no ward is loaded, else the first bed with the id |
| WardContext.WardProvider.Initialise | contexts/ward-context.tsx:48-80 | the stored ward when one loads (store untouched), else a fresh initial ward saved by one `saveWard` (its attempts consumed and counted); loading ends unless unmounted before the load or during that save; read faults unchanged |
| WardContext.WardProvider.Persist | contexts/ward-context.tsx:82-93 | the state is replaced at once; the store holds the ward unless the first four write attempts fail; exactly the one to four attempts of one or two `saveWard` calls are consumed and counted; loading and read faults unchanged |
| WardContext.WardProvider.UpdateTitle | contexts/ward-context.tsx:95-102 | no-op without a ward (store and script untouched); otherwise the state holds the retitled ward, persisted: the store holds it unless the first four write attempts fail, with the attempts consumed and counted and loading unchanged |
| WardContext.WardProvider.UpdateWardNumber | contexts/ward-context.tsx:104-111 | no-op without a ward (store and script untouched); otherwise the state holds the new ward number, persisted as for the title |
| WardContext.WardProvider.AddBedsToWard | contexts/ward-context.tsx:113-125 | no-op without a ward or for a count below 1 (store and script untouched); otherwise the beds are added and persisted as for the title |
| WardContext.WardProvider.DeleteBedFromWard | contexts/ward-context.tsx:127-137 | no-op without a ward (store and script untouched); otherwise the deletion is applied and persisted as for the title |
| WardContext.WardProvider.Discharge | contexts/ward-context.tsx:139-148 | no-op without a ward (store and script untouched); otherwise the discharge is applied and persisted as for the title |
| WardContext.WardProvider.SetBedPatient | contexts/ward-context.tsx:150-159 | no-op without a ward (store and script untouched); otherwise the patient is set and persisted as for the title |
| WardContext.RetitleTwice | contexts/ward-context.tsx:82-102 | with no write failing, two edits in a row leave the store holding the second edit's ward after exactly two writes |
| Backup.OrDefault | lib/backup.ts:173-175 | `x ?? d`: the default for an absent or null member, the member otherwise |
| Backup.ImportBackup | lib/backup.ts:163-177 | undecodable text and an invalid envelope write nothing; a valid one makes one all-or-nothing write of the planned pairs, consuming one scripted attempt; read faults are never changed |
| Backup.ImportedContents | lib/backup.ts:169-176 | a null ward keeps the stored ward; the other three keys take the file's values or their defaults; other keys are untouched |
| Backup.ExportIsValid | lib/backup.ts:153-161 | every exported payload passes the import check |
| Backup.AfterImportContents | lib/backup.ts:163-177 | importing an export stores the encoded ward (or keeps the old one), preferences, cards and phrases |
| Backup.ExportThenImportWard | lib/backup.ts:163-177 | importing the payload built at lines 39-45 restores the normalised ward, or keeps the stored one when none was exported |
| Backup.ExportThenImportPreferences | lib/backup.ts:163-177 | importing an export restores the preferences, completed with defaults |
| Backup.ExportThenImportReferences | lib/backup.ts:163-177 | importing an export restores the reference cards in load order |
| Backup.ExportThenImportPhrases | lib/backup.ts:163-177 | importing an export restores the phrases exactly |
| Backup.LoadedCards | lib/references-storage.ts:19-35 | stored cards load back sorted by order |
| Backup.BackupEscapeChar | lib/backup.ts:66-71 | every character other than `& < > "` is kept as it is |
| Backup.EscapeIsPerChar | lib/backup.ts:66-71 | the four global replaces, `&` first, act as one per-character table: no reference is escaped twice |
| Backup.EscapeSafe | lib/backup.ts:66-71 | escaped text has no raw `<`, `>` or `"`, and decoding its references gives the text back |
| Backup.BackupEscapeCharSafe | lib/backup.ts:66-71 | no replacement holds a raw `<`, `>` or `"` |
| Backup.BackupEscapeRoundTrip | lib/backup.ts:66-71 | decoding the references of the per-character escape gives the text back |
| Backup.OrDash | lib/backup.ts:86 | `x \|\| '—'` is never empty |
| Backup.SummaryText | lib/backup.ts:86 | a Dx/Plan cell is never empty and at most 80 characters |
| Backup.SummaryCell | lib/backup.ts:86 | an empty text shows `—`; otherwise the cell is the first 80 characters of the text, and it decodes back to itself |
| Backup.WardSection | lib/backup.ts:72-93 | no ward, no section |
| Backup.BedRowsHtmlAppend | lib/backup.ts:83-88 | one row per bed, in ward order |
| Backup.RefSection | lib/backup.ts:94-102 | the quick-reference section is empty exactly when there are no cards |
| Backup.RefBodyLines | lib/backup.ts:99 | no raw newline is left in a card body |
| PdfExport.EscapeHtmlChar | lib/pdf-export.ts:21-30 | every character other than `& < > " '` is kept as it is |
| PdfExport.EscapeHtmlCharSafe | lib/pdf-export.ts:21-30 | no replacement holds a raw `<`, `>`, `"` or `'` |
| PdfExport.EscapeHtml | lib/pdf-export.ts:21-30 | the escaped text has no raw `<`, `>`, `"` or `'` |
| PdfExport.EscapeHtmlRoundTrip | lib/pdf-export.ts:21-30 | decoding the references gives the text back |
| PdfExport.EscapeHtmlKeepsPlainText | lib/pdf-export.ts:21-30 | text without any of the five characters is unchanged |
| PdfExport.BuildPatientSection | lib/pdf-export.ts:32-43 | the pushes build the patient section: one line per present field, in order, or nothing |
| PdfExport.PatientSectionContents | lib/pdf-export.ts:32-43 | the section is empty exactly when no field is present; a present age, 0 included, is printed |
| PdfExport.ImageSrc | lib/pdf-export.ts:50 | always a `data:` URL; a data URL is kept, anything else is taken as base64 PNG |
| PdfExport.ImageSrcIdempotent | lib/pdf-export.ts:50 | building the source twice is building it once |
| PdfExport.BuildDxPlanSection | lib/pdf-export.ts:45-54 | the pushes build the Dx/Plan section of text and image |
| PdfExport.DxPlanSectionEmpty | lib/pdf-export.ts:46 | the section is empty exactly when there is neither text nor image |
| PdfExport.Cell | lib/pdf-export.ts:61 | a table cell has no raw `<` and decodes to the value, '' when absent |
| PdfExport.InvTable | lib/pdf-export.ts:56-72 | the investigations table is empty exactly when there are no rows |
| PdfExport.BedBodySections | lib/pdf-export.ts:74-94 | no patient prints only the heading; otherwise patient, Dx, Plan and investigations follow in that order |
| PdfExport.KeepFilenameChars | lib/pdf-export.ts:98 | only word characters, white space and `-` remain, and nothing is added |
| PdfExport.CollapseRuns | lib/pdf-export.ts:99-100 | each run becomes the one replacement; every other character is from the input |
| PdfExport.CollapseHyphensNoDouble | lib/pdf-export.ts:100 | after collapsing, no two hyphens are adjacent |
| PdfExport.StripEdgeHyphens | lib/pdf-export.ts:101 | a contiguous part of the input that, without double hyphens, does not start with `-` |
| PdfExport.SanitizeFilenamePartShape | lib/pdf-export.ts:96-103 | a part uses only `[A-Za-z0-9_-]`, has no double hyphen, does not start with `-` and is at most `maxLen` long |
| PdfExport.WardNumberPart | lib/pdf-export.ts:107 | never empty, no white space, and `0` for an absent or empty number |
| PdfExport.NamePart | lib/pdf-export.ts:110-111 | empty exactly for a blank or absent name; else `-` and the sanitised trimmed name, at most 31 characters |
| PdfExport.BedPdfFilename | lib/pdf-export.ts:105-113 | starts with `{dept}-Ward{n}-Bed{k}` and ends with `-{date}.pdf` |
| InvTable.ImageField | components/ward/inv-table.tsx:49-54 | the image key of a column is never its text key |
| InvTable.GetCellContent | components/ward/inv-table.tsx:49-54 | the cell's text is the column's field and its image the `${column}Image` field |
| InvTable.CellEmptiness | components/ward/inv-table.tsx:71-85 | a date cell is empty without non-blank text; other cells also need no non-blank drawing of 400 or more characters |
| InvTable.Merge | components/ward/inv-table.tsx:168 | the spread never changes the id |
| InvTable.MergeFields | components/ward/inv-table.tsx:168 | the merge writes exactly the named fields, an explicit undefined included |
| InvTable.UpdatedRowsShape | components/ward/inv-table.tsx:165-174 | an update keeps length, order and ids, changes only rows with the id, and nothing for an unknown id |
| InvTable.OrUndefined | components/ward/inv-table.tsx:181-182 | `x \|\| undefined`: an empty string becomes absent, anything else is kept |
| InvTable.CellUpdateFields | components/ward/inv-table.tsx:176-186 | a cell update sets the column's text and image (empty as absent) and leaves the other four fields |
| InvTable.NewRow | components/ward/inv-table.tsx:190 | a new row has the fresh id and no fields |
| InvTable.RowsWithout | components/ward/inv-table.tsx:199 | the rows without the id: none has it, every other row is kept, nothing is added |
| InvTable.RowsWithoutAppend | components/ward/inv-table.tsx:199 | removal keeps the surviving rows in their order |
| InvTable.RowsWithoutAbsent | components/ward/inv-table.tsx:196-205 | removing an id no row has changes nothing |
| InvTable.InitialRows | components/ward/inv-table.tsx:136-139 | the given rows, or one fresh row for none |
| InvTable.ClampRowHeight | components/ward/inv-table.tsx:575-578 | the dragged height is clamped to 44..240 and kept when already inside |
| InvTable.InvTableEditor.constructor | components/ward/inv-table.tsx:136-143 | the draft starts from the initial rows, with no heights and no removal pending |
| InvTable.InvTableEditor.RowHeight | components/ward/inv-table.tsx:157-163 | the recorded height, or 56 |
| InvTable.InvTableEditor.SyncRows | components/ward/inv-table.tsx:151-155 | a non-empty `rows` prop replaces the draft; an empty one is ignored |
| InvTable.InvTableEditor.UpdateRow | components/ward/inv-table.tsx:165-174 | the draft becomes the updated rows, which are passed to `onChange` |
| InvTable.InvTableEditor.UpdateCell | components/ward/inv-table.tsx:176-186 | the cell's update is applied and passed on |
| InvTable.InvTableEditor.AddRow | components/ward/inv-table.tsx:188-194 | one fresh row is appended and the list passed on |
| InvTable.InvTableEditor.AskRemove | components/ward/inv-table.tsx:258 | a long press marks the row for removal and changes nothing else |
| InvTable.InvTableEditor.RemoveRow | components/ward/inv-table.tsx:196-205 | nothing without a marked row or when its id is empty (`!confirmRemoveId`); otherwise its rows go, the list is passed on and the mark cleared |
| InvTable.InvTableEditor.DismissRemove | components/ward/inv-table.tsx:342 | closing the removal dialog drops the mark and changes nothing else |
| InvTable.ConfirmRemove | components/ward/modal-confirmation.tsx:47-55 | confirming removes the marked rows only under a non-empty id and always ends with no row marked |
| InvTable.InvTableEditor.DragRowHeight | components/ward/inv-table.tsx:571-580 | the row's height becomes the clamped drag, within 44..240 |
| InvCellEditor.ColumnLabel | components/ward/inv-cell-editor.tsx:15-19 | the labels `Date`, `Investigation` and `Findings` |
| InvCellEditor.RowToDxPlan | components/ward/inv-cell-editor.tsx:30-37 | the column's text ('' when absent) and its image |
| InvCellEditor.SaveUnchangedIsIdentity | components/ward/inv-cell-editor.tsx:30-37 | saving a cell's content back unchanged leaves a row without empty strings as it was |
| InvCellEditor.CellEditorDialog.constructor | components/ward/inv-cell-editor.tsx:39-47 | an open dialog with nothing saved |
| InvCellEditor.CellEditorDialog.HandleChange | components/ward/inv-cell-editor.tsx:50-56 | the content is saved, then the dialog closes |
| EditorModal.UnsavedChangesLaws | components/ward/keyboard-handwriting-editor-modal.tsx:63-72 | content never differs from itself, the comparison is symmetric, and absent content equals empty content |
| EditorModal.PaddingIsNoChange | components/ward/keyboard-handwriting-editor-modal.tsx:63-72 | text differing only in surrounding white space is not a change |
| EditorModal.Separator | components/ward/keyboard-handwriting-editor-modal.tsx:109 | a space exactly when the text is non-empty and does not end with one |
| EditorModal.InsertPhrase | components/ward/keyboard-handwriting-editor-modal.tsx:105-114 | the text becomes the old text, the separator and the phrase; the image is kept |
| EditorModal.InsertPhraseAppends | components/ward/keyboard-handwriting-editor-modal.tsx:105-114 | the new text starts with the old text, ends with the phrase, and is at most one character longer than both |
| EditorModal.EditorModalState.constructor | components/ward/keyboard-handwriting-editor-modal.tsx:54-56 | the draft starts as the value, nothing saved, no prompt |
| EditorModal.EditorModalState.SetProps | components/ward/keyboard-handwriting-editor-modal.tsx:59-61 | when `open` or `value` changed and the modal is open, the draft is reset to the value; otherwise it is kept |
| EditorModal.EditorModalState.Close | components/ward/keyboard-handwriting-editor-modal.tsx:74-77 | closes and hides the discard prompt |
| EditorModal.EditorModalState.EditorChange | components/ward/keyboard-handwriting-editor-modal.tsx:225 | what the user types or draws becomes the draft; nothing else changes |
| EditorModal.EditorModalState.Cancel | components/ward/keyboard-handwriting-editor-modal.tsx:79-85 | with unsaved changes it asks and stays open; otherwise it closes |
| EditorModal.EditorModalState.PressFooterCancel | components/ward/keyboard-handwriting-editor-modal.tsx:242-248 | the footer's Cancel does nothing while saving; otherwise it cancels |
| EditorModal.EditThenCancel | components/ward/keyboard-handwriting-editor-modal.tsx:79-85 | after an edit, cancelling asks exactly when the edited content differs from the value, and closes otherwise |
| EditorModal.EditorModalState.ConfirmDiscard | components/ward/keyboard-handwriting-editor-modal.tsx:87-90 | closes without saving |
| EditorModal.EditorModalState.DismissDiscardPrompt | components/ward/keyboard-handwriting-editor-modal.tsx:262 | "Keep editing" hides the prompt and leaves the modal open with its draft |
| EditorModal.EditorModalState.StartSave | components/ward/keyboard-handwriting-editor-modal.tsx:92-96 | Save does nothing while saving (`disabled={saving}`) or without a mounted editor; otherwise `saving` is set and the modal stays open until the content arrives |
| EditorModal.EditorModalState.ContentArrived | components/ward/keyboard-handwriting-editor-modal.tsx:97-102 | the awaited content is saved once, the modal closes and `saving` is cleared; without a save in progress nothing changes |
| EditorModal.EditorModalState.ContentFailed | components/ward/keyboard-handwriting-editor-modal.tsx:97-102 | a failed content request clears `saving` and saves nothing |
| EditorModal.SaveFlow | components/ward/keyboard-handwriting-editor-modal.tsx:92-103 | a save whose content arrives saves it exactly once even if Save is pressed again meanwhile, and closes the modal |
| EditorModal.EditorModalState.InsertPhraseIntoDraft | components/ward/keyboard-handwriting-editor-modal.tsx:105-114 | the draft becomes the phrase insertion; nothing else changes |
| HandwritingEditor.SignatureContent | components/ward/keyboard-handwriting-editor.tsx:99-107 | the trimmed draft, and the signature when not blank, else the stored image |
| HandwritingEditor.FallbackContent | components/ward/keyboard-handwriting-editor.tsx:116-125 | the trimmed draft and the stored image |
| HandwritingEditor.BlankSignatureIsFallback | components/ward/keyboard-handwriting-editor.tsx:99-125 | a blank canvas answers exactly as the fallback does |
| HandwritingEditor.AnswerKeepsDrawing | components/ward/keyboard-handwriting-editor.tsx:104 | the answer's image is the new signature or the stored one; a stored drawing is never lost |
| HandwritingEditor.HandwritingEditorState.constructor | components/ward/keyboard-handwriting-editor.tsx:41-51 | the draft is the value's text, the pen is selected, no request made |
| HandwritingEditor.HandwritingEditorState.SetValue | components/ward/keyboard-handwriting-editor.tsx:57-59 | the draft follows the value only when `value?.text` changed |
| HandwritingEditor.HandwritingEditorState.TextChange | components/ward/keyboard-handwriting-editor.tsx:91-97 | the typed text, untrimmed, is the draft and is passed on with the stored image |
| HandwritingEditor.HandwritingEditorState.ClearDrawing | components/ward/keyboard-handwriting-editor.tsx:157-160 | a new canvas: key bumped, not ready, no pending tool, pen selected |
| HandwritingEditor.HandwritingEditorState.CanvasLoaded | components/ward/keyboard-handwriting-editor.tsx:86-89 | the canvas is ready |
| HandwritingEditor.HandwritingEditorState.ReadyToolTimeout | components/ward/keyboard-handwriting-editor.tsx:68-84 | once ready, the pending tool (or the pen) is selected and the pending tool cleared |
| HandwritingEditor.HandwritingEditorState.ChooseTool | components/ward/keyboard-handwriting-editor.tsx:131-155 | a ready canvas selects the tool; otherwise the tool is remembered |
| HandwritingEditor.HandwritingEditorState.GetContent | components/ward/keyboard-handwriting-editor.tsx:112-115 | a new numbered request takes the resolver slot |
| HandwritingEditor.HandwritingEditorState.SignatureResult | components/ward/keyboard-handwriting-editor.tsx:99-107 | the waiting request, if any, is answered from the signature and the slot emptied |
| HandwritingEditor.HandwritingEditorState.ContentTimeout | components/ward/keyboard-handwriting-editor.tsx:116-125 | if any resolver waits, the slot is emptied and this timer's request is answered from the draft |
| HandwritingEditor.GetContentRace | components/ward/keyboard-handwriting-editor.tsx:112-125 | one request is answered exactly once, by whichever of signature and fallback comes first |
| HandwritingEditor.OverlappingRequests | components/ward/keyboard-handwriting-editor.tsx:112-125 | with two requests inside 500 ms, the first request's resolver is called again to no effect and the second request is never answered |
| TextInputArea.DrawingThreshold | components/ward/text-input-area.tsx:108 | a 400-character drawing is not meaningful here |
| TextInputArea.ContentIff | components/ward/text-input-area.tsx:105-109 | content exactly when the text has a non-space character or the image is over 400 characters and not blank |
| TextInputArea.TrimmedOrAbsent | components/ward/text-input-area.tsx:124 | absent exactly for blank text, else the trimmed, non-empty text |
| TextInputArea.NonEmptyOrAbsent | components/ward/text-input-area.tsx:126 | absent exactly for an absent or empty string |
| TextInputArea.SignatureContent | components/ward/text-input-area.tsx:122-135 | the trimmed draft or absent, and the signature when not blank, else the stored image with empty as absent |
| TextInputArea.FallbackContent | components/ward/text-input-area.tsx:140-149 | the trimmed draft or absent, and the stored image |
| TextInputArea.TextInputAreaState.constructor | components/ward/text-input-area.tsx:41-51 | the draft is the value's text, no tool, nothing emitted |
| TextInputArea.TextInputAreaState.SetValue | components/ward/text-input-area.tsx:57-59 | the draft follows the value only when `value?.text` changed |
| TextInputArea.TextInputAreaState.TypeText | components/ward/text-input-area.tsx:276 | typing sets only the draft |
| TextInputArea.TextInputAreaState.ExitDrawingMode | components/ward/text-input-area.tsx:117-120 | no tool, pen mode off |
| TextInputArea.TextInputAreaState.RemountCanvas | components/ward/text-input-area.tsx:61-65 | key bumped, not ready, no pending tool |
| TextInputArea.TextInputAreaState.CanvasLoaded | components/ward/text-input-area.tsx:304 | the canvas is ready |
| TextInputArea.TextInputAreaState.ReadyTimeout | components/ward/text-input-area.tsx:87-92 | the fallback makes the canvas ready only while editing |
| TextInputArea.TextInputAreaState.PendingToolTimeout | components/ward/text-input-area.tsx:67-85 | a ready canvas with a pending tool selects it and enters pen mode; otherwise nothing |
| TextInputArea.TextInputAreaState.ChooseTool | components/ward/text-input-area.tsx:160-188 | a ready canvas selects the tool and enters pen mode; otherwise the tool is remembered |
| TextInputArea.TextInputAreaState.Save | components/ward/text-input-area.tsx:137-150 | a save becomes pending |
| TextInputArea.TextInputAreaState.SignatureResult | components/ward/text-input-area.tsx:122-135 | always emits the signature content; ends editing only when a save was pending |
| TextInputArea.TextInputAreaState.SaveTimeout | components/ward/text-input-area.tsx:140-149 | only a still-pending save emits the fallback and ends editing |
| TextInputArea.TextInputAreaState.CancelDrawing | components/ward/text-input-area.tsx:190-197 | a meaningful drawing asks first; otherwise a new canvas and drawing mode ends |
| TextInputArea.TextInputAreaState.KeepEditing | components/ward/text-input-area.tsx:373 | "Keep editing" hides the discard-drawing prompt and keeps the drawing and every other field |
| TextInputArea.TextInputAreaState.ConfirmDiscardDrawing | components/ward/text-input-area.tsx:199-203 | the prompt closes, the canvas is replaced and drawing mode ends |
| TextInputArea.TextInputAreaState.StartEdit | components/ward/text-input-area.tsx:205-208 | editing starts with no tool selected |
| TextInputArea.TextInputAreaState.DoneEdit | components/ward/text-input-area.tsx:210-213 | editing and drawing mode end |
| TextInputArea.TextInputAreaState.Unmount | components/ward/text-input-area.tsx:94-103 | the draft is emitted on unmount exactly when its trimmed text differs from the stored text's |
| TextInputArea.SaveRace | components/ward/text-input-area.tsx:122-150 | a save ends editing whichever answer comes first; a late signature still emits |
| DatePicker.ParseIsoDate | components/ui/date-picker-field.tsx:22-26 | a date comes only from text of the `YYYY-MM-DD` shape, which is handed to the engine with `T12:00:00` |
| DatePicker.InitialDate | components/ui/date-picker-field.tsx:55-58 | without a value of that shape the picker opens on today |
| DatePicker.TwoDigitsValue | components/ui/date-picker-field.tsx:30-31 | a number below 100 pads to two digits that read back as the number |
| DatePicker.IsoDateShape | components/ui/date-picker-field.tsx:28-33 | a date of a four-digit year prints in `YYYY-MM-DD` shape, its parts reading back as year, month and day |
| DatePicker.OtherYearsBreakShape | components/ui/date-picker-field.tsx:20-33 | a year outside 1000..9999 prints as text the field itself refuses |
| DatePicker.WebChangeMeaning | components/ui/date-picker-field.tsx:87-96 | blank text clears the date, text of the shape is passed on unchanged, anything else is ignored |
| DatePicker.AndroidResult | components/ui/date-picker-field.tsx:78-80 | only a `set` event with a date passes on that date |
| DatePicker.DatePickerField.constructor | components/ui/date-picker-field.tsx:53 | the inline picker starts closed |
| DatePicker.DatePickerField.OpenPicker | components/ui/date-picker-field.tsx:72-85 | the inline picker opens except on Android |
| DatePicker.DatePickerField.Dismiss | components/ui/date-picker-field.tsx:149 | a tap on the backdrop closes the inline picker |
| DatePicker.DatePickerField.NativeChange | components/ui/date-picker-field.tsx:62-70 | a selected date is passed on and the picker closes; a dismissal changes nothing |
| DatePicker.EmittedDatesHaveShape | components/ui/date-picker-field.tsx:22-33 | a picked date of a four-digit year prints as text the field accepts and, whatever the engine, hands to it with `T12:00:00` |
| PatientForm.ParsedAge | components/ward/patient-form.tsx:55-62 | an age only for non-empty text whose `parseInt` is within 1..150, and then that number |
| PatientForm.NameEdited | components/ward/patient-form.tsx:19-40 | the name is the text, none for ''; every other field is kept |
| PatientForm.AgeEdited | components/ward/patient-form.tsx:55-62 | the age is the parsed age; every other field is kept |
| PatientForm.NameRoundTrip | components/ward/patient-form.tsx:16-40 | the name input shows exactly what was typed |
| PatientForm.AgeRoundTrip | components/ward/patient-form.tsx:26-62 | every accepted age shows as text that parses back to itself |
| PatientForm.RejectedAgeClears | components/ward/patient-form.tsx:57-62 | an out-of-range number clears the age rather than keeping the old one |
| LoadingScreen.GetBedsPerRow | components/ui/loading-screen.tsx:21-26 | 3 below 400, 4 below 600, 5 below 800, 6 from 800 |
| LoadingScreen.BedsPerRowBounds | components/ui/loading-screen.tsx:21-26 | between 3 and 6, and never fewer for a wider window |
| ModalConfirmation.ButtonVariantOf | components/ward/modal-confirmation.tsx:28-32 | the confirm button is destructive exactly for `delete`, and each variant maps to its own button |
| ModalConfirmation.AsWrittenDropsDelete | components/ward/modal-confirmation.tsx:91-93 | as written, `delete` through the wrapper becomes `info`, whose button is not destructive |
| ModalConfirmation.LegacyVariantOf | components/ward/modal-confirmation.tsx:91-93 | `destructive` is `delete`, `default` and none are `info`, every consent variant is kept |
| ModalConfirmation.LegacyVariantDestructive | components/ward/modal-confirmation.tsx:85-94 | the corrected wrapper's button is destructive exactly for `delete` and `destructive`, and it agrees with the code elsewhere |
| ModalConfirmation.ConsentModalState.constructor | components/ward/modal-confirmation.tsx:44 | not loading, nothing called |
| ModalConfirmation.ConsentModalState.PressConfirm | components/ward/modal-confirmation.tsx:47-76 | disabled while loading; otherwise loading starts with one `onConfirm` call |
| ModalConfirmation.ConsentModalState.ConfirmSettled | components/ward/modal-confirmation.tsx:49-54 | the dialog closes only on success; loading ends either way |
| ModalConfirmation.ConsentModalState.PressCancel | components/ward/modal-confirmation.tsx:70 | disabled while loading; otherwise the dialog closes |
| ModalConfirmation.ConfirmTwice | components/ward/modal-confirmation.tsx:47-76 | a double press calls `onConfirm` once; the dialog closes only after success |
| Text.Take | lib/backup.ts:86 | `slice(0, n)`: the first `n` characters, or the whole text when shorter |
| Text.PadStart2 | components/ui/date-picker-field.tsx:30-31 | `padStart(2, '0')`: at least two characters, ending with the text, zeros in front |
| Text.DecNat | components/ward/patient-form.tsx:26 | `String(n)`: non-empty decimal digits without a leading zero |
| Text.TrimStartShape | lib/sketches-storage.ts:58 | `trimStart` removes a prefix of white space and nothing else, leaving no white space in front |
| Text.TrimEndShape | lib/sketches-storage.ts:58 | `trimEnd` removes a suffix of white space and nothing else, leaving no white space at the end |

## Left out

- File I/O, the share sheet, printing to PDF and the `expo-file-system` / `expo-print` calls: the backup and printing code is modelled from the text it builds or receives.
- The key/value store's own I/O and its asynchrony: each call is one atomic step on the store's map, and a failed write is scripted in advance as a parameter.
- LoadSketches: one clock reading `now` stands for every `new Date().toISOString()` of a load, so sketches without a string `updatedAt` all get the same stamp and keep their stored order; in the app the clock can advance between elements and the later ones would then sort first.
- Fresh ids (`generateId`, `Date.now()`), today's date and the JavaScript `Date` engine are parameters. `DatePicker.ParseIsoDate` passes the text to an engine function instead of modelling `new Date(...)` with its normalisation of out-of-range days.
- JSON numbers are modelled as integers. Ages, bed numbers, checklist counts and card orders are whole numbers in the app, and fractional values are not modelled.
- `localeCompare` is modelled as code-point order on strings. Locale collation is not modelled, so orders that differ only under a locale are outside the model.
- `slice`, `length` and `padStart` count characters of the modelled string. JavaScript counts UTF-16 code units, so characters outside the Basic Multilingual Plane are not modelled.
- Timers are events delivered by the caller. The 80 ms deferral before a tool change is taken as immediate, and the 150, 500 and 3000 ms delays are not measured.
- EditorModal.EditorModalState.SetProps: `value` is compared by its contents, where React's effect dependency compares it by reference, so a new object with the same contents resets the draft in the app but not in the model.
- Layout, styles, colours, icons, animations, column widths, keyboard handling and the document's whitespace in the generated HTML are not modelled. The loading screen is modelled only for its beds-per-row rule.
- The editing-cell, date-modal and long-press menu state of `inv-table.tsx` is not modelled beyond the row to remove. `rowHeightsRef` and the `rowHeights` state always hold the same map and are one field here.
- `Partial<InvRow>` updates in `inv-table.tsx` are modelled without an `id` field, because the callers never pass one.
- The `.catch` branch of the ward provider's start-up (`contexts/ward-context.tsx:69-76`) is not modelled: `loadWard` catches its own read and parse errors and `createInitialWard` does not throw, so the branch cannot be reached.
- Sorts are modelled as functions on sequences, not as in-place array sorts.
- The signature canvas and the handwriting drawing itself are not modelled. A drawing is its data URL text, and a canvas answers with a string.
- `HandwritingEditor.OverlappingRequests` exhibits a race in `keyboard-handwriting-editor.tsx`: a second `getContent` within 500 ms of an answered first request is never answered. Nothing shows callers overlapping requests, so this is not listed as a finding. It is stated as the behaviour of the code as written.
- `WardStorage.EmptiedPatientIsDroppedOnReload`: loading is not idempotent through a save. The model states this as the code's behaviour and does not correct it, because the UI never produces a patient with only an out-of-range age.

## Findings

| source | as written | input that shows it | evidently intended | confidence | as-written member | corrected member |
|---|---|---|---|---|---|---|
| components/ward/modal-confirmation.tsx:91-93 | the deprecated `ModalConfirmation` wrapper maps every variant other than `destructive`, `info` and `warning` to `info`, including the `delete` its props type admits | `variant: 'delete'` shows a plain information prompt with a non-destructive confirm button | `delete` passes through as `delete`, as the wrapper's deprecation note implies | medium, not executed; the wrapper has no callers in the app | ModalConfirmation.AsWrittenDropsDelete | ModalConfirmation.LegacyVariantDestructive |
