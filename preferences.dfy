/** lib/preferences.ts: user preferences. Each field is validated on its own
    and falls back to its default; loading always yields every field. */
module Preferences {
  import opened Optional
  import opened Json
  import opened Types
  import opened KeyValueStore

  const DEFAULT_DEPARTMENT := "Surgery Department"
  const DEFAULT_WARD_NUMBER := "1"
  const DEFAULT_BED_COUNT := 12
  const DEFAULT_THEME := System
  const DEFAULT_BEDS_PER_ROW: BedsPerRow := 4

  const DEFAULT_PREFERENCES := UserPreferences(
    Some(DEFAULT_DEPARTMENT), Some(DEFAULT_WARD_NUMBER), Some(DEFAULT_BED_COUNT),
    Some(DEFAULT_THEME), Some(DEFAULT_BEDS_PER_ROW))

  /** Every field present and the bed count in 1..100. */
  predicate Complete(p: UserPreferences) {
    && p.defaultDepartment.Some? && p.defaultWardNumber.Some?
    && p.defaultBedCount.Some? && 1 <= p.defaultBedCount.value <= 100
    && p.theme.Some? && p.bedsPerRow.Some?
  }

  /** `parseBedsPerRow`: exactly 2, 3, 4, 5 or 6, otherwise 4. */
  function ParseBedsPerRow(v: Option<Json>): (r: BedsPerRow)
    ensures (v.Some? && v.value.JNum? && 2 <= v.value.n <= 6) ==> r == v.value.n
    ensures !(v.Some? && v.value.JNum? && 2 <= v.value.n <= 6) ==> r == DEFAULT_BEDS_PER_ROW
  {
    match v
    case Some(JNum(n)) => if 2 <= n <= 6 then n else DEFAULT_BEDS_PER_ROW
    case _ => DEFAULT_BEDS_PER_ROW
  }

  /** `parseTheme`: the three theme names unchanged, anything else 'system'. */
  function ParseTheme(v: Option<Json>): (r: Theme)
    ensures v == Some(JStr("light")) ==> r == Light
    ensures v == Some(JStr("dark")) ==> r == Dark
    ensures v != Some(JStr("light")) && v != Some(JStr("dark")) ==> r == System
  {
    if v == Some(JStr("light")) then Light
    else if v == Some(JStr("dark")) then Dark
    else System
  }

  lemma ThemeRoundTrip(t: Theme)
    ensures ParseTheme(Some(JStr(ThemeName(t)))) == t
  {
  }

  /** `defaultBedCount` is kept only when it is a number in 1..100. */
  function ParseBedCount(v: Option<Json>): (r: int)
    ensures 1 <= r <= 100
    ensures (v.Some? && v.value.JNum? && 1 <= v.value.n <= 100) ==> r == v.value.n
  {
    match v
    case Some(JNum(n)) => if 1 <= n <= 100 then n else DEFAULT_BED_COUNT
    case _ => DEFAULT_BED_COUNT
  }

  /** The preferences a decoded value describes. A value that is not an
      object has none of the fields, so every field takes its default. */
  function PreferencesFrom(v: Json): (p: UserPreferences)
    ensures Complete(p)
    ensures p.defaultDepartment == Some(StringField(v, "defaultDepartment").GetOr(DEFAULT_DEPARTMENT))
    ensures p.defaultWardNumber == Some(StringField(v, "defaultWardNumber").GetOr(DEFAULT_WARD_NUMBER))
    ensures !v.JObj? ==> p == DEFAULT_PREFERENCES
  {
    UserPreferences(
      Some(StringField(v, "defaultDepartment").GetOr(DEFAULT_DEPARTMENT)),
      Some(StringField(v, "defaultWardNumber").GetOr(DEFAULT_WARD_NUMBER)),
      Some(ParseBedCount(Field(v, "defaultBedCount"))),
      Some(ParseTheme(Field(v, "theme"))),
      Some(ParseBedsPerRow(Field(v, "bedsPerRow"))))
  }

  /** `loadPreferences`: a read error, a missing or empty value and
      undecodable text (or a decoded null, whose member access throws) all give
      the defaults. */
  function LoadedPreferences(read: ReadResult): (p: UserPreferences)
    ensures Complete(p)
    ensures read.ReadFault? || read.raw.None? || read.raw.value.Undecodable? ==> p == DEFAULT_PREFERENCES
  {
    match read
    case Stored(Some(Decodable(v))) => PreferencesFrom(v)
    case _ => DEFAULT_PREFERENCES
  }

  /** `savePreferences`: missing fields are filled with defaults; the bed
      count is not range-checked. */
  function EncodePreferences(p: UserPreferences): Json {
    JObj(map[
      "defaultDepartment" := JStr(p.defaultDepartment.GetOr(DEFAULT_DEPARTMENT)),
      "defaultWardNumber" := JStr(p.defaultWardNumber.GetOr(DEFAULT_WARD_NUMBER)),
      "defaultBedCount" := JNum(p.defaultBedCount.GetOr(DEFAULT_BED_COUNT)),
      "theme" := JStr(ThemeName(p.theme.GetOr(DEFAULT_THEME))),
      "bedsPerRow" := JNum(p.bedsPerRow.GetOr(DEFAULT_BEDS_PER_ROW))])
  }

  method SavePreferences(store: Store, p: UserPreferences) returns (ok: bool)
    modifies store
    ensures ok == !NextWriteFails(old(store.writeScript))
    ensures store.data == if ok then old(store.data)[PREFERENCES_KEY := Decodable(EncodePreferences(p))]
                          else old(store.data)
    ensures store.writeScript == Consume(old(store.writeScript))
    ensures store.writes == old(store.writes) + 1 && store.readFault == old(store.readFault)
  {
    ok := store.SetItem(PREFERENCES_KEY, EncodePreferences(p));
  }

  /** What loading gives back after a save: absent fields take their
      defaults, and an out-of-range bed count (which the save lets through)
      becomes 12. */
  function Completed(p: UserPreferences): UserPreferences {
    var count := p.defaultBedCount.GetOr(DEFAULT_BED_COUNT);
    UserPreferences(
      Some(p.defaultDepartment.GetOr(DEFAULT_DEPARTMENT)),
      Some(p.defaultWardNumber.GetOr(DEFAULT_WARD_NUMBER)),
      Some(if 1 <= count <= 100 then count else DEFAULT_BED_COUNT),
      Some(p.theme.GetOr(DEFAULT_THEME)),
      Some(p.bedsPerRow.GetOr(DEFAULT_BEDS_PER_ROW)))
  }

  lemma SaveThenLoad(data: map<string, RawText>, p: UserPreferences)
    ensures LoadedPreferences(Read(data[PREFERENCES_KEY := Decodable(EncodePreferences(p))], false, PREFERENCES_KEY))
         == Completed(p)
  {
    ThemeRoundTrip(p.theme.GetOr(DEFAULT_THEME));
  }

  /** Complete preferences survive a save and a load unchanged. */
  lemma CompleteIsFixed(p: UserPreferences)
    requires Complete(p)
    ensures Completed(p) == p
  {
  }
}
