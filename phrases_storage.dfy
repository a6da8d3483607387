/** lib/phrases-storage.ts: the saved quick-insert phrases. */
module PhrasesStorage {
  import opened Optional
  import opened Json
  import opened KeyValueStore
  import opened ListStore

  /** The type guard `typeof s === 'string'`. */
  function AsString(v: Json): (r: Option<string>)
    ensures r.Some? <==> v.JStr?
    ensures r.Some? ==> v == JStr(r.value)
  {
    if v.JStr? then Some(v.s) else None
  }

  /** The string elements of a stored array, in order. */
  function StringsOf(items: seq<Json>): seq<string> {
    KeepParsed(items, AsString)
  }

  /** `loadPhrases`: [] for a read error, a missing or empty value, undecodable
      text or a non-array; otherwise the string elements in order. */
  function LoadedPhrases(read: ReadResult): seq<string> {
    StringsOf(StoredArray(read))
  }

  function EncodePhrases(phrases: seq<string>): seq<Json> {
    seq(|phrases|, i requires 0 <= i < |phrases| => JStr(phrases[i]))
  }

  /** `savePhrases`: one write of the list exactly as given. */
  method SavePhrases(store: Store, phrases: seq<string>) returns (ok: bool)
    modifies store
    ensures ok == !NextWriteFails(old(store.writeScript))
    ensures store.data == if ok then old(store.data)[PHRASES_KEY := Decodable(JArr(EncodePhrases(phrases)))]
                          else old(store.data)
    ensures store.writeScript == Consume(old(store.writeScript))
    ensures store.writes == old(store.writes) + 1 && store.readFault == old(store.readFault)
  {
    ok := store.SetItem(PHRASES_KEY, JArr(EncodePhrases(phrases)));
  }

  /** An array of strings is read back whole; a non-string element is dropped
      without disturbing the others. */
  lemma StringsOfStrings(phrases: seq<string>)
    ensures StringsOf(EncodePhrases(phrases)) == phrases
  {
    var enc := EncodePhrases(phrases);
    KeepParsedAll(enc, AsString);
    assert KeepParsed(enc, AsString) == phrases;
  }

  lemma NonStringDropped(xs: seq<Json>, bad: Json, ys: seq<Json>)
    requires !bad.JStr?
    ensures StringsOf(xs + [bad] + ys) == StringsOf(xs + ys)
  {
    KeepParsedSkips(xs, bad, ys, AsString);
  }

  /** Load after save gives the same phrases. */
  lemma SaveThenLoad(data: map<string, RawText>, phrases: seq<string>)
    ensures LoadedPhrases(Read(data[PHRASES_KEY := Decodable(JArr(EncodePhrases(phrases)))], false, PHRASES_KEY)) == phrases
  {
    StringsOfStrings(phrases);
    if phrases == [] {
      assert StringsOf([]) == [];
    }
  }
}
