/** lib/sketches-storage.ts: free-hand sketches, loaded newest first. The
    current time (`new Date().toISOString()`) is the parameter `now`. */
module SketchesStorage {
  import opened Optional
  import opened Json
  import opened Text
  import opened Sorting
  import opened KeyValueStore
  import opened ListStore

  datatype Sketch = Sketch(id: string, title: string, image: Option<string>, updatedAt: string)

  /** `parseSketch`: null unless an object with string id and title; a
      non-string updatedAt becomes `now`; the image only when it is a string. */
  function ParseSketch(raw: Json, now: string): (r: Option<Sketch>)
    ensures r.Some? <==> raw.JObj? && StringField(raw, "id").Some? && StringField(raw, "title").Some?
    ensures r.Some? ==>
      && r.value.id == StringField(raw, "id").value
      && r.value.title == StringField(raw, "title").value
      && r.value.image == StringField(raw, "image")
      && r.value.updatedAt == StringField(raw, "updatedAt").GetOr(now)
  {
    if !IsJsonObject(raw) then None
    else match (StringField(raw, "id"), StringField(raw, "title"))
      case (Some(id), Some(title)) =>
        Some(Sketch(id, title, StringField(raw, "image"), StringField(raw, "updatedAt").GetOr(now)))
      case _ => None
  }

  /** The comparator `b.updatedAt.localeCompare(a.updatedAt) <= 0`, with code
      point order standing for `localeCompare`: newest first. */
  predicate NewestFirst(a: Sketch, b: Sketch) {
    LexLe(b.updatedAt, a.updatedAt)
  }

  lemma NewestFirstIsTotalPreorder()
    ensures IsTotalPreorder(NewestFirst)
  {
    forall a, b ensures NewestFirst(a, b) || NewestFirst(b, a) {
      LexLeTotal(a.updatedAt, b.updatedAt);
    }
    forall a, b, c | NewestFirst(a, b) && NewestFirst(b, c) ensures NewestFirst(a, c) {
      LexLeTransitive(c.updatedAt, b.updatedAt, a.updatedAt);
    }
  }

  function LoadedSketches(read: ReadResult, now: string): seq<Sketch> {
    LoadedList(read, raw => ParseSketch(raw, now), NewestFirst)
  }

  /** `loadSketches` */
  method LoadSketches(read: ReadResult, now: string) returns (sketches: seq<Sketch>)
    ensures sketches == LoadedSketches(read, now)
  {
    sketches := LoadSorted(read, raw => ParseSketch(raw, now), NewestFirst);
  }

  /** The sketches come back newest first and are exactly the entries that parsed. */
  lemma LoadedSketchesOrder(read: ReadResult, now: string)
    ensures var r := LoadedSketches(read, now);
      && multiset(r) == multiset(KeepParsed(StoredArray(read), raw => ParseSketch(raw, now)))
      && forall i, j :: 0 <= i < j < |r| ==> LexLe(r[j].updatedAt, r[i].updatedAt)
  {
    NewestFirstIsTotalPreorder();
    LoadedListSortedPermutation(read, raw => ParseSketch(raw, now), NewestFirst);
  }

  function EncodeSketch(s: Sketch): Json {
    JObj(Put(map["id" := JStr(s.id), "title" := JStr(s.title), "updatedAt" := JStr(s.updatedAt)],
             "image", StrOpt(s.image)))
  }

  function EncodeSketches(sketches: seq<Sketch>): seq<Json> {
    seq(|sketches|, i requires 0 <= i < |sketches| => EncodeSketch(sketches[i]))
  }

  /** `saveSketches`: one write of the list as given. */
  method SaveSketches(store: Store, sketches: seq<Sketch>) returns (ok: bool)
    modifies store
    ensures ok == !NextWriteFails(old(store.writeScript))
    ensures store.data == if ok then old(store.data)[SKETCHES_KEY := Decodable(JArr(EncodeSketches(sketches)))]
                          else old(store.data)
    ensures store.writeScript == Consume(old(store.writeScript))
    ensures store.writes == old(store.writes) + 1 && store.readFault == old(store.readFault)
  {
    ok := store.SetItem(SKETCHES_KEY, JArr(EncodeSketches(sketches)));
  }

  lemma SketchRoundTrip(s: Sketch, now: string)
    ensures ParseSketch(EncodeSketch(s), now) == Some(s)
  {
  }

  /** Load after save gives the saved sketches, newest first; `now` plays no part. */
  lemma SaveThenLoad(data: map<string, RawText>, sketches: seq<Sketch>, now: string)
    ensures LoadedSketches(Read(data[SKETCHES_KEY := Decodable(JArr(EncodeSketches(sketches)))], false, SKETCHES_KEY), now)
         == SortBy(sketches, NewestFirst)
  {
    var enc := EncodeSketches(sketches);
    var parse := raw => ParseSketch(raw, now);
    forall i | 0 <= i < |enc| ensures parse(enc[i]) == Some(sketches[i]) {
      SketchRoundTrip(sketches[i], now);
    }
    KeepParsedAll(enc, parse);
    assert KeepParsed(enc, parse) == sketches;
  }

  /** `createSketch(title, image)`, with the fresh id and the time as parameters. */
  function CreateSketch(id: string, title: string, image: Option<string>, now: string): (s: Sketch)
    ensures s.id == id && s.title == title && s.image == image && s.updatedAt == now
  {
    Sketch(id, title, image, now)
  }

  const UNTITLED := "Untitled sketch"

  /** `sketchDisplayTitle`: the trimmed title, or "Untitled sketch" when it is
      blank; never blank and never padded with white space. */
  function SketchDisplayTitle(s: Sketch): (r: string)
    ensures HasText(s.title) ==> r == Trim(s.title)
    ensures !HasText(s.title) ==> r == UNTITLED
    ensures r != [] && !IsSpace(r[0]) && !IsSpace(r[|r| - 1])
  {
    TrimIsInfix(s.title);
    var t := Trim(s.title);
    if t != [] then t else UNTITLED
  }
}
