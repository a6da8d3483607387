/** lib/checklist-storage.ts: the to-do checklist. Items are parsed one by one
    (malformed ones dropped), loaded dated-first by date then order, and saved
    with `order` renumbered to the list position. */
module ChecklistStorage {
  import opened Optional
  import opened Json
  import opened Text
  import opened Sorting
  import opened KeyValueStore
  import opened ListStore

  datatype ChecklistItem = ChecklistItem(id: string, text: string, done: bool, order: int, date: Option<string>)

  /** `parseItem`: null unless an object with a string id and text; `done` only
      when exactly `true`; a non-numeric order becomes 0; the date only when it
      has the ISO shape. */
  function ParseItem(raw: Json): (r: Option<ChecklistItem>)
    ensures r.Some? <==> raw.JObj? && StringField(raw, "id").Some? && StringField(raw, "text").Some?
    ensures r.Some? ==>
      && r.value.id == StringField(raw, "id").value
      && r.value.text == StringField(raw, "text").value
      && (r.value.done <==> Field(raw, "done") == Some(JBool(true)))
      && r.value.order == NumberField(raw, "order").GetOr(0)
      && (r.value.date.Some? <==> StringField(raw, "date").Some? && IsIsoDateShape(StringField(raw, "date").value))
      && (r.value.date.Some? ==> r.value.date == StringField(raw, "date"))
  {
    if !IsJsonObject(raw) then None
    else match (StringField(raw, "id"), StringField(raw, "text"))
      case (Some(id), Some(text)) =>
        var date := StringField(raw, "date");
        Some(ChecklistItem(id, text,
                           Field(raw, "done") == Some(JBool(true)),
                           NumberField(raw, "order").GetOr(0),
                           if date.Some? && IsIsoDateShape(date.value) then date else None))
      case _ => None
  }

  /** The sort comparator `cmp(a, b) <= 0`: dated items first, by date (code
      point order standing for `localeCompare`), ties and undated items by
      order. */
  predicate ChecklistLe(a: ChecklistItem, b: ChecklistItem) {
    if a.date.None? && b.date.None? then a.order <= b.order
    else if a.date.None? then false
    else if b.date.None? then true
    else if a.date.value != b.date.value then LexLe(a.date.value, b.date.value)
    else a.order <= b.order
  }

  lemma ChecklistLeIsTotalPreorder()
    ensures IsTotalPreorder(ChecklistLe)
  {
    forall a, b ensures ChecklistLe(a, b) || ChecklistLe(b, a) {
      if a.date.Some? && b.date.Some? { LexLeTotal(a.date.value, b.date.value); }
    }
    forall a, b, c | ChecklistLe(a, b) && ChecklistLe(b, c) ensures ChecklistLe(a, c) {
      if a.date.Some? && b.date.Some? && c.date.Some? {
        var da, db, dc := a.date.value, b.date.value, c.date.value;
        LexLeTotal(da, da);
        LexLeTotal(db, db);
        assert LexLe(da, db) && LexLe(db, dc);
        if da != dc {
          LexLeTransitive(da, db, dc);
        } else {
          LexLeTotal(db, da);
          if LexLe(db, da) && da != db { LexLeAntisymmetric(da, db); }
          assert da == db;
        }
      }
    }
  }

  function LoadedChecklist(read: ReadResult): seq<ChecklistItem> {
    LoadedList(read, ParseItem, ChecklistLe)
  }

  /** `loadChecklist` */
  method LoadChecklist(read: ReadResult) returns (items: seq<ChecklistItem>)
    ensures items == LoadedChecklist(read)
  {
    items := LoadSorted(read, ParseItem, ChecklistLe);
  }

  /** The load order: dated items before undated ones, dated items by date
      then order, undated items by order; and the list holds exactly the
      elements that parsed. */
  lemma LoadedChecklistOrder(read: ReadResult)
    ensures var r := LoadedChecklist(read);
      && multiset(r) == multiset(KeepParsed(StoredArray(read), ParseItem))
      && forall i, j :: 0 <= i < j < |r| ==>
           && (r[j].date.Some? ==> r[i].date.Some?)
           && (r[i].date.Some? && r[j].date.Some? ==> LexLe(r[i].date.value, r[j].date.value))
           && (r[i].date == r[j].date ==> r[i].order <= r[j].order)
  {
    ChecklistLeIsTotalPreorder();
    LoadedListSortedPermutation(read, ParseItem, ChecklistLe);
    var r := LoadedChecklist(read);
    forall i, j | 0 <= i < j < |r| ensures r[i].date.Some? && r[j].date.Some? ==> LexLe(r[i].date.value, r[j].date.value) {
      if r[i].date.Some? && r[j].date.Some? && r[i].date == r[j].date {
        LexLeTotal(r[i].date.value, r[i].date.value);
      }
    }
  }

  // ---------------------------------------------------------------------------
  // Saving and creating

  function EncodeItem(x: ChecklistItem): Json {
    JObj(Put(map["id" := JStr(x.id), "text" := JStr(x.text), "done" := JBool(x.done), "order" := JNum(x.order)],
             "date", StrOpt(x.date)))
  }

  /** `items.map((item, i) => ({ ...item, order: i }))` */
  function Renumbered(items: seq<ChecklistItem>): (r: seq<ChecklistItem>)
    ensures |r| == |items|
    ensures forall i :: 0 <= i < |r| ==> r[i] == items[i].(order := i)
  {
    seq(|items|, i requires 0 <= i < |items| => items[i].(order := i))
  }

  function EncodeItems(items: seq<ChecklistItem>): seq<Json> {
    seq(|items|, i requires 0 <= i < |items| => EncodeItem(items[i]))
  }

  /** `saveChecklist`: one write of the renumbered list; a failure propagates. */
  method SaveChecklist(store: Store, items: seq<ChecklistItem>) returns (ok: bool)
    modifies store
    ensures ok == !NextWriteFails(old(store.writeScript))
    ensures store.data == if ok then old(store.data)[CHECKLIST_KEY := Decodable(JArr(EncodeItems(Renumbered(items))))]
                          else old(store.data)
    ensures store.writeScript == Consume(old(store.writeScript))
    ensures store.writes == old(store.writes) + 1 && store.readFault == old(store.readFault)
  {
    ok := store.SetItem(CHECKLIST_KEY, JArr(EncodeItems(Renumbered(items))));
  }

  /** An item whose date is absent or ISO-shaped is read back as written. */
  lemma ItemRoundTrip(x: ChecklistItem)
    requires x.date.None? || IsIsoDateShape(x.date.value)
    ensures ParseItem(EncodeItem(x)) == Some(x)
  {
  }

  /** Load after save: the renumbered items, in load order. */
  lemma SaveThenLoad(data: map<string, RawText>, items: seq<ChecklistItem>)
    requires forall i :: 0 <= i < |items| ==> items[i].date.None? || IsIsoDateShape(items[i].date.value)
    ensures LoadedChecklist(Read(data[CHECKLIST_KEY := Decodable(JArr(EncodeItems(Renumbered(items))))], false, CHECKLIST_KEY))
         == SortBy(Renumbered(items), ChecklistLe)
  {
    var enc := EncodeItems(Renumbered(items));
    forall i | 0 <= i < |enc| ensures ParseItem(enc[i]) == Some(Renumbered(items)[i]) {
      ItemRoundTrip(Renumbered(items)[i]);
    }
    KeepParsedAll(enc, ParseItem);
    assert KeepParsed(enc, ParseItem) == Renumbered(items);
  }

  /** `createChecklistItem(text, order)`, with the fresh id as a parameter. */
  function CreateChecklistItem(id: string, text: string, order: int): (x: ChecklistItem)
    ensures x.id == id && x.text == text && x.order == order
    ensures !x.done && x.date.None?
  {
    ChecklistItem(id, text, false, order, None)
  }
}
