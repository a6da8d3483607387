/** lib/references-storage.ts: the user's reference cards, loaded in `order`
    and saved with `order` renumbered to the list position. */
module ReferencesStorage {
  import opened Optional
  import opened Json
  import opened Types
  import opened Sorting
  import opened KeyValueStore
  import opened ListStore

  /** `parseReferenceCard`: null unless an object with string id, title and
      body; a non-numeric order becomes 0. */
  function ParseReferenceCard(raw: Json): (r: Option<ReferenceCard>)
    ensures r.Some? <==>
      raw.JObj? && StringField(raw, "id").Some? && StringField(raw, "title").Some? && StringField(raw, "body").Some?
    ensures r.Some? ==>
      && r.value.id == StringField(raw, "id").value
      && r.value.title == StringField(raw, "title").value
      && r.value.body == StringField(raw, "body").value
      && r.value.order == NumberField(raw, "order").GetOr(0)
  {
    if !IsJsonObject(raw) then None
    else match (StringField(raw, "id"), StringField(raw, "title"), StringField(raw, "body"))
      case (Some(id), Some(title), Some(body)) =>
        Some(ReferenceCard(id, title, body, NumberField(raw, "order").GetOr(0)))
      case _ => None
  }

  /** The comparator `a.order - b.order <= 0`. */
  predicate ByOrder(a: ReferenceCard, b: ReferenceCard) {
    a.order <= b.order
  }

  function LoadedReferences(read: ReadResult): seq<ReferenceCard> {
    LoadedList(read, ParseReferenceCard, ByOrder)
  }

  /** `loadReferences` */
  method LoadReferences(read: ReadResult) returns (cards: seq<ReferenceCard>)
    ensures cards == LoadedReferences(read)
  {
    cards := LoadSorted(read, ParseReferenceCard, ByOrder);
  }

  /** The cards come back in ascending order, and they are exactly the
      elements that parsed; cards with equal order keep their stored order. */
  lemma LoadedReferencesOrder(read: ReadResult, a: ReferenceCard)
    ensures var r := LoadedReferences(read);
      && multiset(r) == multiset(KeepParsed(StoredArray(read), ParseReferenceCard))
      && (forall i, j :: 0 <= i < j < |r| ==> r[i].order <= r[j].order)
      && Filter(r, TiedWith(ByOrder, a)) == Filter(KeepParsed(StoredArray(read), ParseReferenceCard), TiedWith(ByOrder, a))
  {
    assert IsTotalPreorder(ByOrder);
    LoadedListSortedPermutation(read, ParseReferenceCard, ByOrder);
    SortByStable(KeepParsed(StoredArray(read), ParseReferenceCard), ByOrder, a);
  }

  function EncodeCard(c: ReferenceCard): Json {
    JObj(map["id" := JStr(c.id), "title" := JStr(c.title), "body" := JStr(c.body), "order" := JNum(c.order)])
  }

  /** `cards.map((c, i) => ({ ...c, order: i }))` */
  function Renumbered(cards: seq<ReferenceCard>): (r: seq<ReferenceCard>)
    ensures |r| == |cards|
    ensures forall i :: 0 <= i < |r| ==>
      r[i].order == i && r[i].id == cards[i].id && r[i].title == cards[i].title && r[i].body == cards[i].body
  {
    seq(|cards|, i requires 0 <= i < |cards| => cards[i].(order := i))
  }

  function EncodeCards(cards: seq<ReferenceCard>): seq<Json> {
    seq(|cards|, i requires 0 <= i < |cards| => EncodeCard(cards[i]))
  }

  /** `saveReferences`: one write of the renumbered list. */
  method SaveReferences(store: Store, cards: seq<ReferenceCard>) returns (ok: bool)
    modifies store
    ensures ok == !NextWriteFails(old(store.writeScript))
    ensures store.data == if ok then old(store.data)[REFERENCES_KEY := Decodable(JArr(EncodeCards(Renumbered(cards))))]
                          else old(store.data)
    ensures store.writeScript == Consume(old(store.writeScript))
    ensures store.writes == old(store.writes) + 1 && store.readFault == old(store.readFault)
  {
    ok := store.SetItem(REFERENCES_KEY, JArr(EncodeCards(Renumbered(cards))));
  }

  lemma CardRoundTrip(c: ReferenceCard)
    ensures ParseReferenceCard(EncodeCard(c)) == Some(c)
  {
  }

  /** Load after save gives the cards back in the order they were saved. */
  lemma SaveThenLoad(data: map<string, RawText>, cards: seq<ReferenceCard>)
    ensures LoadedReferences(Read(data[REFERENCES_KEY := Decodable(JArr(EncodeCards(Renumbered(cards))))], false, REFERENCES_KEY))
         == Renumbered(cards)
  {
    var enc := EncodeCards(Renumbered(cards));
    var rn := Renumbered(cards);
    forall i | 0 <= i < |enc| ensures ParseReferenceCard(enc[i]) == Some(rn[i]) {
      CardRoundTrip(rn[i]);
    }
    KeepParsedAll(enc, ParseReferenceCard);
    assert KeepParsed(enc, ParseReferenceCard) == rn;
    ConsecutiveOrdersFixed(rn, 0);
  }

  /** Cards numbered k, k+1, ... in list order are left in place by the sort. */
  lemma ConsecutiveOrdersFixed(t: seq<ReferenceCard>, k: int)
    requires forall i :: 0 <= i < |t| ==> t[i].order == i + k
    ensures SortBy(t, ByOrder) == t
  {
    forall i | 0 < i < |t| ensures ByOrder(t[i - 1], t[i]) {
      assert t[i - 1].order == i - 1 + k;
    }
    SortByKeepsOrdered(t, ByOrder);
  }

  /** `createReferenceCard(title, body, order)`, with the fresh id as a parameter. */
  function CreateReferenceCard(id: string, title: string, body: string, order: int): (c: ReferenceCard)
    ensures c.id == id && c.title == title && c.body == body && c.order == order
  {
    ReferenceCard(id, title, body, order)
  }
}
