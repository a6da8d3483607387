/** Decoded JSON values (the `JsonValue` of lib/types.ts) and the stored text
    that may or may not decode to one. Numbers are integers: the app's numeric
    fields (bed numbers, ages, orders, counts, the backup version) are whole. */
module Json {
  import opened Optional

  /** A JSON value is a primitive (null, boolean, number, string), an array of
      values, or an object mapping string keys to values. `JSON.parse` keeps the
      last of duplicate keys, so an object is a map. */
  datatype Json =
    | JNull
    | JBool(b: bool)
    | JNum(n: int)
    | JStr(s: string)
    | JArr(items: seq<Json>)
    | JObj(fields: map<string, Json>)

  /** The string a key/value store returns: text that `JSON.parse` accepts, or
      text it rejects (the empty string among them). */
  datatype RawText = Undecodable | Decodable(value: Json)

  /** `isJsonObject`: not null, of type object, not an array. */
  predicate IsJsonObject(v: Json) {
    v.JObj?
  }

  /** `v.key` for a decoded value: present only on objects that hold the key. */
  function Field(v: Json, key: string): (r: Option<Json>)
    ensures r.Some? <==> v.JObj? && key in v.fields
    ensures r.Some? ==> r.value == v.fields[key]
  {
    if v.JObj? && key in v.fields then Some(v.fields[key]) else None
  }

  /** `typeof v.key === 'string' ? v.key : undefined` */
  function StringField(v: Json, key: string): (r: Option<string>)
    ensures r.Some? <==> Field(v, key).Some? && Field(v, key).value.JStr?
    ensures r.Some? ==> Field(v, key).value == JStr(r.value)
  {
    match Field(v, key)
    case Some(JStr(s)) => Some(s)
    case _ => None
  }

  /** `typeof v.key === 'number' ? v.key : undefined` */
  function NumberField(v: Json, key: string): (r: Option<int>)
    ensures r.Some? <==> Field(v, key).Some? && Field(v, key).value.JNum?
    ensures r.Some? ==> Field(v, key).value == JNum(r.value)
  {
    match Field(v, key)
    case Some(JNum(n)) => Some(n)
    case _ => None
  }

  /** JavaScript truthiness of a decoded value (an absent key is `undefined`,
      which is falsy). */
  predicate Truthy(v: Option<Json>) {
    match v
    case None => false
    case Some(JNull) => false
    case Some(JBool(b)) => b
    case Some(JNum(n)) => n != 0
    case Some(JStr(s)) => s != []
    case Some(JArr(_)) => true
    case Some(JObj(_)) => true
  }

  /** Adds `key` to an object's members when the value is present (what
      `JSON.stringify` does with an `undefined` member: it leaves it out). */
  function Put(m: map<string, Json>, key: string, v: Option<Json>): (r: map<string, Json>)
    ensures v.Some? ==> key in r && r[key] == v.value
    ensures v.None? ==> r == m
    ensures forall k :: k != key ==> (k in r <==> k in m)
  {
    if v.Some? then m[key := v.value] else m
  }

  /** Setting one member leaves every other member as it was. */
  lemma PutKeepsOther(m: map<string, Json>, key: string, v: Option<Json>, k: string)
    requires k != key
    ensures Field(JObj(Put(m, key, v)), k) == Field(JObj(m), k)
  {
  }

  function StrOpt(v: Option<string>): (r: Option<Json>)
    ensures r.Some? <==> v.Some?
    ensures v.Some? ==> r.value == JStr(v.value)
  {
    if v.Some? then Some(JStr(v.value)) else None
  }

  /** Reading a member back from an object built by `Put`. */
  lemma FieldPut(m: map<string, Json>, key: string, v: Option<Json>, k: string)
    ensures Field(JObj(Put(m, key, v)), k) == if k == key && v.Some? then v else Field(JObj(m), k)
  {
  }

  /** `items.map(parse).filter(x => x !== null)`: each element parsed on its
      own, the ones that fail dropped, the others kept in order. */
  function KeepParsed<T>(items: seq<Json>, parse: Json -> Option<T>): (r: seq<T>)
    ensures |r| <= |items|
  {
    if items == [] then []
    else match parse(items[0])
      case Some(x) => [x] + KeepParsed(items[1..], parse)
      case None => KeepParsed(items[1..], parse)
  }

  /** Filtering is element by element: it distributes over concatenation. */
  lemma {:induction false} KeepParsedAppend<T>(xs: seq<Json>, ys: seq<Json>, parse: Json -> Option<T>)
    ensures KeepParsed(xs + ys, parse) == KeepParsed(xs, parse) + KeepParsed(ys, parse)
  {
    if xs != [] {
      assert (xs + ys)[0] == xs[0] && (xs + ys)[1..] == xs[1..] + ys;
      KeepParsedAppend(xs[1..], ys, parse);
      if parse(xs[0]).Some? {
        assert KeepParsed(xs + ys, parse) == [parse(xs[0]).value] + KeepParsed(xs[1..] + ys, parse);
      }
    } else {
      assert xs + ys == ys;
    }
  }

  /** When every element parses, all of them are kept, each in its place. */
  lemma {:induction false} KeepParsedAll<T>(items: seq<Json>, parse: Json -> Option<T>)
    requires forall i :: 0 <= i < |items| ==> parse(items[i]).Some?
    ensures |KeepParsed(items, parse)| == |items|
    ensures forall i :: 0 <= i < |items| ==> KeepParsed(items, parse)[i] == parse(items[i]).value
  {
    if items != [] {
      KeepParsedAll(items[1..], parse);
    }
  }

  /** An element that fails to parse contributes nothing. */
  lemma KeepParsedSkips<T>(xs: seq<Json>, bad: Json, ys: seq<Json>, parse: Json -> Option<T>)
    requires parse(bad).None?
    ensures KeepParsed(xs + [bad] + ys, parse) == KeepParsed(xs + ys, parse)
  {
    KeepParsedAppend(xs + [bad], ys, parse);
    KeepParsedAppend(xs, [bad], parse);
    KeepParsedAppend(xs, ys, parse);
    assert KeepParsed([bad], parse) == [];
  }

  /** The step of a loop that parses `items[i]` and pushes it when it parses. */
  lemma KeepParsedStep<T>(items: seq<Json>, i: nat, parse: Json -> Option<T>)
    requires i < |items|
    ensures KeepParsed(items[..i + 1], parse)
         == KeepParsed(items[..i], parse) + (if parse(items[i]).Some? then [parse(items[i]).value] else [])
  {
    assert items[..i + 1] == items[..i] + [items[i]];
    KeepParsedAppend(items[..i], [items[i]], parse);
  }
}
