/** The device's persistent string key/value store (AsyncStorage), with the
    keys the app writes. Its I/O is not modelled; what matters to the callers is
    what a read returns and whether a write takes effect. Write failures are
    scripted: `writeScript[k]` says whether the k-th next write attempt fails
    (a write with no script entry left succeeds), and `readFault` makes every
    read throw. */
module KeyValueStore {
  import opened Json
  import opened Optional

  const WARD_KEY := "ward_data"
  const PREFERENCES_KEY := "user_preferences"
  const REFERENCES_KEY := "user_references"
  const CHECKLIST_KEY := "user_checklist"
  const SKETCHES_KEY := "user_sketches"
  const PHRASES_KEY := "user_phrases"

  /** What `await AsyncStorage.getItem(key)` gives: it throws, or it yields the
      stored text or null. */
  datatype ReadResult = ReadFault | Stored(raw: Option<RawText>)

  function Read(data: map<string, RawText>, readFault: bool, key: string): (r: ReadResult)
    ensures readFault <==> r.ReadFault?
    ensures r.Stored? ==> (r.raw.Some? <==> key in data)
  {
    if readFault then ReadFault
    else if key in data then Stored(Some(data[key]))
    else Stored(None)
  }

  /** The first scripted outcome: does the next write attempt fail? */
  predicate NextWriteFails(script: seq<bool>) {
    script != [] && script[0]
  }

  function Consume(script: seq<bool>): seq<bool> {
    if script == [] then [] else script[1..]
  }

  class Store {
    var data: map<string, RawText>
    var writeScript: seq<bool>
    var readFault: bool
    /** How many write calls (`setItem` or `multiSet`) were attempted. */
    var writes: nat

    constructor (data: map<string, RawText>, writeScript: seq<bool>, readFault: bool)
      ensures this.data == data && this.writeScript == writeScript
      ensures this.readFault == readFault && writes == 0
    {
      this.data := data;
      this.writeScript := writeScript;
      this.readFault := readFault;
      writes := 0;
    }

    /** `AsyncStorage.setItem(key, value)`: one attempt, which either stores the
        value or throws and stores nothing. */
    method SetItem(key: string, value: Json) returns (ok: bool)
      modifies this
      ensures ok == !NextWriteFails(old(writeScript))
      ensures data == if ok then old(data)[key := Decodable(value)] else old(data)
      ensures writeScript == Consume(old(writeScript))
      ensures writes == old(writes) + 1 && readFault == old(readFault)
    {
      ok := !NextWriteFails(writeScript);
      if ok {
        data := data[key := Decodable(value)];
      }
      writeScript := Consume(writeScript);
      writes := writes + 1;
    }

    /** `AsyncStorage.multiSet(pairs)`: one atomic attempt over all pairs, later
        pairs overriding earlier ones with the same key. */
    method MultiSet(pairs: seq<(string, Json)>) returns (ok: bool)
      modifies this
      ensures ok == !NextWriteFails(old(writeScript))
      ensures data == if ok then WriteAll(old(data), pairs) else old(data)
      ensures writeScript == Consume(old(writeScript))
      ensures writes == old(writes) + 1 && readFault == old(readFault)
    {
      ok := !NextWriteFails(writeScript);
      if ok {
        data := WriteAll(data, pairs);
      }
      writeScript := Consume(writeScript);
      writes := writes + 1;
    }
  }

  /** The store contents after writing every pair in order. */
  function WriteAll(data: map<string, RawText>, pairs: seq<(string, Json)>): map<string, RawText>
    decreases |pairs|
  {
    if pairs == [] then data
    else WriteAll(data[pairs[0].0 := Decodable(pairs[0].1)], pairs[1..])
  }

  /** A key no pair names keeps its old contents. */
  lemma {:induction false} WriteAllUntouched(data: map<string, RawText>, pairs: seq<(string, Json)>, key: string)
    requires forall i :: 0 <= i < |pairs| ==> pairs[i].0 != key
    ensures key in WriteAll(data, pairs) <==> key in data
    ensures key in data ==> WriteAll(data, pairs)[key] == data[key]
    decreases |pairs|
  {
    if pairs != [] {
      WriteAllUntouched(data[pairs[0].0 := Decodable(pairs[0].1)], pairs[1..], key);
    }
  }

  /** A key named by exactly one pair holds that pair's value. */
  lemma {:induction false} WriteAllWritten(data: map<string, RawText>, pairs: seq<(string, Json)>, k: nat)
    requires k < |pairs|
    requires forall i :: 0 <= i < |pairs| && i != k ==> pairs[i].0 != pairs[k].0
    ensures pairs[k].0 in WriteAll(data, pairs)
    ensures WriteAll(data, pairs)[pairs[k].0] == Decodable(pairs[k].1)
    decreases |pairs|
  {
    if k == 0 {
      WriteAllUntouched(data[pairs[0].0 := Decodable(pairs[0].1)], pairs[1..], pairs[0].0);
    } else {
      WriteAllWritten(data[pairs[0].0 := Decodable(pairs[0].1)], pairs[1..], k - 1);
    }
  }
}
