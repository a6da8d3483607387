/** The loading pattern the checklist, reference and sketch stores share: read
    the key, give [] for a read error, a missing or empty value, undecodable
    text or a non-array; otherwise parse each element on its own, push the
    ones that parse, and sort the result with the store's comparator. */
module ListStore {
  import opened Optional
  import opened Json
  import opened Sorting
  import opened KeyValueStore

  /** The array a read yields, or [] where the loader returns [] early. */
  function StoredArray(read: ReadResult): (items: seq<Json>)
    ensures items != [] ==> read == Stored(Some(Decodable(JArr(items))))
  {
    match read
    case Stored(Some(Decodable(JArr(items)))) => items
    case _ => []
  }

  /** What a loader returns for a read. */
  function LoadedList<T>(read: ReadResult, parse: Json -> Option<T>, le: (T, T) -> bool): seq<T> {
    SortBy(KeepParsed(StoredArray(read), parse), le)
  }

  /** The loader: a `for ... of` loop that pushes each element that parses,
      then the sort. */
  method LoadSorted<T>(read: ReadResult, parse: Json -> Option<T>, le: (T, T) -> bool) returns (r: seq<T>)
    ensures r == LoadedList(read, parse, le)
  {
    if read.ReadFault? || read.raw.None? || read.raw.value.Undecodable? || !read.raw.value.value.JArr? {
      return [];
    }
    var parsed := read.raw.value.value.items;
    var items: seq<T> := [];
    var i := 0;
    while i < |parsed|
      invariant 0 <= i <= |parsed|
      invariant items == KeepParsed(parsed[..i], parse)
    {
      KeepParsedStep(parsed, i, parse);
      var row := parse(parsed[i]);
      if row.Some? {
        items := items + [row.value];
      }
      i := i + 1;
    }
    assert parsed[..|parsed|] == parsed;
    r := SortBy(items, le);
  }

  /** The loaded list is ordered by the comparator and holds exactly the
      elements that parsed. */
  lemma LoadedListSortedPermutation<T(!new)>(read: ReadResult, parse: Json -> Option<T>, le: (T, T) -> bool)
    requires IsTotalPreorder(le)
    ensures SortedBy(LoadedList(read, parse, le), le)
    ensures multiset(LoadedList(read, parse, le)) == multiset(KeepParsed(StoredArray(read), parse))
  {
    SortBySorted(KeepParsed(StoredArray(read), parse), le);
    SortByPermutes(KeepParsed(StoredArray(read), parse), le);
  }

  /** A read error, a missing key and a value that is not an array all give []. */
  lemma LoadedListEmptyCases<T>(read: ReadResult, parse: Json -> Option<T>, le: (T, T) -> bool)
    requires read.ReadFault? || read.raw.None? || read.raw.value.Undecodable? || !read.raw.value.value.JArr?
    ensures LoadedList(read, parse, le) == []
  {
  }

  /** An element that fails to parse is skipped without affecting the rest. */
  lemma LoadedListSkipsBad<T>(xs: seq<Json>, bad: Json, ys: seq<Json>, parse: Json -> Option<T>, le: (T, T) -> bool)
    requires parse(bad).None?
    ensures LoadedList(Stored(Some(Decodable(JArr(xs + [bad] + ys)))), parse, le)
         == LoadedList(Stored(Some(Decodable(JArr(xs + ys)))), parse, le)
  {
    KeepParsedSkips(xs, bad, ys, parse);
    if xs + ys == [] {
      assert KeepParsed(xs + ys, parse) == [];
    }
  }
}
