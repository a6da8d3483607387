/** `Array.prototype.sort` with a comparator, which ECMAScript requires to be
    stable: modelled as a stable insertion sort by a "less than or equal"
    relation `le` that the comparator induces (`le(a, b)` iff `cmp(a, b) <= 0`). */
module Sorting {

  /** `le` is total and transitive, as every comparator of the app is. */
  ghost predicate IsTotalPreorder<T(!new)>(le: (T, T) -> bool) {
    && (forall a, b :: le(a, b) || le(b, a))
    && (forall a, b, c :: le(a, b) && le(b, c) ==> le(a, c))
  }

  predicate SortedBy<T>(s: seq<T>, le: (T, T) -> bool) {
    forall i, j :: 0 <= i < j < |s| ==> le(s[i], s[j])
  }

  /** The elements of `s` that satisfy `p`, in their order (`s.filter(p)`). */
  function Filter<T>(s: seq<T>, p: T -> bool): (r: seq<T>)
    ensures |r| <= |s|
    ensures forall i :: 0 <= i < |r| ==> p(r[i])
  {
    if s == [] then []
    else
      if p(s[0]) then [s[0]] + Filter(s[1..], p) else Filter(s[1..], p)
  }

  /** Insert `x` before the first element it is "less than or equal" to. */
  function Insert<T>(x: T, s: seq<T>, le: (T, T) -> bool): (r: seq<T>)
    ensures |r| == |s| + 1
  {
    if s == [] then [x]
    else if le(x, s[0]) then [x] + s
    else [s[0]] + Insert(x, s[1..], le)
  }

  function SortBy<T>(s: seq<T>, le: (T, T) -> bool): (r: seq<T>)
    ensures |r| == |s|
  {
    if s == [] then []
    else Insert(s[0], SortBy(s[1..], le), le)
  }

  /** Insertion adds `x` and loses nothing. */
  lemma {:induction false} InsertPermutes<T>(x: T, s: seq<T>, le: (T, T) -> bool)
    ensures multiset(Insert(x, s, le)) == multiset(s) + multiset{x}
  {
    if s != [] && !le(x, s[0]) {
      InsertPermutes(x, s[1..], le);
      assert s == [s[0]] + s[1..];
    }
  }

  /** The result is a permutation of the input. */
  lemma {:induction false} SortByPermutes<T>(s: seq<T>, le: (T, T) -> bool)
    ensures multiset(SortBy(s, le)) == multiset(s)
  {
    if s != [] {
      SortByPermutes(s[1..], le);
      InsertPermutes(s[0], SortBy(s[1..], le), le);
      assert s == [s[0]] + s[1..];
    }
  }

  /** A lower bound of `x` and of every element of `s` bounds the insertion. */
  lemma {:induction false} InsertLowerBound<T>(x: T, s: seq<T>, le: (T, T) -> bool, lo: T)
    requires le(lo, x) && forall i :: 0 <= i < |s| ==> le(lo, s[i])
    ensures forall j :: 0 <= j < |Insert(x, s, le)| ==> le(lo, Insert(x, s, le)[j])
  {
    if s != [] && !le(x, s[0]) {
      InsertLowerBound(x, s[1..], le, lo);
      assert Insert(x, s, le) == [s[0]] + Insert(x, s[1..], le);
    }
  }

  lemma {:induction false} InsertSorted<T(!new)>(x: T, s: seq<T>, le: (T, T) -> bool)
    requires IsTotalPreorder(le) && SortedBy(s, le)
    ensures SortedBy(Insert(x, s, le), le)
  {
    if s != [] && !le(x, s[0]) {
      var t := Insert(x, s[1..], le);
      assert SortedBy(s[1..], le);
      InsertSorted(x, s[1..], le);
      InsertLowerBound(x, s[1..], le, s[0]);
      assert Insert(x, s, le) == [s[0]] + t;
    }
  }

  /** The result is ordered by `le`. */
  lemma {:induction false} SortBySorted<T(!new)>(s: seq<T>, le: (T, T) -> bool)
    requires IsTotalPreorder(le)
    ensures SortedBy(SortBy(s, le), le)
  {
    if s != [] {
      SortBySorted(s[1..], le);
      InsertSorted(s[0], SortBy(s[1..], le), le);
    }
  }

  /** A list whose neighbours are already in order is left as it is. */
  lemma {:induction false} SortByKeepsOrdered<T>(s: seq<T>, le: (T, T) -> bool)
    requires forall i :: 0 < i < |s| ==> le(s[i - 1], s[i])
    ensures SortBy(s, le) == s
  {
    if s != [] {
      SortByKeepsOrdered(s[1..], le);
      if |s| > 1 { assert le(s[0], s[1..][0]); }
      assert s == [s[0]] + s[1..];
    }
  }

  /** `a` and `b` compare as equal (the comparator returns 0). */
  predicate Tied<T>(le: (T, T) -> bool, a: T, b: T) {
    le(a, b) && le(b, a)
  }

  /** The elements tied with `a`, as a filter (`y => cmp(a, y) === 0`). */
  function TiedWith<T>(le: (T, T) -> bool, a: T): T -> bool {
    y => Tied(le, a, y)
  }

  lemma FilterCons<T>(h: T, t: seq<T>, p: T -> bool)
    ensures Filter([h] + t, p) == (if p(h) then [h] else []) + Filter(t, p)
  {
    assert ([h] + t)[1..] == t;
  }

  /** An element strictly above one tied with `a` is not tied with `a`. */
  lemma TiedExcludes<T(!new)>(le: (T, T) -> bool, a: T, x: T, y: T)
    requires IsTotalPreorder(le) && Tied(le, a, x) && !le(x, y)
    ensures !Tied(le, a, y)
  {
  }

  lemma {:induction false} InsertTies<T(!new)>(x: T, s: seq<T>, le: (T, T) -> bool, a: T)
    requires IsTotalPreorder(le)
    ensures Filter(Insert(x, s, le), TiedWith(le, a))
         == (if Tied(le, a, x) then [x] else []) + Filter(s, TiedWith(le, a))
  {
    var p := TiedWith(le, a);
    if s == [] {
      FilterCons(x, s, p);
      assert [x] + s == [x];
    } else if le(x, s[0]) {
      FilterCons(x, s, p);
    } else {
      InsertTies(x, s[1..], le, a);
      if Tied(le, a, x) {
        TiedExcludes(le, a, x, s[0]);
      }
      InsertTiesStep(x, s, le, a);
    }
  }

  /** The step of `InsertTies` where `x` goes after the head of `s`. */
  lemma {:induction false} InsertTiesStep<T(!new)>(x: T, s: seq<T>, le: (T, T) -> bool, a: T)
    requires s != [] && !le(x, s[0]) && (Tied(le, a, x) ==> !Tied(le, a, s[0]))
    requires Filter(Insert(x, s[1..], le), TiedWith(le, a))
          == (if Tied(le, a, x) then [x] else []) + Filter(s[1..], TiedWith(le, a))
    ensures Filter(Insert(x, s, le), TiedWith(le, a))
         == (if Tied(le, a, x) then [x] else []) + Filter(s, TiedWith(le, a))
  {
    var p := TiedWith(le, a);
    var t := Insert(x, s[1..], le);
    var xs: seq<T> := if Tied(le, a, x) then [x] else [];
    var hs: seq<T> := if p(s[0]) then [s[0]] else [];
    var f := Filter(s[1..], p);
    assert Insert(x, s, le) == [s[0]] + t;
    FilterCons(s[0], t, p);
    assert s == [s[0]] + s[1..];
    FilterCons(s[0], s[1..], p);
    assert hs == [] || xs == [];
    assert hs + (xs + f) == xs + (hs + f);
  }

  /** Stability: among the elements tied with any `a`, the sort keeps the input order. */
  lemma {:induction false} SortByStable<T(!new)>(s: seq<T>, le: (T, T) -> bool, a: T)
    requires IsTotalPreorder(le)
    ensures Filter(SortBy(s, le), TiedWith(le, a)) == Filter(s, TiedWith(le, a))
  {
    if s != [] {
      SortByStable(s[1..], le, a);
      InsertTies(s[0], SortBy(s[1..], le), le, a);
    }
  }
}
