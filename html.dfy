/** Text-to-HTML machinery shared by the two exporters: per-character
    rewriting (what `s.replace(/[...]/g, c => map[c])` does), the global
    single-character replace `s.replace(/c/g, r)`, and a decoder for the five
    character references the exporters emit (HTML Living Standard, section
    13.1.4 "Character references"), used to state that escaping loses nothing. */
module Html {
  import opened Text

  /** Each character of `s` replaced by the string `f` gives for it. */
  function MapChars(s: string, f: char -> string): (r: string)
    ensures s == [] ==> r == []
  {
    if s == [] then [] else f(s[0]) + MapChars(s[1..], f)
  }

  lemma {:induction false} MapCharsAppend(a: string, b: string, f: char -> string)
    ensures MapChars(a + b, f) == MapChars(a, f) + MapChars(b, f)
  {
    if a != [] {
      assert (a + b)[0] == a[0] && (a + b)[1..] == a[1..] + b;
      MapCharsAppend(a[1..], b, f);
    } else {
      assert a + b == b;
    }
  }

  /** No output character is `c` when no character's image contains `c`. */
  lemma {:induction false} MapCharsAvoids(s: string, f: char -> string, c: char)
    requires forall x :: c !in f(x)
    ensures c !in MapChars(s, f)
  {
    if s != [] {
      MapCharsAvoids(s[1..], f, c);
    }
  }

  /** `items.map(f).join('')` */
  function ConcatMap<T>(items: seq<T>, f: T -> string): string {
    if items == [] then "" else f(items[0]) + ConcatMap(items[1..], f)
  }

  /** Adding an item adds its text after the others. */
  lemma {:induction false} ConcatMapSnoc<T>(items: seq<T>, x: T, f: T -> string)
    ensures ConcatMap(items + [x], f) == ConcatMap(items, f) + f(x)
  {
    if items == [] {
      assert ConcatMap([x], f) == f(x) + ConcatMap([], f);
    } else {
      assert (items + [x])[1..] == items[1..] + [x];
      ConcatMapSnoc(items[1..], x, f);
    }
  }

  /** `s.replace(/c/g, r)` for a single character `c`. */
  function ReplaceChar(s: string, c: char, r: string): string {
    if s == [] then [] else (if s[0] == c then r else [s[0]]) + ReplaceChar(s[1..], c, r)
  }

  lemma {:induction false} ReplaceCharAbsent(s: string, c: char, r: string)
    requires c !in s
    ensures ReplaceChar(s, c, r) == s
  {
    if s != [] {
      ReplaceCharAbsent(s[1..], c, r);
      assert s == [s[0]] + s[1..];
    }
  }

  /** No `c` is left when the replacement has none. */
  lemma {:induction false} ReplaceCharRemoves(s: string, c: char, r: string)
    requires c !in r
    ensures c !in ReplaceChar(s, c, r)
  {
    if s != [] {
      ReplaceCharRemoves(s[1..], c, r);
    }
  }

  lemma {:induction false} ReplaceCharAppend(a: string, b: string, c: char, r: string)
    ensures ReplaceChar(a + b, c, r) == ReplaceChar(a, c, r) + ReplaceChar(b, c, r)
  {
    if a != [] {
      assert (a + b)[0] == a[0] && (a + b)[1..] == a[1..] + b;
      ReplaceCharAppend(a[1..], b, c, r);
    } else {
      assert a + b == b;
    }
  }

  /** A single replace is the per-character rewriting `f` describes. */
  lemma {:induction false} ReplaceCharIsMap(s: string, c: char, r: string, f: char -> string)
    requires forall x :: f(x) == if x == c then r else [x]
    ensures ReplaceChar(s, c, r) == MapChars(s, f)
  {
    if s != [] {
      ReplaceCharIsMap(s[1..], c, r, f);
    }
  }

  /** Replacing in a per-character rewriting is the rewriting `g` that
      replaces in each character's image. */
  lemma {:induction false} ReplaceCharOfMap(s: string, f: char -> string, g: char -> string, c: char, r: string)
    requires forall x :: ReplaceChar(f(x), c, r) == g(x)
    ensures ReplaceChar(MapChars(s, f), c, r) == MapChars(s, g)
  {
    if s != [] {
      ReplaceCharAppend(f(s[0]), MapChars(s[1..], f), c, r);
      ReplaceCharOfMap(s[1..], f, g, c, r);
    }
  }

  /** Reads the character references `&amp;`, `&lt;`, `&gt;`, `&quot;` and
      `&#039;` back as the characters they stand for; everything else is
      copied. */
  function Unescape(s: string): string
    decreases |s|
  {
    if s == [] then []
    else if StartsWith(s, "&amp;") then "&" + Unescape(s[5..])
    else if StartsWith(s, "&lt;") then "<" + Unescape(s[4..])
    else if StartsWith(s, "&gt;") then ">" + Unescape(s[4..])
    else if StartsWith(s, "&quot;") then "\"" + Unescape(s[6..])
    else if StartsWith(s, "&#039;") then "'" + Unescape(s[6..])
    else [s[0]] + Unescape(s[1..])
  }

  /** Decoding a reference, or a character that does not start one, in front
      of any text. */
  lemma UnescapeStep(e: string, x: char, rest: string)
    requires || (e == "&amp;" && x == '&') || (e == "&lt;" && x == '<') || (e == "&gt;" && x == '>')
             || (e == "&quot;" && x == '"') || (e == "&#039;" && x == '\'') || (e == [x] && x != '&')
    ensures Unescape(e + rest) == [x] + Unescape(rest)
  {
    var s := e + rest;
    assert s[..|e|] == e && s[|e|..] == rest;
    // what a prefix of s says about its first three characters
    if |s| >= 4 { assert s[..4][0] == s[0] && s[..4][1] == s[1] && s[..4][2] == s[2]; }
    if |s| >= 5 { assert s[..5][0] == s[0] && s[..5][1] == s[1]; }
    if |s| >= 6 { assert s[..6][0] == s[0] && s[..6][1] == s[1]; }
    if e == [x] {
      assert s[0] == x && s[1..] == rest;
    } else {
      assert s[1] == e[1] && s[2] == e[2];
    }
  }
}
