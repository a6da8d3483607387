/** String helpers with the semantics of the JavaScript built-ins the app calls:
    `String.prototype.trim`, `startsWith`/`endsWith`, `slice(0, n)`, `String(n)`
    for integers, `padStart(2, '0')`, `parseInt(text, 10)`, and the order that
    `localeCompare` is approximated by (code-point lexicographic order). */
module Text {
  import opened Optional

  /** The characters JavaScript's `trim` removes and `\s` matches: the
      ECMAScript WhiteSpace and LineTerminator code points. */
  predicate IsSpace(c: char) {
    || c == ' ' || c == '\t' || c == '\n' || c == '\r'
    || c == '\U{000B}' || c == '\U{000C}' || c == '\U{00A0}' || c == '\U{1680}'
    || ('\U{2000}' <= c <= '\U{200A}')
    || c == '\U{2028}' || c == '\U{2029}' || c == '\U{202F}' || c == '\U{205F}'
    || c == '\U{3000}' || c == '\U{FEFF}'
  }

  predicate IsDigit(c: char) { '0' <= c <= '9' }

  predicate AllSpace(s: string) { forall i :: 0 <= i < |s| ==> IsSpace(s[i]) }

  predicate AllDigits(s: string) { forall i :: 0 <= i < |s| ==> IsDigit(s[i]) }

  /** `s.trimStart()` */
  function TrimStart(s: string): (r: string)
    ensures |r| <= |s|
  {
    if s == [] || !IsSpace(s[0]) then s else TrimStart(s[1..])
  }

  /** `s.trimEnd()` */
  function TrimEnd(s: string): (r: string)
    ensures |r| <= |s|
  {
    if s == [] || !IsSpace(s[|s| - 1]) then s else TrimEnd(s[..|s| - 1])
  }

  /** `trimStart` removes a prefix of white space and nothing else. */
  lemma {:induction false} TrimStartShape(s: string)
    ensures var r := TrimStart(s);
      && r == s[|s| - |r|..]
      && AllSpace(s[..|s| - |r|])
      && (r == [] || !IsSpace(r[0]))
  {
    if s != [] && IsSpace(s[0]) {
      TrimStartShape(s[1..]);
      var r := TrimStart(s[1..]);
      assert s[1..][..|s| - 1 - |r|] == s[1..|s| - |r|];
    }
  }

  /** `trimEnd` removes a suffix of white space and nothing else. */
  lemma {:induction false} TrimEndShape(s: string)
    ensures var r := TrimEnd(s);
      && r == s[..|r|]
      && AllSpace(s[|r|..])
      && (r == [] || !IsSpace(r[|r| - 1]))
  {
    if s != [] && IsSpace(s[|s| - 1]) {
      var p := s[..|s| - 1];
      TrimEndShape(p);
      var r := TrimEnd(p);
      assert p[..|r|] == s[..|r|];
      assert forall i | 0 <= i < |s| - 1 - |r| :: s[|r|..][i] == p[|r|..][i];
    }
  }

  /** `s.trim()` */
  function Trim(s: string): string {
    TrimEnd(TrimStart(s))
  }

  /** `Boolean(s.trim())`: the string has a character that is not white space. */
  predicate HasText(s: string) {
    Trim(s) != []
  }

  /** `Boolean(value?.trim())` for an optional string. */
  predicate HasTextOpt(s: Option<string>) {
    s.Some? && HasText(s.value)
  }

  /** A string is blank after trimming exactly when every character is white space. */
  lemma HasTextIff(s: string)
    ensures HasText(s) <==> exists i :: 0 <= i < |s| && !IsSpace(s[i])
  {
    var t := TrimStart(s);
    var k := |s| - |t|;
    TrimStartShape(s);
    TrimEndShape(t);
    if t != [] {
      assert TrimEnd(t) != [];
      assert !IsSpace(s[k]) by { assert t[0] == s[k]; }
    } else {
      forall i | 0 <= i < |s| ensures IsSpace(s[i]) {
        assert s[..k][i] == s[i];
      }
    }
  }

  /** Trimming removes white space only at both ends: the result is a contiguous
      part of the input with no white space at either end. */
  lemma TrimIsInfix(s: string)
    ensures exists a, b :: 0 <= a <= b <= |s| && Trim(s) == s[a..b]
                       && AllSpace(s[..a]) && AllSpace(s[b..])
    ensures Trim(s) == [] || (!IsSpace(Trim(s)[0]) && !IsSpace(Trim(s)[|Trim(s)| - 1]))
  {
    var t := TrimStart(s);
    var r := TrimEnd(t);
    TrimStartShape(s);
    TrimEndShape(t);
    var a := |s| - |t|;
    var b := a + |r|;
    SliceOfSuffix(s, a, |r|);
    assert Trim(s) == s[a..b] && AllSpace(s[..a]) && AllSpace(s[b..]);
  }

  lemma SliceOfSuffix(s: string, a: nat, k: nat)
    requires a + k <= |s|
    ensures s[a..][..k] == s[a..a + k] && s[a..][k..] == s[a + k..]
  {
  }

  /** Trimming twice is trimming once. */
  lemma TrimIdempotent(s: string)
    ensures Trim(Trim(s)) == Trim(s)
  {
    var t := Trim(s);
    TrimIsInfix(s);
    assert TrimStart(t) == t;
    assert TrimEnd(t) == t;
  }

  /** `s.startsWith(p)` */
  predicate StartsWith(s: string, p: string) {
    |p| <= |s| && s[..|p|] == p
  }

  /** `s.endsWith(p)` */
  predicate EndsWith(s: string, p: string) {
    |p| <= |s| && s[|s| - |p|..] == p
  }

  /** `/^\d{4}-\d{2}-\d{2}$/.test(s)`: four digits, a hyphen, two digits, a
      hyphen, two digits, and nothing else (`$` without the `m` flag matches
      only at the end of the input). */
  predicate IsIsoDateShape(s: string) {
    && |s| == 10
    && IsDigit(s[0]) && IsDigit(s[1]) && IsDigit(s[2]) && IsDigit(s[3])
    && s[4] == '-'
    && IsDigit(s[5]) && IsDigit(s[6])
    && s[7] == '-'
    && IsDigit(s[8]) && IsDigit(s[9])
  }

  /** `s.slice(0, n)` for n >= 0. */
  function Take(s: string, n: nat): (r: string)
    ensures |r| == if |s| <= n then |s| else n
    ensures r == s[..|r|]
  {
    if |s| <= n then s else s[..n]
  }

  function DigitChar(d: nat): (c: char)
    requires d < 10
    ensures IsDigit(c)
  {
    ['0', '1', '2', '3', '4', '5', '6', '7', '8', '9'][d]
  }

  function DigitValue(c: char): nat
    requires IsDigit(c)
  {
    (c as int - '0' as int) as nat
  }

  /** Decimal digits of a natural number, without leading zeros. */
  function DecNat(n: nat): (r: string)
    ensures |r| >= 1 && AllDigits(r)
    ensures n >= 10 ==> r[0] != '0'
    decreases n
  {
    if n < 10 then [DigitChar(n)] else DecNat(n / 10) + [DigitChar(n % 10)]
  }

  /** `String(n)` for an integer. */
  function Dec(n: int): string {
    if n < 0 then "-" + DecNat(-n) else DecNat(n)
  }

  /** The value of a string of decimal digits (leading zeros allowed). */
  function DigitsValue(s: string): nat
    requires AllDigits(s)
  {
    if s == [] then 0 else 10 * DigitsValue(s[..|s| - 1]) + DigitValue(s[|s| - 1])
  }

  /** Printing a natural number and reading it back gives the number. */
  lemma {:induction false} DecNatValue(n: nat)
    ensures DigitsValue(DecNat(n)) == n
    decreases n
  {
    if n >= 10 {
      DecNatValue(n / 10);
      var r := DecNat(n);
      assert r[..|r| - 1] == DecNat(n / 10);
    }
  }

  /** A number of 1000..9999 prints as exactly four digits, the first not 0. */
  lemma DecNatFourDigits(n: nat)
    requires 1000 <= n <= 9999
    ensures |DecNat(n)| == 4 && DecNat(n)[0] != '0'
  {
    var d3, d2, d1 := n / 1000, n / 100, n / 10;
    assert d2 / 10 == d3 && d1 / 10 == d2 && 1 <= d3 < 10;
    assert DecNat(d2) == DecNat(d3) + [DigitChar(d2 % 10)];
    assert DecNat(d1) == DecNat(d2) + [DigitChar(d1 % 10)];
    assert DecNat(n) == DecNat(d1) + [DigitChar(n % 10)];
  }

  /** Two digits print as at most two characters. */
  lemma DecNatSmall(n: nat)
    requires n < 100
    ensures |DecNat(n)| == if n < 10 then 1 else 2
  {
  }

  /** `s.padStart(2, '0')` */
  function PadStart2(s: string): (r: string)
    ensures |r| == if |s| >= 2 then |s| else 2
    ensures EndsWith(r, s)
    ensures forall i :: 0 <= i < |r| - |s| ==> r[i] == '0'
  {
    if |s| >= 2 then s else if |s| == 1 then "0" + s else "00"
  }

  /** Code-point lexicographic order: the model of `a.localeCompare(b) <= 0`
      on the ASCII date and timestamp strings the app compares. */
  predicate LexLe(a: string, b: string)
    decreases |a|
  {
    if a == [] then true
    else if b == [] then false
    else if a[0] != b[0] then a[0] < b[0]
    else LexLe(a[1..], b[1..])
  }

  lemma {:induction false} LexLeTotal(a: string, b: string)
    ensures LexLe(a, b) || LexLe(b, a)
    decreases |a|
  {
    if a != [] && b != [] && a[0] == b[0] { LexLeTotal(a[1..], b[1..]); }
  }

  lemma {:induction false} LexLeTransitive(a: string, b: string, c: string)
    requires LexLe(a, b) && LexLe(b, c)
    ensures LexLe(a, c)
    decreases |a|
  {
    if a != [] && b != [] && c != [] && a[0] == b[0] == c[0] {
      LexLeTransitive(a[1..], b[1..], c[1..]);
    }
  }

  lemma {:induction false} LexLeAntisymmetric(a: string, b: string)
    requires LexLe(a, b) && LexLe(b, a)
    ensures a == b
    decreases |a|
  {
    if a != [] && b != [] {
      LexLeAntisymmetric(a[1..], b[1..]);
      assert a == [a[0]] + a[1..] && b == [b[0]] + b[1..];
    }
  }

  /** The result of `parseInt(text, 10)`: leading white space is skipped, an
      optional sign is read, then the longest run of decimal digits; None is NaN
      (no digit). */
  function ParseInt(text: string): (r: Option<int>)
    ensures r.None? <==> !StartsWithDigitAfterSign(TrimStart(text))
  {
    var t := TrimStart(text);
    if t != [] && (t[0] == '-' || t[0] == '+') then
      var d := LeadingDigits(t[1..]);
      if d == [] then None
      else
        var v: int := DigitsValue(d);
        if t[0] == '-' then Some(-v) else Some(v)
    else
      var d := LeadingDigits(t);
      if d == [] then None else Some(DigitsValue(d))
  }

  predicate StartsWithDigitAfterSign(t: string) {
    if t != [] && (t[0] == '-' || t[0] == '+') then |t| > 1 && IsDigit(t[1])
    else t != [] && IsDigit(t[0])
  }

  /** The longest prefix made of decimal digits. */
  function LeadingDigits(s: string): (r: string)
    ensures AllDigits(r) && StartsWith(s, r)
    ensures r == [] <==> (s == [] || !IsDigit(s[0]))
    ensures |r| < |s| ==> !IsDigit(s[|r|])
  {
    if s == [] || !IsDigit(s[0]) then [] else [s[0]] + LeadingDigits(s[1..])
  }

  /** A string of digits with no sign reads back as its digit value. */
  lemma ParseIntDigits(s: string)
    requires s != [] && AllDigits(s)
    ensures ParseInt(s) == Some(DigitsValue(s))
  {
    assert IsDigit(s[0]) && !IsSpace(s[0]) && s[0] != '-' && s[0] != '+';
    assert TrimStart(s) == s;
    LeadingDigitsAll(s);
  }

  lemma {:induction false} LeadingDigitsAll(s: string)
    requires AllDigits(s)
    ensures LeadingDigits(s) == s
  {
    if s != [] { LeadingDigitsAll(s[1..]); }
  }
}
