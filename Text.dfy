/**
 * String helpers shared by the frontend (TypeScript) and backend (Python) models:
 * the two languages' notions of whitespace and trimming, prefix tests, JavaScript's
 * `indexOf`, decimal rendering of integers and joining.
 */
module Text {

  /** Python's `str.isspace()`: what `str.strip()` and the regex class `\s` treat as whitespace. */
  predicate PyIsSpace(c: char) {
    ('\t' <= c <= '\r') || ('\U{1C}' <= c <= '\U{1F}') || c == ' ' || c == '\U{85}' || c == '\U{A0}'
    || c == '\U{1680}' || ('\U{2000}' <= c <= '\U{200A}') || c == '\U{2028}' || c == '\U{2029}'
    || c == '\U{202F}' || c == '\U{205F}' || c == '\U{3000}'
  }

  /** The characters JavaScript's `String.prototype.trim` removes (WhiteSpace and LineTerminator). */
  predicate JsIsSpace(c: char) {
    ('\t' <= c <= '\r') || c == ' ' || c == '\U{A0}' || c == '\U{FEFF}'
    || c == '\U{1680}' || ('\U{2000}' <= c <= '\U{200A}') || c == '\U{2028}' || c == '\U{2029}'
    || c == '\U{202F}' || c == '\U{205F}' || c == '\U{3000}'
  }

  /** The character set of Python's `strip(" .\n")`. */
  predicate IsSpaceDotNewline(c: char) {
    c == ' ' || c == '.' || c == '\n'
  }

  /** Number of leading characters of `s` that `drop` removes. */
  function LeadingCount(s: string, drop: char -> bool): (n: nat)
    ensures n <= |s|
    ensures forall i :: 0 <= i < n ==> drop(s[i])
    ensures n < |s| ==> !drop(s[n])
  {
    if |s| == 0 || !drop(s[0]) then 0 else 1 + LeadingCount(s[1..], drop)
  }

  /** Number of trailing characters of `s` that `drop` removes. */
  function TrailingCount(s: string, drop: char -> bool): (n: nat)
    ensures n <= |s|
    ensures forall i :: |s| - n <= i < |s| ==> drop(s[i])
    ensures n < |s| ==> !drop(s[|s| - n - 1])
  {
    if |s| == 0 || !drop(s[|s| - 1]) then 0 else 1 + TrailingCount(s[..|s| - 1], drop)
  }

  /** The leading run of `a + b` is exactly `a` when `a` is all accepted and `b` does not start with an accepted character. */
  lemma {:induction false} LeadingCountOfPrefix(a: string, b: string, drop: char -> bool)
    requires forall i :: 0 <= i < |a| ==> drop(a[i])
    requires |b| == 0 || !drop(b[0])
    ensures LeadingCount(a + b, drop) == |a|
  {
    if |a| > 0 {
      assert (a + b)[1..] == a[1..] + b;
      LeadingCountOfPrefix(a[1..], b, drop);
    } else {
      assert a + b == b;
    }
  }

  /** The trailing run of `a + b` is exactly `b` when `b` is all accepted and `a` does not end with an accepted character. */
  lemma {:induction false} TrailingCountOfSuffix(a: string, b: string, drop: char -> bool)
    requires forall i :: 0 <= i < |b| ==> drop(b[i])
    requires |a| == 0 || !drop(a[|a| - 1])
    ensures TrailingCount(a + b, drop) == |b|
  {
    if |b| > 0 {
      assert (a + b)[..|a + b| - 1] == a + b[..|b| - 1];
      TrailingCountOfSuffix(a, b[..|b| - 1], drop);
    } else {
      assert a + b == a;
    }
  }

  /** Stripping `a + r + b` gives `r` when `a` and `b` are dropped and `r` neither starts nor ends with a dropped character. */
  lemma StripOf(a: string, r: string, b: string, drop: char -> bool)
    requires forall i :: 0 <= i < |a| ==> drop(a[i])
    requires forall i :: 0 <= i < |b| ==> drop(b[i])
    requires |r| > 0 && !drop(r[0]) && !drop(r[|r| - 1])
    ensures StripWith(a + r + b, drop) == r
  {
    var s := a + r + b;
    assert s == a + (r + b);
    LeadingCountOfPrefix(a, r + b, drop);
    assert s[|a|..] == r + b;
    TrailingCountOfSuffix(r, b, drop);
    assert (r + b)[..|r|] == r;
  }

  /** `r` is the infix of `s` that starts at `i`, and everything around it is dropped. */
  ghost predicate StrippedAt(s: string, r: string, i: nat, drop: char -> bool) {
    && i + |r| <= |s| && r == s[i..i + |r|]
    && (forall k :: 0 <= k < i ==> drop(s[k]))
    && (forall k :: i + |r| <= k < |s| ==> drop(s[k]))
  }

  /** Removes the longest prefix and suffix made of characters `drop` accepts. */
  function StripWith(s: string, drop: char -> bool): (r: string)
    ensures |r| <= |s|
    ensures exists i: nat :: StrippedAt(s, r, i, drop)
    ensures |r| > 0 ==> !drop(r[0]) && !drop(r[|r| - 1])
    ensures (forall k :: 0 <= k < |s| ==> drop(s[k])) <==> r == []
  {
    var a := LeadingCount(s, drop);
    var t := s[a..];
    var b := TrailingCount(t, drop);
    var r := t[..|t| - b];
    assert StrippedAt(s, r, a, drop);
    assert r == [] ==> forall k :: 0 <= k < |s| ==> drop(s[k]) by {
      if r == [] {
        forall k | 0 <= k < |s| ensures drop(s[k]) {
        }
      }
    }
    r
  }

  /** Python's `str.strip()` with no argument. */
  function PyStrip(s: string): string {
    StripWith(s, PyIsSpace)
  }

  /** Python's `str.strip(" .\n")`. */
  function PyStripSpaceDotNewline(s: string): string {
    StripWith(s, IsSpaceDotNewline)
  }

  /** JavaScript's `String.prototype.trim()`. */
  function JsTrim(s: string): string {
    StripWith(s, JsIsSpace)
  }

  predicate StartsWith(s: string, prefix: string) {
    |prefix| <= |s| && s[..|prefix|] == prefix
  }

  /** `p` occurs in `s` starting at index `k`. */
  predicate OccursAt(s: string, p: string, k: nat) {
    k + |p| <= |s| && s[k..k + |p|] == p
  }

  ghost predicate Contains(s: string, p: string) {
    exists k: nat :: OccursAt(s, p, k)
  }

  /** JavaScript's `s.indexOf(p, i)` for `0 <= i <= |s|`: the first occurrence at or after `i`, or -1. */
  function IndexOfFrom(s: string, p: string, i: nat): (r: int)
    requires i <= |s|
    decreases |s| - i
    ensures r == -1 || (i <= r && OccursAt(s, p, r))
    ensures r == -1 ==> forall k: nat :: i <= k ==> !OccursAt(s, p, k)
    ensures r >= 0 ==> forall k: nat :: i <= k < r ==> !OccursAt(s, p, k)
  {
    if i + |p| > |s| then -1
    else if s[i..i + |p|] == p then i
    else IndexOfFrom(s, p, i + 1)
  }

  /** JavaScript's `s.indexOf(p)`. */
  function IndexOf(s: string, p: string): (r: int)
    ensures r == -1 <==> !Contains(s, p)
    ensures r >= 0 ==> OccursAt(s, p, r) && forall k: nat :: k < r ==> !OccursAt(s, p, k)
  {
    IndexOfFrom(s, p, 0)
  }

  predicate IsDigit(c: char) {
    '0' <= c <= '9'
  }

  predicate AllDigits(s: string) {
    forall i :: 0 <= i < |s| ==> IsDigit(s[i])
  }

  function DigitChar(d: nat): (c: char)
    requires d < 10
    ensures IsDigit(c)
  {
    ['0', '1', '2', '3', '4', '5', '6', '7', '8', '9'][d]
  }

  function DigitValue(c: char): (d: nat)
    requires IsDigit(c)
    ensures d < 10
  {
    (c as int - '0' as int) as nat
  }

  /** The number a run of decimal digits denotes. */
  function DigitsValue(s: string): nat
    requires AllDigits(s)
  {
    if |s| == 0 then 0 else DigitsValue(s[..|s| - 1]) * 10 + DigitValue(s[|s| - 1])
  }

  /** Decimal rendering of a natural number, as JavaScript and Python print integers. */
  function NatToString(n: nat): (r: string)
    ensures |r| > 0 && AllDigits(r)
    ensures |r| > 1 ==> r[0] != '0'
  {
    if n < 10 then [DigitChar(n)] else NatToString(n / 10) + [DigitChar(n % 10)]
  }

  /** Decimal rendering of an integer with a leading '-' for negatives. */
  function IntToString(i: int): (r: string)
    ensures |r| > 0
  {
    if i < 0 then "-" + NatToString(-i) else NatToString(i)
  }

  lemma {:induction false} DigitValueOfDigitChar(d: nat)
    requires d < 10
    ensures DigitValue(DigitChar(d)) == d
  {
  }

  /** Reading back a rendered natural gives the number. */
  lemma {:induction false} NatToStringValue(n: nat)
    ensures DigitsValue(NatToString(n)) == n
  {
    var r := NatToString(n);
    if n < 10 {
      DigitValueOfDigitChar(n);
    } else {
      NatToStringValue(n / 10);
      DigitValueOfDigitChar(n % 10);
      assert r[..|r| - 1] == NatToString(n / 10);
    }
  }

  lemma {:induction false} NatToStringInjective(a: nat, b: nat)
    requires NatToString(a) == NatToString(b)
    ensures a == b
  {
    NatToStringValue(a);
    NatToStringValue(b);
  }

  /** Rendered integers never contain the separator '_' used in cache keys. */
  lemma IntToStringHasNoUnderscore(i: int)
    ensures '_' !in IntToString(i)
  {
  }

  lemma {:induction false} IntToStringInjective(a: int, b: int)
    requires IntToString(a) == IntToString(b)
    ensures a == b
  {
    var s := IntToString(a);
    if a < 0 && b < 0 {
      assert NatToString(-a) == s[1..] == NatToString(-b);
      NatToStringInjective(-a, -b);
    } else if a >= 0 && b >= 0 {
      NatToStringInjective(a, b);
    }
  }

  /** Python's `sep.join(parts)` and JavaScript's `parts.join(sep)`. */
  function Join(parts: seq<string>, sep: string): string {
    if |parts| == 0 then ""
    else if |parts| == 1 then parts[0]
    else parts[0] + sep + Join(parts[1..], sep)
  }

  /** Concatenation of all parts, JavaScript's `parts.join("")`. */
  function Concat(parts: seq<string>): string {
    if |parts| == 0 then "" else parts[0] + Concat(parts[1..])
  }

  lemma {:induction false} ConcatAppend(parts: seq<string>, s: string)
    ensures Concat(parts + [s]) == Concat(parts) + s
  {
    if |parts| == 0 {
      assert parts + [s] == [s];
    } else {
      assert (parts + [s])[1..] == parts[1..] + [s];
      ConcatAppend(parts[1..], s);
    }
  }

  lemma {:induction false} JoinAppend(parts: seq<string>, s: string, sep: string)
    requires |parts| > 0
    ensures Join(parts + [s], sep) == Join(parts, sep) + sep + s
  {
    if |parts| == 1 {
      assert (parts + [s])[1..] == [s];
    } else {
      assert (parts + [s])[1..] == parts[1..] + [s];
      JoinAppend(parts[1..], s, sep);
    }
  }

  /** Index of the last occurrence of `c` in `s`, or -1. */
  function LastIndexOfChar(s: string, c: char): (r: int)
    ensures -1 <= r < |s|
    ensures r >= 0 ==> s[r] == c
  {
    if |s| == 0 then -1
    else if s[|s| - 1] == c then |s| - 1
    else LastIndexOfChar(s[..|s| - 1], c)
  }

  lemma {:induction false} LastIndexOfSeparator(a: string, x: string, sep: char)
    requires sep !in x
    ensures LastIndexOfChar(a + [sep] + x, sep) == |a|
    decreases |x|
  {
    var s := a + [sep] + x;
    if |x| > 0 {
      assert s[|s| - 1] == x[|x| - 1];
      assert s[..|s| - 1] == a + [sep] + x[..|x| - 1];
      LastIndexOfSeparator(a, x[..|x| - 1], sep);
    } else {
      assert s[|s| - 1] == sep;
    }
  }

  /** If `a + sep + x == b + sep + y` and neither `x` nor `y` holds the one-character separator, the split is the same. */
  lemma {:induction false} SplitAtLastSeparator(a: string, x: string, b: string, y: string, sep: char)
    requires sep !in x && sep !in y
    requires a + [sep] + x == b + [sep] + y
    ensures a == b && x == y
  {
    var s := a + [sep] + x;
    LastIndexOfSeparator(a, x, sep);
    LastIndexOfSeparator(b, y, sep);
    assert a == s[..|a|] == b;
    assert x == s[|a| + 1..] == y;
  }
}
