/** The handful of Python string operations the modelled code relies on:
    rendering an integer in decimal (`f"{n}"`), `str.split(" ")`, `"\n".join`,
    `str.split(maxsplit=1)`, `str.strip()`, `str.lower()` and the ordering
    `sorted` uses on `str` keys. Strings are sequences of Unicode scalar
    values, as Python's `str` is a sequence of code points. */
module Strings {

  // ---------------------------------------------------------------------
  // Decimal rendering of integers, as `str(n)` / `f"{n}"` prints them
  // ---------------------------------------------------------------------

  predicate IsDigit(c: char) {
    '0' <= c <= '9'
  }

  function DigitChar(d: nat): (c: char)
    requires d < 10
    ensures IsDigit(c)
  {
    (48 + d) as char
  }

  /** Decimal digits of `n`, most significant first, without leading zeros. */
  function NatToString(n: nat): (s: string)
    ensures |s| >= 1
    ensures forall k :: 0 <= k < |s| ==> IsDigit(s[k])
    ensures n >= 10 ==> |s| >= 2
  {
    if n < 10 then [DigitChar(n)] else NatToString(n / 10) + [DigitChar(n % 10)]
  }

  /** Python's `str(i)` for an `int`: an optional minus sign, then digits. */
  function IntToString(i: int): (s: string)
    ensures |s| >= 1
    ensures (s[0] == '-') <==> i < 0
  {
    if i < 0 then "-" + NatToString(-i) else NatToString(i)
  }

  lemma {:induction false} NatToStringInjective(a: nat, b: nat)
    requires NatToString(a) == NatToString(b)
    ensures a == b
  {
    var sa, sb := NatToString(a), NatToString(b);
    if a < 10 && b < 10 {
      assert sa[0] == DigitChar(a) && sb[0] == DigitChar(b);
    } else if a >= 10 && b >= 10 {
      assert sa == NatToString(a / 10) + [DigitChar(a % 10)];
      assert sb == NatToString(b / 10) + [DigitChar(b % 10)];
      assert sa[|sa| - 1] == DigitChar(a % 10);
      assert sb[|sb| - 1] == DigitChar(b % 10);
      assert NatToString(a / 10) == sa[..|sa| - 1];
      assert NatToString(b / 10) == sb[..|sb| - 1];
      NatToStringInjective(a / 10, b / 10);
    }
  }

  /** Distinct integers print differently, so a string key built from an
      integer identifies it. */
  lemma IntToStringInjective(a: int, b: int)
    requires IntToString(a) == IntToString(b)
    ensures a == b
  {
    var s := IntToString(a);
    if a < 0 {
      assert b < 0;
      assert NatToString(-a) == s[1..] == NatToString(-b);
      NatToStringInjective(-a, -b);
    } else {
      assert b >= 0;
      NatToStringInjective(a, b);
    }
  }

  // ---------------------------------------------------------------------
  // str.split(sep) with a one-character separator, and sep.join(parts)
  // ---------------------------------------------------------------------

  /** The index of the first occurrence of `c` in `s`. */
  function FirstIndexOf(s: string, c: char): (i: nat)
    requires c in s
    ensures i < |s| && s[i] == c && c !in s[..i]
  {
    if s[0] == c then 0
    else
      var j := FirstIndexOf(s[1..], c);
      assert s[..j + 1] == [s[0]] + s[1..][..j];
      1 + j
  }

  /** `sep.join(parts)`. */
  function Join(parts: seq<string>, sep: string): string {
    if |parts| == 0 then ""
    else if |parts| == 1 then parts[0]
    else parts[0] + sep + Join(parts[1..], sep)
  }

  /** Python's `s.split(sep)` for a one-character `sep`: the pieces between
      successive occurrences of `sep`, empty pieces included, so that joining
      them with `sep` gives back `s`. */
  function Split(s: string, sep: char): (parts: seq<string>)
    ensures |parts| >= 1
    ensures forall k :: 0 <= k < |parts| ==> sep !in parts[k]
    ensures Join(parts, [sep]) == s
    ensures |parts| == 1 <==> sep !in s
    decreases |s|
  {
    if sep !in s then [s]
    else
      var i := FirstIndexOf(s, sep);
      var rest := Split(s[i + 1..], sep);
      var parts := [s[..i]] + rest;
      assert parts[1..] == rest;
      assert s == s[..i] + [sep] + s[i + 1..];
      parts
  }

  /** A separator-free piece followed by the separator is split off as the
      first piece, whatever follows. */
  lemma SplitPrefix(a: string, rest: string, sep: char)
    requires sep !in a
    ensures Split(a + [sep] + rest, sep) == [a] + Split(rest, sep)
  {
    var s := a + [sep] + rest;
    assert s[|a|] == sep;
    var i := FirstIndexOf(s, sep);
    assert s[..i] == a;
    assert s[i + 1..] == rest;
  }

  /** Splitting undoes joining: a string with exactly one separator splits
      into the two pieces around it. */
  lemma SplitAroundOne(a: string, b: string, sep: char)
    requires sep !in a && sep !in b
    ensures Split(a + [sep] + b, sep) == [a, b]
  {
    SplitPrefix(a, b, sep);
  }

  /** More generally, splitting a join of separator-free pieces gives the
      pieces back, so a join never has a separator too many or too few. */
  lemma {:induction false} SplitJoin(parts: seq<string>, sep: char)
    requires |parts| >= 1
    requires forall k :: 0 <= k < |parts| ==> sep !in parts[k]
    ensures Split(Join(parts, [sep]), sep) == parts
    decreases |parts|
  {
    if |parts| > 1 {
      var tail := parts[1..];
      var j := Join(tail, [sep]);
      assert Join(parts, [sep]) == parts[0] + [sep] + j;
      assert forall k :: 0 <= k < |tail| ==> tail[k] == parts[k + 1];
      SplitJoin(tail, sep);
      SplitPrefix(parts[0], j, sep);
      assert parts == [parts[0]] + tail;
    }
  }

  /** Any string that `Split` cuts into exactly two pieces is those pieces
      around a single separator. */
  lemma SplitIntoTwo(s: string, sep: char)
    requires |Split(s, sep)| == 2
    ensures var p := Split(s, sep); s == p[0] + [sep] + p[1] && sep !in p[0] && sep !in p[1]
  {
    var p := Split(s, sep);
    assert p[1..] == [p[1]];
    assert Join(p, [sep]) == p[0] + [sep] + Join(p[1..], [sep]);
  }

  // ---------------------------------------------------------------------
  // str.lower() as far as `parts[0].lower() != "bearer"` needs it
  // ---------------------------------------------------------------------

  function AsciiLowerChar(c: char): (d: char)
    ensures 'a' <= d <= 'z' ==> (c == d || c == (d as int - 32) as char)
  {
    if 'A' <= c <= 'Z' then (c as int + 32) as char else c
  }

  /** Lower-casing of ASCII letters; every other character is kept. */
  function AsciiLower(s: string): (r: string)
    ensures |r| == |s|
    ensures forall k :: 0 <= k < |s| ==> r[k] == AsciiLowerChar(s[k])
  {
    if s == [] then [] else [AsciiLowerChar(s[0])] + AsciiLower(s[1..])
  }

  // ---------------------------------------------------------------------
  // Python whitespace, str.strip() and str.split(maxsplit=1)
  // ---------------------------------------------------------------------

  /** The characters for which Python's `str.isspace()` holds; these are the
      separators of `str.split()` and what `str.strip()` removes. */
  predicate IsSpace(c: char) {
    || c == '\t' || c == '\n' || c == '\U{0B}' || c == '\U{0C}' || c == '\r'
    || ('\U{1C}' <= c <= '\U{1F}') || c == ' ' || c == '\U{85}' || c == '\U{A0}'
    || c == '\U{1680}' || ('\U{2000}' <= c <= '\U{200A}')
    || c == '\U{2028}' || c == '\U{2029}' || c == '\U{202F}' || c == '\U{205F}'
    || c == '\U{3000}'
  }

  predicate AllSpace(s: string) {
    forall k :: 0 <= k < |s| ==> IsSpace(s[k])
  }

  predicate NoSpace(s: string) {
    forall k :: 0 <= k < |s| ==> !IsSpace(s[k])
  }

  /** The first index at or after `i` that holds a non-space, or `|s|`. */
  function SkipSpace(s: string, i: nat): (j: nat)
    requires i <= |s|
    ensures i <= j <= |s|
    ensures AllSpace(s[i..j])
    ensures j < |s| ==> !IsSpace(s[j])
    decreases |s| - i
  {
    if i == |s| || !IsSpace(s[i]) then i else SkipSpace(s, i + 1)
  }

  /** The first index at or after `i` that holds a space, or `|s|`. */
  function SkipToken(s: string, i: nat): (j: nat)
    requires i <= |s|
    ensures i <= j <= |s|
    ensures NoSpace(s[i..j])
    ensures j < |s| ==> IsSpace(s[j])
    decreases |s| - i
  {
    if i == |s| || IsSpace(s[i]) then i else SkipToken(s, i + 1)
  }

  /** The last index `j <= i` such that `s[j..i]` is all spaces. */
  function SkipSpaceBack(s: string, i: nat): (j: nat)
    requires i <= |s|
    ensures j <= i
    ensures AllSpace(s[j..i])
    ensures j > 0 ==> !IsSpace(s[j - 1])
  {
    if i == 0 || !IsSpace(s[i - 1]) then i
    else
      var j := SkipSpaceBack(s, i - 1);
      assert s[j..i] == s[j..i - 1] + [s[i - 1]];
      j
  }

  /** Python's `s.strip()`: `s` without its leading and trailing whitespace. */
  function Strip(s: string): (r: string)
    ensures r == "" ==> AllSpace(s)
    ensures r != "" ==> !IsSpace(r[0]) && !IsSpace(r[|r| - 1])
    ensures exists i, j :: 0 <= i <= j <= |s| && r == s[i..j] && AllSpace(s[..i]) && AllSpace(s[j..])
  {
    var i := SkipSpace(s, 0);
    if i == |s| then
      assert s[..i] == s;
      assert AllSpace(s[i..]);
      ""
    else
      var j := SkipSpaceBack(s, |s|);
      assert s[..i] == s[0..i] && s[j..] == s[j..|s|];
      s[i..j]
  }

  /** Python's `s.split(maxsplit=1)`: no pieces when `s` is all whitespace;
      otherwise the first whitespace-free token and, when anything but
      whitespace follows it, the remainder after the whitespace run that
      ends the token (trailing whitespace of the remainder is kept). */
  function SplitOnce(s: string): (parts: seq<string>)
    ensures |parts| <= 2
    ensures |parts| == 0 <==> AllSpace(s)
    ensures |parts| >= 1 ==>
              var a := SkipSpace(s, 0);
              var b := SkipToken(s, a);
              a < b && parts[0] == s[a..b] && AllSpace(s[..a])
              && (|parts| == 1 <==> AllSpace(s[b..]))
              && (|parts| == 2 ==> var c := SkipSpace(s, b); c < |s| && parts[1] == s[c..] && AllSpace(s[b..c]))
  {
    var a := SkipSpace(s, 0);
    if a == |s| then
      []
    else
      var b := SkipToken(s, a);
      var c := SkipSpace(s, b);
      if c == |s| then
        assert s[b..] == s[b..c];
        [s[a..b]]
      else
        assert !AllSpace(s[b..]) by { assert s[b..][c - b] == s[c]; }
        [s[a..b], s[c..]]
  }

  // ---------------------------------------------------------------------
  // The order Python's `sorted` uses on `str`: code point by code point
  // ---------------------------------------------------------------------

  /** `a < b` on Python strings: lexicographic on code points, a proper
      prefix coming first. */
  predicate StrLess(a: string, b: string)
    decreases |a|
  {
    if |a| == 0 then |b| > 0
    else if |b| == 0 then false
    else a[0] < b[0] || (a[0] == b[0] && StrLess(a[1..], b[1..]))
  }

  lemma {:induction false} StrLessIrreflexive(a: string)
    ensures !StrLess(a, a)
    decreases |a|
  {
    if |a| > 0 {
      StrLessIrreflexive(a[1..]);
    }
  }

  lemma {:induction false} StrLessTransitive(a: string, b: string, c: string)
    requires StrLess(a, b) && StrLess(b, c)
    ensures StrLess(a, c)
    decreases |a|
  {
    if |a| > 0 && a[0] == b[0] && b[0] == c[0] {
      StrLessTransitive(a[1..], b[1..], c[1..]);
    }
  }

  lemma {:induction false} StrLessTotal(a: string, b: string)
    requires a != b
    ensures StrLess(a, b) || StrLess(b, a)
    decreases |a|
  {
    if |a| > 0 && |b| > 0 && a[0] == b[0] {
      assert a == [a[0]] + a[1..] && b == [b[0]] + b[1..];
      StrLessTotal(a[1..], b[1..]);
    }
  }
}
