/**
 * Character and string primitives shared by the browser pages and the
 * Django views: case mapping (ASCII only), the two whitespace classes
 * (JavaScript's `\s` and Python's `str.isspace`), substring search,
 * stripping, and decimal rendering of identifiers.
 */
module Text {

  /** JavaScript's `\s` class (ECMAScript WhiteSpace and LineTerminator). */
  predicate IsJsSpace(c: char)
  {
    || ('\t' <= c <= '\r')
    || c == ' ' || c == '\U{00A0}' || c == '\U{1680}'
    || ('\U{2000}' <= c <= '\U{200A}')
    || c == '\U{2028}' || c == '\U{2029}' || c == '\U{202F}'
    || c == '\U{205F}' || c == '\U{3000}' || c == '\U{FEFF}'
  }

  /** Python's `str.isspace()`, which is what `str.strip()` removes. */
  predicate IsPySpace(c: char)
  {
    || ('\t' <= c <= '\r')
    || ('\U{001C}' <= c <= '\U{001F}')
    || c == ' ' || c == '\U{0085}' || c == '\U{00A0}' || c == '\U{1680}'
    || ('\U{2000}' <= c <= '\U{200A}')
    || c == '\U{2028}' || c == '\U{2029}' || c == '\U{202F}'
    || c == '\U{205F}' || c == '\U{3000}'
  }

  function AsciiLower(c: char): char
  {
    if 'A' <= c <= 'Z' then (c as int + 32) as char else c
  }

  function AsciiUpper(c: char): char
  {
    if 'a' <= c <= 'z' then (c as int - 32) as char else c
  }

  /** `toLowerCase()` / `lower()` restricted to the ASCII letters. */
  function Lower(s: string): (r: string)
    ensures |r| == |s|
    ensures forall k :: 0 <= k < |s| ==> r[k] == AsciiLower(s[k])
  {
    seq(|s|, k requires 0 <= k < |s| => AsciiLower(s[k]))
  }

  /** Lower-casing twice is lower-casing once. */
  lemma LowerIdempotent(s: string)
    ensures Lower(Lower(s)) == Lower(s)
  {
    assert forall k :: 0 <= k < |s| ==> AsciiLower(AsciiLower(s[k])) == AsciiLower(s[k]);
  }

  /** `n` occurs in `h` starting at index `i`. */
  predicate OccursAt(h: string, n: string, i: int)
  {
    0 <= i && i + |n| <= |h| && h[i..i + |n|] == n
  }

  /** `h.includes(n)` in JavaScript, `n in h` in Python. */
  function Contains(h: string, n: string): (b: bool)
    ensures b <==> exists i :: OccursAt(h, n, i)
    decreases |h|
  {
    if |n| > |h| then
      assert forall i :: !OccursAt(h, n, i);
      false
    else if h[..|n|] == n then
      assert OccursAt(h, n, 0);
      true
    else
      var rest := Contains(h[1..], n);
      assert forall i :: OccursAt(h[1..], n, i) ==> OccursAt(h, n, i + 1) by {
        forall i | OccursAt(h[1..], n, i) ensures OccursAt(h, n, i + 1) {
          assert h[1..][i..i + |n|] == h[i + 1..i + 1 + |n|];
        }
      }
      assert forall i :: OccursAt(h, n, i) ==> OccursAt(h[1..], n, i - 1) by {
        forall i | OccursAt(h, n, i) ensures OccursAt(h[1..], n, i - 1) {
          assert i != 0;
          assert h[1..][i - 1..i - 1 + |n|] == h[i..i + |n|];
        }
      }
      rest
  }

  /** Every string contains the empty string. */
  lemma ContainsEmpty(h: string)
    ensures Contains(h, "")
  {
    assert OccursAt(h, "", 0);
  }

  predicate StartsWith(s: string, prefix: string)
  {
    |prefix| <= |s| && s[..|prefix|] == prefix
  }

  /** Drops the leading characters of `s` that satisfy `isSpace`. */
  function TrimStart(isSpace: char -> bool, s: string): (r: string)
    ensures |r| <= |s| && r == s[|s| - |r|..]
    ensures forall k :: 0 <= k < |s| - |r| ==> isSpace(s[k])
    ensures |r| > 0 ==> !isSpace(r[0])
    decreases |s|
  {
    if |s| > 0 && isSpace(s[0]) then TrimStart(isSpace, s[1..]) else s
  }

  /** Drops the trailing characters of `s` that satisfy `isSpace`. */
  function TrimEnd(isSpace: char -> bool, s: string): (r: string)
    ensures |r| <= |s| && r == s[..|r|]
    ensures forall k :: |r| <= k < |s| ==> isSpace(s[k])
    ensures |r| > 0 ==> !isSpace(r[|r| - 1])
    decreases |s|
  {
    if |s| > 0 && isSpace(s[|s| - 1]) then TrimEnd(isSpace, s[..|s| - 1]) else s
  }

  /** `r` is the slice of `s` at `i` with only whitespace around it. */
  predicate IsStripOf(s: string, r: string, i: int)
  {
    && 0 <= i <= i + |r| <= |s| && r == s[i..i + |r|]
    && (forall k :: 0 <= k < i ==> IsPySpace(s[k]))
    && (forall k :: i + |r| <= k < |s| ==> IsPySpace(s[k]))
  }

  /** Python's `s.strip()`: the maximal middle slice without outer whitespace. */
  function PyStrip(s: string): (r: string)
    ensures exists i :: IsStripOf(s, r, i)
    ensures |r| > 0 ==> !IsPySpace(r[0]) && !IsPySpace(r[|r| - 1])
  {
    var front := TrimStart(IsPySpace, s);
    var r := TrimEnd(IsPySpace, front);
    PrefixOfSuffix(IsPySpace, s, front, r);
    assert IsStripOf(s, r, |s| - |front|);
    r
  }

  /** A prefix of a suffix is a middle slice, and what follows it in the suffix follows it in the whole. */
  lemma PrefixOfSuffix(isSpace: char -> bool, s: string, front: string, r: string)
    requires |front| <= |s| && front == s[|s| - |front|..]
    requires |r| <= |front| && r == front[..|r|]
    requires forall k :: |r| <= k < |front| ==> isSpace(front[k])
    ensures r == s[|s| - |front|..|s| - |front| + |r|]
    ensures forall k :: |s| - |front| + |r| <= k < |s| ==> isSpace(s[k])
  {
    var i := |s| - |front|;
    assert r == s[i..i + |r|];
    forall k | i + |r| <= k < |s| ensures isSpace(s[k]) {
      assert s[k] == front[k - i];
    }
  }

  /** A string is blank when stripping leaves nothing (Python `not s.strip()`). */
  predicate IsBlank(s: string)
  {
    |PyStrip(s)| == 0
  }

  /** Blank means every character is whitespace. */
  lemma BlankIffAllSpace(s: string)
    ensures IsBlank(s) <==> forall k :: 0 <= k < |s| ==> IsPySpace(s[k])
  {
    var r := PyStrip(s);
    var i :| IsStripOf(s, r, i);
    if |r| > 0 {
      assert s[i] == r[0];
    }
  }

  /** A strip with non-space ends (or an empty one) is the only such slice. */
  lemma StripUnique(s: string, r1: string, i1: int, r2: string, i2: int)
    requires IsStripOf(s, r1, i1) && (|r1| > 0 ==> !IsPySpace(r1[0]) && !IsPySpace(r1[|r1| - 1]))
    requires IsStripOf(s, r2, i2) && (|r2| > 0 ==> !IsPySpace(r2[0]) && !IsPySpace(r2[|r2| - 1]))
    ensures r1 == r2
  {
    if |r1| > 0 && |r2| > 0 {
      assert s[i1] == r1[0] && s[i2] == r2[0];
      assert s[i1 + |r1| - 1] == r1[|r1| - 1] && s[i2 + |r2| - 1] == r2[|r2| - 1];
    }
  }

  /** Where the strip of `s` sits in `s`. */
  lemma StripWitness(s: string) returns (i: int)
    ensures IsStripOf(s, PyStrip(s), i)
  {
    i :| IsStripOf(s, PyStrip(s), i);
  }

  /** Whitespace added at the end does not change the strip. */
  lemma StripPaddedRight(s: string, c: char)
    requires IsPySpace(c)
    ensures PyStrip(s + [c]) == PyStrip(s)
  {
    var r := PyStrip(s);
    var i := StripWitness(s);
    var t := s + [c];
    PadStrip(s, c, r, i);
    var j := StripWitness(t);
    StripUnique(t, r, i, PyStrip(t), j);
  }

  lemma PadStrip(s: string, c: char, r: string, i: int)
    requires IsPySpace(c) && IsStripOf(s, r, i)
    ensures IsStripOf(s + [c], r, i)
  {
    var t := s + [c];
    assert t[i..i + |r|] == s[i..i + |r|];
    forall k | 0 <= k < i ensures IsPySpace(t[k]) {
      assert t[k] == s[k];
    }
    forall k | i + |r| <= k < |t| ensures IsPySpace(t[k]) {
      if k < |s| { assert t[k] == s[k]; }
    }
  }

  /** Whitespace added at the front does not change the strip. */
  lemma StripPaddedLeft(s: string, c: char)
    requires IsPySpace(c)
    ensures PyStrip([c] + s) == PyStrip(s)
  {
    var i := StripWitness(s);
    ShiftStrip(s, c, PyStrip(s), i);
    var j := StripWitness([c] + s);
    StripUnique([c] + s, PyStrip(s), i + 1, PyStrip([c] + s), j);
  }

  lemma ShiftStrip(s: string, c: char, r: string, i: int)
    requires IsPySpace(c) && IsStripOf(s, r, i)
    ensures IsStripOf([c] + s, r, i + 1)
  {
    var t := [c] + s;
    assert t[i + 1..i + 1 + |r|] == s[i..i + |r|];
    forall k | 0 <= k < i + 1 ensures IsPySpace(t[k]) {
      if k > 0 { assert t[k] == s[k - 1]; }
    }
    forall k | i + 1 + |r| <= k < |t| ensures IsPySpace(t[k]) {
      assert t[k] == s[k - 1];
    }
  }

  /** A string without outer whitespace is its own strip. */
  lemma StripStripped(s: string)
    requires |s| > 0 ==> !IsPySpace(s[0]) && !IsPySpace(s[|s| - 1])
    ensures PyStrip(s) == s
  {
    var r := PyStrip(s);
    var i :| IsStripOf(s, r, i);
  }

  /** A character outside the Basic Multilingual Plane, which UTF-16 stores as a surrogate pair. */
  predicate IsAstral(c: char)
  {
    c as int > 0xFFFF
  }

  /** JavaScript's `s.length`: UTF-16 code units, two for each astral character. */
  function Utf16Length(s: string): (n: nat)
    ensures |s| <= n <= 2 * |s|
    ensures n == |s| <==> forall k :: 0 <= k < |s| ==> !IsAstral(s[k])
    ensures n == 2 * |s| <==> forall k :: 0 <= k < |s| ==> IsAstral(s[k])
    decreases |s|
  {
    if |s| == 0 then 0
    else
      var rest := Utf16Length(s[1..]);
      assert forall k :: 1 <= k < |s| ==> s[k] == s[1..][k - 1];
      (if IsAstral(s[0]) then 2 else 1) + rest
  }

  function DigitChar(d: nat): (c: char)
    requires d < 10
    ensures '0' <= c <= '9' && c as int - '0' as int == d
  {
    (d + '0' as int) as char
  }

  predicate IsDigits(s: string)
  {
    forall k :: 0 <= k < |s| ==> '0' <= s[k] <= '9'
  }

  /** Decimal rendering of a non-negative integer (`str(n)`, `${n}`). */
  function NatToString(n: nat): (r: string)
    ensures |r| > 0 && IsDigits(r)
    decreases n
  {
    if n < 10 then [DigitChar(n)] else NatToString(n / 10) + [DigitChar(n % 10)]
  }

  /** The value of a string of decimal digits. */
  function ParseDigits(s: string): nat
    requires IsDigits(s)
    decreases |s|
  {
    if |s| == 0 then 0
    else ParseDigits(s[..|s| - 1]) * 10 + (s[|s| - 1] as int - '0' as int)
  }

  /** Reading back a rendered number gives the number. */
  lemma {:induction false} ParseNatToString(n: nat)
    ensures ParseDigits(NatToString(n)) == n
    decreases n
  {
    if n >= 10 {
      var r := NatToString(n);
      assert r[..|r| - 1] == NatToString(n / 10);
      ParseNatToString(n / 10);
    }
  }

  /** Distinct numbers render to distinct strings. */
  lemma NatToStringInjective(a: nat, b: nat)
    requires NatToString(a) == NatToString(b)
    ensures a == b
  {
    ParseNatToString(a);
    ParseNatToString(b);
  }
}
