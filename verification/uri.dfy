/**
 * `encodeURIComponent` and `decodeURIComponent` as ECMAScript defines them
 * (sections 19.2.6.4 and 19.2.6.5 of ECMA-262): characters outside the
 * unreserved set travel as `%XY` escapes of their UTF-8 bytes, and
 * decoding rejects malformed escapes and invalid UTF-8 with a URIError.
 */
module UriCodec {
  import opened Wrappers

  function HexValue(c: char): (r: Option<nat>)
    ensures r.Some? ==> r.value < 16
  {
    if '0' <= c <= '9' then Some(c as int - '0' as int)
    else if 'a' <= c <= 'f' then Some(c as int - 'a' as int + 10)
    else if 'A' <= c <= 'F' then Some(c as int - 'A' as int + 10)
    else None
  }

  /** Upper-case hex digit, as `encodeURIComponent` writes it. */
  function HexDigit(n: nat): (c: char)
    requires n < 16
    ensures HexValue(c) == Some(n)
    ensures '0' <= c <= '9' || 'A' <= c <= 'F'
  {
    if n < 10 then (n + '0' as int) as char else (n - 10 + 'A' as int) as char
  }

  /** The byte of the escape `%XY` written at index `i` of `s`, if there is one. */
  function EscapeAt(s: string, i: nat): (r: Option<nat>)
    ensures r.Some? ==> r.value < 256 && i + 3 <= |s| && s[i] == '%'
  {
    if i + 3 <= |s| && s[i] == '%' && HexValue(s[i + 1]).Some? && HexValue(s[i + 2]).Some?
    then Some(HexValue(s[i + 1]).value * 16 + HexValue(s[i + 2]).value)
    else None
  }

  function Escape(b: nat): (r: string)
    requires b < 256
    ensures |r| == 3 && EscapeAt(r, 0) == Some(b)
  {
    ['%', HexDigit(b / 16), HexDigit(b % 16)]
  }

  /** Number of leading one bits of a byte, capped at 5. */
  function LeadingOnes(b: nat): (n: nat)
    requires b < 256
    ensures n <= 5
  {
    if b < 0x80 then 0
    else if b < 0xC0 then 1
    else if b < 0xE0 then 2
    else if b < 0xF0 then 3
    else if b < 0xF8 then 4
    else 5
  }

  /** The six payload bits of an escaped continuation byte (`10xxxxxx`) at index `i`. */
  function ContinuationAt(s: string, i: nat): (r: Option<nat>)
    ensures r.Some? ==> r.value < 64 && i + 3 <= |s|
  {
    match EscapeAt(s, i)
    case Some(b) => if 0x80 <= b < 0xC0 then Some(b - 0x80) else None
    case None => None
  }

  /** The code point an `n`-byte sequence spells, when it is the shortest form of a scalar value. */
  predicate IsScalarOfLength(n: nat, cp: int)
  {
    || (n == 2 && 0x80 <= cp < 0x800)
    || (n == 3 && 0x800 <= cp < 0x10000 && !(0xD800 <= cp < 0xE000))
    || (n == 4 && 0x10000 <= cp <= 0x10FFFF)
  }

  /**
   * The character an escaped multi-byte sequence of length `n` starting
   * with lead byte `b0` at the front of `s` decodes to; None when a
   * continuation is missing or malformed or the bytes are not valid UTF-8.
   */
  function Sequence(s: string, b0: nat, n: nat): (r: Option<char>)
    requires b0 < 256 && 2 <= n <= 4
    ensures r.Some? ==> 3 * n <= |s|
  {
    var c1 := ContinuationAt(s, 3);
    var c2 := if n >= 3 then ContinuationAt(s, 6) else Some(0);
    var c3 := if n >= 4 then ContinuationAt(s, 9) else Some(0);
    if c1.None? || c2.None? || c3.None? then None
    else
      var cp :=
        if n == 2 then (b0 % 32) * 64 + c1.value
        else if n == 3 then (b0 % 16) * 4096 + c1.value * 64 + c2.value
        else (b0 % 8) * 262144 + c1.value * 4096 + c2.value * 64 + c3.value;
      if IsScalarOfLength(n, cp) then Some(cp as char) else None
  }

  datatype Decoded = Text(text: string) | UriError

  function Prepend(c: char, d: Decoded): (r: Decoded)
    ensures r.Text? <==> d.Text?
    ensures r.Text? ==> r.text == [c] + d.text
  {
    match d
    case Text(t) => Text([c] + t)
    case UriError => UriError
  }

  /** `decodeURIComponent`: every escape is decoded; a bad one throws. */
  function Decode(s: string): (r: Decoded)
    ensures r.Text? ==> |r.text| <= |s|
    ensures r.Text? && |s| > 0 ==> |r.text| > 0
    decreases |s|
  {
    if |s| == 0 then Text("")
    else if s[0] != '%' then Prepend(s[0], Decode(s[1..]))
    else match EscapeAt(s, 0)
      case None => UriError
      case Some(b0) =>
        var n := LeadingOnes(b0);
        if n == 0 then Prepend(b0 as char, Decode(s[3..]))
        else if n == 1 || n > 4 then UriError
        else match Sequence(s, b0, n)
          case None => UriError
          case Some(c) => Prepend(c, Decode(s[3 * n..]))
  }

  /** A string without `%` decodes to itself. */
  lemma {:induction false} DecodeWithoutEscapes(s: string)
    requires '%' !in s
    ensures Decode(s) == Text(s)
    decreases |s|
  {
    if |s| > 0 {
      DecodeWithoutEscapes(s[1..]);
      assert [s[0]] + s[1..] == s;
    }
  }

  /** An escape at `j` covers `j + 1` and `j + 2`, so the next `%` that is no escape lies beyond it. */
  lemma EscapeCovers(s: string, j: nat, i: nat)
    requires EscapeAt(s, j).Some? && j <= i < |s| && s[i] == '%' && EscapeAt(s, i).None?
    ensures j + 3 <= i
  {
    assert HexValue(s[j + 1]).Some? && HexValue(s[j + 2]).Some?;
  }

  /** A decodable `n`-byte sequence at the front spans its `3 * n` characters. */
  lemma SequenceCovers(s: string, b0: nat, n: nat, i: nat)
    requires b0 < 256 && 2 <= n <= 4 && EscapeAt(s, 0).Some? && Sequence(s, b0, n).Some?
    requires i < |s| && s[i] == '%' && EscapeAt(s, i).None?
    ensures 3 * n <= i
  {
    EscapeCovers(s, 0, i);
    assert ContinuationAt(s, 3).Some?;
    EscapeCovers(s, 3, i);
    if n >= 3 {
      assert ContinuationAt(s, 6).Some?;
      EscapeCovers(s, 6, i);
    }
    if n >= 4 {
      assert ContinuationAt(s, 9).Some?;
      EscapeCovers(s, 9, i);
    }
  }

  /** Dropping a prefix of `d` characters moves every escape `d` places left. */
  lemma EscapeAtShift(s: string, d: nat, i: nat)
    requires d <= i <= |s|
    ensures EscapeAt(s[d..], i - d) == EscapeAt(s, i)
  {
    if i + 3 <= |s| {
      assert s[d..][i - d] == s[i] && s[d..][i - d + 1] == s[i + 1] && s[d..][i - d + 2] == s[i + 2];
    }
  }

  /** A `%` that does not open two hex digits makes decoding throw, wherever it stands. */
  lemma {:induction false} BadEscapeThrows(s: string, i: nat)
    requires i < |s| && s[i] == '%' && EscapeAt(s, i).None?
    ensures Decode(s) == UriError
    decreases |s|
  {
    if i > 0 {
      if s[0] != '%' {
        EscapeAtShift(s, 1, i);
        BadEscapeThrows(s[1..], i - 1);
      } else if EscapeAt(s, 0).Some? {
        var b0 := EscapeAt(s, 0).value;
        var n := LeadingOnes(b0);
        if n == 0 {
          EscapeCovers(s, 0, i);
          EscapeAtShift(s, 3, i);
          BadEscapeThrows(s[3..], i - 3);
        } else if 2 <= n <= 4 && Sequence(s, b0, n).Some? {
          SequenceCovers(s, b0, n, i);
          EscapeAtShift(s, 3 * n, i);
          BadEscapeThrows(s[3 * n..], i - 3 * n);
        }
      }
    }
  }

  /** A malformed escape after a valid one still throws. */
  lemma LateBadEscapeThrows()
    ensures Decode("%41%G") == UriError
  {
    BadEscapeThrows("%41%G", 3);
  }

  /** The characters `encodeURIComponent` leaves as they are. */
  predicate Unreserved(c: char)
  {
    || ('A' <= c <= 'Z') || ('a' <= c <= 'z') || ('0' <= c <= '9')
    || c == '-' || c == '_' || c == '.' || c == '!' || c == '~'
    || c == '*' || c == '\'' || c == '(' || c == ')'
  }

  /** The UTF-8 bytes of a scalar value. */
  function Utf8(c: char): (bs: seq<nat>)
    ensures 1 <= |bs| <= 4
    ensures forall k :: 0 <= k < |bs| ==> bs[k] < 256
  {
    var cp := c as int;
    if cp < 0x80 then [cp]
    else if cp < 0x800 then [0xC0 + cp / 64, 0x80 + cp % 64]
    else if cp < 0x10000 then [0xE0 + cp / 4096, 0x80 + (cp / 64) % 64, 0x80 + cp % 64]
    else [0xF0 + cp / 262144, 0x80 + (cp / 4096) % 64, 0x80 + (cp / 64) % 64, 0x80 + cp % 64]
  }

  /** A character of an encoded component: unreserved, or the `%` of an escape. */
  predicate Encoded(c: char)
  {
    Unreserved(c) || c == '%'
  }

  function EscapeAll(bs: seq<nat>): (r: string)
    requires forall k :: 0 <= k < |bs| ==> bs[k] < 256
    ensures |r| == 3 * |bs|
  {
    if |bs| == 0 then "" else Escape(bs[0]) + EscapeAll(bs[1..])
  }

  /** Escapes hold only `%` and upper-case hex digits. */
  lemma {:induction false} EscapeAllEncoded(bs: seq<nat>)
    requires forall k :: 0 <= k < |bs| ==> bs[k] < 256
    ensures forall k :: 0 <= k < |EscapeAll(bs)| ==> Encoded(EscapeAll(bs)[k])
    decreases |bs|
  {
    if |bs| > 0 {
      EscapeAllEncoded(bs[1..]);
      var e, y := Escape(bs[0]), EscapeAll(bs[1..]);
      assert EscapeAll(bs) == e + y;
      forall k | 0 <= k < |e + y| ensures Encoded((e + y)[k]) {
        if k >= 3 { assert (e + y)[k] == y[k - 3]; }
      }
    }
  }

  /** One character: itself when unreserved, otherwise one `%XY` escape per UTF-8 byte. */
  function EncodeChar(c: char): (r: string)
    ensures r == [c] <==> Unreserved(c)
    ensures !Unreserved(c) ==> |r| == 3 * |Utf8(c)| && forall k :: 0 <= k < |Utf8(c)| ==> EscapeAt(r, 3 * k) == Some(Utf8(c)[k])
    ensures forall k :: 0 <= k < |r| ==> Encoded(r[k])
  {
    if Unreserved(c) then [c]
    else
      var r := EscapeAll(Utf8(c));
      EscapeAllEncoded(Utf8(c));
      assert r[0] == '%';
      forall k | 0 <= k < |Utf8(c)| ensures EscapeAt(r, 3 * k) == Some(Utf8(c)[k]) {
        EscapeAllAt(Utf8(c), k, "");
        assert r + "" == r;
      }
      r
  }

  /**
   * `encodeURIComponent` (Dafny strings hold scalar values, so it never
   * throws here): the output holds only unreserved characters and `%`, and
   * a string of unreserved characters passes through unchanged.
   */
  function Encode(s: string): (r: string)
    ensures |s| <= |r|
    ensures forall k :: 0 <= k < |r| ==> Encoded(r[k])
    ensures (forall k :: 0 <= k < |s| ==> Unreserved(s[k])) ==> r == s
  {
    if |s| == 0 then ""
    else
      var rest := Encode(s[1..]);
      assert forall k :: 1 <= k < |s| ==> s[k] == s[1..][k - 1];
      var r := EncodeChar(s[0]) + rest;
      assert forall k :: 0 <= k < |r| ==> Encoded(r[k]) by {
        forall k | 0 <= k < |r| ensures Encoded(r[k]) {
          if k >= |EncodeChar(s[0])| { assert r[k] == rest[k - |EncodeChar(s[0])|]; }
        }
      }
      r
  }

  /** An escape is read from its own three characters only. */
  lemma EscapeAtLocal(s: string, i: nat, t: string, j: nat)
    requires i + 3 <= |s| && j + 3 <= |t| && s[i..i + 3] == t[j..j + 3]
    ensures EscapeAt(s, i) == EscapeAt(t, j)
  {
    assert s[i] == t[j] && s[i + 1] == t[j + 1] && s[i + 2] == t[j + 2] by {
      assert s[i..i + 3][0] == s[i] && s[i..i + 3][1] == s[i + 1] && s[i..i + 3][2] == s[i + 2];
      assert t[j..j + 3][0] == t[j] && t[j..j + 3][1] == t[j + 1] && t[j..j + 3][2] == t[j + 2];
    }
  }

  /** The escape of the `k`-th byte sits at index `3 * k` of the escaped form. */
  lemma {:induction false} EscapeAllAt(bs: seq<nat>, k: nat, rest: string)
    requires forall j :: 0 <= j < |bs| ==> bs[j] < 256
    requires k < |bs|
    ensures EscapeAt(EscapeAll(bs) + rest, 3 * k) == Some(bs[k])
    decreases k
  {
    var e := Escape(bs[0]);
    var y := EscapeAll(bs[1..]) + rest;
    var x := EscapeAll(bs) + rest;
    assert x == e + y;
    if k == 0 {
      assert x[..3] == e;
      EscapeAtLocal(x, 0, e, 0);
    } else {
      EscapeAllAt(bs[1..], k - 1, rest);
      assert x[3 * k..3 * k + 3] == y[3 * (k - 1)..3 * (k - 1) + 3];
      EscapeAtLocal(x, 3 * k, y, 3 * (k - 1));
    }
  }

  /** The escapes of a two-byte character read back as that character. */
  lemma SequenceTwo(c: char, x: string)
    requires |Utf8(c)| == 2
    requires EscapeAt(x, 0) == Some(Utf8(c)[0]) && EscapeAt(x, 3) == Some(Utf8(c)[1])
    ensures LeadingOnes(Utf8(c)[0]) == 2 && Sequence(x, Utf8(c)[0], 2) == Some(c)
  {
    var cp := c as int;
    assert ContinuationAt(x, 3) == Some(cp % 64);
    assert Utf8(c)[0] % 32 == cp / 64;
  }

  /** The escapes of a three-byte character read back as that character. */
  lemma SequenceThree(c: char, x: string)
    requires |Utf8(c)| == 3
    requires EscapeAt(x, 0) == Some(Utf8(c)[0]) && EscapeAt(x, 3) == Some(Utf8(c)[1])
    requires EscapeAt(x, 6) == Some(Utf8(c)[2])
    ensures LeadingOnes(Utf8(c)[0]) == 3 && Sequence(x, Utf8(c)[0], 3) == Some(c)
  {
    var cp := c as int;
    assert ContinuationAt(x, 3) == Some((cp / 64) % 64);
    assert ContinuationAt(x, 6) == Some(cp % 64);
    assert Utf8(c)[0] % 16 == cp / 4096;
    Digits64(cp);
  }

  /** The escapes of a four-byte character read back as that character. */
  lemma SequenceFour(c: char, x: string)
    requires |Utf8(c)| == 4
    requires EscapeAt(x, 0) == Some(Utf8(c)[0]) && EscapeAt(x, 3) == Some(Utf8(c)[1])
    requires EscapeAt(x, 6) == Some(Utf8(c)[2]) && EscapeAt(x, 9) == Some(Utf8(c)[3])
    ensures LeadingOnes(Utf8(c)[0]) == 4 && Sequence(x, Utf8(c)[0], 4) == Some(c)
  {
    var cp := c as int;
    assert ContinuationAt(x, 3) == Some((cp / 4096) % 64);
    assert ContinuationAt(x, 6) == Some((cp / 64) % 64);
    assert ContinuationAt(x, 9) == Some(cp % 64);
    assert Utf8(c)[0] % 8 == cp / 262144;
    Digits64(cp);
    Digits64(cp / 64);
    assert cp / 262144 == (cp / 4096) / 64;
  }

  /** Decoding the escaped bytes of one character gives back that character. */
  lemma DecodeEncodeChar(c: char, rest: string)
    ensures Decode(EncodeChar(c) + rest) == Prepend(c, Decode(rest))
  {
    var x := EncodeChar(c) + rest;
    if Unreserved(c) {
      assert x[1..] == rest;
    } else {
      var bs := Utf8(c);
      var n := |bs|;
      forall k | 0 <= k < n ensures EscapeAt(x, 3 * k) == Some(bs[k]) {
        EscapeAllAt(bs, k, rest);
      }
      assert x[3 * n..] == rest;
      if n == 1 {
        assert LeadingOnes(bs[0]) == 0;
        assert bs[0] as char == c;
      } else if n == 2 {
        SequenceTwo(c, x);
      } else if n == 3 {
        SequenceThree(c, x);
      } else {
        SequenceFour(c, x);
      }
    }
  }

  /** Splitting a number into base-64 digits. */
  lemma Digits64(cp: nat)
    ensures cp == (cp / 4096) * 4096 + ((cp / 64) % 64) * 64 + cp % 64
    ensures cp / 4096 == (cp / 64) / 64
  {
    var q := cp / 64;
    assert cp == q * 64 + cp % 64;
    assert q == (q / 64) * 64 + q % 64;
    assert cp / 4096 == q / 64;
  }

  /** Decoding undoes encoding, for every string. */
  lemma {:induction false} DecodeEncode(s: string)
    ensures Decode(Encode(s)) == Text(s)
    decreases |s|
  {
    if |s| > 0 {
      DecodeEncodeChar(s[0], Encode(s[1..]));
      DecodeEncode(s[1..]);
      assert [s[0]] + s[1..] == s;
    }
  }
}
