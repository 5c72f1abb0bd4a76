/**
 * `getCSRFCookie` of the login and signup pages: the search of
 * `document.cookie` for `/(?:^|;\s*)csrftoken=([^;]+)/`, followed by
 * `decodeURIComponent` of the captured value.
 */
module Csrf {
  import opened Wrappers
  import opened Text
  import opened UriCodec

  const Name := "csrftoken="

  /** The longest prefix of `s` without `;`, which is what `[^;]+` captures greedily. */
  function UntilSemi(s: string): (r: string)
    ensures |r| <= |s| && r == s[..|r|]
    ensures ';' !in r
    ensures |r| < |s| ==> s[|r|] == ';'
    decreases |s|
  {
    if |s| == 0 || s[0] == ';' then "" else [s[0]] + UntilSemi(s[1..])
  }

  /** `csrftoken=([^;]+)` matches at the front of `s`. */
  predicate TokenAt(s: string)
  {
    StartsWith(s, Name) && |UntilSemi(s[|Name|..])| > 0
  }

  /** The captured group of a match at the front of `s`. */
  function TokenOf(s: string): (v: string)
    requires TokenAt(s)
    ensures |v| > 0 && ';' !in v
  {
    UntilSemi(s[|Name|..])
  }

  /**
   * The `;\s*` alternative, tried at each position of `t` from the left.
   * `\s*` backtracks to no avail, since `c` is not whitespace, so only
   * the longest whitespace run can be followed by the name.
   */
  function AfterSemis(t: string): (r: Option<string>)
    ensures r.Some? ==> |r.value| > 0 && ';' !in r.value
    decreases |t|
  {
    if |t| == 0 then None
    else
      var after := TrimStart(IsJsSpace, t[1..]);
      if t[0] == ';' && TokenAt(after) then Some(TokenOf(after)) else AfterSemis(t[1..])
  }

  /**
   * The regular expression's leftmost match: `^` can only match at index
   * 0, where it is tried before `;\s*`; then `;\s*` at every later index.
   */
  function MatchCookie(cookie: string): (r: Option<string>)
    ensures r.Some? ==> |r.value| > 0 && ';' !in r.value
  {
    if TokenAt(cookie) then Some(TokenOf(cookie)) else AfterSemis(cookie)
  }

  /** `s.split(';')`. */
  function Split(s: string): (segs: seq<string>)
    ensures |segs| >= 1 && segs[0] == UntilSemi(s)
    ensures forall k :: 0 <= k < |segs| ==> ';' !in segs[k]
    decreases |s|
  {
    if |s| == 0 then [""]
    else
      var rest := Split(s[1..]);
      if s[0] == ';' then [""] + rest else [[s[0]] + rest[0]] + rest[1..]
  }

  /** The first of `segs`, each with leading whitespace removed, that is a `csrftoken=` pair. */
  function FirstPair(segs: seq<string>): Option<string>
  {
    if |segs| == 0 then None
    else
      var seg := TrimStart(IsJsSpace, segs[0]);
      if TokenAt(seg) then Some(TokenOf(seg)) else FirstPair(segs[1..])
  }

  /**
   * The reading of a cookie header a person would write down: split it
   * at `;`, look at the first pair as it stands and at the later ones
   * with leading whitespace removed, take the value of the first
   * `csrftoken` pair with a value.
   */
  function LookupCookie(cookie: string): Option<string>
  {
    var segs := Split(cookie);
    if TokenAt(segs[0]) then Some(TokenOf(segs[0])) else FirstPair(segs[1..])
  }

  /** Whether the name matches at the front depends only on the first segment. */
  lemma TokenAtFirstSegment(s: string)
    ensures TokenAt(s) <==> TokenAt(UntilSemi(s))
    ensures TokenAt(s) ==> TokenOf(s) == TokenOf(UntilSemi(s))
  {
    var p := UntilSemi(s);
    if StartsWith(s, Name) {
      assert s[..|Name|] == Name;
      UntilSemiKeepsClean(s, |Name|);
    }
    if |p| >= |Name| {
      assert p[..|Name|] == s[..|Name|];
      UntilSemiOfSuffix(s, |Name|);
      UntilSemiNoSemi(p[|Name|..]);
    }
  }

  /** A front of `s` without `;` lies inside the first segment. */
  lemma {:induction false} UntilSemiKeepsClean(s: string, n: nat)
    requires n <= |s| && ';' !in s[..n]
    ensures |UntilSemi(s)| >= n
    decreases n
  {
    if n > 0 {
      assert s[0] == s[..n][0];
      assert s[1..][..n - 1] == s[..n][1..];
      UntilSemiKeepsClean(s[1..], n - 1);
    }
  }

  /** Dropping a prefix of the first segment leaves the rest of that segment. */
  lemma {:induction false} UntilSemiOfSuffix(s: string, k: nat)
    requires k <= |UntilSemi(s)|
    ensures UntilSemi(s[k..]) == UntilSemi(s)[k..]
    decreases k
  {
    if k > 0 {
      assert s[k..] == s[1..][k - 1..];
      UntilSemiOfSuffix(s[1..], k - 1);
    }
  }

  lemma {:induction false} UntilSemiNoSemi(s: string)
    requires ';' !in s
    ensures UntilSemi(s) == s
    decreases |s|
  {
    if |s| > 0 {
      assert s[1..] == s[|s| - |s[1..]|..];
      assert ';' !in s[1..] by {
        forall k | 0 <= k < |s[1..]| ensures s[1..][k] != ';' {
          assert s[1..][k] == s[k + 1];
        }
      }
      UntilSemiNoSemi(s[1..]);
      assert [s[0]] + s[1..] == s;
    }
  }

  /** Trimming a string and trimming its first segment agree on the `csrftoken=` match. */
  lemma {:induction false} TrimmedFirstSegment(u: string)
    ensures TokenAt(TrimStart(IsJsSpace, u)) <==> TokenAt(TrimStart(IsJsSpace, UntilSemi(u)))
    ensures TokenAt(TrimStart(IsJsSpace, u)) ==>
      TokenOf(TrimStart(IsJsSpace, u)) == TokenOf(TrimStart(IsJsSpace, UntilSemi(u)))
    decreases |u|
  {
    if |u| == 0 {
    } else if u[0] == ';' {
      assert !StartsWith(TrimStart(IsJsSpace, u), Name) by {
        assert TrimStart(IsJsSpace, u) == u;
      }
    } else if IsJsSpace(u[0]) {
      var seg := UntilSemi(u);
      assert seg[0] == u[0] && seg[1..] == UntilSemi(u[1..]);
      TrimmedFirstSegment(u[1..]);
    } else {
      var seg := UntilSemi(u);
      assert TrimStart(IsJsSpace, u) == u;
      assert seg[0] == u[0];
      assert TrimStart(IsJsSpace, seg) == seg;
      TokenAtFirstSegment(u);
    }
  }

  /** The scan over `;` positions visits the later segments in order. */
  lemma {:induction false} AfterSemisIsFirstPair(t: string)
    ensures AfterSemis(t) == FirstPair(Split(t)[1..])
    decreases |t|
  {
    if |t| > 0 {
      var u := t[1..];
      AfterSemisIsFirstPair(u);
      if t[0] == ';' {
        assert Split(t)[1..] == Split(u);
        TrimmedFirstSegment(u);
        var segs := Split(u);
        assert segs[1..] == Split(u)[1..];
      } else {
        assert Split(t)[1..] == Split(u)[1..];
      }
    }
  }

  /** The regular expression and the split-and-trim reading find the same token. */
  lemma MatchIsLookup(cookie: string)
    ensures MatchCookie(cookie) == LookupCookie(cookie)
  {
    TokenAtFirstSegment(cookie);
    AfterSemisIsFirstPair(cookie);
  }

  /** Splitting at the first `;` of a string. */
  lemma {:induction false} SplitAt(a: string, b: string)
    requires ';' !in a
    ensures Split(a + ";" + b) == [a] + Split(b)
    decreases |a|
  {
    if |a| == 0 {
      assert (a + ";" + b)[1..] == b;
    } else {
      assert (a + ";" + b)[1..] == a[1..] + ";" + b;
      assert ';' !in a[1..] by {
        forall k | 0 <= k < |a[1..]| ensures a[1..][k] != ';' {
          assert a[1..][k] == a[k + 1];
        }
      }
      SplitAt(a[1..], b);
      assert [a[0]] + a[1..] == a;
    }
  }

  lemma {:induction false} SplitNoSemi(s: string)
    requires ';' !in s
    ensures Split(s) == [s]
    decreases |s|
  {
    if |s| > 0 {
      assert ';' !in s[1..] by {
        forall k | 0 <= k < |s[1..]| ensures s[1..][k] != ';' {
          assert s[1..][k] == s[k + 1];
        }
      }
      SplitNoSemi(s[1..]);
      assert [s[0]] + s[1..] == s;
    }
  }

  /** A single pair whose name merely ends in `csrftoken` (such as `xcsrftoken=v`) is not matched. */
  lemma UnanchoredNameIgnored(cookie: string)
    requires ';' !in cookie && !StartsWith(cookie, Name)
    ensures MatchCookie(cookie).None?
  {
    MatchIsLookup(cookie);
    SplitNoSemi(cookie);
  }

  /** `csrftoken=` with an empty value matches nothing. */
  lemma EmptyValueIgnored()
    ensures MatchCookie(Name + ";").None?
  {
    MatchIsLookup(Name + ";");
    SplitAt(Name, "");
    assert Name + ";" == Name + ";" + "";
    assert Split(Name + ";") == [Name, ""];
    assert Name[|Name|..] == "";
    assert !TokenAt(Name);
    assert TrimStart(IsJsSpace, "") == "";
    assert FirstPair([""]) == FirstPair([]);
  }

  /** `csrftoken=v` with a value free of `;` is matched, capturing `v`. */
  lemma TokenOfPair(v: string)
    requires |v| > 0 && ';' !in v
    ensures TokenAt(Name + v) && TokenOf(Name + v) == v
  {
    assert (Name + v)[|Name|..] == v;
    assert (Name + v)[..|Name|] == Name;
    UntilSemiNoSemi(v);
  }

  lemma SpaceBeforePair(v: string)
    ensures TrimStart(IsJsSpace, " " + Name + v) == Name + v
  {
    var x := Name + v;
    assert (" " + x)[1..] == x;
    assert x[0] == 'c';
    assert TrimStart(IsJsSpace, x) == x;
    assert " " + Name + v == " " + x;
  }

  /** Whitespace after a `;` is skipped: `a; csrftoken=v` yields `v` when `a` is another pair. */
  lemma LaterPairFound(a: string, v: string)
    requires ';' !in a && !TokenAt(a)
    requires |v| > 0 && ';' !in v
    ensures MatchCookie(a + "; " + Name + v) == Some(v)
  {
    var second := " " + Name + v;
    var cookie := a + "; " + Name + v;
    assert cookie == a + ";" + second;
    assert ';' !in second;
    SplitAt(a, second);
    SplitNoSemi(second);
    assert Split(cookie) == [a, second];
    SpaceBeforePair(v);
    TokenOfPair(v);
    assert FirstPair([second]) == Some(v);
    assert LookupCookie(cookie) == Some(v);
    MatchIsLookup(cookie);
  }

  /** What `getCSRFCookie` hands back: a value, nothing, or a thrown URIError. */
  datatype Read = Value(token: Option<string>) | Throws

  function GetCsrfCookie(cookie: string): (r: Read)
    ensures MatchCookie(cookie).None? ==> r == Value(None)
    ensures r.Value? && r.token.Some? ==>
      MatchCookie(cookie).Some? && Decode(MatchCookie(cookie).value) == Text(r.token.value)
    ensures r.Value? && r.token.Some? ==> |r.token.value| > 0
    ensures r == Throws <==> MatchCookie(cookie).Some? && Decode(MatchCookie(cookie).value).UriError?
  {
    match MatchCookie(cookie)
    case None => Value(None)
    case Some(v) =>
      match Decode(v)
      case Text(t) => Value(Some(t))
      case UriError => Throws
  }

  /** A cookie whose first pair is the token written with `encodeURIComponent` reads back as written. */
  lemma EncodedTokenReadsBack(token: string, others: string)
    requires |token| > 0
    ensures GetCsrfCookie(Name + Encode(token) + ";" + others) == Value(Some(token))
  {
    var enc := Encode(token);
    EncodeHasNoSemi(token);
    PairMatches(enc, others);
    DecodeEncode(token);
  }

  /** A leading `csrftoken=v;` pair is matched with `v` captured. */
  lemma PairMatches(v: string, others: string)
    requires |v| > 0 && ';' !in v
    ensures MatchCookie(Name + v + ";" + others) == Some(v)
  {
    var cookie := Name + v + ";" + others;
    assert cookie[|Name|..] == v + ";" + others;
    UntilSemiOfPair(v, others);
    assert cookie[..|Name|] == Name;
    assert TokenAt(cookie);
  }

  lemma {:induction false} UntilSemiOfPair(v: string, others: string)
    requires ';' !in v
    ensures UntilSemi(v + ";" + others) == v
    decreases |v|
  {
    if |v| > 0 {
      assert (v + ";" + others)[1..] == v[1..] + ";" + others;
      assert ';' !in v[1..] by {
        forall k | 0 <= k < |v[1..]| ensures v[1..][k] != ';' {
          assert v[1..][k] == v[k + 1];
        }
      }
      UntilSemiOfPair(v[1..], others);
      assert [v[0]] + v[1..] == v;
    } else {
      assert (v + ";" + others)[0] == ';';
    }
  }

  /** Escaping never produces a `;`. */
  lemma {:induction false} EncodeHasNoSemi(s: string)
    ensures ';' !in Encode(s)
    decreases |s|
  {
    if |s| > 0 {
      EncodeHasNoSemi(s[1..]);
      EscapedHasNoSemi(s[0]);
    }
  }

  lemma EscapedHasNoSemi(c: char)
    ensures ';' !in EncodeChar(c)
  {
    if !Unreserved(c) {
      EscapeAllHasNoSemi(Utf8(c));
    }
  }

  lemma {:induction false} EscapeAllHasNoSemi(bs: seq<nat>)
    requires forall k :: 0 <= k < |bs| ==> bs[k] < 256
    ensures ';' !in EscapeAll(bs)
    decreases |bs|
  {
    if |bs| > 0 {
      EscapeAllHasNoSemi(bs[1..]);
    }
  }
}
