/**
 * Order-preserving selection over sequences: the model of JavaScript's
 * `Array.prototype.filter`, on which every list view of the site is built.
 */
module Seqs {

  /** `a` can be obtained from `b` by deleting elements (relative order is kept). */
  predicate IsSubseq<T(==)>(a: seq<T>, b: seq<T>)
    decreases |b|
  {
    if |a| == 0 then true
    else if |b| == 0 then false
    else if a[0] == b[0] then IsSubseq(a[1..], b[1..])
    else IsSubseq(a, b[1..])
  }

  /** The elements of `s` that satisfy `p`, in their original order. */
  function Filter<T(==,!new)>(p: T -> bool, s: seq<T>): (r: seq<T>)
    ensures |r| <= |s|
    ensures forall x :: x in r <==> x in s && p(x)
    ensures forall k :: 0 <= k < |r| ==> p(r[k])
    ensures IsSubseq(r, s)
    ensures forall x :: multiset(r)[x] == if p(x) then multiset(s)[x] else 0
    decreases |s|
  {
    if |s| == 0 then []
    else if p(s[0]) then
      var rest := Filter(p, s[1..]);
      assert s == [s[0]] + s[1..];
      assert multiset([s[0]] + rest) == multiset{s[0]} + multiset(rest);
      [s[0]] + rest
    else
      assert s == [s[0]] + s[1..];
      var rest := Filter(p, s[1..]);
      assert |rest| > 0 ==> rest[0] != s[0] by {
        if |rest| > 0 { assert p(rest[0]); }
      }
      rest
  }

  /** The number of elements of `s` that satisfy `p`. */
  function Count<T(==,!new)>(p: T -> bool, s: seq<T>): nat
  {
    |Filter(p, s)|
  }

  /** Filtering distributes over concatenation: order across the two halves is kept. */
  lemma {:induction false} FilterAppend<T(!new)>(p: T -> bool, a: seq<T>, b: seq<T>)
    ensures Filter(p, a + b) == Filter(p, a) + Filter(p, b)
    decreases |a|
  {
    if |a| == 0 {
      assert a + b == b;
    } else {
      assert (a + b)[0] == a[0];
      assert (a + b)[1..] == a[1..] + b;
      FilterAppend(p, a[1..], b);
    }
  }

  /** A predicate that holds of every element selects the whole sequence. */
  lemma {:induction false} FilterAll<T(!new)>(p: T -> bool, s: seq<T>)
    requires forall k :: 0 <= k < |s| ==> p(s[k])
    ensures Filter(p, s) == s
    decreases |s|
  {
    if |s| > 0 {
      FilterAll(p, s[1..]);
    }
  }

  /** Two complementary predicates split `s` into parts whose sizes add up to `|s|`. */
  lemma FilterPartition<T(!new)>(p: T -> bool, q: T -> bool, s: seq<T>)
    requires forall k :: 0 <= k < |s| ==> (q(s[k]) <==> !p(s[k]))
    ensures |Filter(p, s)| + |Filter(q, s)| == |s|
    ensures multiset(Filter(p, s)) + multiset(Filter(q, s)) == multiset(s)
  {
    var mp, mq := multiset(Filter(p, s)), multiset(Filter(q, s));
    forall y ensures (mp + mq)[y] == multiset(s)[y] {
      if y in s {
        var k :| 0 <= k < |s| && s[k] == y;
      }
    }
    assert mp + mq == multiset(s);
    assert |mp + mq| == |mp| + |mq|;
  }

  /** A weaker predicate never selects fewer elements. */
  lemma {:induction false} FilterMonotone<T(!new)>(p: T -> bool, q: T -> bool, s: seq<T>)
    requires forall k :: 0 <= k < |s| ==> p(s[k]) ==> q(s[k])
    ensures |Filter(p, s)| <= |Filter(q, s)|
    decreases |s|
  {
    if |s| > 0 {
      FilterMonotone(p, q, s[1..]);
    }
  }

  /** Predicates that agree on the elements of `s` select the same elements. */
  lemma {:induction false} FilterExt<T(!new)>(p: T -> bool, q: T -> bool, s: seq<T>)
    requires forall k :: 0 <= k < |s| ==> (p(s[k]) <==> q(s[k]))
    ensures Filter(p, s) == Filter(q, s)
    decreases |s|
  {
    if |s| > 0 {
      FilterExt(p, q, s[1..]);
    }
  }
}
