/**
 The two array operations the catalog pipeline is built from, modelled on
 finite sequences: `find` (first element satisfying a predicate) and `filter`
 (order-preserving selection), together with an index-embedding
 characterisation of `filter` that is independent of its recursive definition.
 */
module Seqs {
  import opened Wrappers

  /* i is the position of the first element of s that satisfies p. */
  ghost predicate FirstMatch<T>(s: seq<T>, p: T -> bool, i: int)
  {
    && 0 <= i < |s|
    && p(s[i])
    && forall j :: 0 <= j < i ==> !p(s[j])
  }

  /* Position of the first element satisfying p, scanning from the front. */
  function FindIndex<T>(s: seq<T>, p: T -> bool): (r: Option<nat>)
    ensures r.None? <==> forall i :: 0 <= i < |s| ==> !p(s[i])
    ensures r.Some? ==> FirstMatch(s, p, r.value)
    decreases |s|
  {
    if |s| == 0 then None
    else if p(s[0]) then Some(0)
    else
      match FindIndex(s[1..], p)
      case None => None
      case Some(i) => Some(i + 1)
  }

  /** `Array.prototype.find`: the first element satisfying p, or None when
      no element does. */
  function Find<T>(s: seq<T>, p: T -> bool): (r: Option<T>)
    ensures r.None? <==> forall i :: 0 <= i < |s| ==> !p(s[i])
    ensures r.Some? ==> exists i :: FirstMatch(s, p, i) && s[i] == r.value
  {
    match FindIndex(s, p)
    case None => None
    case Some(i) => Some(s[i])
  }

  /** `Array.prototype.filter`: the elements satisfying p, in their original order. */
  function Filter<T>(s: seq<T>, p: T -> bool): (r: seq<T>)
    ensures |r| <= |s|
    ensures forall k :: 0 <= k < |r| ==> p(r[k])
    decreases |s|
  {
    if |s| == 0 then []
    else
      assert s == [s[0]] + s[1..];
      (if p(s[0]) then [s[0]] else []) + Filter(s[1..], p)
  }

  /* idx lists strictly increasing positions. */
  ghost predicate Increasing(idx: seq<int>)
  {
    forall a, b :: 0 <= a < b < |idx| ==> idx[a] < idx[b]
  }

  /* r is obtained from s by reading the positions idx, in order. */
  ghost predicate Embeds<T>(r: seq<T>, s: seq<T>, idx: seq<int>)
  {
    && |idx| == |r|
    && Increasing(idx)
    && forall k :: 0 <= k < |idx| ==> 0 <= idx[k] < |s| && r[k] == s[idx[k]]
  }

  /** r is an order-preserving subsequence of s. */
  ghost predicate IsSubsequence<T>(r: seq<T>, s: seq<T>)
  {
    exists idx :: Embeds(r, s, idx)
  }

  /* idx embeds r into s and lists every position of s whose element
     satisfies p, and no other. */
  ghost predicate ExactPositions<T>(r: seq<T>, s: seq<T>, p: T -> bool, idx: seq<int>)
  {
    && Embeds(r, s, idx)
    && forall i :: 0 <= i < |s| ==> (p(s[i]) <==> i in idx)
  }

  /** r consists of exactly the positions of s whose element satisfies p,
      read in increasing order. */
  ghost predicate SelectsExactly<T>(r: seq<T>, s: seq<T>, p: T -> bool)
  {
    exists idx :: ExactPositions(r, s, p, idx)
  }

  /* Positions moved by d places. */
  function Shift(idx: seq<int>, d: int): (r: seq<int>)
    ensures |r| == |idx|
    ensures forall k :: 0 <= k < |idx| ==> r[k] == idx[k] + d
  {
    seq(|idx|, k requires 0 <= k < |idx| => idx[k] + d)
  }

  /* Membership in a shifted position list. */
  lemma ShiftMember(idx: seq<int>, d: int, i: int)
    ensures i in Shift(idx, d) <==> i - d in idx
  {
    var sh := Shift(idx, d);
    if i in sh {
      var k :| 0 <= k < |sh| && sh[k] == i;
      assert idx[k] == i - d;
    }
    if i - d in idx {
      var k :| 0 <= k < |idx| && idx[k] == i - d;
      assert sh[k] == i;
    }
  }

  /* Positions of the tail of s, moved one place, are positions of s. */
  lemma ShiftEmbeds<T>(r: seq<T>, s: seq<T>, rest: seq<int>)
    requires |s| > 0
    requires Embeds(r, s[1..], rest)
    ensures Embeds(r, s, Shift(rest, 1))
  {
    var sh := Shift(rest, 1);
    forall k | 0 <= k < |sh|
      ensures 0 <= sh[k] < |s| && r[k] == s[sh[k]]
    {
      assert s[1..][rest[k]] == s[rest[k] + 1];
    }
  }

  /* Position 0 followed by positions moved one place is increasing. */
  lemma PrependFirst(rest: seq<int>)
    requires Increasing(rest)
    requires forall k :: 0 <= k < |rest| ==> 0 <= rest[k]
    ensures Increasing([0] + Shift(rest, 1))
  {
    var idx := [0] + Shift(rest, 1);
    forall a, b | 0 <= a < b < |idx|
      ensures idx[a] < idx[b]
    {
      assert idx[b] == rest[b - 1] + 1;
      if a > 0 {
        assert idx[a] == rest[a - 1] + 1;
      }
    }
  }

  /* Membership in position 0 followed by positions moved one place. */
  lemma ConsMember(rest: seq<int>, i: int)
    ensures i in [0] + Shift(rest, 1) <==> i == 0 || i in Shift(rest, 1)
  {
  }

  /* Embedding the tail one place later, behind the head at position 0. */
  lemma ConsEmbeds<T>(tail: seq<T>, s: seq<T>, rest: seq<int>)
    requires |s| > 0
    requires Embeds(tail, s[1..], rest)
    requires forall k :: 0 <= k < |rest| ==> 0 <= rest[k]
    ensures Embeds([s[0]] + tail, s, [0] + Shift(rest, 1))
  {
    ShiftEmbeds(tail, s, rest);
    PrependFirst(rest);
    var idx := [0] + Shift(rest, 1);
    var r := [s[0]] + tail;
    forall k | 0 <= k < |idx|
      ensures 0 <= idx[k] < |s| && r[k] == s[idx[k]]
    {
      if k > 0 {
        assert idx[k] == Shift(rest, 1)[k - 1] && r[k] == tail[k - 1];
      }
    }
  }

  /* Exact positions for the tail extend to exact positions for s. */
  lemma {:induction false} ConsPositions<T>(s: seq<T>, p: T -> bool, rest: seq<int>) returns (idx: seq<int>)
    requires |s| > 0
    requires ExactPositions(Filter(s[1..], p), s[1..], p, rest)
    requires forall k :: 0 <= k < |rest| ==> 0 <= rest[k]
    ensures ExactPositions(Filter(s, p), s, p, idx)
    ensures forall k :: 0 <= k < |idx| ==> 0 <= idx[k]
  {
    var tail := Filter(s[1..], p);
    var shifted := Shift(rest, 1);
    if p(s[0]) {
      idx := [0] + shifted;
      assert Filter(s, p) == [s[0]] + tail;
      ConsEmbeds(tail, s, rest);
    } else {
      idx := shifted;
      assert Filter(s, p) == tail;
      ShiftEmbeds(tail, s, rest);
    }
    forall i | 0 <= i < |s|
      ensures p(s[i]) <==> i in idx
    {
      ShiftMember(rest, 1, i);
      ConsMember(rest, i);
      if i > 0 {
        assert s[i] == s[1..][i - 1];
      }
    }
  }

  /* The positions kept by Filter, as a witness for SelectsExactly. */
  lemma {:induction false} FilterPositions<T>(s: seq<T>, p: T -> bool) returns (idx: seq<int>)
    ensures ExactPositions(Filter(s, p), s, p, idx)
    ensures forall k :: 0 <= k < |idx| ==> 0 <= idx[k]
    decreases |s|
  {
    if |s| == 0 {
      idx := [];
    } else {
      var rest := FilterPositions(s[1..], p);
      idx := ConsPositions(s, p, rest);
    }
  }

  /** Filter keeps exactly the elements satisfying p, in their original order. */
  lemma FilterSelectsExactly<T>(s: seq<T>, p: T -> bool)
    ensures SelectsExactly(Filter(s, p), s, p)
    ensures IsSubsequence(Filter(s, p), s)
  {
    var idx := FilterPositions(s, p);
  }

  /* Past the first position of an increasing list come exactly its other members. */
  lemma IncreasingTail(a: seq<int>, x: int)
    requires Increasing(a) && |a| > 0
    ensures x in a[1..] <==> x in a && x != a[0]
  {
    if x in a[1..] {
      var k :| 0 <= k < |a[1..]| && a[1..][k] == x;
      assert a[0] < a[k + 1];
    }
    if x in a && x != a[0] {
      var k :| 0 <= k < |a| && a[k] == x;
      assert a[1..][k - 1] == x;
    }
  }

  /** An increasing list of positions is determined by its members. */
  lemma {:induction false} IncreasingUnique(a: seq<int>, b: seq<int>)
    requires Increasing(a) && Increasing(b)
    requires forall x :: x in a <==> x in b
    ensures a == b
    decreases |a|
  {
    if |a| > 0 {
      assert a[0] in a;
    }
    if |b| > 0 {
      assert b[0] in b;
    }
    if |a| > 0 && |b| > 0 {
      var kb :| 0 <= kb < |b| && b[kb] == a[0];
      var ka :| 0 <= ka < |a| && a[ka] == b[0];
      assert b[0] <= b[kb] && a[0] <= a[ka];
      forall x
        ensures x in a[1..] <==> x in b[1..]
      {
        IncreasingTail(a, x);
        IncreasingTail(b, x);
      }
      IncreasingUnique(a[1..], b[1..]);
      assert a == [a[0]] + a[1..] && b == [b[0]] + b[1..];
    }
  }

  /** Conversely, the only sequence that selects exactly the p-elements of s
      in order is Filter(s, p). */
  lemma SelectsExactlyIsFilter<T>(r: seq<T>, s: seq<T>, p: T -> bool)
    requires SelectsExactly(r, s, p)
    ensures r == Filter(s, p)
  {
    var idx :| ExactPositions(r, s, p, idx);
    var canonical := FilterPositions(s, p);
    forall x
      ensures x in idx <==> x in canonical
    {
      if x in idx {
        var k :| 0 <= k < |idx| && idx[k] == x;
      }
      if x in canonical {
        var k :| 0 <= k < |canonical| && canonical[k] == x;
      }
    }
    IncreasingUnique(idx, canonical);
  }

  /** Every element Filter returns comes from its input. */
  lemma {:induction false} FilterTakesFromInput<T>(s: seq<T>, p: T -> bool)
    ensures forall k :: 0 <= k < |Filter(s, p)| ==> Filter(s, p)[k] in s
    decreases |s|
  {
    if |s| > 0 {
      FilterTakesFromInput(s[1..], p);
      assert s == [s[0]] + s[1..];
    }
  }

  /** A filter whose predicate holds everywhere returns its input unchanged. */
  lemma {:induction false} FilterAllKept<T>(s: seq<T>, p: T -> bool)
    requires forall i :: 0 <= i < |s| ==> p(s[i])
    ensures Filter(s, p) == s
    decreases |s|
  {
    if |s| > 0 {
      FilterAllKept(s[1..], p);
    }
  }

  /** Two filters that agree on every element give the same result. */
  lemma {:induction false} FilterCongruent<T>(s: seq<T>, p: T -> bool, q: T -> bool)
    requires forall x :: p(x) == q(x)
    ensures Filter(s, p) == Filter(s, q)
    decreases |s|
  {
    if |s| > 0 {
      FilterCongruent(s[1..], p, q);
    }
  }

  /** Filtering by p and then by q is one filter by their conjunction pq. */
  lemma {:induction false} FilterThenFilter<T>(s: seq<T>, p: T -> bool, q: T -> bool, pq: T -> bool)
    requires forall x :: pq(x) == (p(x) && q(x))
    ensures Filter(Filter(s, p), q) == Filter(s, pq)
    decreases |s|
  {
    if |s| > 0 {
      FilterThenFilter(s[1..], p, q, pq);
      var head := if p(s[0]) then [s[0]] else [];
      var tail := Filter(s[1..], p);
      FilterAppend(head, tail, q);
    }
  }

  /** Filter distributes over concatenation. */
  lemma {:induction false} FilterAppend<T>(a: seq<T>, b: seq<T>, p: T -> bool)
    ensures Filter(a + b, p) == Filter(a, p) + Filter(b, p)
    decreases |a|
  {
    if |a| > 0 {
      assert (a + b)[0] == a[0];
      assert (a + b)[1..] == a[1..] + b;
      FilterAppend(a[1..], b, p);
      var h := if p(a[0]) then [a[0]] else [];
      calc {
        Filter(a + b, p);
        h + Filter(a[1..] + b, p);
        h + (Filter(a[1..], p) + Filter(b, p));
        (h + Filter(a[1..], p)) + Filter(b, p);
        Filter(a, p) + Filter(b, p);
      }
    } else {
      assert a + b == b;
    }
  }
}
