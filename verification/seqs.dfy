/**
  Left-to-right list combinators with the meaning of JavaScript's
  `Array.prototype.filter` and `Array.prototype.map`: both build a fresh
  array and never touch their input, so here they are pure functions on
  sequences.
 */
module Seqs {

  /** Number of elements of `s` that satisfy `p`. */
  function Count<T>(p: T -> bool, s: seq<T>): (n: nat)
    ensures n <= |s|
  {
    if |s| == 0 then 0 else (if p(s[0]) then 1 else 0) + Count(p, s[1..])
  }

  /** The elements of `s` that satisfy `p`, in their original order. */
  function Filter<T>(p: T -> bool, s: seq<T>): (r: seq<T>)
    ensures |r| == Count(p, s)
    ensures forall i :: 0 <= i < |r| ==> p(r[i]) && r[i] in s
    ensures forall i :: 0 <= i < |s| && p(s[i]) ==> s[i] in r
  {
    if |s| == 0 then []
    else if p(s[0]) then [s[0]] + Filter(p, s[1..])
    else Filter(p, s[1..])
  }

  /** `f` applied to every element of `s`, position by position. */
  function Map<T, U>(f: T -> U, s: seq<T>): (r: seq<U>)
    ensures |r| == |s|
    ensures forall i :: 0 <= i < |s| ==> r[i] == f(s[i])
  {
    if |s| == 0 then [] else [f(s[0])] + Map(f, s[1..])
  }

  /** Strictly increasing sequence of indices. */
  ghost predicate Increasing(idx: seq<nat>) {
    forall k, l :: 0 <= k < l < |idx| ==> idx[k] < idx[l]
  }

  /** The indices `i` of `s`, from `lo` on, at which `p(s[i])` holds, in increasing order. */
  function Positions<T>(p: T -> bool, s: seq<T>, lo: nat): (idx: seq<nat>)
    requires lo <= |s|
    ensures Increasing(idx)
    ensures forall k :: 0 <= k < |idx| ==> lo <= idx[k] < |s| && p(s[idx[k]])
    ensures forall i :: lo <= i < |s| && p(s[i]) ==> i in idx
    decreases |s| - lo
  {
    if lo == |s| then []
    else if p(s[lo]) then [lo] + Positions(p, s, lo + 1)
    else Positions(p, s, lo + 1)
  }

  /** Filtering the suffix from `lo` keeps exactly the elements at
      `Positions(p, s, lo)`, in that order: nothing is reordered, and the
      dropped elements are exactly those failing `p`. */
  lemma {:induction false} FilterSelectsPositions<T>(p: T -> bool, s: seq<T>, lo: nat)
    requires lo <= |s|
    ensures |Filter(p, s[lo..])| == |Positions(p, s, lo)|
    ensures forall k :: 0 <= k < |Positions(p, s, lo)| ==> Filter(p, s[lo..])[k] == s[Positions(p, s, lo)[k]]
    decreases |s| - lo
  {
    if lo < |s| {
      FilterSelectsPositions(p, s, lo + 1);
      var tail := Filter(p, s[lo + 1..]);
      var rest := Positions(p, s, lo + 1);
      var r := Filter(p, s[lo..]);
      var idx := Positions(p, s, lo);
      FilterSuffixStep(p, s, lo);
      if p(s[lo]) {
        forall k | 0 <= k < |idx|
          ensures r[k] == s[idx[k]]
        {
          if k > 0 {
            assert r[k] == tail[k - 1];
            assert idx[k] == rest[k - 1];
          }
        }
      }
    }
  }

  /** One step of `Filter` on the suffix from `lo`. */
  lemma FilterSuffixStep<T>(p: T -> bool, s: seq<T>, lo: nat)
    requires lo < |s|
    ensures Filter(p, s[lo..])
         == if p(s[lo]) then [s[lo]] + Filter(p, s[lo + 1..]) else Filter(p, s[lo + 1..])
  {
    assert s[lo..][1..] == s[lo + 1..];
  }

  /** Filtering by the negation of `p` keeps `|s| - Count(p, s)` elements. */
  lemma {:induction false} CountComplement<T>(p: T -> bool, q: T -> bool, s: seq<T>)
    requires forall x :: q(x) == !p(x)
    ensures Count(p, s) + Count(q, s) == |s|
  {
    if |s| > 0 {
      CountComplement(p, q, s[1..]);
    }
  }

  /** Filtering a second time with the same predicate changes nothing. */
  lemma {:induction false} FilterIdempotent<T>(p: T -> bool, s: seq<T>)
    ensures Filter(p, Filter(p, s)) == Filter(p, s)
  {
    if |s| > 0 {
      FilterIdempotent(p, s[1..]);
      if p(s[0]) {
        var r := Filter(p, s[1..]);
        assert ([s[0]] + r)[1..] == r;
      }
    }
  }

  /** Filters with pointwise-equal predicates agree. */
  lemma {:induction false} FilterCongruent<T>(p: T -> bool, q: T -> bool, s: seq<T>)
    requires forall x :: p(x) == q(x)
    ensures Filter(p, s) == Filter(q, s)
  {
    if |s| > 0 {
      FilterCongruent(p, q, s[1..]);
    }
  }

  /** Mapping a self-inverse function twice restores the input. */
  lemma MapInvolution<T>(f: T -> T, s: seq<T>)
    requires forall x :: f(f(x)) == x
    ensures Map(f, Map(f, s)) == s
  {
  }

  /** Maps with pointwise-equal functions agree. */
  lemma MapCongruent<T, U>(f: T -> U, g: T -> U, s: seq<T>)
    requires forall x :: f(x) == g(x)
    ensures Map(f, s) == Map(g, s)
  {
  }
}
