/** Optional values and results with an error, for the places where the
    program returns `null`, a falsy value or throws. */
module Outcomes {

  datatype Option<+T> = None | Some(value: T)

  datatype Result<+T, +E> = Ok(value: T) | Err(error: E)

  /** The first `n` elements of `s`, or all of them when `s` is shorter. */
  function Take<T>(s: seq<T>, n: nat): (r: seq<T>)
    ensures |r| == if |s| < n then |s| else n
    ensures r == s[..|r|]
  {
    if |s| <= n then s else s[..n]
  }

  /** The position of the first element satisfying `p`, if any. */
  function FirstIndex<T>(xs: seq<T>, p: T -> bool): (r: Option<nat>)
    ensures r.Some? ==> r.value < |xs| && p(xs[r.value])
    ensures r.Some? ==> forall k :: 0 <= k < r.value ==> !p(xs[k])
    ensures r.None? <==> forall k :: 0 <= k < |xs| ==> !p(xs[k])
  {
    if xs == [] then None
    else if p(xs[0]) then Some(0)
    else match FirstIndex(xs[1..], p)
      case None => None
      case Some(i) => Some(i + 1)
  }

  /** The first index is determined by where `p` first holds. */
  lemma FirstIndexAt<T>(xs: seq<T>, p: T -> bool, i: nat)
    requires i < |xs| && p(xs[i])
    requires forall k :: 0 <= k < i ==> !p(xs[k])
    ensures FirstIndex(xs, p) == Some(i)
  {
  }

  /** `sub` can be obtained from `s` by deleting elements, keeping the order. */
  ghost predicate IsSubsequence<T>(sub: seq<T>, s: seq<T>)
  {
    exists idx: seq<nat> ::
      && |idx| == |sub|
      && (forall k :: 0 <= k < |idx| ==> idx[k] < |s| && sub[k] == s[idx[k]])
      && (forall k, l :: 0 <= k < l < |idx| ==> idx[k] < idx[l])
  }

  lemma SubsequenceOfEmpty<T>(s: seq<T>)
    ensures IsSubsequence([], s)
  {
    var idx: seq<nat> := [];
    assert |idx| == 0;
  }

  /** Extending both sides with one element, kept or dropped, preserves the relation. */
  lemma SubsequenceExtend<T>(sub: seq<T>, s: seq<T>, x: T, kept: bool)
    requires IsSubsequence(sub, s)
    ensures IsSubsequence(if kept then sub + [x] else sub, s + [x])
  {
    var idx: seq<nat> :| && |idx| == |sub|
                         && (forall k :: 0 <= k < |idx| ==> idx[k] < |s| && sub[k] == s[idx[k]])
                         && (forall k, l :: 0 <= k < l < |idx| ==> idx[k] < idx[l]);
    if kept {
      var idx' := idx + [|s|];
      assert forall k :: 0 <= k < |idx'| ==> idx'[k] < |s + [x]| && (sub + [x])[k] == (s + [x])[idx'[k]];
      assert forall k, l :: 0 <= k < l < |idx'| ==> idx'[k] < idx'[l];
    } else {
      assert forall k :: 0 <= k < |idx| ==> idx[k] < |s + [x]| && sub[k] == (s + [x])[idx[k]];
    }
  }

  /** A prefix of a subsequence is a subsequence. */
  lemma SubsequencePrefix<T>(sub: seq<T>, s: seq<T>, n: nat)
    requires IsSubsequence(sub, s) && n <= |sub|
    ensures IsSubsequence(sub[..n], s)
  {
    var idx: seq<nat> :| && |idx| == |sub|
                         && (forall k :: 0 <= k < |idx| ==> idx[k] < |s| && sub[k] == s[idx[k]])
                         && (forall k, l :: 0 <= k < l < |idx| ==> idx[k] < idx[l]);
    var idx' := idx[..n];
    assert forall k :: 0 <= k < |idx'| ==> idx'[k] < |s| && sub[..n][k] == s[idx'[k]];
  }

  /** The elements of `xs` that satisfy `p`, in order (`Array.prototype.filter`). */
  function Filter<T>(xs: seq<T>, p: T -> bool): (r: seq<T>)
    ensures |r| <= |xs|
    ensures forall x :: x in r ==> x in xs && p(x)
  {
    if xs == [] then []
    else (if p(xs[0]) then [xs[0]] else []) + Filter(xs[1..], p)
  }

  lemma {:induction false} FilterKeepsAll<T>(xs: seq<T>, p: T -> bool)
    requires forall i :: 0 <= i < |xs| ==> p(xs[i])
    ensures Filter(xs, p) == xs
    decreases |xs|
  {
    if xs != [] {
      FilterKeepsAll(xs[1..], p);
    }
  }

  /** Filtering one more element at the end appends it when it passes. */
  lemma {:induction false} FilterSnoc<T>(xs: seq<T>, x: T, p: T -> bool)
    ensures Filter(xs + [x], p) == Filter(xs, p) + (if p(x) then [x] else [])
    decreases |xs|
  {
    if xs != [] {
      assert (xs + [x])[1..] == xs[1..] + [x];
      FilterSnoc(xs[1..], x, p);
    }
  }

  /** Exactly the elements that pass are kept. */
  lemma {:induction false} FilterMembers<T>(xs: seq<T>, p: T -> bool)
    ensures forall x :: x in Filter(xs, p) <==> x in xs && p(x)
    decreases |xs|
  {
    if xs != [] {
      FilterMembers(xs[1..], p);
      assert xs == [xs[0]] + xs[1..];
    }
  }

  /** Filtering deletes elements and keeps the order. */
  lemma {:induction false} FilterIsSubsequence<T>(xs: seq<T>, p: T -> bool)
    ensures IsSubsequence(Filter(xs, p), xs)
    decreases |xs|
  {
    if xs == [] {
      SubsequenceOfEmpty(xs);
    } else {
      var n := |xs| - 1;
      assert xs[..n] + [xs[n]] == xs;
      FilterSnoc(xs[..n], xs[n], p);
      FilterIsSubsequence(xs[..n], p);
      SubsequenceExtend(Filter(xs[..n], p), xs[..n], xs[n], p(xs[n]));
    }
  }

  /** Two tests that agree on every element filter alike. */
  lemma {:induction false} FilterAgree<T>(xs: seq<T>, p: T -> bool, q: T -> bool)
    requires forall i :: 0 <= i < |xs| ==> (p(xs[i]) <==> q(xs[i]))
    ensures Filter(xs, p) == Filter(xs, q)
    decreases |xs|
  {
    if xs != [] {
      assert forall i :: 0 <= i < |xs[1..]| ==> xs[1..][i] == xs[i + 1];
      FilterAgree(xs[1..], p, q);
    }
  }

  /** A stricter test keeps a subsequence of what a laxer test keeps. */
  lemma {:induction false} FilterStricter<T>(xs: seq<T>, p: T -> bool, q: T -> bool)
    requires forall i :: 0 <= i < |xs| ==> p(xs[i]) ==> q(xs[i])
    ensures IsSubsequence(Filter(xs, p), Filter(xs, q))
    decreases |xs|
  {
    if xs == [] {
      SubsequenceOfEmpty(Filter(xs, q));
    } else {
      var n := |xs| - 1;
      assert xs[..n] + [xs[n]] == xs;
      FilterSnoc(xs[..n], xs[n], p);
      FilterSnoc(xs[..n], xs[n], q);
      FilterStricter(xs[..n], p, q);
      if q(xs[n]) {
        SubsequenceExtend(Filter(xs[..n], p), Filter(xs[..n], q), xs[n], p(xs[n]));
      }
    }
  }
}
