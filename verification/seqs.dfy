/** Generic sequence operations the repositories are built from: Go's
    `slices.IndexFunc`, the append-if-matching loop, and the
    append-if-not-yet-contained loop that deduplicates in first-seen order. */
module Seqs {

  /** `a` is obtained from `b` by deleting elements; the order of what is kept
      is unchanged. */
  ghost predicate IsSubsequence<T>(a: seq<T>, b: seq<T>)
    decreases |b|
  {
    if |a| == 0 then true
    else if |b| == 0 then false
    else (a[|a| - 1] == b[|b| - 1] && IsSubsequence(a[..|a| - 1], b[..|b| - 1]))
         || IsSubsequence(a, b[..|b| - 1])
  }

  predicate NoDuplicates<T(==)>(xs: seq<T>) {
    forall i, j :: 0 <= i < j < |xs| ==> xs[i] != xs[j]
  }

  /** Go's `slices.IndexFunc`: the first index whose element satisfies `p`,
      or -1 when there is none. */
  function IndexFunc<T>(xs: seq<T>, p: T -> bool): (i: int)
    ensures -1 <= i < |xs|
    ensures i == -1 <==> forall j :: 0 <= j < |xs| ==> !p(xs[j])
    ensures 0 <= i ==> p(xs[i]) && forall j :: 0 <= j < i ==> !p(xs[j])
  {
    if |xs| == 0 then -1
    else if p(xs[0]) then 0
    else
      var k := IndexFunc(xs[1..], p);
      assert forall j :: 0 < j < |xs| ==> xs[j] == xs[1..][j - 1];
      if k == -1 then -1 else k + 1
  }

  /** Position of the first occurrence of `x` in `xs`. */
  function FirstIndex<T(==)>(xs: seq<T>, x: T): (i: nat)
    requires x in xs
    ensures i < |xs| && xs[i] == x
    ensures forall j :: 0 <= j < i ==> xs[j] != x
  {
    IndexFunc(xs, y => y == x)
  }

  /** The elements of `xs` that satisfy `p`, in their original order: the loop
      that appends each matching element to an initially empty slice. */
  function Filter<T(!new)>(xs: seq<T>, p: T -> bool): (r: seq<T>)
    ensures forall x :: x in r <==> x in xs && p(x)
    ensures forall x :: multiset(r)[x] == if p(x) then multiset(xs)[x] else 0
    ensures IsSubsequence(r, xs)
    ensures |r| <= |xs|
  {
    if |xs| == 0 then []
    else
      var prefix := xs[..|xs| - 1];
      var last := xs[|xs| - 1];
      assert xs == prefix + [last];
      var rest := Filter(prefix, p);
      if p(last) then
        assert (rest + [last])[..|rest|] == rest;
        rest + [last]
      else rest
  }

  /** Filtering one more element appends it exactly when it passes. */
  lemma FilterAppend<T(!new)>(xs: seq<T>, x: T, p: T -> bool)
    ensures Filter(xs + [x], p) == Filter(xs, p) + (if p(x) then [x] else [])
  {
    assert (xs + [x])[..|xs|] == xs;
  }

  /** Applying two filters in turn keeps exactly what the conjunction keeps. */
  lemma {:induction false} FilterFilter<T(!new)>(xs: seq<T>, p: T -> bool, q: T -> bool)
    ensures Filter(Filter(xs, p), q) == Filter(xs, x => p(x) && q(x))
    decreases |xs|
  {
    if |xs| != 0 {
      var prefix := xs[..|xs| - 1];
      var last := xs[|xs| - 1];
      FilterFilter(prefix, p, q);
      var fp := Filter(prefix, p);
      if p(last) {
        assert (fp + [last])[..|fp|] == fp;
      }
    }
  }

  /** Filters with predicates that agree everywhere keep the same elements. */
  lemma {:induction false} FilterCongruent<T(!new)>(xs: seq<T>, p: T -> bool, q: T -> bool)
    requires forall x :: p(x) == q(x)
    ensures Filter(xs, p) == Filter(xs, q)
    decreases |xs|
  {
    if |xs| != 0 {
      FilterCongruent(xs[..|xs| - 1], p, q);
    }
  }

  /** A filter that rejects nothing returns its input unchanged. */
  lemma {:induction false} FilterKeepsAll<T(!new)>(xs: seq<T>, p: T -> bool)
    requires forall x :: x in xs ==> p(x)
    ensures Filter(xs, p) == xs
    decreases |xs|
  {
    if |xs| != 0 {
      var prefix := xs[..|xs| - 1];
      assert xs == prefix + [xs[|xs| - 1]];
      FilterKeepsAll(prefix, p);
    }
  }

  /** `r` lists every element of `xs` exactly once, ordered by where each
      element first occurs in `xs`. */
  ghost predicate IsFirstSeenDedup<T(!new)>(r: seq<T>, xs: seq<T>) {
    && NoDuplicates(r)
    && (forall x :: x in r <==> x in xs)
    && (forall i, j :: 0 <= i < j < |r| ==> FirstIndex(xs, r[i]) < FirstIndex(xs, r[j]))
  }

  /** The loop that appends an element unless the result already contains it. */
  function Dedup<T(==,!new)>(xs: seq<T>): (r: seq<T>)
    ensures IsFirstSeenDedup(r, xs)
  {
    if |xs| == 0 then []
    else
      var prefix := xs[..|xs| - 1];
      var last := xs[|xs| - 1];
      var d := Dedup(prefix);
      DedupStep(xs, d);
      if last in d then d else d + [last]
  }

  /** One pass of the loop keeps the first-seen deduplication of the
      elements met so far. */
  lemma DedupStep<T(!new)>(xs: seq<T>, d: seq<T>)
    requires |xs| > 0 && IsFirstSeenDedup(d, xs[..|xs| - 1])
    ensures xs[|xs| - 1] in d ==> IsFirstSeenDedup(d, xs)
    ensures xs[|xs| - 1] !in d ==> IsFirstSeenDedup(d + [xs[|xs| - 1]], xs)
  {
    var prefix := xs[..|xs| - 1];
    var last := xs[|xs| - 1];
    assert xs == prefix + [last];
    FirstIndexOfPrefix(xs, |xs| - 1);
    forall i | 0 <= i < |d|
      ensures FirstIndex(xs, d[i]) == FirstIndex(prefix, d[i]) < |prefix|
    {
      assert d[i] in prefix;
    }
    if last !in d {
      var r := d + [last];
      assert last !in prefix;
      assert FirstIndex(xs, last) == |prefix|;
      forall i, j | 0 <= i < j < |r|
        ensures FirstIndex(xs, r[i]) < FirstIndex(xs, r[j])
      {
        if j == |d| {
          assert r[i] == d[i];
        } else {
          assert r[i] == d[i] && r[j] == d[j];
        }
      }
    }
  }

  /** An element already met adds nothing to the deduplication. */
  lemma DedupAppendSeen<T(!new)>(xs: seq<T>, x: T)
    requires x in xs
    ensures Dedup(xs + [x]) == Dedup(xs)
  {
    assert (xs + [x])[..|xs|] == xs;
  }

  /** An element not met before goes at the end of the deduplication. */
  lemma DedupAppendNew<T(!new)>(xs: seq<T>, x: T)
    requires x !in xs
    ensures Dedup(xs + [x]) == Dedup(xs) + [x]
  {
    assert (xs + [x])[..|xs|] == xs;
  }

  /** An element met in the first `n` positions has the same first index in
      the prefix as in the whole sequence. */
  lemma FirstIndexOfPrefix<T>(xs: seq<T>, n: nat)
    requires n <= |xs|
    ensures forall x :: x in xs[..n] ==> FirstIndex(xs, x) == FirstIndex(xs[..n], x)
  {
    forall x | x in xs[..n]
      ensures FirstIndex(xs, x) == FirstIndex(xs[..n], x)
    {
      var i := FirstIndex(xs, x);
      var k := FirstIndex(xs[..n], x);
      assert xs[k] == x;
    }
  }

  /** In a sequence ordered by first occurrence, the head occurs first. */
  lemma HeadComesFirst<T>(a: seq<T>, xs: seq<T>)
    requires |a| > 0 && forall x :: x in a ==> x in xs
    requires forall i, j :: 0 <= i < j < |a| ==> FirstIndex(xs, a[i]) < FirstIndex(xs, a[j])
    ensures forall i :: 0 <= i < |a| ==> FirstIndex(xs, a[0]) <= FirstIndex(xs, a[i])
  {
    forall i | 0 < i < |a|
      ensures FirstIndex(xs, a[0]) < FirstIndex(xs, a[i])
    {
    }
  }

  /** Two duplicate-free sequences over the same elements, both ordered by
      first occurrence in `xs`, are the same sequence. */
  lemma {:induction false} FirstSeenOrderUnique<T>(a: seq<T>, b: seq<T>, xs: seq<T>)
    requires NoDuplicates(a) && NoDuplicates(b)
    requires forall x :: x in a <==> x in b
    requires forall x :: x in a ==> x in xs
    requires forall i, j :: 0 <= i < j < |a| ==> FirstIndex(xs, a[i]) < FirstIndex(xs, a[j])
    requires forall i, j :: 0 <= i < j < |b| ==> FirstIndex(xs, b[i]) < FirstIndex(xs, b[j])
    ensures a == b
    decreases |a|
  {
    if |b| != 0 {
      assert b[0] in a;
    }
    if |a| != 0 {
      assert a[0] in b;
      assert b[0] in a;
      var ka :| 0 <= ka < |a| && a[ka] == b[0];
      var kb :| 0 <= kb < |b| && b[kb] == a[0];
      HeadComesFirst(a, xs);
      HeadComesFirst(b, xs);
      assert FirstIndex(xs, a[0]) <= FirstIndex(xs, a[ka]);
      assert FirstIndex(xs, b[0]) <= FirstIndex(xs, b[kb]);
      assert a[0] == xs[FirstIndex(xs, a[0])];
      assert b[0] == xs[FirstIndex(xs, b[0])];
      assert a[0] == b[0];
      SameTailElements(a, b);
      TailStaysOrdered(a, xs);
      TailStaysOrdered(b, xs);
      FirstSeenOrderUnique(a[1..], b[1..], xs);
      assert a == [a[0]] + a[1..];
      assert b == [b[0]] + b[1..];
    }
  }

  lemma SameTailElements<T>(a: seq<T>, b: seq<T>)
    requires |a| > 0 && |b| > 0 && a[0] == b[0]
    requires NoDuplicates(a) && NoDuplicates(b)
    requires forall x :: x in a <==> x in b
    ensures forall x :: x in a[1..] <==> x in b[1..]
  {
    forall x ensures x in a[1..] <==> x in b[1..] {
      if x in a[1..] {
        var i :| 1 <= i < |a| && a[i] == x;
        assert x in b;
        var j :| 0 <= j < |b| && b[j] == x;
        assert j != 0;
        assert b[1..][j - 1] == x;
      }
      if x in b[1..] {
        var j :| 1 <= j < |b| && b[j] == x;
        assert x in a;
        var i :| 0 <= i < |a| && a[i] == x;
        assert i != 0;
        assert a[1..][i - 1] == x;
      }
    }
  }

  lemma TailStaysOrdered<T>(a: seq<T>, xs: seq<T>)
    requires |a| > 0 && NoDuplicates(a) && forall x :: x in a ==> x in xs
    requires forall i, j :: 0 <= i < j < |a| ==> FirstIndex(xs, a[i]) < FirstIndex(xs, a[j])
    ensures NoDuplicates(a[1..]) && forall x :: x in a[1..] ==> x in xs
    ensures forall i, j :: 0 <= i < j < |a[1..]| ==> FirstIndex(xs, a[1..][i]) < FirstIndex(xs, a[1..][j])
  {
    forall i, j | 0 <= i < j < |a[1..]|
      ensures FirstIndex(xs, a[1..][i]) < FirstIndex(xs, a[1..][j])
    {
      assert a[1..][i] == a[i + 1] && a[1..][j] == a[j + 1];
    }
  }

  /** The first-seen deduplication of a sequence is uniquely determined. */
  lemma DedupIsTheFirstSeenDedup<T(!new)>(r: seq<T>, xs: seq<T>)
    requires IsFirstSeenDedup(r, xs)
    ensures r == Dedup(xs)
  {
    FirstSeenOrderUnique(r, Dedup(xs), xs);
  }
}
