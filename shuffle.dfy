/**
 * The in-place Fisher–Yates shuffle. `Math.random` is replaced by the
 * sequence of swap partners it would have produced: `picks[k]` is the index
 * `j` drawn for position `i = n - 1 - k`, and the source's
 * `Math.floor(Math.random() * (i + 1))` always lies in `0..i`.
 */
module Shuffle {

  /** `picks` are exactly the draws a shuffle of `n` elements consumes. */
  predicate ValidPicks(n: int, picks: seq<nat>)
  {
    |picks| == (if n > 1 then n - 1 else 0) &&
    forall k :: 0 <= k < |picks| ==> picks[k] <= n - 1 - k
  }

  /** Exchange of the elements at `i` and `j`. */
  function Swap<T>(s: seq<T>, i: nat, j: nat): (r: seq<T>)
    requires i < |s| && j < |s|
    ensures |r| == |s|
  {
    s[i := s[j]][j := s[i]]
  }

  /** The sequence after the first `k` iterations of the shuffle loop. */
  function Steps<T>(s: seq<T>, picks: seq<nat>, k: nat): (r: seq<T>)
    requires ValidPicks(|s|, picks) && k <= |picks|
    ensures |r| == |s|
  {
    if k == 0 then s
    else Swap(Steps(s, picks, k - 1), |s| - k, picks[k - 1])
  }

  /** The sequence after the whole loop. */
  function Shuffled<T>(s: seq<T>, picks: seq<nat>): (r: seq<T>)
    requires ValidPicks(|s|, picks)
    ensures |r| == |s|
  {
    Steps(s, picks, |picks|)
  }

  predicate Distinct<T(==)>(s: seq<T>)
  {
    forall i, j :: 0 <= i < j < |s| ==> s[i] != s[j]
  }

  /** How often `x` occurs in `s`. */
  function Count<T(==)>(s: seq<T>, x: T): nat
  {
    if s == [] then 0 else Count(s[..|s| - 1], x) + (if s[|s| - 1] == x then 1 else 0)
  }

  lemma {:induction false} CountIsMultiplicity<T>(s: seq<T>, x: T)
    ensures Count(s, x) == multiset(s)[x]
  {
    if s != [] {
      CountIsMultiplicity(s[..|s| - 1], x);
      assert s == s[..|s| - 1] + [s[|s| - 1]];
    }
  }

  lemma SwapPermutes<T>(s: seq<T>, i: nat, j: nat)
    requires i < |s| && j < |s|
    ensures multiset(Swap(s, i, j)) == multiset(s)
  {
    var t := s[i := s[j]];
    assert multiset(t) == multiset(s) - multiset{s[i]} + multiset{s[j]};
  }

  lemma SwapKeepsCount<T>(s: seq<T>, i: nat, j: nat, x: T)
    requires i < |s| && j < |s|
    ensures Count(Swap(s, i, j), x) == Count(s, x)
  {
    SwapPermutes(s, i, j);
    CountIsMultiplicity(s, x);
    CountIsMultiplicity(Swap(s, i, j), x);
  }

  lemma SwapKeepsDistinct<T>(s: seq<T>, i: nat, j: nat)
    requires i < |s| && j < |s| && Distinct(s)
    ensures Distinct(Swap(s, i, j))
  {
    var r := Swap(s, i, j);
    forall p, q | 0 <= p < q < |r|
      ensures r[p] != r[q]
    {
      var p' := if p == i then j else if p == j then i else p;
      var q' := if q == i then j else if q == j then i else q;
      assert r[p] == s[p'] && r[q] == s[q'];
      assert p' != q';
    }
  }

  /** Every prefix of the loop keeps how often each value occurs. */
  lemma {:induction false} StepsKeepCount<T>(s: seq<T>, picks: seq<nat>, k: nat, x: T)
    requires ValidPicks(|s|, picks) && k <= |picks|
    ensures Count(Steps(s, picks, k), x) == Count(s, x)
  {
    if k > 0 {
      StepsKeepCount(s, picks, k - 1, x);
      SwapKeepsCount(Steps(s, picks, k - 1), |s| - k, picks[k - 1], x);
    }
  }

  /** Every prefix of the loop only rearranges the elements. */
  lemma StepsPermute<T>(s: seq<T>, picks: seq<nat>, k: nat)
    requires ValidPicks(|s|, picks) && k <= |picks|
    ensures multiset(Steps(s, picks, k)) == multiset(s)
  {
    forall x
      ensures multiset(Steps(s, picks, k))[x] == multiset(s)[x]
    {
      StepsKeepCount(s, picks, k, x);
      CountIsMultiplicity(s, x);
      CountIsMultiplicity(Steps(s, picks, k), x);
    }
  }

  /** Every prefix of the loop keeps pairwise distinct elements distinct. */
  lemma {:induction false} StepsKeepDistinct<T>(s: seq<T>, picks: seq<nat>, k: nat)
    requires ValidPicks(|s|, picks) && k <= |picks| && Distinct(s)
    ensures Distinct(Steps(s, picks, k))
  {
    if k > 0 {
      StepsKeepDistinct(s, picks, k - 1);
      SwapKeepsDistinct(Steps(s, picks, k - 1), |s| - k, picks[k - 1]);
    }
  }

  /** A shuffle is a permutation, so it also keeps the elements pairwise distinct. */
  lemma ShuffledPermutes<T>(s: seq<T>, picks: seq<nat>)
    requires ValidPicks(|s|, picks)
    ensures multiset(Shuffled(s, picks)) == multiset(s)
    ensures Distinct(s) ==> Distinct(Shuffled(s, picks))
    ensures forall x :: x in Shuffled(s, picks) <==> x in s
  {
    StepsPermute(s, picks, |picks|);
    if Distinct(s) {
      StepsKeepDistinct(s, picks, |picks|);
    }
    var r := Shuffled(s, picks);
    forall x
      ensures x in r <==> x in s
    {
      assert x in r <==> x in multiset(r);
      assert x in s <==> x in multiset(s);
    }
  }

  /** `shuffleArray`: for i from the last index down to 1, swap a[i] with a[j], 0 <= j <= i. */
  method ShuffleArray<T>(a: array<T>, picks: seq<nat>)
    requires ValidPicks(a.Length, picks)
    modifies a
    ensures a[..] == Shuffled(old(a[..]), picks)
    ensures multiset(a[..]) == multiset(old(a[..]))
  {
    ghost var s := a[..];
    var n := a.Length;
    var i := n - 1;
    while i > 0
      invariant -1 <= i < n
      invariant n > 0 ==> 0 <= i
      invariant 0 <= n - 1 - i <= |picks|
      invariant a[..] == Steps(s, picks, n - 1 - i)
    {
      ghost var prev := a[..];
      var j := picks[n - 1 - i];
      var t := a[i];
      a[i] := a[j];
      a[j] := t;
      assert a[..] == Swap(prev, i, j);
      i := i - 1;
    }
    assert n - 1 - i == |picks|;
    ShuffledPermutes(s, picks);
  }
}
