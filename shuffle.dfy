/**
 * The Fisher-Yates shuffle of `shuffleArray`, with the random draws made explicit.
 *
 * The loop visits i = |a|-1 down to 1 and swaps a[i] with a[j] for a random
 * j in [0, i]. Here the draws are an input: `draws[i]` is the j chosen while the
 * loop is at index i (draws[0] is never used).
 */
module Shuffle {

  /** Every draw lies in the range `Math.floor(Math.random() * (i + 1))` can produce. */
  predicate ValidDraws(draws: seq<nat>) {
    forall i :: 0 <= i < |draws| ==> draws[i] <= i
  }

  /** No value occurs twice. */
  predicate Distinct<T(==)>(s: seq<T>) {
    forall i, j :: 0 <= i < j < |s| ==> s[i] != s[j]
  }

  /** `s` with the elements at `i` and `j` exchanged. */
  function Swap<T>(s: seq<T>, i: nat, j: nat): (r: seq<T>)
    requires i < |s| && j < |s|
    ensures |r| == |s| && r[i] == s[j] && r[j] == s[i]
    ensures forall k :: 0 <= k < |s| && k != i && k != j ==> r[k] == s[k]
  {
    s[i := s[j]][j := s[i]]
  }

  /** The sequence after the loop has run its iterations for i, i-1, ..., 1. */
  function ShuffleFrom<T>(s: seq<T>, draws: seq<nat>, i: int): (r: seq<T>)
    requires ValidDraws(draws) && i < |s| && i < |draws|
    ensures |r| == |s|
    decreases i
  {
    if i <= 0 then s else ShuffleFrom(Swap(s, i, draws[i]), draws, i - 1)
  }

  /** The result of the whole loop, started at the last index. */
  function Shuffled<T>(s: seq<T>, draws: seq<nat>): (r: seq<T>)
    requires ValidDraws(draws) && |s| <= |draws|
    ensures |r| == |s|
  {
    ShuffleFrom(s, draws, |s| - 1)
  }

  /** Exchanging two elements does not change the multiset of elements. */
  lemma SwapPermutes<T>(s: seq<T>, i: nat, j: nat)
    requires i < |s| && j < |s|
    ensures multiset(Swap(s, i, j)) == multiset(s)
  {
  }

  /** The shuffle only reorders: same length, same multiset of elements. */
  lemma {:induction false} ShuffleFromPermutes<T>(s: seq<T>, draws: seq<nat>, i: int)
    requires ValidDraws(draws) && i < |s| && i < |draws|
    ensures multiset(ShuffleFrom(s, draws, i)) == multiset(s)
    decreases i
  {
    if i > 0 {
      SwapPermutes(s, i, draws[i]);
      ShuffleFromPermutes(Swap(s, i, draws[i]), draws, i - 1);
    }
  }

  /**
   * Iteration i settles position i for good: the later iterations (for smaller
   * indices) never touch it, so it holds what the swap at i brought there.
   */
  lemma {:induction false} ShuffleFromSettles<T>(s: seq<T>, draws: seq<nat>, i: int, k: nat)
    requires ValidDraws(draws) && i < |s| && i < |draws|
    requires 0 < i <= k < |s|
    ensures ShuffleFrom(s, draws, i)[k] == Swap(s, i, draws[i])[k]
    decreases i
  {
    if i > 1 {
      ShuffleFromSettles(Swap(s, i, draws[i]), draws, i - 1, k);
    }
  }

  /** The shuffle applied to an array in place, as `shuffleArray` does. */
  method ShuffleArray<T>(a: array<T>, draws: seq<nat>)
    requires ValidDraws(draws) && a.Length <= |draws|
    modifies a
    ensures a[..] == Shuffled(old(a[..]), draws)
    ensures multiset(a[..]) == multiset(old(a[..]))
  {
    ghost var goal := Shuffled(a[..], draws);
    ShuffleFromPermutes(a[..], draws, a.Length - 1);
    var i := a.Length - 1;
    while i > 0
      invariant -1 <= i < a.Length
      invariant ShuffleFrom(a[..], draws, i) == goal
      invariant multiset(a[..]) == multiset(old(a[..]))
    {
      var j := draws[i];
      ghost var before := a[..];
      a[i], a[j] := a[j], a[i];
      SwapInPlace(before, a[..], i, j);
      i := i - 1;
    }
  }

  /** Exchanging two array cells takes the array's contents to their Swap. */
  lemma SwapInPlace<T>(before: seq<T>, after: seq<T>, i: nat, j: nat)
    requires i < |before| && j < |before| && |after| == |before|
    requires after[i] == before[j] && after[j] == before[i]
    requires forall k :: 0 <= k < |before| && k != i && k != j ==> after[k] == before[k]
    ensures after == Swap(before, i, j)
    ensures multiset(after) == multiset(before)
  {
  }

  /** The indices 0, 1, ..., n-1 in order, as `Array.from(xs.keys())` builds them. */
  function Range(n: nat): (r: seq<nat>)
    ensures |r| == n
  {
    if n == 0 then [] else Range(n - 1) + [n - 1]
  }

  /** Position k of Range(n) holds k. */
  lemma {:induction false} RangeAt(n: nat)
    ensures forall k :: 0 <= k < n ==> Range(n)[k] == k
  {
    if n > 0 {
      RangeAt(n - 1);
    }
  }

  /** Each index below n occurs exactly once in Range(n), and nothing else occurs. */
  lemma {:induction false} RangeMultiplicity(n: nat, x: nat)
    ensures multiset(Range(n))[x] == if x < n then 1 else 0
  {
    if n > 0 {
      var last: nat := n - 1;
      RangeMultiplicity(last, x);
      AppendOne(Range(last), last);
    }
  }

  lemma AppendOne(r: seq<nat>, x: nat)
    ensures multiset(r + [x]) == multiset(r) + multiset{x}
  {
  }

  /** A value at two different positions occurs at least twice. */
  lemma TwoOccurrences<T>(s: seq<T>, i: nat, j: nat)
    requires i < j < |s| && s[i] == s[j]
    ensures multiset(s)[s[i]] >= 2
  {
    assert s == s[..i] + [s[i]] + s[i + 1..j] + [s[j]] + s[j + 1..];
    assert multiset(s) == multiset(s[..i]) + multiset{s[i]} + multiset(s[i + 1..j])
                          + multiset{s[j]} + multiset(s[j + 1..]);
  }

  /** A permutation of 0..n-1 holds every index below n exactly once. */
  lemma PermutationOfRange(s: seq<nat>, n: nat)
    requires multiset(s) == multiset(Range(n))
    ensures |s| == n
    ensures forall k :: 0 <= k < |s| ==> s[k] < n
    ensures forall x: nat :: x < n ==> x in s
    ensures Distinct(s)
  {
    assert |s| == |multiset(s)| == |multiset(Range(n))| == n;
    forall k | 0 <= k < |s| ensures s[k] < n {
      assert s[k] in multiset(s);
      RangeMultiplicity(n, s[k]);
    }
    forall x: nat | x < n ensures x in s {
      RangeMultiplicity(n, x);
      assert x in multiset(s);
    }
    forall i, j | 0 <= i < j < |s| ensures s[i] != s[j] {
      if s[i] == s[j] {
        TwoOccurrences(s, i, j);
        RangeMultiplicity(n, s[i]);
        assert false;
      }
    }
  }

  /** Shuffling the indices 0..n-1 deals every index exactly once. */
  lemma ShuffledRangeDealsEachOnce(n: nat, draws: seq<nat>)
    requires ValidDraws(draws) && n <= |draws|
    ensures multiset(Shuffled<nat>(Range(n), draws)) == multiset(Range(n))
  {
    ShuffleFromPermutes(Range(n), draws, n - 1);
  }
}
