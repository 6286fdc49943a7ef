/**
 The id sampling of the random-quote handlers. The single-quote handler turns
 one random draw into an id in 1..N; the five-quote handler builds the ids
 1..N in an array, shuffles the array in place (Durstenfeld's variant of the
 Fisher-Yates shuffle) and keeps its first five entries.

 Every random draw floor(random() * k) is an integer j with 0 <= j < k; the
 model takes the draws as parameters and reasons about every possible value.
 */
module Sampling {

  /** How many ids the five-quote handler keeps from the shuffled array. */
  const SampleSize := 5

  function Min(a: int, b: int): int { if a < b then a else b }

  /* ---------------------------------------------------------------------
     One random id
     --------------------------------------------------------------------- */

  /** The id the single-quote handler looks up, given the row count `total`
      and the draw `r` == floor(random() * total). With an empty table that
      draw is 0 and the id is 1, which names no row. */
  function RandomId(total: nat, r: nat): (id: int)
    requires r < total || r == 0
    ensures 1 <= total ==> 1 <= id <= total
    ensures total == 0 ==> id == 1
  {
    r + 1
  }

  /** The draws 0..total-1 and the ids 1..total correspond one to one. */
  lemma RandomIdIsOnto(total: nat, id: int)
    requires 1 <= id <= total
    ensures exists r: nat :: r < total && RandomId(total, r) == id
    ensures forall r: nat :: r < total && RandomId(total, r) == id ==> r == id - 1
  {
    assert RandomId(total, id - 1) == id;
  }

  /* ---------------------------------------------------------------------
     Five random ids: the specification of the shuffle
     --------------------------------------------------------------------- */

  /** The ids 1..n in order. */
  function Range(n: nat): seq<int> { seq(n, k => k + 1) }

  predicate Distinct(s: seq<int>)
  {
    forall i, j :: 0 <= i < j < |s| ==> s[i] != s[j]
  }

  /** The draws for a shuffle of n entries: the step at position i (for
      0 < i < n) swaps with position draws[i], and draws[i] == floor(random() * (i + 1))
      lies in 0..i. No step runs at position 0, so draws[0] is never used. */
  predicate ValidDraws(draws: seq<int>, n: nat)
  {
    |draws| == n && forall i :: 0 < i < n ==> 0 <= draws[i] <= i
  }

  /** Exchanges the entries at positions i and j (the same position leaves s as it is). */
  function Swap(s: seq<int>, i: int, j: int): (r: seq<int>)
    requires 0 <= j <= i < |s|
    ensures |r| == |s| && r[i] == s[j] && r[j] == s[i]
    ensures forall k {:trigger r[k]} :: 0 <= k < |s| && k != i && k != j ==> r[k] == s[k]
  {
    s[i := s[j]][j := s[i]]
  }

  /** A swap only rearranges the entries. */
  lemma SwapIsPermutation(s: seq<int>, i: int, j: int)
    requires 0 <= j <= i < |s|
    ensures multiset(Swap(s, i, j)) == multiset(s)
  {
  }

  /** The array after the loop has run its steps at positions |s| - 1 down to
      i + 1: each step swaps position k with position draws[k]. With i at
      |s| - 1 no step has run yet. */
  function ShuffleTo(s: seq<int>, draws: seq<int>, i: int): (r: seq<int>)
    requires ValidDraws(draws, |s|) && (0 <= i < |s| || (s == [] && i == -1))
    ensures |r| == |s|
    decreases |s| - i
  {
    if i >= |s| - 1 then s else Swap(ShuffleTo(s, draws, i + 1), i + 1, draws[i + 1])
  }

  /** The whole shuffle: the loop's steps at positions |s| - 1 down to 1. With
      at most one entry the loop body never runs. */
  function Shuffled(s: seq<int>, draws: seq<int>): (r: seq<int>)
    requires ValidDraws(draws, |s|)
    ensures |r| == |s|
    ensures |s| <= 1 ==> r == s
  {
    if s == [] then s else ShuffleTo(s, draws, 0)
  }

  /** However far the loop has got, the array is a rearrangement of its
      starting contents. */
  lemma {:induction false} ShuffleToIsPermutation(s: seq<int>, draws: seq<int>, i: int)
    requires ValidDraws(draws, |s|) && (0 <= i < |s| || (s == [] && i == -1))
    ensures multiset(ShuffleTo(s, draws, i)) == multiset(s)
    decreases |s| - i
  {
    if i < |s| - 1 {
      var before := ShuffleTo(s, draws, i + 1);
      calc {
        multiset(ShuffleTo(s, draws, i));
        multiset(Swap(before, i + 1, draws[i + 1]));
        { SwapIsPermutation(before, i + 1, draws[i + 1]); }
        multiset(before);
        { ShuffleToIsPermutation(s, draws, i + 1); }
        multiset(s);
      }
    }
  }

  /** The whole shuffle is a permutation of its input. */
  lemma ShuffledIsPermutation(s: seq<int>, draws: seq<int>)
    requires ValidDraws(draws, |s|)
    ensures multiset(Shuffled(s, draws)) == multiset(s)
  {
    if s != [] {
      ShuffleToIsPermutation(s, draws, 0);
    }
  }

  /** Once the loop has passed position i, the entries above i are final: the
      later steps, at positions i down to 1, only swap positions at or below i. */
  lemma {:induction false} PositionsAboveAreFinal(s: seq<int>, draws: seq<int>, i: nat, k: nat)
    requires ValidDraws(draws, |s|) && i < k < |s|
    ensures Shuffled(s, draws)[k] == ShuffleTo(s, draws, i)[k]
    decreases i
  {
    if i > 0 {
      PositionsAboveAreFinal(s, draws, i - 1, k);
    }
  }

  /* ---------------------------------------------------------------------
     Permutations keep distinctness and membership
     --------------------------------------------------------------------- */

  /** A sequence has no repeated entry exactly when no value occurs in it twice. */
  lemma {:induction false} DistinctIffSingleOccurrences(s: seq<int>)
    ensures Distinct(s) <==> forall x :: multiset(s)[x] <= 1
  {
    if s != [] {
      var t := s[1..];
      DistinctIffSingleOccurrences(t);
      assert s == [s[0]] + t;
      assert multiset(s) == multiset{s[0]} + multiset(t);
      if Distinct(s) {
        assert Distinct(t) by {
          forall i, j | 0 <= i < j < |t| ensures t[i] != t[j] {
            assert t[i] == s[i + 1] && t[j] == s[j + 1];
          }
        }
        assert s[0] !in t by {
          forall k | 0 <= k < |t| ensures t[k] != s[0] {
            assert t[k] == s[k + 1];
          }
        }
        forall x ensures multiset(s)[x] <= 1 {
          if x == s[0] {
            assert multiset(t)[x] == 0;
          }
        }
      } else {
        var i, j :| 0 <= i < j < |s| && s[i] == s[j];
        if i == 0 {
          assert s[j] == t[j - 1];
          assert multiset(s)[s[0]] >= 2;
        } else {
          assert t[i - 1] == t[j - 1];
          var x :| multiset(t)[x] > 1;
          assert multiset(s)[x] >= multiset(t)[x];
        }
      }
    }
  }

  /** Rearranging a sequence keeps it free of repeats. */
  lemma PermutationKeepsDistinct(s: seq<int>, t: seq<int>)
    requires multiset(s) == multiset(t) && Distinct(s)
    ensures Distinct(t)
  {
    DistinctIffSingleOccurrences(s);
    DistinctIffSingleOccurrences(t);
  }

  /** Every shuffle of 1..n holds each id of 1..n exactly once and nothing else. */
  lemma ShuffledRangeHoldsIds(n: nat, draws: seq<int>)
    requires ValidDraws(draws, n)
    ensures multiset(Shuffled(Range(n), draws)) == multiset(Range(n))
    ensures Distinct(Shuffled(Range(n), draws))
    ensures forall id :: id in Shuffled(Range(n), draws) <==> 1 <= id <= n
  {
    var ids, t := Range(n), Shuffled(Range(n), draws);
    ShuffledIsPermutation(ids, draws);
    assert Distinct(ids);
    PermutationKeepsDistinct(ids, t);
    forall id ensures id in t <==> 1 <= id <= n {
      calc {
        id in t;
        id in multiset(t);
        id in multiset(ids);
        id in ids;
      }
      if 1 <= id <= n {
        assert ids[id - 1] == id;
      }
    }
  }

  /** Any prefix of a shuffle of 1..n is free of repeats and stays within
      1..n; the whole shuffle holds every id of 1..n once. */
  lemma PrefixOfShuffledRange(n: nat, draws: seq<int>, m: nat)
    requires ValidDraws(draws, n) && m <= n
    ensures Distinct(Shuffled(Range(n), draws)[..m])
    ensures forall id :: id in Shuffled(Range(n), draws)[..m] ==> 1 <= id <= n
    ensures m == n ==> multiset(Shuffled(Range(n), draws)[..m]) == multiset(Range(n))
  {
    var t := Shuffled(Range(n), draws);
    ShuffledRangeHoldsIds(n, draws);
    forall id | id in t[..m] ensures 1 <= id <= n {
      var k :| 0 <= k < m && t[..m][k] == id;
      assert t[k] == id && t[k] in t;
    }
    if m == n {
      assert t[..m] == t;
    }
  }

  /* ---------------------------------------------------------------------
     Five random ids: the handler's closure
     --------------------------------------------------------------------- */

  /** Array.from({ length: n }, (_, i) => i + 1): a new array holding 1..n. */
  method NewIdArray(n: nat) returns (a: array<int>)
    ensures fresh(a) && a[..] == Range(n)
  {
    a := new int[n](k => k + 1);
    assert a[..] == Range(n);
  }

  /** The destructuring swap [a[i], a[j]] = [a[j], a[i]] on the array. */
  method SwapEntries(a: array<int>, i: int, j: int)
    requires 0 <= j <= i < a.Length
    modifies a
    ensures a[..] == Swap(old(a[..]), i, j)
  {
    a[i], a[j] := a[j], a[i];
  }

  /** Builds [1, ..., totalIds], shuffles it in place and keeps its first five
      entries: at most five ids, none repeated, all in 1..totalIds, and all of
      them, once each, when the table has five rows or fewer. */
  method RandomIdList(totalIds: nat, draws: seq<int>) returns (selectedIds: seq<int>)
    requires ValidDraws(draws, totalIds)
    ensures selectedIds == Shuffled(Range(totalIds), draws)[..Min(SampleSize, totalIds)]
    ensures |selectedIds| == Min(SampleSize, totalIds)
    ensures Distinct(selectedIds)
    ensures forall id :: id in selectedIds ==> 1 <= id <= totalIds
    ensures totalIds <= SampleSize ==> multiset(selectedIds) == multiset(Range(totalIds))
  {
    var allIds := NewIdArray(totalIds);
    var i := totalIds - 1;
    while i > 0
      invariant 0 <= i < totalIds || (totalIds == 0 && i == -1)
      invariant allIds[..] == ShuffleTo(Range(totalIds), draws, i)
    {
      var j := draws[i];
      SwapEntries(allIds, i, j);
      i := i - 1;
    }
    ghost var shuffled := Shuffled(Range(totalIds), draws);
    assert allIds[..] == shuffled;
    var count := Min(SampleSize, totalIds);
    selectedIds := allIds[..count];
    assert selectedIds == shuffled[..count];
    PrefixOfShuffledRange(totalIds, draws, count);
  }
}
