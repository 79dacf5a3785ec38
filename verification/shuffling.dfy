/**
 The reshuffle of the country pool. The game draws its randomness from the
 platform (`shuffled()` when the pool is created, `shuffle()` before each new
 round); here the random choices are made by the caller and handed in as a
 sequence of transpositions. Every permutation is a product of transpositions,
 so every outcome of a shuffle can be written this way, and the swap-by-swap
 form is also how an in-place shuffle proceeds.
 */
module Shuffling {

  /** No value occurs twice in `s`. */
  ghost predicate Distinct<T>(s: seq<T>) {
    forall i, j :: 0 <= i < j < |s| ==> s[i] != s[j]
  }

  /** `t` holds the same values as `s`, each as many times: a reordering. */
  ghost predicate IsPermutationOf<T>(t: seq<T>, s: seq<T>) {
    multiset(t) == multiset(s)
  }

  /** One transposition: exchange the elements at positions `i` and `j`. */
  datatype Transposition = Transposition(i: nat, j: nat)

  /** Every transposition in `swaps` names positions of a sequence of length `n`. */
  predicate ValidSwaps(swaps: seq<Transposition>, n: nat) {
    forall k :: 0 <= k < |swaps| ==> swaps[k].i < n && swaps[k].j < n
  }

  /** Exchange the elements at `i` and `j`; every other position keeps its element. */
  function Swap<T>(s: seq<T>, i: nat, j: nat): (r: seq<T>)
    requires i < |s| && j < |s|
    ensures |r| == |s|
    ensures r[i] == s[j] && r[j] == s[i]
    ensures forall k :: 0 <= k < |s| && k != i && k != j ==> r[k] == s[k]
    ensures IsPermutationOf(r, s)
    ensures Distinct(s) <==> Distinct(r)
  {
    var r := s[i := s[j]][j := s[i]];
    SwapIsPermutation(s, i, j);
    SwapInvolution(s, i, j);
    r
  }

  /** Swapping twice with the same positions restores the sequence. */
  lemma SwapInvolution<T>(s: seq<T>, i: nat, j: nat)
    requires i < |s| && j < |s|
    ensures s[i := s[j]][j := s[i]][i := s[i]][j := s[j]] == s
  {
  }

  lemma SwapIsPermutation<T>(s: seq<T>, i: nat, j: nat)
    requires i < |s| && j < |s|
    ensures multiset(s[i := s[j]][j := s[i]]) == multiset(s)
  {
    if i != j {
      var t := s[i := s[j]];
      assert multiset(t) == multiset(s) - multiset{s[i]} + multiset{s[j]};
      assert multiset(t[j := s[i]]) == multiset(t) - multiset{t[j]} + multiset{s[i]};
    }
  }

  /**
   Apply the transpositions to `s` in order, first to last. The result is a
   reordering of `s`, and it repeats a value exactly when `s` does.
   */
  function ApplySwaps<T>(s: seq<T>, swaps: seq<Transposition>): (r: seq<T>)
    requires ValidSwaps(swaps, |s|)
    ensures |r| == |s|
    ensures IsPermutationOf(r, s)
    ensures Distinct(s) <==> Distinct(r)
    decreases |swaps|
  {
    if swaps == [] then s
    else ApplySwaps(Swap(s, swaps[0].i, swaps[0].j), swaps[1..])
  }

  /** The positions of `s` pairwise hold different values exactly when no value has multiplicity above one. */
  lemma {:induction false} DistinctIffSingleOccurrences<T>(s: seq<T>)
    ensures Distinct(s) <==> forall x :: multiset(s)[x] <= 1
  {
    if s == [] {
    } else {
      var t := s[1..];
      assert s == [s[0]] + t;
      DistinctIffSingleOccurrences(t);
      if Distinct(s) {
        assert Distinct(t) by {
          forall i, j | 0 <= i < j < |t| ensures t[i] != t[j] {
            assert t[i] == s[i + 1] && t[j] == s[j + 1];
          }
        }
        forall x ensures multiset(s)[x] <= 1 {
          assert multiset(s)[x] == multiset{s[0]}[x] + multiset(t)[x];
        }
      } else {
        var i, j :| 0 <= i < j < |s| && s[i] == s[j];
        if i == 0 {
          assert t[j - 1] == s[0];
          assert multiset(t)[s[0]] >= 1;
          assert multiset(s)[s[0]] == 1 + multiset(t)[s[0]];
        } else {
          assert t[i - 1] == t[j - 1];
          assert !Distinct(t);
          var x :| multiset(t)[x] > 1;
          assert multiset(s)[x] == multiset{s[0]}[x] + multiset(t)[x];
        }
      }
    }
  }

  /** Distinctness depends only on the multiset: a reordering of a distinct sequence is distinct. */
  lemma PermutationKeepsDistinct<T>(s: seq<T>, t: seq<T>)
    requires IsPermutationOf(t, s)
    ensures Distinct(s) <==> Distinct(t)
  {
    DistinctIffSingleOccurrences(s);
    DistinctIffSingleOccurrences(t);
  }

  /** Taking the first `k` elements of a distinct sequence leaves a distinct sequence. */
  lemma PrefixDistinct<T>(s: seq<T>, k: nat)
    requires k <= |s| && Distinct(s)
    ensures Distinct(s[..k])
  {
    var p := s[..k];
    forall i, j | 0 <= i < j < |p| ensures p[i] != p[j] {
      assert p[i] == s[i] && p[j] == s[j];
    }
  }
}
