/**
 * Order-preserving subsequences: what is left of a sequence after some of
 * its elements are removed, the survivors keeping their relative order.
 */
module Subsequences {

  /** `idx` lists, in increasing order, the positions of `b` whose elements make up `a`. */
  ghost predicate PicksFrom<T>(a: seq<T>, b: seq<T>, idx: seq<nat>)
  {
    && |idx| == |a|
    && (forall i, j :: 0 <= i < j < |idx| ==> idx[i] < idx[j])
    && (forall i :: 0 <= i < |idx| ==> idx[i] < |b| && a[i] == b[idx[i]])
  }

  /** `a` is `b` with some elements removed. */
  ghost predicate IsSubsequence<T>(a: seq<T>, b: seq<T>)
  {
    exists idx :: PicksFrom(a, b, idx)
  }

  lemma SubsequenceReflexive<T>(b: seq<T>)
    ensures IsSubsequence(b, b)
  {
    var idx := seq(|b|, i requires 0 <= i < |b| => i as nat);
    assert PicksFrom(b, b, idx);
  }

  /** Removing elements twice removes elements once. */
  lemma SubsequenceTransitive<T>(a: seq<T>, b: seq<T>, c: seq<T>)
    requires IsSubsequence(a, b) && IsSubsequence(b, c)
    ensures IsSubsequence(a, c)
  {
    var ia :| PicksFrom(a, b, ia);
    var ib :| PicksFrom(b, c, ib);
    var idx := seq(|a|, i requires 0 <= i < |a| => ib[ia[i]]);
    assert PicksFrom(a, c, idx);
  }

  /** Cutting out the run `b[i..i + n]` leaves a subsequence. */
  lemma DeletedRunIsSubsequence<T>(b: seq<T>, i: nat, n: nat)
    requires i + n <= |b|
    ensures IsSubsequence(b[..i] + b[i + n..], b)
  {
    var a := b[..i] + b[i + n..];
    var idx := seq(|a|, k requires 0 <= k < |a| => if k < i then k as nat else (k + n) as nat);
    assert PicksFrom(a, b, idx);
  }
}
