/** Index permutations. The app shuffles with `sort(() => 0.5 - Math.random())`,
    whose outcome is some reordering of its input; the model takes that
    reordering as a parameter, written as the sequence of source positions. */
module Permutations {

  /** `p` lists each of the positions `0 .. n-1` once. */
  predicate IsPermutation(p: seq<nat>, n: nat) {
    && |p| == n
    && (forall k :: 0 <= k < n ==> p[k] < n)
    && (forall k, l :: 0 <= k < l < n ==> p[k] != p[l])
  }

  /** `xs` reordered by `p`: the same elements, each as often as before,
      with position `k` of the result holding `xs[p[k]]`. */
  function Apply<T>(p: seq<nat>, xs: seq<T>): (r: seq<T>)
    requires IsPermutation(p, |xs|)
    ensures multiset(r) == multiset(xs)
    ensures |r| == |xs|
    ensures forall k :: 0 <= k < |r| ==> r[k] == xs[p[k]]
  {
    var r := seq(|p|, k requires 0 <= k < |p| => xs[p[k]]);
    ReorderKeepsElements(p, xs, r);
    r
  }

  /** The positions `0 .. n-1` as a set. */
  function Range(n: nat): (r: set<nat>)
    ensures |r| == n
    ensures forall j: nat :: j in r <==> j < n
  {
    if n == 0 then {} else Range(n - 1) + {n - 1}
  }

  /** The distinct elements of `p`. */
  function Elements(p: seq<nat>): set<nat> {
    set x | x in p
  }

  /** A sequence without repetitions has as many distinct elements as
      positions. */
  lemma {:induction false} DistinctElementsSize(p: seq<nat>)
    requires forall k, l :: 0 <= k < l < |p| ==> p[k] != p[l]
    ensures |Elements(p)| == |p|
  {
    if p != [] {
      var q := p[..|p| - 1];
      var last := p[|p| - 1];
      DistinctElementsSize(q);
      assert p == q + [last];
      assert last !in q by {
        forall k | 0 <= k < |q| ensures q[k] != last {
          assert q[k] == p[k];
        }
      }
      assert Elements(p) == Elements(q) + {last};
    }
  }

  /** Every position `0 .. n-1` occurs in a permutation of `n` (so each
      occurs exactly once). */
  lemma PermutationCovers(p: seq<nat>, n: nat)
    requires IsPermutation(p, n)
    ensures forall j :: 0 <= j < n ==> j in p
  {
    var elems := Elements(p);
    DistinctElementsSize(p);
    assert elems <= Range(n);
    forall j | 0 <= j < n
      ensures j in p
    {
      if j !in p {
        assert elems <= Range(n) - {j};
        assert |Range(n) - {j}| == n - 1;
        SubsetSize(elems, Range(n) - {j});
        assert false;
      }
    }
  }

  lemma {:induction false} SubsetSize(a: set<nat>, b: set<nat>)
    requires a <= b
    ensures |a| <= |b|
    decreases b
  {
    if a != {} {
      var x :| x in a;
      SubsetSize(a - {x}, b - {x});
    }
  }

  /** The position of each source element under `p` is unique: exactly one
      result position holds source position `j`. */
  lemma PermutationUnique(p: seq<nat>, n: nat, j: nat)
    requires IsPermutation(p, n) && j < n
    ensures exists k :: 0 <= k < n && p[k] == j
    ensures forall k, l :: 0 <= k < n && 0 <= l < n && p[k] == j && p[l] == j ==> k == l
  {
    PermutationCovers(p, n);
    assert j in p;
  }

  /** Dropping the entry `k` that holds the largest position `n - 1` from a
      permutation of `n` leaves a permutation of `n - 1`. */
  lemma DropLargest(p: seq<nat>, n: nat, k: nat)
    requires n > 0 && IsPermutation(p, n) && k < n && p[k] == n - 1
    ensures IsPermutation(p[..k] + p[k + 1..], n - 1)
  {
    var q := p[..k] + p[k + 1..];
    assert forall i :: 0 <= i < n - 1 ==> q[i] == p[if i < k then i else i + 1];
    forall i, j | 0 <= i < j < n - 1
      ensures q[i] != q[j]
    {
      var i', j' := if i < k then i else i + 1, if j < k then j else j + 1;
      assert i' < j';
    }
  }

  /** Removing entry `k` from both the permutation and the reordered
      sequence, where `p[k]` is the last source position, leaves a
      reordering of the source without its last element. */
  lemma DropStillReorders<T>(p: seq<nat>, xs: seq<T>, r: seq<T>, k: nat)
    requires |xs| > 0 && IsPermutation(p, |xs|) && k < |xs| && p[k] == |xs| - 1
    requires |r| == |xs|
    requires forall i :: 0 <= i < |r| ==> r[i] == xs[p[i]]
    ensures IsPermutation(p[..k] + p[k + 1..], |xs| - 1)
    ensures var p', xs', r' := p[..k] + p[k + 1..], xs[..|xs| - 1], r[..k] + r[k + 1..];
      |r'| == |xs'| && forall i :: 0 <= i < |r'| ==> r'[i] == xs'[p'[i]]
  {
    var n := |xs|;
    DropLargest(p, n, k);
    var p', xs', r' := p[..k] + p[k + 1..], xs[..n - 1], r[..k] + r[k + 1..];
    forall i | 0 <= i < n - 1
      ensures r'[i] == xs'[p'[i]]
    {
      var i' := if i < k then i else i + 1;
      assert r'[i] == r[i'] && p'[i] == p[i'];
    }
  }

  /** Reordering a sequence by a permutation keeps its multiset of
      elements. */
  lemma {:induction false} ReorderKeepsElements<T>(p: seq<nat>, xs: seq<T>, r: seq<T>)
    requires IsPermutation(p, |xs|)
    requires |r| == |xs|
    requires forall k :: 0 <= k < |r| ==> r[k] == xs[p[k]]
    ensures multiset(r) == multiset(xs)
    decreases |xs|
  {
    var n := |xs|;
    if n > 0 {
      PermutationUnique(p, n, n - 1);
      var k :| 0 <= k < n && p[k] == n - 1;
      DropStillReorders(p, xs, r, k);
      var xs', r' := xs[..n - 1], r[..k] + r[k + 1..];
      ReorderKeepsElements(p[..k] + p[k + 1..], xs', r');
      RemoveAt(r, k);
      RemoveAt(xs, n - 1);
      assert xs[..n - 1] + xs[n..] == xs';
    }
  }

  /** Splitting off the entry at `k` splits the multiset. */
  lemma RemoveAt<T>(s: seq<T>, k: nat)
    requires k < |s|
    ensures multiset(s) == multiset(s[..k] + s[k + 1..]) + multiset{s[k]}
  {
    assert s == s[..k] + [s[k]] + s[k + 1..];
  }
}
