/**
 * Order-preserving selection from a sequence: what a boolean mask does to the
 * rows of a table (`df[mask]`), and the relations such a selection satisfies.
 */
module Subsequences {

  /** The elements of `s` at the positions where `mask` is true, in their original order. */
  function Select<T>(s: seq<T>, mask: seq<bool>): (r: seq<T>)
    requires |mask| == |s|
    ensures |r| <= |s|
    decreases |s|
  {
    if s == [] then []
    else
      var n := |s| - 1;
      Select(s[..n], mask[..n]) + (if mask[n] then [s[n]] else [])
  }

  /** The mask that is true exactly where `mask` is false (`~mask`). */
  function Complement(mask: seq<bool>): (r: seq<bool>)
    ensures |r| == |mask|
    ensures forall k :: 0 <= k < |mask| ==> r[k] == !mask[k]
  {
    seq(|mask|, k requires 0 <= k < |mask| => !mask[k])
  }

  /** The positions at which `mask` is true, in increasing order. */
  function TruePositions(mask: seq<bool>): (idx: seq<nat>)
    ensures forall k :: 0 <= k < |idx| ==> idx[k] < |mask| && mask[idx[k]]
    ensures forall k, l :: 0 <= k < l < |idx| ==> idx[k] < idx[l]
    decreases |mask|
  {
    if mask == [] then []
    else
      var n := |mask| - 1;
      TruePositions(mask[..n]) + (if mask[n] then [n] else [])
  }

  /** `idx` lists, in increasing order, positions of `b` that spell out `a`. */
  ghost predicate Embeds<T>(a: seq<T>, b: seq<T>, idx: seq<nat>) {
    && |idx| == |a|
    && (forall k :: 0 <= k < |idx| ==> idx[k] < |b| && a[k] == b[idx[k]])
    && (forall k, l :: 0 <= k < l < |idx| ==> idx[k] < idx[l])
  }

  /** `a` is obtained from `b` by deleting elements, keeping the order of the rest. */
  ghost predicate IsSubsequence<T>(a: seq<T>, b: seq<T>) {
    exists idx: seq<nat> :: Embeds(a, b, idx)
  }

  /**
   * `c` is a merge of `a` and `b`: every element of `c` comes from exactly one
   * of them, and each of `a` and `b` keeps its order inside `c`.
   */
  ghost predicate IsInterleaving<T>(a: seq<T>, b: seq<T>, c: seq<T>)
    decreases |c|
  {
    if c == [] then a == [] && b == []
    else
      var n := |c| - 1;
      || (a != [] && a[|a| - 1] == c[n] && IsInterleaving(a[..|a| - 1], b, c[..n]))
      || (b != [] && b[|b| - 1] == c[n] && IsInterleaving(a, b[..|b| - 1], c[..n]))
  }

  /** The selection is spelled out by the true positions of the mask. */
  lemma {:induction false} SelectEmbeds<T>(s: seq<T>, mask: seq<bool>)
    requires |mask| == |s|
    ensures Embeds(Select(s, mask), s, TruePositions(mask))
    decreases |s|
  {
    if s != [] {
      var n := |s| - 1;
      SelectEmbeds(s[..n], mask[..n]);
    }
  }

  /** A masked selection is an order-preserving subsequence. */
  lemma SelectIsSubsequence<T>(s: seq<T>, mask: seq<bool>)
    requires |mask| == |s|
    ensures IsSubsequence(Select(s, mask), s)
  {
    SelectEmbeds(s, mask);
  }

  /** An element survives a selection exactly when some true position holds it. */
  lemma {:induction false} SelectMembers<T>(s: seq<T>, mask: seq<bool>, x: T)
    requires |mask| == |s|
    ensures x in Select(s, mask) <==> exists k :: 0 <= k < |s| && mask[k] && s[k] == x
    decreases |s|
  {
    if s != [] {
      var n := |s| - 1;
      SelectMembers(s[..n], mask[..n], x);
      assert forall k :: 0 <= k < n ==> s[..n][k] == s[k] && mask[..n][k] == mask[k];
    }
  }

  /** A mask and its complement split a sequence into two interleaved halves. */
  lemma {:induction false} SelectPartition<T>(s: seq<T>, mask: seq<bool>)
    requires |mask| == |s|
    ensures IsInterleaving(Select(s, mask), Select(s, Complement(mask)), s)
    decreases |s|
  {
    if s != [] {
      var n := |s| - 1;
      var c := Complement(mask);
      assert c[..n] == Complement(mask[..n]);
      SelectPartition(s[..n], mask[..n]);
      var a, b := Select(s, mask), Select(s, c);
      if mask[n] {
        assert a[..|a| - 1] == Select(s[..n], mask[..n]);
        assert b == Select(s[..n], c[..n]);
      } else {
        assert a == Select(s[..n], mask[..n]);
        assert b[..|b| - 1] == Select(s[..n], c[..n]);
      }
    }
  }

  /** Interleaving loses and invents nothing: the halves together hold exactly the elements of the whole. */
  lemma {:induction false} InterleavingMultiset<T>(a: seq<T>, b: seq<T>, c: seq<T>)
    requires IsInterleaving(a, b, c)
    ensures multiset(a) + multiset(b) == multiset(c)
    ensures |a| + |b| == |c|
    decreases |c|
  {
    if c != [] {
      var n := |c| - 1;
      assert c == c[..n] + [c[n]];
      if a != [] && a[|a| - 1] == c[n] && IsInterleaving(a[..|a| - 1], b, c[..n]) {
        InterleavingMultiset(a[..|a| - 1], b, c[..n]);
        assert a == a[..|a| - 1] + [a[|a| - 1]];
      } else {
        InterleavingMultiset(a, b[..|b| - 1], c[..n]);
        assert b == b[..|b| - 1] + [b[|b| - 1]];
      }
    }
  }

  /** Every sequence is a subsequence of itself. */
  lemma SubsequenceReflexive<T>(s: seq<T>)
    ensures IsSubsequence(s, s)
  {
    var idx: seq<nat> := seq(|s|, k requires 0 <= k < |s| => k);
    assert Embeds(s, s, idx);
  }

  /** The empty sequence is a subsequence of everything. */
  lemma EmptySubsequence<T>(s: seq<T>)
    ensures IsSubsequence([], s)
  {
    assert Embeds([], s, []);
  }

  /** Deleting elements twice is deleting elements once. */
  lemma SubsequenceTransitive<T>(a: seq<T>, b: seq<T>, c: seq<T>)
    requires IsSubsequence(a, b) && IsSubsequence(b, c)
    ensures IsSubsequence(a, c)
  {
    var i1: seq<nat> :| Embeds(a, b, i1);
    var i2: seq<nat> :| Embeds(b, c, i2);
    var i3: seq<nat> := seq(|i1|, k requires 0 <= k < |i1| => i2[i1[k]]);
    assert Embeds(a, c, i3);
  }

  /** A subsequence holds only elements of the original. */
  lemma SubsequenceMembers<T>(a: seq<T>, b: seq<T>)
    requires IsSubsequence(a, b)
    ensures forall x :: x in a ==> x in b
  {
    var idx: seq<nat> :| Embeds(a, b, idx);
    forall x | x in a ensures x in b {
      var k :| 0 <= k < |a| && a[k] == x;
      assert b[idx[k]] == x;
    }
  }
}
