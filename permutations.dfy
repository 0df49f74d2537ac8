/**
 * Axis permutations and the element relocation performed by `permute`
 * (src/tensor.c): an element at old coordinates c moves to the new
 * coordinates (c[p[0]], ..., c[p[r-1]]) of the shape whose axis j is the
 * old axis p[j].
 */
module Permutations {
  import opened Shapes

  /** `p` lists each of 0..n-1 exactly once. */
  ghost predicate IsPermutation(p: seq<nat>, n: nat)
  {
    && |p| == n
    && (forall j :: 0 <= j < n ==> p[j] < n)
    && (forall i, j :: 0 <= i < j < n ==> p[i] != p[j])
    && (forall k :: 0 <= k < n ==> k in p)
  }

  /** `q` undoes `p`: taking axis q[j] of the permuted axes gives back axis j. */
  ghost predicate InverseOf(q: seq<nat>, p: seq<nat>)
  {
    |q| == |p| && forall j :: 0 <= j < |p| ==> q[j] < |p| && p[q[j]] == j
  }

  /** Entry j of the result is entry p[j] of `s`. */
  function Gather<T>(s: seq<T>, p: seq<nat>): (r: seq<T>)
    requires forall j :: 0 <= j < |p| ==> p[j] < |s|
    ensures |r| == |p|
  {
    seq(|p|, j requires 0 <= j < |p| => s[p[j]])
  }

  /** Position of `k` in `p`. */
  function IndexOf(p: seq<nat>, k: nat): (j: nat)
    requires k in p
    ensures j < |p| && p[j] == k
  {
    if p[0] == k then 0 else 1 + IndexOf(p[1..], k)
  }

  /** The inverse permutation: entry k is the position of k in `p`. */
  function Inverse(p: seq<nat>): (q: seq<nat>)
    requires IsPermutation(p, |p|)
    ensures |q| == |p|
  {
    seq(|p|, k requires 0 <= k < |p| => IndexOf(p, k))
  }

  /** Relocated index of linear index `i` under permutation `p` of the axes `ds`. */
  ghost function Move(ds: seq<nat>, p: seq<nat>, i: nat): nat
    requires Positive(ds) && IsPermutation(p, |ds|)
  {
    RowMajor(Gather(ds, p), Gather(Unravel(ds, i), p))
  }

  /** `nb` holds, at the relocated index of every old index i, the element `ob[i]`. */
  ghost predicate PermutedFrom(nb: seq<int>, ob: seq<int>, ds: seq<nat>, p: seq<nat>)
    requires Positive(ds) && IsPermutation(p, |ds|)
  {
    |nb| == |ob| && forall i :: 0 <= i < |ob| ==> Move(ds, p, i) < |nb| && nb[Move(ds, p, i)] == ob[i]
  }

  // ---------------------------------------------------------------------
  // Permutations of axes

  /** The inverse of a permutation is a permutation, and undoes it on both sides. */
  lemma InverseIsPermutation(p: seq<nat>)
    requires IsPermutation(p, |p|)
    ensures IsPermutation(Inverse(p), |p|) && InverseOf(Inverse(p), p) && InverseOf(p, Inverse(p))
  {
    var n, q := |p|, Inverse(p);
    forall j | 0 <= j < n
      ensures q[p[j]] == j
    {
      var i := IndexOf(p, p[j]);
      assert p[i] == p[j];
    }
    forall j | 0 <= j < n
      ensures j in q
    {
      assert q[p[j]] == j;
    }
  }

  /** Gathering through `p` and then through its inverse `q` restores the sequence. */
  lemma GatherInverse<T>(s: seq<T>, p: seq<nat>, q: seq<nat>)
    requires IsPermutation(p, |s|) && InverseOf(q, p)
    ensures Gather(Gather(s, p), q) == s
  {
  }

  /** Gathering through a permutation loses nothing: equal images come from equal sequences. */
  lemma GatherInjective(c1: seq<nat>, c2: seq<nat>, p: seq<nat>)
    requires |c1| == |c2| && IsPermutation(p, |c1|)
    requires Gather(c1, p) == Gather(c2, p)
    ensures c1 == c2
  {
    forall k | 0 <= k < |c1|
      ensures c1[k] == c2[k]
    {
      assert k in p;
      var j :| 0 <= j < |p| && p[j] == k;
      assert Gather(c1, p)[j] == Gather(c2, p)[j];
    }
  }

  lemma GatherInRange(ds: seq<nat>, c: seq<nat>, p: seq<nat>)
    requires InRange(ds, c) && IsPermutation(p, |ds|)
    ensures InRange(Gather(ds, p), Gather(c, p))
  {
  }

  lemma GatherPositive(ds: seq<nat>, p: seq<nat>)
    requires Positive(ds) && IsPermutation(p, |ds|)
    ensures Positive(Gather(ds, p))
  {
  }

  lemma ProductSingle(x: nat)
    ensures Product([x]) == x
  {
    assert [x][..0] == [];
  }

  /** Removing entry k divides the product by that entry. */
  lemma ProductRemove(b: seq<nat>, k: nat)
    requires k < |b|
    ensures Product(b) == Product(b[..k] + b[k + 1..]) * b[k]
  {
    var u, e, v := b[..k], b[k], b[k + 1..];
    assert b == (u + [e]) + v;
    ProductAppend(u + [e], v);
    ProductAppend(u, [e]);
    ProductAppend(u, v);
    ProductSingle(e);
    var x, y := Product(u), Product(v);
    assert Product(b) == (x * e) * y;
    assert Product(u + v) == x * y;
    MulSwap(x, e, y);
  }

  lemma MulSwap(x: nat, e: nat, y: nat)
    ensures (x * e) * y == (x * y) * e
  {
  }

  /** Injective re-indexing `p` into the indices of `b`, with a[j] == b[p[j]]. */
  ghost predicate Reindexes<T>(a: seq<T>, b: seq<T>, p: seq<nat>)
  {
    && |a| == |b| == |p|
    && (forall j :: 0 <= j < |p| ==> p[j] < |b| && a[j] == b[p[j]])
    && (forall i, j :: 0 <= i < j < |p| ==> p[i] != p[j])
  }

  /** Dropping the last entry of `a` and the matching entry of `b` keeps a re-indexing. */
  lemma ReindexDropLast<T>(a: seq<T>, b: seq<T>, p: seq<nat>)
    requires Reindexes(a, b, p) && |a| > 0
    ensures var n, k := |a| - 1, p[|a| - 1];
            Reindexes(a[..n], b[..k] + b[k + 1..],
                      seq(n, j requires 0 <= j < n => if p[j] < k then p[j] else p[j] - 1))
  {
    var n, k := |a| - 1, p[|a| - 1];
    var b' := b[..k] + b[k + 1..];
    var p' := seq(n, j requires 0 <= j < n => if p[j] < k then p[j] else p[j] - 1);
    forall j | 0 <= j < n
      ensures p'[j] < |b'| && a[..n][j] == b'[p'[j]]
    {
      assert p[j] != p[n];
    }
    forall i, j | 0 <= i < j < n
      ensures p'[i] != p'[j]
    {
      assert p[i] != p[j] && p[i] != p[n] && p[j] != p[n];
    }
  }

  /** Products are invariant under injective re-indexing. */
  lemma {:induction false} ProductReindex(a: seq<nat>, b: seq<nat>, p: seq<nat>)
    requires Reindexes(a, b, p)
    ensures Product(a) == Product(b)
  {
    if |a| > 0 {
      var n, k := |a| - 1, p[|a| - 1];
      ReindexDropLast(a, b, p);
      ProductReindex(a[..n], b[..k] + b[k + 1..],
                     seq(n, j requires 0 <= j < n => if p[j] < k then p[j] else p[j] - 1));
      ProductRemove(b, k);
    }
  }

  /** A re-indexing that covers every position is a rearrangement: same elements, same multiplicities. */
  lemma {:induction false} MultisetReindex<T>(a: seq<T>, b: seq<T>, p: seq<nat>)
    requires Reindexes(a, b, p)
    ensures multiset(a) == multiset(b)
  {
    if |a| > 0 {
      var n, k := |a| - 1, p[|a| - 1];
      ReindexDropLast(a, b, p);
      MultisetReindex(a[..n], b[..k] + b[k + 1..],
                      seq(n, j requires 0 <= j < n => if p[j] < k then p[j] else p[j] - 1));
      assert a == a[..n] + [a[n]];
      assert b == b[..k] + [b[k]] + b[k + 1..];
    }
  }

  /** Permuting the extents leaves the element count unchanged. */
  lemma ProductGather(ds: seq<nat>, p: seq<nat>)
    requires IsPermutation(p, |ds|)
    ensures Product(Gather(ds, p)) == Product(ds)
  {
    ProductReindex(Gather(ds, p), ds, p);
  }

  // ---------------------------------------------------------------------
  // Element relocation

  /** Every old index is relocated inside the buffer. */
  lemma MoveBound(ds: seq<nat>, p: seq<nat>, i: nat)
    requires Positive(ds) && IsPermutation(p, |ds|)
    ensures Move(ds, p, i) < Product(ds)
  {
    UnravelInRange(ds, i);
    GatherInRange(ds, Unravel(ds, i), p);
    RowMajorBound(Gather(ds, p), Gather(Unravel(ds, i), p));
    ProductGather(ds, p);
  }

  /** Two distinct old indices are never relocated to the same place. */
  lemma MoveInjective(ds: seq<nat>, p: seq<nat>, i1: nat, i2: nat)
    requires Positive(ds) && IsPermutation(p, |ds|)
    requires i1 < Product(ds) && i2 < Product(ds)
    requires Move(ds, p, i1) == Move(ds, p, i2)
    ensures i1 == i2
  {
    var c1, c2 := Unravel(ds, i1), Unravel(ds, i2);
    UnravelInRange(ds, i1);
    UnravelInRange(ds, i2);
    GatherInRange(ds, c1, p);
    GatherInRange(ds, c2, p);
    RowMajorInjective(Gather(ds, p), Gather(c1, p), Gather(c2, p));
    GatherInjective(c1, c2, p);
    RowMajorUnravel(ds, i1);
    RowMajorUnravel(ds, i2);
  }

  /** No earlier old index is relocated to where old index `i` goes. */
  lemma MoveFresh(ds: seq<nat>, p: seq<nat>, i: nat)
    requires Positive(ds) && IsPermutation(p, |ds|) && i < Product(ds)
    ensures forall k :: 0 <= k < i ==> Move(ds, p, k) != Move(ds, p, i)
  {
    forall k | 0 <= k < i
      ensures Move(ds, p, k) != Move(ds, p, i)
    {
      if Move(ds, p, k) == Move(ds, p, i) {
        MoveInjective(ds, p, k, i);
      }
    }
  }

  /** Relocating under `p` and then under its inverse returns every index to where it was. */
  lemma MoveThenInverse(ds: seq<nat>, p: seq<nat>, q: seq<nat>, i: nat)
    requires Positive(ds) && IsPermutation(p, |ds|) && IsPermutation(q, |ds|) && InverseOf(q, p)
    requires i < Product(ds)
    ensures Positive(Gather(ds, p))
    ensures Move(Gather(ds, p), q, Move(ds, p, i)) == i
  {
    GatherPositive(ds, p);
    var nd, c := Gather(ds, p), Unravel(ds, i);
    UnravelInRange(ds, i);
    GatherInRange(ds, c, p);
    UnravelRowMajor(nd, Gather(c, p));
    GatherInverse(ds, p, q);
    GatherInverse(c, p, q);
    RowMajorUnravel(ds, i);
  }

  /** Every index of the new buffer receives some old element. */
  lemma MoveOnto(ds: seq<nat>, p: seq<nat>, m: nat)
    requires Positive(ds) && IsPermutation(p, |ds|) && m < Product(ds)
    ensures exists i :: 0 <= i < Product(ds) && Move(ds, p, i) == m
  {
    var q := Inverse(p);
    InverseIsPermutation(p);
    GatherPositive(ds, p);
    var nd := Gather(ds, p);
    ProductGather(ds, p);
    GatherInverse(ds, p, q);
    MoveThenInverse(nd, q, p, m);
    var i := Move(nd, q, m);
    MoveBound(nd, q, m);
    ProductGather(nd, q);
    assert Move(ds, p, i) == m;
  }

  /** Relocation determines the new buffer completely. */
  lemma PermutedDetermined(b: seq<int>, b': seq<int>, ob: seq<int>, ds: seq<nat>, p: seq<nat>)
    requires Positive(ds) && IsPermutation(p, |ds|) && |ob| == Product(ds)
    requires PermutedFrom(b, ob, ds, p) && PermutedFrom(b', ob, ds, p)
    ensures b == b'
  {
    forall m | 0 <= m < |b|
      ensures b[m] == b'[m]
    {
      MoveOnto(ds, p, m);
    }
  }

  /** The permuted buffer is a rearrangement of the old one. */
  lemma PermutedRearranges(nb: seq<int>, ob: seq<int>, ds: seq<nat>, p: seq<nat>)
    requires Positive(ds) && IsPermutation(p, |ds|) && |ob| == Product(ds)
    requires PermutedFrom(nb, ob, ds, p)
    ensures multiset(nb) == multiset(ob)
  {
    var f := seq(|ob|, i requires 0 <= i < |ob| => Move(ds, p, i));
    forall i, j | 0 <= i < j < |f|
      ensures f[i] != f[j]
    {
      if f[i] == f[j] {
        MoveInjective(ds, p, i, j);
      }
    }
    assert Reindexes(ob, nb, f);
    MultisetReindex(ob, nb, f);
  }

  /** Permuting by `p` and then by its inverse restores the extents and every element. */
  lemma PermuteRoundTrip(ds: seq<nat>, p: seq<nat>, q: seq<nat>, b0: seq<int>, b1: seq<int>, b2: seq<int>)
    requires Positive(ds) && IsPermutation(p, |ds|) && IsPermutation(q, |ds|) && InverseOf(q, p)
    requires |b0| == Product(ds)
    requires PermutedFrom(b1, b0, ds, p)
    requires Positive(Gather(ds, p)) && PermutedFrom(b2, b1, Gather(ds, p), q)
    ensures Gather(Gather(ds, p), q) == ds
    ensures b2 == b0
  {
    GatherInverse(ds, p, q);
    forall i | 0 <= i < |b0|
      ensures b2[i] == b0[i]
    {
      MoveThenInverse(ds, p, q, i);
    }
  }
}
