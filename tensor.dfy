/**
 * Tensors of src/tensor.c: a contiguous row-major buffer, a shape and a
 * cached element count, with their lifecycle, the guarded element-wise
 * operations, reshape and permute.  Elements are modelled as integers;
 * every C function that checks a `Tensor *` for NULL takes a `Tensor?`
 * here so that those checks are modelled as written.
 */
module Tensors {
  import opened Shapes
  import opened Permutations

  class Tensor {
    var data: array?<int>
    var shape: Shape
    var size: nat

    /** A zero-initialised tensor (`Tensor t = {0}`): no buffer, rank 0, no elements. */
    constructor Empty()
      ensures data == null && shape == Shape([0, 0, 0, 0, 0, 0, 0, 0], 0) && size == 0
      ensures Valid()
    {
      data := null;
      shape := Shape([0, 0, 0, 0, 0, 0, 0, 0], 0);
      size := 0;
    }

    /**
     * The tensor invariant kept by every operation: without a buffer there
     * are no elements; with one, the buffer holds exactly `size` elements,
     * `size` is the element count of the shape and every extent is positive.
     * `size` is a `size_t`, so it stays below 2^64.
     */
    ghost predicate Valid()
      reads this
    {
      && shape.rank <= MaxRank && size < SizeMod
      && (data == null ==> size == 0)
      && (data != null ==> data.Length == size && size == Numel(shape) && Positive(Active(shape)))
    }
  }

  /** The buffer of `t`, as a frame. */
  function Buf(t: Tensor?): set<object>
    reads t
  {
    if t != null && t.data != null then {t.data} else {}
  }

  /** The shape check of `tensor_alloc`: rank in 1..MaxRank and no zero extent. */
  ghost predicate Allocatable(shape: Shape)
  {
    0 < shape.rank <= MaxRank && forall i :: 0 <= i < shape.rank ==> shape.dims[i] != 0
  }

  /** Same rank and the same extents up to that rank. */
  ghost predicate SameExtents(s1: Shape, s2: Shape)
    requires s1.rank <= MaxRank && s2.rank <= MaxRank
  {
    s1.rank == s2.rank && Active(s1) == Active(s2)
  }

  /** The guard of `assert_tensors`. */
  ghost predicate Compatible(a: Tensor?, b: Tensor?)
    reads a, b
    requires a != null ==> a.Valid()
    requires b != null ==> b.Valid()
  {
    && a != null && b != null
    && a.data != null && b.data != null
    && SameExtents(a.shape, b.shape)
    && a.size == b.size
  }

  // ---------------------------------------------------------------------
  // Lifecycle

  /**
   * `tensor_alloc`.  Whether `malloc` succeeds is the parameter
   * `mallocSucceeds`.  An invalid shape leaves the tensor as it was; a
   * failed allocation leaves it without buffer, size 0 and rank 0.  The
   * size is `numel`'s `size_t` product, the element count modulo 2^64, so
   * only a shape with fewer than 2^64 elements yields a valid tensor.
   */
  method Alloc(t: Tensor?, shape: Shape, mallocSucceeds: bool) returns (r: int)
    modifies t
    ensures r == (if t != null && Allocatable(shape) && mallocSucceeds then 1 else 0)
    ensures t != null && !Allocatable(shape) ==> unchanged(t)
    ensures t != null && Allocatable(shape) && !mallocSucceeds ==>
              t.data == null && t.size == 0 && t.shape == shape.(rank := 0)
    ensures r == 1 ==> t.data != null && fresh(t.data) && t.shape == shape && t.size == Numel(shape) % SizeMod
    ensures t != null && Allocatable(shape) && (Numel(shape) < SizeMod || !mallocSucceeds) ==> t.Valid()
  {
    if t == null {
      return 0;
    }
    if shape.rank == 0 || shape.rank > MaxRank {
      return 0;
    }
    var i := 0;
    while i < shape.rank
      invariant 0 <= i <= shape.rank
      invariant forall k :: 0 <= k < i ==> shape.dims[k] != 0
    {
      if shape.dims[i] == 0 {
        return 0;
      }
      i := i + 1;
    }
    t.data := null;
    t.shape := shape;
    t.size := ComputeNumel(shape);
    if mallocSucceeds {
      t.data := new int[t.size];
    }
    if t.data == null {
      t.size := 0;
      t.shape := t.shape.(rank := 0);
      return 0;
    }
    return 1;
  }

  /** `tensor_free`: drops the buffer and resets rank and size to 0. */
  method Free(t: Tensor?)
    modifies t
    ensures t != null ==> t.data == null && t.size == 0 && t.shape == old(t.shape).(rank := 0)
    ensures t != null ==> t.Valid()
  {
    if t == null {
      return;
    }
    t.data := null;
    t.shape := t.shape.(rank := 0);
    t.size := 0;
  }

  // ---------------------------------------------------------------------
  // Queries

  /** `tensor_size`: 0 for NULL, otherwise the number of elements the buffer holds. */
  function TensorSize(t: Tensor?): (r: nat)
    reads t
    requires t != null ==> t.Valid()
    ensures t == null || t.data == null ==> r == 0
    ensures t != null && t.data != null ==> r == t.data.Length && r == Numel(t.shape)
  {
    if t == null then 0 else t.size
  }

  /** `tensor_dim`: 0 for NULL or an axis at or past the rank, otherwise that extent. */
  function TensorDim(t: Tensor?, i: nat): (r: nat)
    reads t
    requires t != null ==> t.Valid()
    ensures t == null || i >= t.shape.rank ==> r == 0
    ensures t != null && i < t.shape.rank ==> r == Active(t.shape)[i]
    ensures t != null && t.data != null && i < t.shape.rank ==> r > 0
  {
    if t == null then 0
    else if i >= t.shape.rank then 0
    else t.shape.dims[i]
  }

  /** `tensor_get`: 0 for NULL, a missing buffer or an index at or past the size. */
  function Get(t: Tensor?, index: nat): (r: int)
    reads t, Buf(t)
    requires t != null ==> t.Valid()
    ensures t == null || t.data == null || index >= t.size ==> r == 0
    ensures t != null && t.data != null && index < t.size ==> r == t.data[index]
  {
    if t == null || t.data == null || index >= t.size then 0 else t.data[index]
  }

  /** `tensor_same_shape`: 1 exactly when both are non-NULL with equal rank and extents. */
  method SameShape(a: Tensor?, b: Tensor?) returns (r: int)
    requires a != null ==> a.Valid()
    requires b != null ==> b.Valid()
    ensures r == (if a != null && b != null && SameExtents(a.shape, b.shape) then 1 else 0)
  {
    if a == null || b == null {
      return 0;
    }
    if a.shape.rank != b.shape.rank {
      return 0;
    }
    var i := 0;
    while i < a.shape.rank
      invariant 0 <= i <= a.shape.rank
      invariant a.shape.dims[..i] == b.shape.dims[..i]
    {
      if a.shape.dims[i] != b.shape.dims[i] {
        assert Active(a.shape)[i] != Active(b.shape)[i];
        return 0;
      }
      i := i + 1;
    }
    return 1;
  }

  /** `assert_tensors`: 1 exactly when the element-wise guard holds. */
  method AssertTensors(a: Tensor?, b: Tensor?) returns (r: int)
    requires a != null ==> a.Valid()
    requires b != null ==> b.Valid()
    ensures r == (if Compatible(a, b) then 1 else 0)
  {
    if a == null || b == null {
      return 0;
    }
    if a.data == null || b.data == null {
      return 0;
    }
    var same := SameShape(a, b);
    if same == 0 {
      return 0;
    }
    if a.size != b.size {
      return 0;
    }
    return 1;
  }

  // ---------------------------------------------------------------------
  // Element-wise operations

  /** `tensor_mul`: a[i] := a[i] * b[i] when the guard holds; otherwise nothing changes. */
  method Mul(a: Tensor?, b: Tensor?) returns (r: int)
    requires a != null ==> a.Valid()
    requires b != null ==> b.Valid()
    modifies Buf(a)
    ensures r == (if Compatible(a, b) then 1 else 0)
    ensures r == 0 ==> unchanged(Buf(a))
    ensures r == 1 ==> forall i :: 0 <= i < a.size ==> a.data[i] == old(a.data[i]) * old(b.data[i])
  {
    var ok := AssertTensors(a, b);
    if ok == 0 {
      return 0;
    }
    var i := 0;
    while i < a.size
      invariant 0 <= i <= a.size
      invariant forall k :: 0 <= k < i ==> a.data[k] == old(a.data[k]) * old(b.data[k])
      invariant forall k :: i <= k < a.size ==> a.data[k] == old(a.data[k]) && b.data[k] == old(b.data[k])
    {
      a.data[i] := a.data[i] * b.data[i];
      i := i + 1;
    }
    return 1;
  }

  /** `tensor_add`: a[i] := a[i] + b[i] when the guard holds; otherwise nothing changes. */
  method Add(a: Tensor?, b: Tensor?) returns (r: int)
    requires a != null ==> a.Valid()
    requires b != null ==> b.Valid()
    modifies Buf(a)
    ensures r == (if Compatible(a, b) then 1 else 0)
    ensures r == 0 ==> unchanged(Buf(a))
    ensures r == 1 ==> forall i :: 0 <= i < a.size ==> a.data[i] == old(a.data[i]) + old(b.data[i])
  {
    var ok := AssertTensors(a, b);
    if ok == 0 {
      return 0;
    }
    var i := 0;
    while i < a.size
      invariant 0 <= i <= a.size
      invariant forall k :: 0 <= k < i ==> a.data[k] == old(a.data[k]) + old(b.data[k])
      invariant forall k :: i <= k < a.size ==> a.data[k] == old(a.data[k]) && b.data[k] == old(b.data[k])
    {
      a.data[i] := a.data[i] + b.data[i];
      i := i + 1;
    }
    return 1;
  }

  /** `tensor_fill`: every element becomes `value`, unless `t` or its buffer is NULL. */
  method Fill(t: Tensor?, value: int) returns (r: int)
    requires t != null ==> t.Valid()
    modifies Buf(t)
    ensures r == (if t != null && t.data != null then 1 else 0)
    ensures r == 1 ==> forall i :: 0 <= i < t.size ==> t.data[i] == value
  {
    if t == null || t.data == null {
      return 0;
    }
    var i := 0;
    while i < t.size
      invariant 0 <= i <= t.size
      invariant forall k :: 0 <= k < i ==> t.data[k] == value
    {
      t.data[i] := value;
      i := i + 1;
    }
    return 1;
  }

  /** `tensor_zero`: `tensor_fill` with 0. */
  method Zero(t: Tensor?) returns (r: int)
    requires t != null ==> t.Valid()
    modifies Buf(t)
    ensures r == (if t != null && t.data != null then 1 else 0)
    ensures r == 1 ==> forall i :: 0 <= i < t.size ==> t.data[i] == 0
  {
    r := Fill(t, 0);
  }

  /** `tensor_scale`: every element is multiplied by `a`, unless `t` or its buffer is NULL. */
  method Scale(t: Tensor?, a: int) returns (r: int)
    requires t != null ==> t.Valid()
    modifies Buf(t)
    ensures r == (if t != null && t.data != null then 1 else 0)
    ensures r == 1 ==> forall i :: 0 <= i < t.size ==> t.data[i] == old(t.data[i]) * a
  {
    if t == null || t.data == null {
      return 0;
    }
    var i := 0;
    while i < t.size
      invariant 0 <= i <= t.size
      invariant forall k :: 0 <= k < i ==> t.data[k] == old(t.data[k]) * a
      invariant forall k :: i <= k < t.size ==> t.data[k] == old(t.data[k])
    {
      t.data[i] := t.data[i] * a;
      i := i + 1;
    }
    return 1;
  }

  /** `tensor_copy`: dst[i] := src[i] when the guard holds; otherwise nothing changes. */
  method Copy(dst: Tensor?, src: Tensor?) returns (r: int)
    requires dst != null ==> dst.Valid()
    requires src != null ==> src.Valid()
    modifies Buf(dst)
    ensures r == (if Compatible(dst, src) then 1 else 0)
    ensures r == 0 ==> unchanged(Buf(dst))
    ensures r == 1 ==> forall i :: 0 <= i < dst.size ==> dst.data[i] == old(src.data[i])
  {
    var ok := AssertTensors(dst, src);
    if ok == 0 {
      return 0;
    }
    var i := 0;
    while i < src.size
      invariant 0 <= i <= src.size
      invariant forall k :: 0 <= k < i ==> dst.data[k] == old(src.data[k])
      invariant forall k :: i <= k < src.size ==> src.data[k] == old(src.data[k])
    {
      dst.data[i] := src.data[i];
      i := i + 1;
    }
    return 1;
  }

  /**
   * `tensor_clone`: allocates `dst` with the shape of `src` and copies
   * every element.  NULL tensors, a source without buffer and a failed
   * allocation return 0.
   */
  method Clone(dst: Tensor?, src: Tensor?, mallocSucceeds: bool) returns (r: int)
    requires dst != null && src != null ==> dst != src
    requires src != null ==> src.Valid()
    requires dst != null && src != null && src.data != null ==> dst.data != src.data
    modifies dst
    ensures r == (if dst != null && src != null && src.data != null && Allocatable(src.shape) && mallocSucceeds
                  then 1 else 0)
    ensures dst != null && (src == null || src.data == null || !Allocatable(src.shape)) ==> unchanged(dst)
    ensures dst != null && src != null && src.data != null && Allocatable(src.shape) && !mallocSucceeds ==>
              dst.data == null && dst.size == 0 && dst.shape == src.shape.(rank := 0)
    ensures r == 1 ==> dst.data != null && fresh(dst.data) && dst.shape == src.shape && dst.size == src.size
                       && dst.data[..] == src.data[..] && dst.Valid()
  {
    if dst == null || src == null {
      return 0;
    }
    if src.data == null {
      return 0;
    }
    var ok := Alloc(dst, src.shape, mallocSucceeds);
    if ok == 0 {
      return 0;
    }
    var buf := dst.data;
    var i := 0;
    while i < src.size
      invariant 0 <= i <= src.size
      invariant dst.data == buf && dst.shape == src.shape && dst.size == src.size
      invariant forall k :: 0 <= k < i ==> buf[k] == src.data[k]
    {
      buf[i] := src.data[i];
      i := i + 1;
    }
    return 1;
  }

  /** `tensor_axpy`: y[i] := y[i] + a * x[i] when the guard holds; otherwise nothing changes. */
  method Axpy(y: Tensor?, a: int, x: Tensor?) returns (r: int)
    requires y != null ==> y.Valid()
    requires x != null ==> x.Valid()
    modifies Buf(y)
    ensures r == (if Compatible(y, x) then 1 else 0)
    ensures r == 0 ==> unchanged(Buf(y))
    ensures r == 1 ==> forall i :: 0 <= i < y.size ==> y.data[i] == old(y.data[i]) + a * old(x.data[i])
  {
    var ok := AssertTensors(y, x);
    if ok == 0 {
      return 0;
    }
    var i := 0;
    while i < y.size
      invariant 0 <= i <= y.size
      invariant forall k :: 0 <= k < i ==> y.data[k] == old(y.data[k]) + a * old(x.data[k])
      invariant forall k :: i <= k < y.size ==> y.data[k] == old(y.data[k]) && x.data[k] == old(x.data[k])
    {
      y.data[i] := y.data[i] + a * x.data[i];
      i := i + 1;
    }
    return 1;
  }

  /** `tensor_arange`: element i becomes i.  The tensor is dereferenced unchecked; returns 0. */
  method Arange(t: Tensor) returns (r: int)
    requires t.Valid()
    modifies Buf(t)
    ensures r == 0
    ensures forall i :: 0 <= i < t.size ==> t.data[i] == i
  {
    var i := 0;
    while i < t.size
      invariant 0 <= i <= t.size
      invariant forall k :: 0 <= k < i ==> t.data[k] == k
    {
      t.data[i] := i;
      i := i + 1;
    }
    return 0;
  }

  // ---------------------------------------------------------------------
  // Reshape and permute

  /**
   * `reshape`: replaces the shape when the element counts agree, touching
   * neither the buffer nor the size; otherwise nothing changes.  The counts
   * are compared as C `int`s, so both must fit in one.
   */
  method Reshape(t: Tensor?, shape: Shape) returns (r: int)
    requires t != null ==> t.Valid() && shape.rank <= MaxRank
    requires t != null ==> Numel(t.shape) <= IntMax && Numel(shape) <= IntMax
    modifies t
    ensures r == (if t != null && Numel(old(t.shape)) == Numel(shape) then 1 else 0)
    ensures t != null && r == 0 ==> unchanged(t)
    ensures t != null && r == 1 ==>
              t.shape == shape && t.data == old(t.data) && t.size == old(t.size) && t.Valid()
  {
    if t == null {
      return 0;
    }
    var tShapeSize := ComputeNumel(t.shape);
    var sShapeSize := ComputeNumel(shape);
    if tShapeSize != sShapeSize {
      return 0;
    }
    if t.data != null {
      ProductPositive(Active(t.shape));
      ProductPositive(Active(shape));
    }
    t.shape := shape;
    return 1;
  }

  /**
   * `permute`: axis j of the result is old axis p[j], and the element at
   * old linear index i moves to the relocated index Move(ds, p, i).  The
   * buffer is snapshotted into a scratch copy first.  Returns 0 in every case.
   */
  method Permute(t: Tensor?, p: seq<nat>) returns (r: int)
    requires t != null ==> t.Valid() && IsPermutation(p, t.shape.rank) && t.size <= IntMax + 1
    modifies t, Buf(t)
    ensures r == 0
    ensures t != null ==> t.Valid() && t.size == old(t.size) && t.data == old(t.data)
    ensures t != null ==> t.shape.rank == old(t.shape.rank) && Active(t.shape) == Gather(Active(old(t.shape)), p)
    ensures t != null && t.data != null ==>
              Positive(Active(old(t.shape))) && PermutedFrom(t.data[..], old(t.data[..]), Active(old(t.shape)), p)
    ensures t != null && t.data != null ==> multiset(t.data[..]) == multiset(old(t.data[..]))
  {
    if t == null {
      return 0;
    }
    var rank := t.shape.rank;
    ghost var ds := Active(t.shape);
    var dims := t.shape.dims;
    var i := 0;
    while i < rank
      invariant 0 <= i <= rank
      invariant dims[..i] == Gather(ds, p)[..i]
    {
      dims := dims[i := t.shape.dims[p[i]]];
      i := i + 1;
    }
    var s := Shape(dims, rank);
    assert Active(s) == Gather(ds, p);
    ProductGather(ds, p);
    if t.data != null {
      GatherPositive(ds, p);
      Relocate(t.data, t.shape, s, p);
      PermutedRearranges(t.data[..], old(t.data[..]), ds, p);
    }
    t.shape := s;
    return 0;
  }

  /**
   * The relocation loop of `permute` on a buffer of shape `shape`: snapshot
   * the buffer, then write each old element at its relocated index in `s`.
   */
  method Relocate(data: array<int>, shape: Shape, s: Shape, p: seq<nat>)
    requires shape.rank <= MaxRank && Positive(Active(shape)) && IsPermutation(p, shape.rank)
    requires data.Length == Numel(shape) && Numel(shape) <= IntMax + 1
    requires s.rank == shape.rank && Active(s) == Gather(Active(shape), p)
    modifies data
    ensures PermutedFrom(data[..], old(data[..]), Active(shape), p)
  {
    ghost var ds := Active(shape);
    var n := data.Length;
    var newBuffer := new int[n];
    forall k | 0 <= k < n {
      newBuffer[k] := data[k];
    }
    var indices := new nat[MaxRank];
    var permuted := new nat[MaxRank];
    ghost var targets := seq(n, k requires 0 <= k < n => Move(ds, p, k));
    var i := 0;
    while i < n
      invariant 0 <= i <= n
      invariant newBuffer[..] == old(data[..])
      invariant Placed(data[..], newBuffer[..], targets, i)
    {
      PlaceNext(data, newBuffer, shape, s, p, i, indices, permuted, targets);
      i := i + 1;
    }
    PlacedPermuted(data[..], newBuffer[..], ds, p, targets);
  }

  /** One iteration of the relocation loop: element `i` of the snapshot goes to its target. */
  method PlaceNext(data: array<int>, newBuffer: array<int>, shape: Shape, s: Shape, p: seq<nat>, i: nat,
                   indices: array<nat>, permuted: array<nat>, ghost targets: seq<nat>)
    requires shape.rank <= MaxRank && Positive(Active(shape)) && IsPermutation(p, shape.rank)
    requires data.Length == Numel(shape) && Numel(shape) <= IntMax + 1 && i < data.Length
    requires s.rank == shape.rank && Active(s) == Gather(Active(shape), p)
    requires newBuffer.Length == data.Length && newBuffer != data
    requires indices.Length == MaxRank && permuted.Length == MaxRank && indices != permuted
    requires |targets| == data.Length && forall k :: 0 <= k < |targets| ==> targets[k] == Move(Active(shape), p, k)
    requires Placed(data[..], newBuffer[..], targets, i)
    modifies data, indices, permuted
    ensures Placed(data[..], newBuffer[..], targets, i + 1)
  {
    var newI := RelocatedIndex(shape, s, p, i, indices, permuted);
    MoveFresh(Active(shape), p, i);
    PlacedStep(data[..], newBuffer[..], targets, i);
    data[newI] := newBuffer[i];
  }

  /** Once every old index is placed at its relocated target, the buffer is the permuted one. */
  lemma PlacedPermuted(nb: seq<int>, ob: seq<int>, ds: seq<nat>, p: seq<nat>, targets: seq<nat>)
    requires Positive(ds) && IsPermutation(p, |ds|) && |nb| == |ob| == |targets|
    requires forall k :: 0 <= k < |targets| ==> targets[k] == Move(ds, p, k)
    requires Placed(nb, ob, targets, |ob|)
    ensures PermutedFrom(nb, ob, ds, p)
  {
  }

  /** The element at every old index k below `i` sits at its target index `targets[k]`. */
  ghost predicate Placed(nb: seq<int>, ob: seq<int>, targets: seq<nat>, i: nat)
    requires i <= |ob| && i <= |targets|
  {
    forall k :: 0 <= k < i ==> targets[k] < |nb| && nb[targets[k]] == ob[k]
  }

  /** Writing element `i` to a target no earlier element uses keeps every earlier element in place. */
  lemma PlacedStep(nb: seq<int>, ob: seq<int>, targets: seq<nat>, i: nat)
    requires i < |ob| && i < |targets| && targets[i] < |nb|
    requires forall k :: 0 <= k < i ==> targets[k] != targets[i]
    requires Placed(nb, ob, targets, i)
    ensures Placed(nb[targets[i] := ob[i]], ob, targets, i + 1)
  {
  }

  /**
   * One step of the relocation loop: unravel `i` in `shape`, gather the
   * coordinates through `p`, and linearise them in the permuted shape `s`.
   */
  method RelocatedIndex(shape: Shape, s: Shape, p: seq<nat>, i: nat, indices: array<nat>, permuted: array<nat>)
    returns (newI: nat)
    requires shape.rank <= MaxRank && Positive(Active(shape)) && IsPermutation(p, shape.rank)
    requires Numel(shape) <= IntMax + 1 && i < Numel(shape)
    requires s.rank == shape.rank && Active(s) == Gather(Active(shape), p)
    requires indices.Length == MaxRank && permuted.Length == MaxRank && indices != permuted
    modifies indices, permuted
    ensures newI == Move(Active(shape), p, i) && newI < Numel(shape)
  {
    ghost var ds := Active(shape);
    var rank := shape.rank;
    var _ := Unindex(shape, i, indices);
    ghost var c := Unravel(ds, i);
    var j := 0;
    while j < rank
      invariant 0 <= j <= rank
      invariant indices[..rank] == c
      invariant forall m :: 0 <= m < j ==> permuted[m] == c[p[m]]
    {
      permuted[j] := indices[p[j]];
      j := j + 1;
    }
    assert permuted[..rank] == Gather(c, p);
    UnravelInRange(ds, i);
    GatherInRange(ds, c, p);
    ProductGather(ds, p);
    IndexFitsInRange(Gather(ds, p), Gather(c, p));
    newI := IndexArray(s, permuted);
    MoveBound(ds, p, i);
  }
}
