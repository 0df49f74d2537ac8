/**
 * `bmm` of src/linalg.c, exactly as written: three guard checks, then four
 * nested loops that overwrite every cell (i, j, k) of C with an ascending
 * sum over l < A.dims[1] of A[l, j, i] * B[k, l, i].  The batch coordinate
 * `i` is the LAST coordinate of both reads, so the reads stay inside A and
 * B only for some shapes; the success contract therefore assumes that every
 * read's linear index falls inside its buffer (`BmmDefined`).
 */
module Linalg {
  import opened Shapes
  import opened Tensors

  /** The three guard checks of `bmm`: non-NULL operands, rank 3 each, A.dims[2] == B.dims[1]. */
  ghost predicate Guards(C: Tensor?, A: Tensor?, B: Tensor?)
    reads C, A, B
  {
    && C != null && A != null && B != null
    && C.shape.rank == 3 && A.shape.rank == 3 && B.shape.rank == 3
    && A.shape.dims[2] == B.shape.dims[1]
  }

  /** Coordinates of the A read for cell (i, j, ·) at step l: `tensor_index(A->shape, l, j, i)`. */
  function ACoords(i: nat, j: nat, l: nat): seq<nat>
  {
    [l, j, i]
  }

  /** Coordinates of the B read for cell (i, ·, k) at step l: `tensor_index(B->shape, k, l, i)`. */
  function BCoords(i: nat, k: nat, l: nat): seq<nat>
  {
    [k, l, i]
  }

  /**
   * Every read made for cell (i, j, k) in the steps l < n has a linear
   * index inside A's buffer and inside B's buffer.  A coordinate may exceed
   * its own extent as long as the linear index stays inside the buffer.
   */
  ghost predicate Readable(ads: seq<nat>, bds: seq<nat>, i: nat, j: nat, k: nat, n: nat)
  {
    && |ads| == 3 && |bds| == 3
    && forall l :: 0 <= l < n ==>
         RowMajor(ads, ACoords(i, j, l)) < Product(ads) && RowMajor(bds, BCoords(i, k, l)) < Product(bds)
  }

  /** The sum the contraction loop accumulates for cell (i, j, k), over l = 0, 1, ..., n - 1 in order. */
  ghost function Dot(a: seq<int>, ads: seq<nat>, b: seq<int>, bds: seq<nat>, i: nat, j: nat, k: nat, n: nat): int
    requires |a| == Product(ads) && |b| == Product(bds)
    requires Readable(ads, bds, i, j, k, n)
  {
    if n == 0 then 0
    else
      var l := n - 1;
      assert RowMajor(ads, ACoords(i, j, l)) < Product(ads) && RowMajor(bds, BCoords(i, k, l)) < Product(bds);
      Dot(a, ads, b, bds, i, j, k, l) + a[RowMajor(ads, ACoords(i, j, l))] * b[RowMajor(bds, BCoords(i, k, l))]
  }

  /**
   * What a successful `bmm` needs beyond its guards: all three buffers
   * present, C sharing no buffer with A or B, every linear index fitting in
   * an `int`, and the linear index of every read of the contraction loop
   * inside its buffer.
   */
  ghost predicate BmmDefined(C: Tensor, A: Tensor, B: Tensor)
    reads C, A, B
    requires C.Valid() && A.Valid() && B.Valid() && Guards(C, A, B)
  {
    && C.data != null && A.data != null && B.data != null
    && C.data != A.data && C.data != B.data
    && C.size <= IntMax + 1 && A.size <= IntMax + 1 && B.size <= IntMax + 1
    && forall i, j, k :: i < C.shape.dims[0] && j < C.shape.dims[1] && k < C.shape.dims[2] ==>
         Readable(Active(A.shape), Active(B.shape), i, j, k, A.shape.dims[1])
  }

  /** Every cell (i, j, k) of `c` holds the contraction sum for (i, j, k). */
  ghost predicate Contracted(c: seq<int>, cds: seq<nat>, a: seq<int>, ads: seq<nat>, b: seq<int>, bds: seq<nat>, n: nat)
    requires |cds| == 3 && |c| == Product(cds) && |a| == Product(ads) && |b| == Product(bds)
    requires forall i, j, k :: i < cds[0] && j < cds[1] && k < cds[2] ==> Readable(ads, bds, i, j, k, n)
  {
    forall i, j, k :: i < cds[0] && j < cds[1] && k < cds[2] ==>
      RowMajor(cds, [i, j, k]) < |c| && c[RowMajor(cds, [i, j, k])] == Dot(a, ads, b, bds, i, j, k, n)
  }

  /**
   * `bmm`.  Returns 0 and writes nothing when a guard fails; otherwise
   * returns 1, every cell of C holds its contraction sum, and A and B are
   * unchanged.
   */
  method Bmm(C: Tensor?, A: Tensor?, B: Tensor?) returns (r: int)
    requires C != null ==> C.Valid()
    requires A != null ==> A.Valid()
    requires B != null ==> B.Valid()
    requires Guards(C, A, B) ==> BmmDefined(C, A, B)
    modifies Buf(C)
    ensures r == (if Guards(C, A, B) then 1 else 0)
    ensures r == 0 ==> unchanged(Buf(C))
    ensures r == 1 ==> A.data[..] == old(A.data[..]) && B.data[..] == old(B.data[..])
    ensures r == 1 ==>
              Contracted(C.data[..], Active(C.shape), A.data[..], Active(A.shape), B.data[..], Active(B.shape), A.shape.dims[1])
  {
    if C == null || A == null || B == null {
      return 0;
    }
    if C.shape.rank != 3 || A.shape.rank != 3 || B.shape.rank != 3 {
      return 0;
    }
    if A.shape.dims[2] != B.shape.dims[1] {
      return 0;
    }
    FillAll(C, A, B);
    Product3(Active(C.shape));
    FilledContracted(C.data[..], Active(C.shape), A.data[..], Active(A.shape), B.data[..], Active(B.shape),
                     A.shape.dims[1]);
    return 1;
  }

  /** The guards hold and so does everything a successful `bmm` needs. */
  ghost predicate Ready(C: Tensor, A: Tensor, B: Tensor)
    reads C, A, B
  {
    C.Valid() && A.Valid() && B.Valid() && Guards(C, A, B) && BmmDefined(C, A, B)
  }

  /** The cells of C below linear index `pos` hold their final values. */
  ghost predicate Done(C: Tensor, A: Tensor, B: Tensor, pos: nat)
    reads C, A, B, C.data, A.data, B.data
    requires Ready(C, A, B)
  {
    Filled(C.data[..], Active(C.shape), A.data[..], Active(A.shape), B.data[..], Active(B.shape), A.shape.dims[1], pos)
  }

  /** The loops over i and j of `bmm`: fills every cell of C. */
  method FillAll(C: Tensor, A: Tensor, B: Tensor)
    requires Ready(C, A, B)
    modifies C.data
    ensures Done(C, A, B, C.size)
  {
    ghost var cds := Active(C.shape);
    var i := 0;
    while i < C.shape.dims[0]
      invariant 0 <= i <= cds[0]
      invariant Done(C, A, B, i * cds[1] * cds[2])
    {
      var j := 0;
      while j < C.shape.dims[1]
        invariant 0 <= j <= cds[1]
        invariant Done(C, A, B, (i * cds[1] + j) * cds[2])
      {
        FillRow(C, A, B, i, j);
        NextRow(i * cds[1] + j, cds[2]);
        j := j + 1;
      }
      NextRow(i, cds[1]);
      i := i + 1;
    }
    Product3(cds);
  }

  /** The loop over k of `bmm`: fills the cells (i, j, 0), ..., (i, j, C.dims[2] - 1). */
  method FillRow(C: Tensor, A: Tensor, B: Tensor, i: nat, j: nat)
    requires Ready(C, A, B) && i < C.shape.dims[0] && j < C.shape.dims[1]
    requires Done(C, A, B, (i * C.shape.dims[1] + j) * C.shape.dims[2])
    modifies C.data
    ensures Done(C, A, B, (i * C.shape.dims[1] + j) * C.shape.dims[2] + C.shape.dims[2])
  {
    ghost var cds, ads, bds := Active(C.shape), Active(A.shape), Active(B.shape);
    ghost var a, b := A.data[..], B.data[..];
    ghost var base := (i * cds[1] + j) * cds[2];
    var n := A.shape.dims[1];
    var k := 0;
    while k < C.shape.dims[2]
      invariant 0 <= k <= cds[2]
      invariant A.data[..] == a && B.data[..] == b
      invariant Done(C, A, B, base + k)
    {
      var cIndex := CellIndex(C.shape, i, j, k);
      assert cIndex == base + k;
      var sum := Contract(A, B, i, j, k);
      FilledStep(C.data[..], cds, a, ads, b, bds, n, i, j, k, sum);
      C.data[cIndex] := sum;
      k := k + 1;
    }
  }

  /** `tensor_index(C->shape, i, j, k)` for an in-range cell of a rank-3 shape. */
  method CellIndex(shape: Shape, i: nat, j: nat, k: nat) returns (cIndex: nat)
    requires shape.rank == 3 && Numel(shape) <= IntMax + 1
    requires i < shape.dims[0] && j < shape.dims[1] && k < shape.dims[2]
    ensures cIndex == RowMajor(Active(shape), [i, j, k]) == (i * shape.dims[1] + j) * shape.dims[2] + k
    ensures cIndex < Numel(shape)
  {
    ghost var ds := Active(shape);
    assert InRange(ds, [i, j, k]);
    IndexFitsInRange(ds, [i, j, k]);
    RowMajorBound(ds, [i, j, k]);
    RowMajor3(ds, i, j, k);
    cIndex := TensorIndex(shape, [i, j, k]);
  }

  /** The contraction loop of `bmm` for cell (i, j, k): an ascending sum over l < A.dims[1]. */
  method Contract(A: Tensor, B: Tensor, i: nat, j: nat, k: nat) returns (sum: int)
    requires A.Valid() && B.Valid() && A.shape.rank == 3 && B.shape.rank == 3
    requires A.data != null && B.data != null && A.size <= IntMax + 1 && B.size <= IntMax + 1
    requires Readable(Active(A.shape), Active(B.shape), i, j, k, A.shape.dims[1])
    ensures sum == Dot(A.data[..], Active(A.shape), B.data[..], Active(B.shape), i, j, k, A.shape.dims[1])
  {
    ghost var ads, bds := Active(A.shape), Active(B.shape);
    sum := 0;
    var l := 0;
    while l < A.shape.dims[1]
      invariant 0 <= l <= A.shape.dims[1]
      invariant Readable(ads, bds, i, j, k, l)
      invariant sum == Dot(A.data[..], ads, B.data[..], bds, i, j, k, l)
    {
      assert RowMajor(ads, ACoords(i, j, l)) < Product(ads) && RowMajor(bds, BCoords(i, k, l)) < Product(bds);
      IndexFitsWhenPositive(ads, ACoords(i, j, l));
      IndexFitsWhenPositive(bds, BCoords(i, k, l));
      var aIndex := TensorIndex(A.shape, ACoords(i, j, l));
      var bIndex := TensorIndex(B.shape, BCoords(i, k, l));
      sum := sum + A.data[aIndex] * B.data[bIndex];
      l := l + 1;
    }
  }

  // ---------------------------------------------------------------------
  // Proof of the loop nest: cells are written in row-major order

  /** The value cell `m` of C holds after `bmm`. */
  ghost function CellValue(cds: seq<nat>, a: seq<int>, ads: seq<nat>, b: seq<int>, bds: seq<nat>, n: nat, m: nat): int
    requires |cds| == 3 && Positive(cds) && m < Product(cds) && |a| == Product(ads) && |b| == Product(bds)
    requires forall i, j, k :: i < cds[0] && j < cds[1] && k < cds[2] ==> Readable(ads, bds, i, j, k, n)
  {
    var c := Unravel(cds, m);
    UnravelInRange(cds, m);
    Dot(a, ads, b, bds, c[0], c[1], c[2], n)
  }

  /** The cells below `pos` already hold their final values. */
  ghost predicate Filled(c: seq<int>, cds: seq<nat>, a: seq<int>, ads: seq<nat>, b: seq<int>, bds: seq<nat>, n: nat, pos: nat)
    requires |cds| == 3 && Positive(cds) && |c| == Product(cds) && |a| == Product(ads) && |b| == Product(bds)
    requires forall i, j, k :: i < cds[0] && j < cds[1] && k < cds[2] ==> Readable(ads, bds, i, j, k, n)
  {
    pos <= |c| && forall m :: 0 <= m < pos ==> c[m] == CellValue(cds, a, ads, b, bds, n, m)
  }

  lemma RowMajor3(ds: seq<nat>, i: nat, j: nat, k: nat)
    requires |ds| == 3
    ensures RowMajor(ds, [i, j, k]) == (i * ds[1] + j) * ds[2] + k
  {
    var d1, d2 := ds[..1], ds[..2];
    assert d2[..1] == d1 && d1[..0] == [];
    assert [i, j, k][..2] == [i, j] && [i, j][..1] == [i] && [i][..0] == [];
    assert RowMajor(d1, [i]) == i;
    assert RowMajor(d2, [i, j]) == i * ds[1] + j;
  }

  lemma Product3(ds: seq<nat>)
    requires |ds| == 3
    ensures Product(ds) == ds[0] * ds[1] * ds[2]
  {
    var d1, d2 := ds[..1], ds[..2];
    assert d2[..1] == d1 && d1[..0] == [];
    assert Product(d1) == ds[0];
    assert Product(d2) == ds[0] * ds[1];
  }

  lemma NextRow(x: nat, d: nat)
    ensures x * d + d == (x + 1) * d
  {
  }

  /** Writing the value of the next cell in row-major order extends the filled prefix by one. */
  lemma FilledStep(c: seq<int>, cds: seq<nat>, a: seq<int>, ads: seq<nat>, b: seq<int>, bds: seq<nat>, n: nat,
                   i: nat, j: nat, k: nat, v: int)
    requires |cds| == 3 && Positive(cds) && |c| == Product(cds) && |a| == Product(ads) && |b| == Product(bds)
    requires i < cds[0] && j < cds[1] && k < cds[2]
    requires forall i, j, k :: i < cds[0] && j < cds[1] && k < cds[2] ==> Readable(ads, bds, i, j, k, n)
    requires Filled(c, cds, a, ads, b, bds, n, RowMajor(cds, [i, j, k]))
    requires v == Dot(a, ads, b, bds, i, j, k, n)
    ensures RowMajor(cds, [i, j, k]) < |c|
    ensures Filled(c[RowMajor(cds, [i, j, k]) := v], cds, a, ads, b, bds, n, RowMajor(cds, [i, j, k]) + 1)
  {
    CellValueAt(cds, a, ads, b, bds, n, i, j, k);
  }

  /** Cell (i, j, k) is the cell whose linear index is RowMajor(cds, [i, j, k]). */
  lemma CellValueAt(cds: seq<nat>, a: seq<int>, ads: seq<nat>, b: seq<int>, bds: seq<nat>, n: nat, i: nat, j: nat, k: nat)
    requires |cds| == 3 && |a| == Product(ads) && |b| == Product(bds)
    requires i < cds[0] && j < cds[1] && k < cds[2]
    requires forall i, j, k :: i < cds[0] && j < cds[1] && k < cds[2] ==> Readable(ads, bds, i, j, k, n)
    ensures Positive(cds) && RowMajor(cds, [i, j, k]) < Product(cds)
    ensures CellValue(cds, a, ads, b, bds, n, RowMajor(cds, [i, j, k])) == Dot(a, ads, b, bds, i, j, k, n)
  {
    assert InRange(cds, [i, j, k]);
    RowMajorBound(cds, [i, j, k]);
    UnravelRowMajor(cds, [i, j, k]);
  }

  /** Once every cell is filled, every cell (i, j, k) holds its contraction sum. */
  lemma FilledContracted(c: seq<int>, cds: seq<nat>, a: seq<int>, ads: seq<nat>, b: seq<int>, bds: seq<nat>, n: nat)
    requires |cds| == 3 && Positive(cds) && |c| == Product(cds) && |a| == Product(ads) && |b| == Product(bds)
    requires forall i, j, k :: i < cds[0] && j < cds[1] && k < cds[2] ==> Readable(ads, bds, i, j, k, n)
    requires Filled(c, cds, a, ads, b, bds, n, |c|)
    ensures Contracted(c, cds, a, ads, b, bds, n)
  {
    forall i, j, k | i < cds[0] && j < cds[1] && k < cds[2]
      ensures RowMajor(cds, [i, j, k]) < |c| && c[RowMajor(cds, [i, j, k])] == Dot(a, ads, b, bds, i, j, k, n)
    {
      CellValueAt(cds, a, ads, b, bds, n, i, j, k);
    }
  }

  // ---------------------------------------------------------------------
  // Coverage and the in-range precondition

  /** The loop nest over C's extents visits every linear index of C ... */
  lemma CellsCovered(cds: seq<nat>, m: nat)
    requires |cds| == 3 && Positive(cds) && m < Product(cds)
    ensures exists i, j, k :: i < cds[0] && j < cds[1] && k < cds[2] && RowMajor(cds, [i, j, k]) == m
  {
    var c := Unravel(cds, m);
    UnravelInRange(cds, m);
    RowMajorUnravel(cds, m);
    assert c == [c[0], c[1], c[2]];
  }

  /** ... and never the same one twice. */
  lemma CellsDistinct(cds: seq<nat>, i1: nat, j1: nat, k1: nat, i2: nat, j2: nat, k2: nat)
    requires |cds| == 3
    requires i1 < cds[0] && j1 < cds[1] && k1 < cds[2] && i2 < cds[0] && j2 < cds[1] && k2 < cds[2]
    requires RowMajor(cds, [i1, j1, k1]) == RowMajor(cds, [i2, j2, k2])
    ensures i1 == i2 && j1 == j2 && k1 == k2
  {
    RowMajorInjective(cds, [i1, j1, k1], [i2, j2, k2]);
  }

  /**
   * The readability precondition is not implied by the guards: for a batch of
   * one 2 x 2 matrix (A and B of shape [1, 2, 2], C of shape [1, 2, 2])
   * every guard passes, yet step l = 1 of cell (0, 0, 0) reads A at linear
   * index 4, one past the last element.
   */
  lemma SquareBatchReadsPastA()
    ensures RowMajor([1, 2, 2], ACoords(0, 0, 1)) == 4 == Product([1, 2, 2])
    ensures !Readable([1, 2, 2], [1, 2, 2], 0, 0, 0, 2)
  {
    RowMajor3([1, 2, 2], 1, 0, 0);
    Product3([1, 2, 2]);
  }

  /**
   * Reads may leave a coordinate's own extent and still stay inside the
   * buffer: for a batch of two 1 x 1 matrices (A, B and C of shape
   * [2, 1, 1]) cell (1, 0, 0) reads A at coordinates [0, 0, 1], whose last
   * coordinate exceeds its extent 1, yet its linear index 1 lies inside
   * the two-element buffer, and so do all the other reads.
   */
  lemma ScalarBatchesReadable()
    ensures !InRange([2, 1, 1], ACoords(1, 0, 0))
    ensures RowMajor([2, 1, 1], ACoords(1, 0, 0)) == 1 < Product([2, 1, 1])
    ensures forall i, j, k :: i < 2 && j < 1 && k < 1 ==> Readable([2, 1, 1], [2, 1, 1], i, j, k, 1)
  {
    Product3([2, 1, 1]);
    RowMajor3([2, 1, 1], 0, 0, 0);
    RowMajor3([2, 1, 1], 0, 0, 1);
  }
}
