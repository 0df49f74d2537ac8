/**
 * Shapes and the row-major index algebra of the tensor engine (src/tensor.c).
 *
 * A shape is a fixed block of MaxRank extents plus a rank; only the first
 * `rank` extents are meaningful.  A coordinate vector is linearised in
 * row-major order (axis 0 varies slowest) and recovered by repeated
 * division and remainder from the innermost axis outward.
 */
module Shapes {

  /** Largest rank a shape may have. */
  const MaxRank: nat := 8

  /** Largest value of a C `int`, the type in which linear indices are accumulated. */
  const IntMax: nat := 0x7FFF_FFFF

  /** 2^64: `size_t` arithmetic, in which `numel` multiplies, wraps modulo this. */
  const SizeMod: nat := 0x1_0000_0000_0000_0000

  /** The fixed-size array of extents every shape carries. */
  type Extents = d: seq<nat> | |d| == MaxRank witness [0, 0, 0, 0, 0, 0, 0, 0]

  datatype Shape = Shape(dims: Extents, rank: nat)

  /** The extents in use: the first `rank` entries. */
  function Active(s: Shape): (ds: seq<nat>)
    requires s.rank <= MaxRank
    ensures |ds| == s.rank
  {
    s.dims[..s.rank]
  }

  /** Product of a sequence of extents (1 for the empty sequence). */
  function Product(ds: seq<nat>): nat
  {
    if |ds| == 0 then 1 else Product(ds[..|ds| - 1]) * ds[|ds| - 1]
  }

  /** Number of elements a shape describes. */
  function Numel(s: Shape): nat
    requires s.rank <= MaxRank
  {
    Product(Active(s))
  }

  ghost predicate Positive(ds: seq<nat>)
  {
    forall k :: 0 <= k < |ds| ==> ds[k] > 0
  }

  /** Every coordinate lies below its extent. */
  ghost predicate InRange(ds: seq<nat>, c: seq<nat>)
  {
    |c| == |ds| && forall k :: 0 <= k < |c| ==> c[k] < ds[k]
  }

  /** Row-major linear index: `out = out * ds[k] + c[k]` for k from 0 up. */
  function RowMajor(ds: seq<nat>, c: seq<nat>): nat
    requires |c| == |ds|
  {
    if |ds| == 0 then 0
    else RowMajor(ds[..|ds| - 1], c[..|c| - 1]) * ds[|ds| - 1] + c[|c| - 1]
  }

  /** Coordinates of a linear index: remainder and quotient from the innermost axis outward. */
  function Unravel(ds: seq<nat>, x: nat): (c: seq<nat>)
    requires Positive(ds)
    ensures |c| == |ds|
  {
    if |ds| == 0 then []
    else
      var n := |ds| - 1;
      Unravel(ds[..n], x / ds[n]) + [x % ds[n]]
  }

  /**
   * No intermediate value of the `int` accumulator of the row-major loop
   * exceeds INT_MAX: every prefix of the computation fits.
   */
  ghost predicate IndexFits(ds: seq<nat>, c: seq<nat>)
  {
    |c| == |ds| && forall k :: 0 <= k <= |ds| ==> RowMajor(ds[..k], c[..k]) <= IntMax
  }

  // ---------------------------------------------------------------------
  // Arithmetic helpers

  lemma MulMonotone(a: nat, b: nat, d: nat)
    requires a <= b
    ensures a * d <= b * d
  {
  }

  /** Quotient and remainder of `q * d + r` for `r < d`. */
  lemma DivModOfMulAdd(q: nat, r: nat, d: nat)
    requires r < d
    ensures (q * d + r) / d == q && (q * d + r) % d == r
  {
    var z := q * d + r;
    var q', r' := z / d, z % d;
    assert z == q' * d + r';
    if q' > q {
      MulMonotone(q + 1, q', d);
      assert false;
    } else if q' < q {
      MulMonotone(q' + 1, q, d);
      assert false;
    }
  }

  /** Dividing something below `p * d` by `d` leaves something below `p`. */
  lemma DivBelow(x: nat, d: nat, p: nat)
    requires d > 0 && x < p * d
    ensures x / d < p
  {
    if x / d >= p {
      MulMonotone(p, x / d, d);
      assert false;
    }
  }

  // ---------------------------------------------------------------------
  // Products

  /** A product of extents is non-zero exactly when every extent is. */
  lemma {:induction false} ProductPositive(ds: seq<nat>)
    ensures Product(ds) > 0 <==> Positive(ds)
  {
    if |ds| > 0 {
      var n := |ds| - 1;
      ProductPositive(ds[..n]);
      assert Positive(ds) <==> Positive(ds[..n]) && ds[n] > 0;
    }
  }

  lemma {:induction false} ProductAppend(u: seq<nat>, v: seq<nat>)
    ensures Product(u + v) == Product(u) * Product(v)
  {
    if |v| > 0 {
      var n := |v| - 1;
      assert (u + v)[..|u + v| - 1] == u + v[..n];
      ProductAppend(u, v[..n]);
    } else {
      assert u + v == u;
    }
  }

  // ---------------------------------------------------------------------
  // Row-major index algebra

  /** In-range coordinates linearise to an index below the element count. */
  lemma {:induction false} RowMajorBound(ds: seq<nat>, c: seq<nat>)
    requires InRange(ds, c)
    ensures RowMajor(ds, c) < Product(ds)
  {
    if |ds| > 0 {
      var n := |ds| - 1;
      RowMajorBound(ds[..n], c[..n]);
      MulMonotone(RowMajor(ds[..n], c[..n]) + 1, Product(ds[..n]), ds[n]);
    }
  }

  /** Unravelling any index gives coordinates below their extents (the outermost one is reduced too). */
  lemma {:induction false} UnravelInRange(ds: seq<nat>, x: nat)
    requires Positive(ds)
    ensures InRange(ds, Unravel(ds, x))
  {
    if |ds| > 0 {
      var n := |ds| - 1;
      UnravelInRange(ds[..n], x / ds[n]);
    }
  }

  /** Unravelling an index below the element count and linearising again gives it back. */
  lemma {:induction false} RowMajorUnravel(ds: seq<nat>, x: nat)
    requires Positive(ds) && x < Product(ds)
    ensures RowMajor(ds, Unravel(ds, x)) == x
  {
    if |ds| > 0 {
      var n := |ds| - 1;
      var c := Unravel(ds, x);
      assert c[..n] == Unravel(ds[..n], x / ds[n]);
      DivBelow(x, ds[n], Product(ds[..n]));
      RowMajorUnravel(ds[..n], x / ds[n]);
    }
  }

  /** Linearising in-range coordinates and unravelling gives the coordinates back. */
  lemma {:induction false} UnravelRowMajor(ds: seq<nat>, c: seq<nat>)
    requires InRange(ds, c)
    ensures Positive(ds) && Unravel(ds, RowMajor(ds, c)) == c
  {
    if |ds| > 0 {
      var n := |ds| - 1;
      UnravelRowMajor(ds[..n], c[..n]);
      var q := RowMajor(ds[..n], c[..n]);
      DivModOfMulAdd(q, c[n], ds[n]);
      assert c == c[..n] + [c[n]];
    }
  }

  /** Both facts above, for coordinates that may or may not be in range. */
  lemma RowMajorInverse(ds: seq<nat>, c: seq<nat>)
    requires |c| == |ds|
    ensures InRange(ds, c) ==>
              Positive(ds) && RowMajor(ds, c) < Product(ds) && Unravel(ds, RowMajor(ds, c)) == c
  {
    if InRange(ds, c) {
      RowMajorBound(ds, c);
      UnravelRowMajor(ds, c);
    }
  }

  /** Distinct in-range coordinate vectors have distinct linear indices. */
  lemma RowMajorInjective(ds: seq<nat>, c1: seq<nat>, c2: seq<nat>)
    requires InRange(ds, c1) && InRange(ds, c2)
    requires RowMajor(ds, c1) == RowMajor(ds, c2)
    ensures c1 == c2
  {
    UnravelRowMajor(ds, c1);
    UnravelRowMajor(ds, c2);
  }

  /** With positive extents the accumulator only grows, so each prefix is at most the final index. */
  lemma {:induction false} RowMajorPrefix(ds: seq<nat>, c: seq<nat>, k: nat)
    requires Positive(ds) && |c| == |ds| && k <= |ds|
    ensures RowMajor(ds[..k], c[..k]) <= RowMajor(ds, c)
  {
    if k < |ds| {
      var n := |ds| - 1;
      assert ds[..n][..k] == ds[..k] && c[..n][..k] == c[..k];
      RowMajorPrefix(ds[..n], c[..n], k);
      MulMonotone(1, ds[n], RowMajor(ds[..n], c[..n]));
    } else {
      assert ds[..k] == ds && c[..k] == c;
    }
  }

  /** With positive extents, the accumulator fits in an `int` as soon as the final index does. */
  lemma IndexFitsWhenPositive(ds: seq<nat>, c: seq<nat>)
    requires Positive(ds) && |c| == |ds| && RowMajor(ds, c) <= IntMax
    ensures IndexFits(ds, c)
  {
    forall k | 0 <= k <= |ds|
      ensures RowMajor(ds[..k], c[..k]) <= IntMax
    {
      RowMajorPrefix(ds, c, k);
    }
  }

  /** In-range coordinates of a shape of at most 2^31 elements never overflow the accumulator. */
  lemma IndexFitsInRange(ds: seq<nat>, c: seq<nat>)
    requires InRange(ds, c) && Product(ds) <= IntMax + 1
    ensures IndexFits(ds, c)
  {
    RowMajorBound(ds, c);
    IndexFitsWhenPositive(ds, c);
  }

  // ---------------------------------------------------------------------
  // Operations of src/tensor.c on shapes

  /**
   * `numel`: the product of the active extents, by an accumulating loop in
   * `size_t`, so the result is the true element count modulo 2^64.
   */
  method ComputeNumel(shape: Shape) returns (p: nat)
    requires shape.rank <= MaxRank
    ensures p == Numel(shape) % SizeMod
    ensures Numel(shape) < SizeMod ==> p == Numel(shape)
  {
    p := 1;
    var i := 0;
    while i < shape.rank
      invariant 0 <= i <= shape.rank
      invariant p == Product(shape.dims[..i]) % SizeMod
    {
      assert shape.dims[..i + 1][..i] == shape.dims[..i];
      MulMod(Product(shape.dims[..i]), shape.dims[i], SizeMod);
      p := p * shape.dims[i] % SizeMod;
      i := i + 1;
    }
    assert shape.dims[..shape.rank] == Active(shape);
  }

  /** Reducing a factor modulo `m` first does not change the product modulo `m`. */
  lemma MulMod(a: nat, b: nat, m: nat)
    requires m > 0
    ensures (a % m) * b % m == a * b % m
  {
    var q, r := a / m, a % m;
    DivModParts(a, m);
    var q2, r2 := (r * b) / m, (r * b) % m;
    DivModParts(r * b, m);
    MulSplit(q, m, r, b);
    Distribute(q * b, q2, m);
    DivModOfMulAdd(q * b + q2, r2, m);
  }

  lemma DivModParts(a: nat, m: nat)
    requires m > 0
    ensures a == a / m * m + a % m && a % m < m
  {
  }

  lemma MulSplit(q: nat, m: nat, r: nat, b: nat)
    ensures (q * m + r) * b == q * b * m + r * b
  {
  }

  lemma Distribute(x: nat, y: nat, z: nat)
    ensures (x + y) * z == x * z + y * z
  {
  }

  /** `numel` of a 2^32-by-2^32 shape wraps to 0: the true count is exactly 2^64. */
  lemma NumelWrapsToZero()
    ensures Numel(Shape2(0x1_0000_0000, 0x1_0000_0000)) == SizeMod
    ensures Numel(Shape2(0x1_0000_0000, 0x1_0000_0000)) % SizeMod == 0
  {
    var s := Shape2(0x1_0000_0000, 0x1_0000_0000);
    assert Active(s) == [0x1_0000_0000, 0x1_0000_0000];
    assert Product([0x1_0000_0000, 0x1_0000_0000]) == 0x1_0000_0000 * Product([0x1_0000_0000]);
  }

  /**
   * `tensor_index`: the row-major index of the `rank` variadic arguments.
   * In-range arguments give an index below the element count, and
   * unravelling that index gives the arguments back.
   */
  function TensorIndex(shape: Shape, args: seq<nat>): (r: nat)
    requires shape.rank <= MaxRank && |args| == shape.rank
    requires IndexFits(Active(shape), args)
    ensures r <= IntMax
    ensures InRange(Active(shape), args) ==>
              r < Numel(shape) && Unravel(Active(shape), r) == args
  {
    var ds := Active(shape);
    assert ds[..|ds|] == ds && args[..|args|] == args;
    RowMajorInverse(ds, args);
    RowMajor(ds, args)
  }

  /** `tensor_index_array`: the same row-major index, accumulated in a loop over an array. */
  method IndexArray(shape: Shape, indices: array<nat>) returns (out: nat)
    requires shape.rank <= MaxRank && shape.rank <= indices.Length
    requires IndexFits(Active(shape), indices[..shape.rank])
    ensures out == TensorIndex(shape, indices[..shape.rank])
  {
    ghost var ds, c := Active(shape), indices[..shape.rank];
    out := 0;
    var i := 0;
    while i < shape.rank
      invariant 0 <= i <= shape.rank
      invariant out == RowMajor(ds[..i], c[..i])
      invariant out <= IntMax
    {
      assert ds[..i + 1][..i] == ds[..i] && c[..i + 1][..i] == c[..i];
      out := out * shape.dims[i] + indices[i];
      i := i + 1;
    }
    assert ds[..i] == ds && c[..i] == c;
  }

  /**
   * `tensor_unindex`: writes the coordinates of `ix` into the first `rank`
   * cells of `ixs`, innermost axis first; always returns 0.
   */
  method Unindex(shape: Shape, ix: nat, ixs: array<nat>) returns (r: int)
    requires shape.rank <= MaxRank && shape.rank <= ixs.Length
    requires Positive(Active(shape))
    modifies ixs
    ensures r == 0
    ensures ixs[..shape.rank] == Unravel(Active(shape), ix)
    ensures forall k :: shape.rank <= k < ixs.Length ==> ixs[k] == old(ixs[k])
  {
    var rank := shape.rank;
    ghost var ds := Active(shape);
    ghost var coords := Unravel(ds, ix);
    var x := ix;
    var i := 0;
    assert ds[..rank] == ds;
    while i < rank
      invariant 0 <= i <= rank
      invariant coords[..rank - i] == Unravel(ds[..rank - i], x)
      invariant forall k :: rank - i <= k < rank ==> ixs[k] == coords[k]
      invariant forall k :: rank <= k < ixs.Length ==> ixs[k] == old(ixs[k])
    {
      var ri := rank - i - 1;
      var d := shape.dims[ri];
      assert d == ds[ri];
      UnravelStep(ds, coords, ri, x);
      ixs[ri] := x % d;
      x := x / d;
      i := i + 1;
    }
    assert ixs[..rank] == coords;
    r := 0;
  }

  /** One step of the unravelling loop: peel the innermost of the first `m + 1` axes. */
  lemma UnravelStep(ds: seq<nat>, coords: seq<nat>, m: nat, x: nat)
    requires Positive(ds) && m < |ds| && m < |coords|
    requires coords[..m + 1] == Unravel(ds[..m + 1], x)
    ensures coords[..m] == Unravel(ds[..m], x / ds[m])
    ensures coords[m] == x % ds[m]
  {
    assert ds[..m + 1][..m] == ds[..m];
    assert coords[..m + 1][..m] == coords[..m];
  }

  /** `shape1`: a rank-1 shape of `d0` elements. */
  function Shape1(d0: nat): (s: Shape)
    ensures s.rank == 1 && Active(s) == [d0]
    ensures Numel(s) == d0
  {
    var s := Shape([d0, 0, 0, 0, 0, 0, 0, 0], 1);
    assert Active(s) == [d0] && [d0][..0] == [];
    assert Numel(s) == Product([d0]) == d0;
    s
  }

  /** `shape2`: a rank-2 shape of `d0 * d1` elements. */
  function Shape2(d0: nat, d1: nat): (s: Shape)
    ensures s.rank == 2 && Active(s) == [d0, d1]
    ensures Numel(s) == d0 * d1
  {
    var s := Shape([d0, d1, 0, 0, 0, 0, 0, 0], 2);
    assert Active(s) == [d0, d1] && [d0, d1][..1] == [d0] && [d0][..0] == [];
    assert Product([d0]) == d0;
    s
  }

  /** `shape3`: a rank-3 shape of `d0 * d1 * d2` elements. */
  function Shape3(d0: nat, d1: nat, d2: nat): (s: Shape)
    ensures s.rank == 3 && Active(s) == [d0, d1, d2]
    ensures Numel(s) == d0 * d1 * d2
  {
    var s := Shape([d0, d1, d2, 0, 0, 0, 0, 0], 3);
    assert Active(s) == [d0, d1, d2] && [d0, d1, d2][..2] == [d0, d1];
    assert [d0, d1][..1] == [d0] && [d0][..0] == [];
    assert Product([d0]) == d0;
    assert Product([d0, d1]) == d0 * d1;
    s
  }
}
