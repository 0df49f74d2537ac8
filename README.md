# Tensor engine core, modelled in Dafny

This project models the core of a small C tensor engine written for
training a classifier on Fashion-MNIST: the tensor type and its operations
(`src/tensor.c`), batched matrix multiplication (`src/linalg.c`) and the
integer core of its xorshift64* random number generator (`src/rng.c`).

- `shapes.dfy` (module `Shapes`): a shape is eight extents plus a rank.
  It defines the element count (`numel`) and row-major linearisation
  (`tensor_index`, `tensor_index_array`) with its inverse (`tensor_unindex`).
  Linearisation is proved bounded, injective and inverted by unravelling,
  in both directions. Linear indices are accumulated in a C `int`, so the
  model carries an explicit no-overflow predicate, `IndexFits`. `numel`
  multiplies in `size_t`, so the model's `ComputeNumel` returns the element
  count modulo 2^64; `NumelWrapsToZero` shows a 2^32 x 2^32 shape counting 0.
- `permutations.dfy` (module `Permutations`): axis permutations and the
  relocation `Move` that `permute` applies to every linear index. It
  proves that the relocation maps the buffer one-to-one onto itself, that
  the extent product is unchanged, that the new buffer is a rearrangement
  of the old one, and that permuting by `p` and then by its inverse
  restores both the extents and the contents.
- `tensor.dfy` (module `Tensors`): `Tensor` is a class with a nullable
  buffer (`array?<int>`), a shape and a cached size, kept consistent by
  `Valid()`. Every C function that checks its `Tensor *` for NULL takes a
  `Tensor?`, so each NULL check appears as written; `tensor_arange`, which
  has no such check, takes a `Tensor`. The module covers allocation and
  release, the queries, the element-wise operations behind the
  `assert_tensors` guard, `reshape` and `permute`. The `permute` model keeps
  the scratch copy and the unindex / permute / re-index loop of the source.
- `linalg.dfy` (module `Linalg`): `bmm` exactly as written. The loops
  read A at `tensor_index(A, l, j, i)` and B at `tensor_index(B, k, l, i)`,
  with the batch coordinate last in both reads, and sum over
  `l < A.dims[1]`. This is not the textbook batched product, and the guards
  do not keep these reads inside A and B (`SquareBatchReadsPastA` gives a
  concrete case). The success contract therefore assumes that the linear
  index of every read falls inside its buffer. A coordinate may exceed its
  own extent as long as it does, as for batches of 1 x 1 matrices
  (`ScalarBatchesReadable`). Under that assumption it proves that every
  cell of C is written exactly once, with its ascending contraction sum.
- `rng.dfy` (module `Rng`): the generator state is a `bv64` field of
  class `Generator`, so all arithmetic wraps modulo 2^64 as `uint64_t` does.
  The module covers the zero-seed fix-up, the shift/xor update, which keeps
  a nonzero state nonzero, the output multiplier, and `rng_uniform`'s
  top-24-bit extraction.

Buffer elements are `int`: the model tracks which positions are read and
written, not IEEE-754 rounding. `malloc`'s outcome in `tensor_alloc` and
`tensor_clone` is the boolean parameter `mallocSucceeds`.

`src/main.c:31-52` calls `shapeN`, `tensor_init(..., DTYPE_FLOAT32)`,
`tensor_arange_float`, `print_tensor` and `tensor_expand`, which suggest a
dtype tag and broadcast expansion. None of them is defined in
`src/tensor.c`, `src/linalg.c` or `src/rng.c`, so they are not part of this
model, which follows the code of those three files. `src/tensor.h` names the rank field `ndims` and
its bound `MAX_DIMS`, while `src/tensor.c` uses `rank` and `MAX_RANK`. The
model treats them as one field bounded by 8.

## Model

| member | source | states |
|---|---|---|
| `Shapes.ProductPositive` | src/tensor.c:9-14 | the element count is positive exactly when every active extent is positive |
| `Shapes.ComputeNumel` | src/tensor.c:9-14 | the `size_t` loop of `numel` returns the product of the first `rank` extents modulo 2^64, which is the exact product when that is below 2^64 |
| `Shapes.MulMod` | src/tensor.c:11-12 | reducing the running product modulo 2^64 before each multiplication does not change the final result modulo 2^64 |
| `Shapes.NumelWrapsToZero` | src/tensor.c:9-14 | a shape of 2^32 x 2^32 has exactly 2^64 elements, so `numel` returns 0 for it |
| `Shapes.RowMajorBound` | src/tensor.c:180-187 | coordinates each below their extent linearise to an index below the element count |
| `Shapes.TensorIndex` | src/tensor.c:168-178 | the variadic index fits in an `int`; for in-range arguments it is below `numel` and unravels back to the arguments |
| `Shapes.IndexArray` | src/tensor.c:180-187 | the array loop computes the same row-major index as `tensor_index` |
| `Shapes.IndexFitsInRange` | src/tensor.c:180-187 | for in-range coordinates of a shape with at most INT_MAX + 1 elements, no intermediate accumulator value overflows |
| `Shapes.Unindex` | src/tensor.c:200-207 | writes the unravelled coordinates of `ix` into the first `rank` cells, leaves the other cells alone, returns 0 |
| `Shapes.UnravelInRange` | src/tensor.c:200-207 | every coordinate produced by unindexing lies below its extent |
| `Shapes.RowMajorUnravel` | src/tensor.c:180-207 | for `ix < numel`, re-linearising the unindexed coordinates gives `ix` back |
| `Shapes.UnravelRowMajor` | src/tensor.c:180-207 | unindexing the index of in-range coordinates gives the coordinates back |
| `Shapes.RowMajorInjective` | src/tensor.c:180-187 | distinct in-range coordinates have distinct linear indices |
| `Shapes.Shape1` | src/tensor.c:249 | rank 1, extent `d0`, `d0` elements |
| `Shapes.Shape2` | src/tensor.c:251-253 | rank 2, extents `d0, d1`, `d0 * d1` elements |
| `Shapes.Shape3` | src/tensor.c:255-257 | rank 3, extents `d0, d1, d2`, `d0 * d1 * d2` elements |
| `Permutations.InverseIsPermutation` | src/tensor.c:214-224 | the inverse of an axis permutation is a permutation that undoes it on both sides |
| `Permutations.GatherInverse` | src/tensor.c:221-224 | permuting extents by `p` and then by its inverse restores them |
| `Permutations.ProductGather` | src/tensor.c:219-224 | permuting the extents leaves the element count, hence `size`, unchanged |
| `Permutations.MultisetReindex` | src/tensor.c:229-236 | a one-to-one re-indexing of a sequence keeps its multiset of elements |
| `Permutations.MoveBound` | src/tensor.c:229-234 | every old index is relocated inside the buffer |
| `Permutations.MoveInjective` | src/tensor.c:229-235 | two old indices never go to the same new index |
| `Permutations.MoveFresh` | src/tensor.c:229-235 | no earlier old index goes where the current one goes |
| `Permutations.MoveOnto` | src/tensor.c:229-235 | every new index receives some old element |
| `Permutations.MoveThenInverse` | src/tensor.c:229-234 | relocating by `p` and then by its inverse returns every index to its place |
| `Permutations.PermutedDetermined` | src/tensor.c:225-236 | the relocation determines the new buffer completely |
| `Permutations.PermutedRearranges` | src/tensor.c:225-236 | the new buffer is a rearrangement (same multiset) of the old one |
| `Permutations.PermuteRoundTrip` | src/tensor.c:209-240 | permuting by `p` and then by its inverse restores the extents and every element |
| `Tensors.Tensor.Empty` | src/main.c:29-30 | a zero-initialised tensor has no buffer, rank 0 and size 0, and is valid |
| `Tensors.Alloc` | src/tensor.c:28-51 | fails with 0 for NULL, rank 0, rank above 8 or a zero extent, leaving the tensor unchanged; on `malloc` failure leaves no buffer, size 0, rank 0; on success a fresh buffer, the given shape and size = element count modulo 2^64; the tensor is valid when that count is below 2^64 |
| `Tensors.Free` | src/tensor.c:53-60 | no buffer, rank 0, size 0 afterwards; the extents are kept |
| `Tensors.TensorSize` | src/tensor.c:62 | 0 for NULL; otherwise the buffer length, which is numel of the shape |
| `Tensors.TensorDim` | src/tensor.c:64-70 | 0 for NULL or an axis at or past the rank; otherwise that extent, positive when a buffer exists |
| `Tensors.Get` | src/tensor.c:148-152 | 0 for NULL, no buffer or an index at or past the size; otherwise the stored element |
| `Tensors.SameShape` | src/tensor.c:72-82 | 1 exactly when both are non-NULL with equal rank and equal extents up to the rank |
| `Tensors.AssertTensors` | src/tensor.c:16-26 | 1 exactly when both are non-NULL, both buffers exist, the shapes agree and the sizes agree |
| `Tensors.Mul` | src/tensor.c:84-90 | under the guard, element i of `a` becomes old a[i] * old b[i], even when `a` and `b` share a buffer; otherwise returns 0 and writes nothing |
| `Tensors.Add` | src/tensor.c:92-98 | under the guard, element i of `a` becomes old a[i] + old b[i]; otherwise returns 0 and writes nothing |
| `Tensors.Fill` | src/tensor.c:100-106 | with a buffer, every element becomes the value; returns 0 for NULL or no buffer |
| `Tensors.Zero` | src/tensor.c:108 | with a buffer, every element becomes 0 |
| `Tensors.Scale` | src/tensor.c:110-116 | with a buffer, every element is multiplied by `a` |
| `Tensors.Copy` | src/tensor.c:118-124 | under the guard, `dst` receives every element of `src`; otherwise returns 0 and writes nothing |
| `Tensors.Clone` | src/tensor.c:126-137 | on success `dst` has a fresh buffer, the shape, size and contents of `src`; the failure cases are those of `tensor_alloc` plus either tensor NULL and a source without buffer |
| `Tensors.Axpy` | src/tensor.c:139-146 | under the guard, y[i] becomes old y[i] + a * old x[i]; otherwise returns 0 and writes nothing |
| `Tensors.Arange` | src/tensor.c:242-247 | element i becomes i; returns 0 |
| `Tensors.Reshape` | src/tensor.c:189-198 | returns 1 exactly when the element counts agree, then replaces only the shape and keeps the tensor valid; otherwise nothing changes |
| `Tensors.Permute` | src/tensor.c:209-240 | returns 0; extent j becomes old extent p[j]; size and buffer object kept; each element moves to its relocated index, so the buffer is a rearrangement of the old one |
| `Tensors.Relocate` | src/tensor.c:225-236 | the relocation loop over the scratch copy leaves every old element at its relocated index |
| `Tensors.PlaceNext` | src/tensor.c:229-235 | one iteration writes old element i at its relocated index and keeps every earlier element in place |
| `Tensors.RelocatedIndex` | src/tensor.c:229-234 | unindex, permute the coordinates, re-index in the new shape: the relocated index, inside the buffer |
| `Tensors.PlacedStep` | src/tensor.c:235 | writing an element at a target no earlier element uses keeps the earlier elements in place |
| `Linalg.Bmm` | src/linalg.c:5-28 | returns 0 and writes nothing when an operand is NULL, a rank is not 3, or A.dims[2] != B.dims[1]; otherwise returns 1, leaves A and B unchanged, and every cell (i, j, k) of C holds the ascending sum over l of A[l, j, i] * B[k, l, i] |
| `Linalg.FillAll` | src/linalg.c:13-26 | the loops over i and j fill every cell of C |
| `Linalg.FillRow` | src/linalg.c:15-24 | the loop over k fills the next C.dims[2] cells in row-major order |
| `Linalg.CellIndex` | src/linalg.c:16 | `tensor_index(C, i, j, k)` is (i * d1 + j) * d2 + k, inside C |
| `Linalg.Contract` | src/linalg.c:17-22 | the inner loop computes the ascending contraction sum for cell (i, j, k) |
| `Linalg.RowMajor3` | src/tensor.c:168-178 | a rank-3 row-major index is (i * d1 + j) * d2 + k |
| `Linalg.FilledStep` | src/linalg.c:23 | writing cell (i, j, k) extends the filled row-major prefix by one |
| `Linalg.FilledContracted` | src/linalg.c:13-26 | once the whole buffer is filled, every cell holds its contraction sum |
| `Linalg.CellsCovered` | src/linalg.c:13-16 | the loops over C's extents reach every linear index of C |
| `Linalg.CellsDistinct` | src/linalg.c:13-16 | no two iterations write the same cell of C |
| `Linalg.ScalarBatchesReadable` | src/linalg.c:18-21 | with A, B and C of shape [2, 1, 1] a read's last coordinate exceeds its extent, yet every read's linear index lies inside its buffer, so `bmm` succeeds on these shapes |
| `Linalg.SquareBatchReadsPastA` | src/linalg.c:18-21 | with A, B and C of shape [1, 2, 2] every guard passes, yet step l = 1 reads A at index 4, past its last element |
| `Rng.Mix` | src/rng.c:8-12 | the three shift-xor steps map a nonzero state to a nonzero state |
| `Rng.Top24` | src/rng.c:18 | `(uint32_t)(x >> 40)` is below 2^24 and holds exactly the top 24 bits of `x` |
| `Rng.Generator.constructor` | src/rng.c:3-5 | a generator seeded with `seed` holds `seed`, or the golden constant for 0, and is never 0 |
| `Rng.Generator.Seed` | src/rng.c:3-5 | stores a nonzero seed unchanged and replaces 0 with 0x9E3779B97F4A7C15, so the state is nonzero |
| `Rng.Generator.XorShift64Star` | src/rng.c:7-14 | stores the shift-xor update of the state and returns it times 2685821657736338717 mod 2^64; a nonzero state stays nonzero |
| `Rng.Generator.Uniform` | src/rng.c:16-19 | advances the state by exactly one update; the extracted `top24` is the top 24 bits of the output and below 2^24 |

## Left out

- Floating point: elements are integers, so IEEE-754 rounding in
  `tensor_mul`, `tensor_add`, `tensor_scale`, `tensor_axpy` and in the
  `float sum` of `bmm` is not modelled, and neither is `tensor_arange`'s
  conversion of an index to `float`.
- `rng_normal` (src/rng.c:23-34) and the float scaling at src/rng.c:20 are
  not modelled: they are floating-point and transcendental code (`logf`,
  `sqrtf`, `cosf`). `tensor_fill_rand_uniform` and `tensor_fill_rand_normal`
  (src/tensor.c:153-166) only store those float outputs.
- src/dataset.c, src/utils.c and src/main.c are file I/O, parsing and
  printing, and are not part of this model.
- Memory management: `free` of the old buffer in `tensor_alloc`,
  `tensor_free` and `permute` is not modelled. A released buffer simply
  becomes unreachable. `malloc` inside `permute` is treated as succeeding,
  as the source does not check it.
- `Alloc`: the `size * sizeof(float)` byte count is not checked for
  `size_t` overflow. When the element count reaches 2^64, the model's
  `Alloc` returns the wrapped size as C does, but promises `Valid()` only
  for counts below 2^64.
- Extents are unbounded naturals; in C each is a `size_t` below 2^64.
- `TensorIndex`, `IndexArray`: require that no intermediate value of the
  `int` accumulator overflows (`IndexFits`). The source has no such check.
  Each step `out *= dims[i]`, `out += ix` is computed in `size_t` and the
  result is converted back to `int`, which is implementation-defined once
  it exceeds INT_MAX. The variadic coordinates
  are natural numbers; the `size_t`-to-`int` passing of `bmm`'s arguments
  is not modelled.
- `Unindex`: requires every extent to be positive. The source divides by
  each extent, which is undefined for 0.
- `Reshape`: requires both element counts to fit in an `int`. The source
  converts them to `int` without checking. It also requires the new rank to
  be at most 8, as `numel` would otherwise read past `dims[7]`.
- `Permute`: requires a valid permutation of the axes and a size of at most
  INT_MAX + 1. The source reads the permutation from variadic arguments
  unchecked. The new shape's extents past the rank are uninitialised in
  the source; the model keeps the old values there.
- `Clone`: requires that, when both are non-NULL, `dst` and `src` are
  different tensors with different buffers. Cloning a tensor into itself
  frees the source buffer in C.
- `Bmm`: the success contract requires all three buffers to exist, C's
  buffer to differ from A's and B's, each size to fit an `int`, and the
  linear index of every read of the contraction loop to fall inside its
  buffer. The source checks none of these. A missing buffer or an out-of-range read is undefined behaviour,
  and a C that shares a buffer with A or B would change operands that the
  model treats as read-only.
- `Arange`: takes a non-NULL tensor, as the source dereferences it
  unchecked.
