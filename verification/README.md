# rowmult: column scaling of an R matrix

This project models `rowmult`, the one native routine of the R package
decompr. Despite its name it scales the columns of a matrix. Given a
double matrix `x` stored column-major, and a double vector `v` with one
entry per column, it returns a new double matrix whose column j is column j
of `x` multiplied by `v[j]`. The new matrix carries a copy of `x`'s
attributes.

Before it computes anything the routine makes four checks, in a fixed
order. The first one that fails raises its error and no output is produced:

1. `x` has no `dim` attribute: "x is not a matrix";
2. `x` is not stored as double: "x needs to be numeric (not integer)";
3. `v` is not stored as double: "v needs to be numeric (not integer)";
4. `length(v)` differs from the column count: "ncol(x) needs to be equal to length(v)".

The fourth check is strict equality. A shorter vector is never recycled.
`length(v)` is R's own C function and returns a C `int`. When `v` has more
elements than a C `int` holds, it raises R's error "long vectors not
supported yet" before the comparison is made. The model keeps that error
as a fifth outcome, `LongVector`.

`dim` is read only after both type checks have passed. So only for a
double `x` with a double `v` does the model ask that `dim` hold exactly two
entries whose product is the length of `x` (the predicate `InDomain`). An
array with a `dim` of any other length is refused by the first or second
type check like any other input.

Files:

- `robjects.dfy` (module `RObjects`): the slice of R's object model the
  routine touches. It has the type tag, the flat data, the attribute map,
  the `dim` lookup and the 32-bit C `int` type `Int32`.
- `column_major.dfy` (module `ColumnMajor`): the column-major layout. Cell
  (i, j) is at offset `j * row + i`. The module proves that the column
  ranges partition the buffer and that a buffer is determined by its cells.
- `rowmult.dfy` (module `ColumnScaling`): the errors, the pure
  specification `RowMult`, and the imperative kernel. The kernel copies the
  C code: the checks, a fresh output array of `row * col` reals, and the two
  `!=`-guarded loops over `Int32` counters.
- `properties.dfy` (module `RowMultProperties`): lemmas relating several
  calls, plus concrete scenarios.

Element values are Dafny `real`. The model is about validation, layout and
indexing. It is not about IEEE-754 arithmetic. Raising an error becomes the
`Err` variant of `Outcome`, which carries no partial output.

## Model

| member | source | states |
|---|---|---|
| ColumnScaling.RowMult | src/rowmult.c:4-22 | Defined for every input whose `dim` is two-dimensional whenever both type checks pass. The call succeeds exactly when all four checks pass, and then `x` is a valid two-dimensional matrix. A double `v` too long for `length()` gives R's long-vector error. On success the result is a double vector with as many elements as `x`, the same attributes as `x` (so the same `dim`, rows and columns), and is again a valid matrix. Each cell (i, j) equals x's cell (i, j) times `v[j]`. |
| ColumnScaling.MessagesDistinct | src/rowmult.c:6-10 | The four error messages, and R's long-vector message from `length(v)`, are pairwise different, so the message identifies which check failed. |
| ColumnScaling.RowMultKernel | src/rowmult.c:4-21 | The C-shaped procedure returns exactly the specification's outcome. It reads `dim` only after both type checks, and it takes `length(v)` as a C `int` only once R's long-vector error is ruled out. It needs the element count to fit a C `int` only when all four checks pass. On an error nothing has been written. On success every output offset is written exactly once, in increasing order. |
| ColumnScaling.ScaleColumnsLoop | src/rowmult.c:11-18 | The nested `!=` loops fill a fresh buffer of `row * col` elements with the scaled columns, whatever the buffer held on allocation. No C `int` computation (`row * col`, `j * row`, `s + row`, `++j`, `++i`) overflows when the element count fits an `int`. Each column pass touches only its own column, and offsets past it keep their allocated contents. So the writes cover offsets `0 .. row*col-1` once each, in order. |
| ColumnScaling.ScaleColumnInto | src/rowmult.c:17 | The inner loop writes `px[k] * vj` at every offset k in `[s, e)` and logs those offsets in order. Every offset outside `[s, e)`, before or after, keeps its value. |
| ColumnScaling.ScaleColumns | src/rowmult.c:14-17 | The functional reference is built column by column. It has `row * col` elements, and cell (i, j) is `x[j*row + i] * v[j]`. |
| ColumnMajor.OffsetInBounds | src/rowmult.c:15-17 | Every (i, j) with i < row and j < col addresses an offset below `row * col`, so every read of `x` and write of `out` is in bounds. |
| ColumnMajor.ColumnsPartition | src/rowmult.c:14-17 | The column ranges `[j*row, j*row + row)` for j < col stay inside `[0, row*col)`, cover it, and never overlap. |
| ColumnMajor.CellsDetermine | src/rowmult.c:14-17 | Two buffers of `row * col` elements that agree on every cell (i, j) are equal. So the per-cell statement fixes the whole output. |
| RowMultProperties.CheckOrder | src/rowmult.c:5-10 | Each error is returned exactly when its check is the first to fail: missing `dim`, then x not double, then v not double, then a `v` whose length does not fit a C `int`, then a length mismatch. This holds for arrays whose `dim` has any number of entries, as long as they fail a type check. |
| RowMultProperties.NoRecycling | src/rowmult.c:10 | A `v` whose length divides the column count without equalling it is refused with the length error. |
| RowMultProperties.MismatchExample | src/rowmult.c:10 | A 3 x 2 matrix with a length-3 vector is refused with the length error. |
| RowMultProperties.LongIntegerMatrixExample | src/rowmult.c:7 | A 2^30 x 2 integer matrix, with more elements than a C `int` holds, is a valid input and is refused as not numeric. |
| RowMultProperties.LongVectorExample | src/rowmult.c:10 | A 2 x 2 double matrix with a double `v` of 2^31 elements gives R's long-vector error, not the length error. |
| RowMultProperties.ThreeDimIntegerArrayExample | src/rowmult.c:5-7 | A 2 x 2 x 2 integer array is not a two-dimensional matrix, yet it is refused as not numeric. |
| RowMultProperties.OneDimArrayExample | src/rowmult.c:5-8 | A 1-d double array with an integer `v` is refused as `v` not numeric, before `dim` would be read. |
| RowMultProperties.IntegerMatrixExample | src/rowmult.c:7 | An integer matrix is refused as not numeric, whatever `v` is. |
| RowMultProperties.ResultColumns | src/rowmult.c:14-17 | Column j of the result, as a slice of the flat buffer, is column j of `x` scaled by `v[j]`. |
| RowMultProperties.IdentityVector | src/rowmult.c:17-19 | A vector of ones gives back `x` itself, data and attributes. |
| RowMultProperties.ZeroVector | src/rowmult.c:17 | A vector of zeros gives an all-zero result. |
| RowMultProperties.ScaleRoundTrip | src/rowmult.c:14-19 | Scaling by `v` and then by the reciprocals of `v` (all non-zero) gives back `x`. |
| RowMultProperties.ScaleTwice | src/rowmult.c:14-19 | Scaling by `v` and then by `w` equals one scaling by their elementwise product. |
| RowMultProperties.WorkedExample | src/rowmult.c:14-19 | The 2 x 2 matrix `[1, 2, 3, 4]` with `v = [10, 100]` gives `[10, 20, 300, 400]`, keeping `dim`. |

## Left out

- Registration: the `CallEntries` table and `R_init_decompr` (src/rowmult.c:24-33) only bind the routine to R's dispatch. They have no behaviour to model.
- Memory management: `PROTECT`/`UNPROTECT` are garbage-collector bookkeeping. `allocVector` is modelled as a fresh `new real[row * col]`. The verifier treats the contents of a fresh array as arbitrary, like R's uninitialised buffer, and the output is proved equal to the scaled columns whatever those contents are.
- `error()` jumps back into R and does not return. It is modelled as returning the `Err` variant.
- IEEE-754 doubles: NaN and infinity propagation, signed zeros and rounding are not modelled. Elements are `real`. So `IdentityVector`, `ZeroVector` and `ScaleRoundTrip` hold for reals but not always for doubles (0 times NaN is NaN).
- Double arrays with a double `v` whose `dim` length is not 2. `InDomain` asks, only for inputs that pass both type checks, that `dim` be an integer vector of exactly two non-negative entries whose product is the data length (`ValidObject`). For such an input with a 1-d `dim`, the C code reads `INTEGER(dim)[1]` out of bounds. For a 3-d array, it produces an output shorter than the `dim` copied onto it. Arrays of any shape that fail a type check are modelled.
- C `int` overflow: `RowMultKernel` requires the element count to be at most 2^31 - 1, but only for inputs that pass all four checks. Those are the only inputs for which the C code computes `row * col` and `j * row`. The checks themselves do no `int` arithmetic, so longer matrices are modelled on every error path. R allows a double matrix with more elements than that, and for such an input with a matching `v` the C products overflow. That is undefined behaviour and is not modelled. Under the bound, the kernel proves no `Int32` operation overflows. The pure `RowMult` has no such bound, because it computes over unbounded integers.
- `DUPLICATE_ATTRIB` also copies the object and S4 flags of `x`. Only the attribute map is modelled.
- Non-mutation of `x` and `v`: the inputs are immutable Dafny values, so the kernel cannot change them. No contract needs to state it. The only array written is the fresh output.
- Storage modes other than double are collapsed into `IntSxp`, `LglSxp` and `OtherSxp`. Their element values are never read, because the type checks come first.
