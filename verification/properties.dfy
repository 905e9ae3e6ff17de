/**
  Properties of `rowmult` that relate several calls or pin down its
  behaviour on particular inputs: the fixed order of the checks, the
  absence of recycling, identity and zero vectors, undoing a scaling,
  composing two scalings, and the worked 2 x 2 example.
 */
module RowMultProperties {
  import opened RObjects
  import opened ColumnMajor
  import opened ColumnScaling

  /** Each error is returned exactly when its check is the first to fail:
      no `dim`, then x not double, then v not double, then a v too long for
      `length()`, then a length that differs from the column count. */
  lemma CheckOrder(x: Sexp, v: Sexp)
    requires InDomain(x, v)
    ensures RowMult(x, v) == Err(NotAMatrix) <==> !HasDim(x)
    ensures RowMult(x, v) == Err(XNotNumeric) <==> HasDim(x) && x.kind != RealSxp
    ensures RowMult(x, v) == Err(VNotNumeric) <==>
              HasDim(x) && x.kind == RealSxp && v.kind != RealSxp
    ensures RowMult(x, v) == Err(LongVector) <==>
              HasDim(x) && x.kind == RealSxp && v.kind == RealSxp && Length(v) > IntMax
    ensures RowMult(x, v) == Err(LengthMismatch) <==>
              && HasDim(x) && x.kind == RealSxp && v.kind == RealSxp
              && Length(v) <= IntMax && Length(v) != Cols(x)
  {
  }

  /** The length check is strict: a v whose length divides the column count
      without equalling it is refused rather than recycled. */
  lemma NoRecycling(x: Sexp, v: Sexp)
    requires ValidObject(x) && HasDim(x)
    requires x.kind == RealSxp && v.kind == RealSxp
    requires 0 < Length(v) < Cols(x) && Cols(x) % Length(v) == 0
    ensures RowMult(x, v) == Err(LengthMismatch)
  {
  }

  /** Column j of the result is column j of x scaled by `v[j]`. */
  lemma ResultColumns(x: Sexp, v: Sexp, j: nat)
    requires ValidObject(x) && PassesChecks(x, v)
    requires j < Cols(x)
    ensures j * Rows(x) + Rows(x) <= |x.data|
    ensures Column(RowMult(x, v).value.data, Rows(x), j) == Scale(Column(x.data, Rows(x), j), v.data[j])
  {
    var row, col := Rows(x), Cols(x);
    var out := RowMult(x, v).value.data;
    ColumnEnd(row, col, j);
    forall i | 0 <= i < row
      ensures Column(out, row, j)[i] == Scale(Column(x.data, row, j), v.data[j])[i]
    {
      assert Cell(out, row, col, i, j) == Cell(x.data, row, col, i, j) * v.data[j];
    }
  }

  /** A vector of ones gives back x itself, attributes included. */
  lemma IdentityVector(x: Sexp, v: Sexp)
    requires ValidObject(x) && PassesChecks(x, v)
    requires forall j | 0 <= j < |v.data| :: v.data[j] == 1.0
    ensures RowMult(x, v) == Ok(x)
  {
    var row, col := Rows(x), Cols(x);
    var out := RowMult(x, v).value;
    forall i: nat, j: nat | i < row && j < col
      ensures Cell(out.data, row, col, i, j) == Cell(x.data, row, col, i, j)
    {
      assert v.data[j] == 1.0;
    }
    CellsDetermine(out.data, x.data, row, col);
  }

  /** A vector of zeros gives a result whose every element is zero. */
  lemma ZeroVector(x: Sexp, v: Sexp)
    requires ValidObject(x) && PassesChecks(x, v)
    requires forall j | 0 <= j < |v.data| :: v.data[j] == 0.0
    ensures forall k | 0 <= k < |RowMult(x, v).value.data| :: RowMult(x, v).value.data[k] == 0.0
  {
    var row, col := Rows(x), Cols(x);
    var out := RowMult(x, v).value.data;
    forall k | 0 <= k < |out|
      ensures out[k] == 0.0
    {
      var i, j := Decompose(row, col, k);
      assert Cell(out, row, col, i, j) == Cell(x.data, row, col, i, j) * v.data[j];
    }
  }

  /** The double vector of the reciprocals of v's entries. */
  function Reciprocal(v: Sexp): (w: Sexp)
    requires forall j | 0 <= j < |v.data| :: v.data[j] != 0.0
    ensures w.kind == RealSxp && |w.data| == |v.data|
    ensures forall j | 0 <= j < |w.data| :: w.data[j] * v.data[j] == 1.0
  {
    Sexp(RealSxp, seq(|v.data|, j requires 0 <= j < |v.data| => 1.0 / v.data[j]), v.attrs)
  }

  /** The double vector of the elementwise products of v and w. */
  function Product(v: Sexp, w: Sexp): (p: Sexp)
    requires |v.data| == |w.data|
    ensures p.kind == RealSxp && |p.data| == |v.data|
    ensures forall j | 0 <= j < |p.data| :: p.data[j] == v.data[j] * w.data[j]
  {
    Sexp(RealSxp, seq(|v.data|, j requires 0 <= j < |v.data| => v.data[j] * w.data[j]), v.attrs)
  }

  /** One cell of a call on the result of another: two factors in turn. */
  lemma CellScaledTwice(x: Sexp, v: Sexp, w: Sexp, i: nat, j: nat)
    requires ValidObject(x) && PassesChecks(x, v)
    requires w.kind == RealSxp && |w.data| == |v.data|
    requires i < Rows(x) && j < Cols(x)
    ensures RowMult(RowMult(x, v).value, w).Ok?
    ensures Cell(RowMult(RowMult(x, v).value, w).value.data, Rows(x), Cols(x), i, j)
            == Cell(x.data, Rows(x), Cols(x), i, j) * (v.data[j] * w.data[j])
  {
    var y := RowMult(x, v).value;
    var a := Cell(x.data, Rows(x), Cols(x), i, j);
    assert Cell(y.data, Rows(x), Cols(x), i, j) == a * v.data[j];
    assert Cell(RowMult(y, w).value.data, Rows(y), Cols(y), i, j) == (a * v.data[j]) * w.data[j];
  }

  /** Scaling by v and then by the reciprocals of v gives back x: the
      result of a call is again a valid input, and the scaling is undone. */
  lemma ScaleRoundTrip(x: Sexp, v: Sexp)
    requires ValidObject(x) && PassesChecks(x, v)
    requires forall j | 0 <= j < |v.data| :: v.data[j] != 0.0
    ensures RowMult(RowMult(x, v).value, Reciprocal(v)) == Ok(x)
  {
    var row, col := Rows(x), Cols(x);
    var w := Reciprocal(v);
    var z := RowMult(RowMult(x, v).value, w).value;
    forall i: nat, j: nat | i < row && j < col
      ensures Cell(z.data, row, col, i, j) == Cell(x.data, row, col, i, j)
    {
      CellScaledTwice(x, v, w, i, j);
      assert w.data[j] * v.data[j] == 1.0;
    }
    CellsDetermine(z.data, x.data, row, col);
  }

  /** Scaling by v and then by w is one scaling by their elementwise product. */
  lemma ScaleTwice(x: Sexp, v: Sexp, w: Sexp)
    requires ValidObject(x) && PassesChecks(x, v)
    requires w.kind == RealSxp && |w.data| == |v.data|
    ensures RowMult(RowMult(x, v).value, w).Ok?
    ensures RowMult(RowMult(x, v).value, w) == RowMult(x, Product(v, w))
  {
    var row, col := Rows(x), Cols(x);
    var z := RowMult(RowMult(x, v).value, w).value;
    var p := Product(v, w);
    var q := RowMult(x, p).value;
    forall i: nat, j: nat | i < row && j < col
      ensures Cell(z.data, row, col, i, j) == Cell(q.data, row, col, i, j)
    {
      CellScaledTwice(x, v, w, i, j);
    }
    CellsDetermine(z.data, q.data, row, col);
  }

  /** A 2 x 2 matrix with no attribute but `dim`. */
  function Matrix2x2(data: seq<real>): (x: Sexp)
    requires |data| == 4
    ensures ValidObject(x) && HasDim(x) && Rows(x) == 2 && Cols(x) == 2
  {
    Sexp(RealSxp, data, map[DimName := IntVector([2, 2])])
  }

  /** The worked example: x = [[1, 3], [2, 4]], stored as [1, 2, 3, 4], and
      v = [10, 100] give [[10, 300], [20, 400]], stored as [10, 20, 300, 400]. */
  lemma WorkedExample()
    ensures RowMult(Matrix2x2([1.0, 2.0, 3.0, 4.0]), Sexp(RealSxp, [10.0, 100.0], map[]))
            == Ok(Matrix2x2([10.0, 20.0, 300.0, 400.0]))
  {
  }

  /** A 3 x 2 matrix with a vector of length 3 is refused, not recycled. */
  lemma MismatchExample()
    ensures RowMult(Sexp(RealSxp, [1.0, 2.0, 3.0, 4.0, 5.0, 6.0], map[DimName := IntVector([3, 2])]),
                    Sexp(RealSxp, [1.0, 2.0, 3.0], map[]))
            == Err(LengthMismatch)
  {
  }

  /** A 2^30 x 2 integer matrix, whose element count does not fit a C `int`,
      is still refused by the type check: no check computes `row * col`. */
  lemma LongIntegerMatrixExample(data: seq<real>, v: Sexp)
    requires |data| == 0x8000_0000
    ensures ValidObject(Sexp(IntSxp, data, map[DimName := IntVector([0x4000_0000, 2])]))
    ensures RowMult(Sexp(IntSxp, data, map[DimName := IntVector([0x4000_0000, 2])]), v) == Err(XNotNumeric)
  {
  }

  /** A 2 x 2 double matrix with a v of 2^31 elements: R's `length()`
      cannot report that length as a C `int` and raises its own error
      before the comparison with the column count is made. */
  lemma LongVectorExample(data: seq<real>)
    requires |data| == 0x8000_0000
    ensures RowMult(Matrix2x2([1.0, 2.0, 3.0, 4.0]), Sexp(RealSxp, data, map[])) == Err(LongVector)
  {
  }

  /** A 2 x 2 x 2 integer array has a `dim` of three entries, which the
      routine never reads: it is refused as not numeric. */
  lemma ThreeDimIntegerArrayExample(data: seq<real>, v: Sexp)
    requires |data| == 8
    ensures !ValidObject(Sexp(IntSxp, data, map[DimName := IntVector([2, 2, 2])]))
    ensures RowMult(Sexp(IntSxp, data, map[DimName := IntVector([2, 2, 2])]), v) == Err(XNotNumeric)
  {
  }

  /** A 1-d double array (one `dim` entry) with an integer v is refused as
      v not numeric, before `INTEGER(dim)[1]` would be read. */
  lemma OneDimArrayExample(data: seq<real>, v: Sexp)
    requires |data| == 3 && v.kind == IntSxp
    ensures !ValidObject(Sexp(RealSxp, data, map[DimName := IntVector([3])]))
    ensures RowMult(Sexp(RealSxp, data, map[DimName := IntVector([3])]), v) == Err(VNotNumeric)
  {
  }

  /** An integer-typed matrix is refused before v is looked at. */
  lemma IntegerMatrixExample(v: Sexp)
    ensures RowMult(Sexp(IntSxp, [1.0, 2.0], map[DimName := IntVector([1, 2])]), v) == Err(XNotNumeric)
  {
  }
}
