/**
  The `rowmult` kernel: despite its name it scales the COLUMNS of a
  column-major double matrix `x` by the entries of a vector `v`, after
  four validation checks made in a fixed order, and gives the result the
  attributes of `x`.
 */
module ColumnScaling {
  import opened RObjects
  import opened ColumnMajor

  /** The ways the call is refused, in the order they arise. `LongVector`
      is raised by R's own `length()`, whose result is a C `int`, when v has
      more elements than that can hold; the other four are the routine's. */
  datatype RowMultError =
    | NotAMatrix      // x carries no `dim` attribute
    | XNotNumeric     // x is not stored as double
    | VNotNumeric     // v is not stored as double
    | LongVector      // length(v) does not fit a C `int`
    | LengthMismatch  // length(v) differs from the column count of x

  /** The message R's `error()` raises for each refusal. */
  function Message(e: RowMultError): string {
    match e
    case NotAMatrix => "x is not a matrix"
    case XNotNumeric => "x needs to be numeric (not integer)"
    case VNotNumeric => "v needs to be numeric (not integer)"
    case LongVector => "long vectors not supported yet"
    case LengthMismatch => "ncol(x) needs to be equal to length(v)"
  }

  /** Different refusals raise different messages, so the message names
      the check that failed. */
  lemma MessagesDistinct(e1: RowMultError, e2: RowMultError)
    ensures Message(e1) == Message(e2) <==> e1 == e2
  {
  }

  /** Either the refusal, with no output at all, or the new matrix. */
  datatype Outcome = Err(error: RowMultError) | Ok(value: Sexp)

  /** `s` with every element multiplied by `c`. */
  function Scale(s: seq<real>, c: real): (r: seq<real>)
    ensures |r| == |s|
    ensures forall k :: 0 <= k < |r| ==> r[k] == s[k] * c
  {
    seq(|s|, k requires 0 <= k < |s| => s[k] * c)
  }

  /** The first `col` columns of `px`, column j scaled by `pv[j]`, laid out
      one column after the other. */
  function ScaleColumns(px: seq<real>, pv: seq<real>, row: nat, col: nat): (out: seq<real>)
    requires row * col <= |px| && col <= |pv|
    ensures |out| == row * col
    ensures forall i: nat, j: nat | i < row && j < col ::
              Cell(out, row, col, i, j) == Cell(px, row, col, i, j) * pv[j]
    decreases col
  {
    if col == 0 then []
    else
      ColumnEnd(row, col, col - 1);
      var prefix := ScaleColumns(px, pv, row, col - 1);
      var out := prefix + Scale(Column(px, row, col - 1), pv[col - 1]);
      AppendScaledColumn(px, pv, row, col - 1, col, prefix, out);
      out
  }

  /** Appending column c, scaled by `pv[c]`, to the first c scaled columns
      gives the first c + 1 scaled columns, cell by cell. */
  lemma AppendScaledColumn(px: seq<real>, pv: seq<real>, row: nat, c: nat, col: nat, prefix: seq<real>, out: seq<real>)
    requires col == c + 1
    requires c * row + row <= |px| && row * col <= |px| && col <= |pv|
    requires |prefix| == row * c
    requires forall i: nat, j: nat | i < row && j < c ::
               Cell(prefix, row, c, i, j) == Cell(px, row, c, i, j) * pv[j]
    requires out == prefix + Scale(Column(px, row, c), pv[c])
    ensures |out| == row * col
    ensures forall i: nat, j: nat | i < row && j < col ::
              Cell(out, row, col, i, j) == Cell(px, row, col, i, j) * pv[j]
  {
    forall i: nat, j: nat | i < row && j < col
      ensures Cell(out, row, col, i, j) == Cell(px, row, col, i, j) * pv[j]
    {
      if j < c {
        OffsetInBounds(row, c, i, j);
        assert Cell(prefix, row, c, i, j) == Cell(px, row, c, i, j) * pv[j];
      } else {
        assert Offset(row, i, j) == |prefix| + i;
      }
    }
  }

  /** The inputs the routine gives a defined meaning to. `dim` is read
      only once both type checks have passed, so only then must it hold two
      entries whose product is the length of x; every other input, with a
      `dim` of any shape, ends in one of the first three errors. */
  predicate InDomain(x: Sexp, v: Sexp) {
    HasDim(x) && x.kind == RealSxp && v.kind == RealSxp ==> ValidObject(x)
  }

  /** All four checks of the routine pass. */
  predicate PassesChecks(x: Sexp, v: Sexp)
    requires InDomain(x, v)
  {
    HasDim(x) && x.kind == RealSxp && v.kind == RealSxp && Length(v) == Cols(x)
  }

  /** What `rowmult(x, v)` returns: the first failing check's error, or a
      fresh double vector of `row * col` elements, column j of `x` scaled
      by `v[j]`, carrying a copy of `x`'s attributes. */
  function RowMult(x: Sexp, v: Sexp): (r: Outcome)
    requires InDomain(x, v)
    ensures r.Ok? <==> PassesChecks(x, v)
    ensures r.Ok? ==> ValidObject(x)
    ensures r.Ok? ==>
      && r.value.kind == RealSxp
      && r.value.attrs == x.attrs
      && |r.value.data| == Rows(x) * Cols(x) == |x.data|
      && ValidObject(r.value)
      && Rows(r.value) == Rows(x) && Cols(r.value) == Cols(x)
      && forall i: nat, j: nat | i < Rows(x) && j < Cols(x) ::
           Cell(r.value.data, Rows(x), Cols(x), i, j) == Cell(x.data, Rows(x), Cols(x), i, j) * v.data[j]
  {
    if !HasDim(x) then Err(NotAMatrix)
    else if x.kind != RealSxp then Err(XNotNumeric)
    else if v.kind != RealSxp then Err(VNotNumeric)
    else if Length(v) > IntMax then Err(LongVector)
    else if Length(v) != Cols(x) then Err(LengthMismatch)
    else Ok(Sexp(RealSxp, ScaleColumns(x.data, v.data, Rows(x), Cols(x)), x.attrs))
  }

  /** After the inner loop has filled column j, the buffer holds the first
      j + 1 scaled columns and the write log covers their offsets. */
  lemma ExtendByColumn(p: seq<real>, px: seq<real>, pv: seq<real>, row: nat, col: nat, j: nat,
                       writes: seq<int>, colWrites: seq<int>)
    requires j < col && |p| == row * col && |px| == row * col && |pv| == col
    requires j * row + row <= row * col
    requires p[..j * row] == ScaleColumns(px, pv, row, j)
    requires forall k | j * row <= k < j * row + row :: p[k] == px[k] * pv[j]
    requires writes == seq(j * row, k => k)
    requires colWrites == seq(row, k => j * row + k)
    ensures row * (j + 1) == j * row + row
    ensures p[..j * row + row] == ScaleColumns(px, pv, row, j + 1)
    ensures writes + colWrites == seq(j * row + row, k => k)
  {
    var s := j * row;
    assert row * (j + 1) == s + row;
    var column := Scale(Column(px, row, j), pv[j]);
    forall i | 0 <= i < row
      ensures p[s .. s + row][i] == column[i]
    {
      assert Offset(row, i, j) == s + i;
    }
    assert p[s .. s + row] == column;
    assert p[..s + row] == p[..s] + p[s .. s + row];
  }

  /** Lines 4-10 and 19-21 of the C function: the checks in order, then the
      scaling loop, then the attribute copy. The checks compute nothing that
      can overflow; only an input that passes them needs its element count
      to fit the C `int` that `row * col` is computed in. */
  method RowMultKernel(x: Sexp, v: Sexp) returns (r: Outcome, ghost writes: seq<int>)
    requires InDomain(x, v)
    requires PassesChecks(x, v) ==> |x.data| <= IntMax
    ensures r == RowMult(x, v)
    ensures r.Ok? ==> writes == seq(|x.data|, k => k)
    ensures r.Err? ==> writes == []
  {
    writes := [];
    if !HasDim(x) {
      return Err(NotAMatrix), writes;
    }
    if x.kind != RealSxp {
      return Err(XNotNumeric), writes;
    }
    if v.kind != RealSxp {
      return Err(VNotNumeric), writes;
    }
    var dim := x.attrs[DimName].ints;
    var row: Int32, col: Int32 := dim[0] as Int32, dim[1] as Int32;
    if Length(v) > IntMax {
      return Err(LongVector), writes;
    }
    var len: Int32 := Length(v) as Int32;
    if len != col {
      return Err(LengthMismatch), writes;
    }
    var out;
    out, writes := ScaleColumnsLoop(x.data, v.data, row, col);
    r := Ok(Sexp(RealSxp, out, x.attrs));
  }

  /** Lines 11-18 of the C function: a fresh buffer of `row * col` doubles
      filled by two `!=`-guarded loops over C `int` counters, none of whose
      arithmetic overflows. `writes` logs the offsets assigned, in order:
      every output offset is written exactly once, first to last, and the
      offsets past the current column keep their fresh contents until
      their own column is filled. */
  method ScaleColumnsLoop(px: seq<real>, pv: seq<real>, row: Int32, col: Int32)
    returns (out: seq<real>, ghost writes: seq<int>)
    requires 0 <= row && 0 <= col
    requires |px| == row as int * col as int <= IntMax
    requires |pv| == col as int
    ensures out == ScaleColumns(px, pv, row as int, col as int)
    ensures writes == seq(|px|, k => k)
  {
    ghost var R: nat, C: nat := row as int, col as int;
    writes := [];
    var pout := new real[row * col];
    ghost var initial := pout[..];
    var j: Int32 := 0;
    ghost var start: nat := 0;
    while j != col
      invariant 0 <= j <= col
      invariant pout.Length == R * C
      invariant start == R * j as int <= R * C
      invariant pout[..start] == ScaleColumns(px, pv, R, j as int)
      invariant pout[start..] == initial[start..]
      invariant writes == seq(start, k => k)
      decreases col - j
    {
      ColumnEnd(R, C, j as int);
      var s: Int32 := j * row;
      var e: Int32 := s + row;
      var vj := pv[j];
      ghost var colWrites := ScaleColumnInto(pout, px, s, e, vj);
      ExtendByColumn(pout[..], px, pv, R, C, j as int, writes, colWrites);
      writes := writes + colWrites;
      j := j + 1;
      start := e as int;
    }
    out := pout[..];
  }

  /** Line 17 of the C function: offsets s up to e of `pout` receive the
      matching elements of `px` times `vj`, and every other offset keeps
      its value. `writes` logs the offsets assigned, in order. */
  method ScaleColumnInto(pout: array<real>, px: seq<real>, s: Int32, e: Int32, vj: real)
    returns (ghost writes: seq<int>)
    requires 0 <= s <= e && e as int <= pout.Length && e as int <= |px|
    modifies pout
    ensures pout[..s] == old(pout[..s])
    ensures pout[e..] == old(pout[e..])
    ensures forall k | 0 <= k < pout.Length && !(s as int <= k < e as int) :: pout[k] == old(pout[k])
    ensures forall k | s as int <= k < e as int :: pout[k] == px[k] * vj
    ensures writes == seq(e as int - s as int, k => s as int + k)
  {
    writes := [];
    var i: Int32 := s;
    while i != e
      invariant s <= i <= e
      invariant pout[..s] == old(pout[..s])
      invariant pout[i..] == old(pout[i..])
      invariant forall k | 0 <= k < pout.Length && !(s as int <= k < i as int) :: pout[k] == old(pout[k])
      invariant forall k | s as int <= k < i as int :: pout[k] == px[k] * vj
      invariant writes == seq(i as int - s as int, k => s as int + k)
      decreases e - i
    {
      pout[i] := px[i] * vj;
      writes := writes + [i as int];
      i := i + 1;
    }
  }
}
