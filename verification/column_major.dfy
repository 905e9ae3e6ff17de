/**
  Column-major layout of a `row` x `col` matrix in a flat buffer: element
  (i, j) lives at offset `j * row + i`, so column j is the slice
  `[j * row, j * row + row)`.
 */
module ColumnMajor {

  /** Offset of row i, column j. */
  function Offset(row: nat, i: nat, j: nat): nat {
    j * row + i
  }

  /** Offset k lies in column j, i.e. in `[j * row, j * row + row)`. */
  predicate InColumn(row: nat, j: nat, k: int) {
    j * row <= k < j * row + row
  }

  /** Offset k lies in one of the columns `0 .. col - 1`. */
  predicate InSomeColumn(row: nat, col: nat, k: int) {
    exists j: nat :: j < col && InColumn(row, j, k)
  }

  lemma MulMonotone(a: nat, b: nat, c: nat)
    requires a <= b
    ensures a * c <= b * c
  {
  }

  /** Column j (j < col) of a `row` x `col` matrix ends inside the buffer. */
  lemma ColumnEnd(row: nat, col: nat, j: nat)
    requires j < col
    ensures j * row + row <= row * col
  {
    MulMonotone(j + 1, col, row);
  }

  /** Every (i, j) inside the shape addresses a cell inside the buffer. */
  lemma OffsetInBounds(row: nat, col: nat, i: nat, j: nat)
    requires i < row && j < col
    ensures Offset(row, i, j) < row * col
  {
    ColumnEnd(row, col, j);
  }

  /** Element (i, j) of a column-major buffer holding at least `row * col` values. */
  function Cell<T>(m: seq<T>, row: nat, col: nat, i: nat, j: nat): T
    requires row * col <= |m| && i < row && j < col
  {
    OffsetInBounds(row, col, i, j);
    m[Offset(row, i, j)]
  }

  /** Column j of a column-major buffer, as the slice `[j * row, j * row + row)`. */
  function Column<T>(m: seq<T>, row: nat, j: nat): (c: seq<T>)
    requires j * row + row <= |m|
    ensures |c| == row
    ensures forall i :: 0 <= i < row ==> c[i] == m[Offset(row, i, j)]
  {
    m[j * row .. j * row + row]
  }

  /** Every buffer offset below `row * col` splits into a row index and a
      column index inside the shape. */
  lemma Decompose(row: nat, col: nat, k: nat) returns (i: nat, j: nat)
    requires k < row * col
    ensures i < row && j < col
    ensures Offset(row, i, j) == k
  {
    assert row > 0;
    j := k / row;
    i := k % row;
    assert k == j * row + i;
    if j >= col {
      MulMonotone(col, j, row);
      assert false;
    }
  }

  /** Two offsets in different columns, or in different rows of the same
      column, differ: the map (i, j) -> offset is injective. */
  lemma OffsetInjective(row: nat, i1: nat, j1: nat, i2: nat, j2: nat)
    requires i1 < row && i2 < row
    requires Offset(row, i1, j1) == Offset(row, i2, j2)
    ensures i1 == i2 && j1 == j2
  {
    if j1 < j2 {
      MulMonotone(j1 + 1, j2, row);
      assert false;
    } else if j2 < j1 {
      MulMonotone(j2 + 1, j1, row);
      assert false;
    }
  }

  /** The column ranges `[j * row, j * row + row)` for j in `[0, col)`
      partition `[0, row * col)`: they stay inside it, they cover it, and
      no two of them overlap. */
  lemma ColumnsPartition(row: nat, col: nat)
    ensures forall j: nat, k :: j < col && InColumn(row, j, k) ==> 0 <= k < row * col
    ensures forall k :: 0 <= k < row * col ==> InSomeColumn(row, col, k)
    ensures forall j1: nat, j2: nat, k :: InColumn(row, j1, k) && InColumn(row, j2, k) ==> j1 == j2
  {
    forall j: nat, k | j < col && InColumn(row, j, k)
      ensures 0 <= k < row * col
    {
      ColumnEnd(row, col, j);
    }
    forall k | 0 <= k < row * col
      ensures InSomeColumn(row, col, k)
    {
      var i, j := Decompose(row, col, k);
      assert InColumn(row, j, k);
    }
    forall j1: nat, j2: nat, k | InColumn(row, j1, k) && InColumn(row, j2, k)
      ensures j1 == j2
    {
      OffsetInjective(row, k - j1 * row, j1, k - j2 * row, j2);
    }
  }

  /** A buffer of exactly `row * col` values is determined by its cells:
      two buffers that agree on every (i, j) are equal. */
  lemma CellsDetermine<T>(a: seq<T>, b: seq<T>, row: nat, col: nat)
    requires |a| == row * col && |b| == row * col
    requires forall i: nat, j: nat | i < row && j < col :: Cell(a, row, col, i, j) == Cell(b, row, col, i, j)
    ensures a == b
  {
    forall k | 0 <= k < |a|
      ensures a[k] == b[k]
    {
      var i, j := Decompose(row, col, k);
      assert Cell(a, row, col, i, j) == Cell(b, row, col, i, j);
    }
  }
}
