/** Indices into two-dimensional arrays kept row by row. */
module RowMajor {

  /** The index of the first pixel of row y. */
  function RowStart(wd: int, y: int): int { y * wd }

  function Idx(wd: int, x: int, y: int): int { RowStart(wd, y) + x }

  lemma MulMono(a: int, b: int, c: int)
    requires a <= b && 0 <= c
    ensures a * c <= b * c
  {
  }

  /** Rows do not overlap. */
  lemma RowsApart(wd: int, y: int, k: int)
    requires 0 <= wd && y < k
    ensures RowStart(wd, y) + wd <= RowStart(wd, k)
  {
    MulMono(y + 1, k, wd);
    assert (y + 1) * wd == y * wd + wd;
  }

  lemma IdxBounds(wd: int, he: int, x: int, y: int)
    requires 0 <= x < wd && 0 <= y < he
    ensures 0 <= RowStart(wd, y) <= Idx(wd, x, y) < RowStart(wd, y) + wd <= he * wd
  {
    RowsApart(wd, y, he);
    MulMono(0, y, wd);
  }

  /** Which column and row an index belongs to. */
  lemma {:induction false} IdxSplits(wd: int, rows: int, k: int) returns (i: int, j: int)
    requires 0 <= wd && 0 <= rows && 0 <= k < RowStart(wd, rows)
    ensures 0 <= i < wd && 0 <= j < rows && k == Idx(wd, i, j)
  {
    if rows <= 1 {
      i, j := k, 0;
    } else if k >= RowStart(wd, rows - 1) {
      assert rows * wd == (rows - 1) * wd + wd;
      i, j := k - RowStart(wd, rows - 1), rows - 1;
    } else {
      i, j := IdxSplits(wd, rows - 1, k);
    }
  }
}
