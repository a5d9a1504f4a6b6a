/** Matrices in lqmm.c are flat, column-major buffers: cell (i, j) of a
    matrix with `rows` rows is stored at `i + rows * j`. */
module ColumnMajor {

  lemma CellInBounds(i: int, j: int, rows: int, cols: int)
    requires 0 <= i < rows && 0 <= j < cols
    ensures 0 <= rows * j
    ensures 0 <= i + rows * j < rows * cols
  {
    assert 0 <= rows * j;
    assert rows * j + rows == rows * (j + 1);
    assert rows * (j + 1) <= rows * cols;
  }
}
