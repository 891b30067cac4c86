/** The row-major layout shared by the grey buffer and its rendering: cell (x, y) of a
    grid with maxX columns and maxY rows is stored at index `x + y * maxX`. */
module GridIndex {

  /** Index of cell (x, y). It lies inside the grid, and `k % maxX`, `k / maxX` give the
      coordinates back, so no two cells of the grid share an index. */
  function Cell(x: int, y: int, maxX: int, maxY: int): (k: nat)
    requires 0 <= x < maxX && 0 <= y < maxY
    ensures k < maxX * maxY
    ensures k % maxX == x && k / maxX == y
  {
    RowsBelow(y, maxX, maxY);
    DivModUnique(x + y * maxX, y, x, maxX);
    x + y * maxX
  }

  /** Every index of the grid is the index of some cell: with `Cell` this makes the
      layout a bijection between the cells and [0, maxX * maxY). */
  lemma {:induction false} CellOfIndex(k: int, maxX: nat, maxY: nat)
    requires 0 <= k < maxX * maxY
    ensures 0 < maxX && 0 <= k % maxX < maxX && 0 <= k / maxX < maxY
    ensures Cell(k % maxX, k / maxX, maxX, maxY) == k
  {
    assert 0 < maxX;
    var q, r := k / maxX, k % maxX;
    assert k == q * maxX + r;
    if q >= maxY {
      MulMonotone(maxY, q, maxX);
      assert false;
    }
  }

  /** Two cells with the same index are the same cell. */
  lemma CellInjective(x1: int, y1: int, x2: int, y2: int, maxX: int, maxY: int)
    requires 0 <= x1 < maxX && 0 <= y1 < maxY
    requires 0 <= x2 < maxX && 0 <= y2 < maxY
    requires Cell(x1, y1, maxX, maxY) == Cell(x2, y2, maxX, maxY)
    ensures x1 == x2 && y1 == y2
  {
  }

  /** The last cell of row y ends before row y + 1 begins, so rows below maxY stay in the grid. */
  lemma RowsBelow(y: int, maxX: int, maxY: int)
    requires 0 <= y < maxY && 0 < maxX
    ensures y * maxX + maxX <= maxY * maxX
  {
    MulMonotone(y + 1, maxY, maxX);
  }

  lemma MulMonotone(a: int, b: int, n: int)
    requires a <= b && 0 <= n
    ensures a * n <= b * n
  {
  }

  /** Euclidean division has one quotient and one remainder. */
  lemma DivModUnique(k: int, q: int, r: int, n: int)
    requires 0 < n && 0 <= r < n && k == q * n + r
    ensures k / n == q && k % n == r
  {
    var q', r' := k / n, k % n;
    assert k == q' * n + r';
    if q' < q {
      MulMonotone(q' + 1, q, n);
      assert false;
    } else if q < q' {
      MulMonotone(q + 1, q', n);
      assert false;
    }
  }
}
