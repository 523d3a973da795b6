/**
  Food placement. The game draws each coordinate as `Math.floor(Math.random() * n)`;
  here the random number is an input `u` in [0, 1) supplied by the caller, so
  placement is a pure function of the draw.
 */
module Food {
  import opened Grid

  /** A value `Math.random()` can return. */
  type Unit = u: real | 0.0 <= u < 1.0

  /** One call of the food generator consumes two random numbers, row first. */
  datatype Draw = Draw(rowDraw: Unit, colDraw: Unit)

  /** `Math.floor(u * n)`: an index in [0, n). */
  function Pick(u: Unit, n: Dim): (k: int)
    ensures 0 <= k < n
  {
    var x := u * n as real;
    assert 0.0 <= x by {
      assert 0.0 * n as real <= u * n as real;
    }
    assert x < n as real by {
      assert u * n as real < 1.0 * n as real;
    }
    x.Floor
  }

  /** The draw that makes `Pick` return `k`: the left edge of the k-th of n equal slices of [0, 1). */
  function SliceStart(k: int, n: Dim): (u: Unit)
    requires 0 <= k < n
    ensures Pick(u, n) == k
  {
    var u := k as real / n as real;
    assert u * n as real == k as real;
    assert 0.0 <= u < 1.0 by {
      assert u * n as real < 1.0 * n as real;
    }
    u
  }

  /** `generateFood`: a cell with row in [0, rows) and column in [0, cols). */
  function GenerateFood(rows: Dim, cols: Dim, d: Draw): (f: Pos)
    ensures InGrid(rows, cols, f)
  {
    Pos(Pick(d.rowDraw, rows), Pick(d.colDraw, cols))
  }

  /** Every cell of the grid is the food cell for some draw: placement can hit any cell, occupied or not. */
  lemma GenerateFoodReachesEveryCell(rows: Dim, cols: Dim, p: Pos)
    requires InGrid(rows, cols, p)
    ensures exists d: Draw :: GenerateFood(rows, cols, d) == p
  {
    var d := Draw(SliceStart(p.row, rows), SliceStart(p.col, cols));
    assert GenerateFood(rows, cols, d) == p;
  }

}
