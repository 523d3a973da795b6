/**
  The board the snake lives on: integer cells addressed as (row, col), the four
  directions of travel and the one-cell step in each of them.
 */
module Grid {

  /** A grid dimension. The game fixes both dimensions at 20; any positive size is allowed here. */
  type Dim = n: int | n >= 1 witness 1

  /** A cell, `[row, col]` in the source. Coordinates may leave the grid: a head that does so is a wall hit. */
  datatype Pos = Pos(row: int, col: int)

  /** The four values the `direction` state takes: 'LEFT', 'UP', 'RIGHT', 'DOWN'. */
  datatype Direction = Left | Up | Right | Down

  /** `p` lies on a rows x cols board. */
  predicate InGrid(rows: Dim, cols: Dim, p: Pos) {
    0 <= p.row < rows && 0 <= p.col < cols
  }

  /** `p` and `q` are orthogonal neighbours: one coordinate equal, the other off by exactly one. */
  predicate Adjacent(p: Pos, q: Pos) {
    || (p.row == q.row && (p.col == q.col + 1 || q.col == p.col + 1))
    || (p.col == q.col && (p.row == q.row + 1 || q.row == p.row + 1))
  }

  function Opposite(d: Direction): (o: Direction)
    ensures o != d
    ensures (d == Left || d == Right) <==> (o == Left || o == Right)
  {
    match d
    case Left => Right
    case Right => Left
    case Up => Down
    case Down => Up
  }

  /**
    The candidate head: the cell one step from `p` in direction `d`. Rows grow
    downwards and columns grow to the right, so LEFT and UP decrement.
   */
  function Advance(p: Pos, d: Direction): (q: Pos)
    ensures Adjacent(p, q)
    ensures (d == Left || d == Right) ==> q.row == p.row
    ensures (d == Up || d == Down) ==> q.col == p.col
    ensures d == Left ==> q.col < p.col
    ensures d == Right ==> q.col > p.col
    ensures d == Up ==> q.row < p.row
    ensures d == Down ==> q.row > p.row
  {
    match d
    case Left => Pos(p.row, p.col - 1)
    case Up => Pos(p.row - 1, p.col)
    case Right => Pos(p.row, p.col + 1)
    case Down => Pos(p.row + 1, p.col)
  }

  /** Stepping back in the opposite direction undoes a step. */
  lemma AdvanceOpposite(p: Pos, d: Direction)
    ensures Advance(Advance(p, d), Opposite(d)) == p
  {
  }

  /** Different directions lead to different cells. */
  lemma AdvanceInjective(p: Pos, d1: Direction, d2: Direction)
    ensures Advance(p, d1) == Advance(p, d2) <==> d1 == d2
  {
  }

  /** Every neighbour of `p` is one step away in some direction, so `Advance` reaches exactly the neighbours. */
  lemma AdjacentIsAdvance(p: Pos, q: Pos)
    ensures Adjacent(p, q) <==> exists d :: Advance(p, d) == q
  {
    if Adjacent(p, q) {
      var d :=
        if q.col < p.col then Left
        else if q.col > p.col then Right
        else if q.row < p.row then Up
        else Down;
      assert Advance(p, d) == q;
    }
  }

}
