/**
  The game state of the `App` component and the tick that advances it
  (`moveSnake`), together with the top-score update and the two ways a session
  starts: the first render and `restartGame`.
 */
module Game {
  import opened Options
  import opened Grid
  import opened Food

  /** The snake's cells, head first. The game never lets it become empty. */
  type Body = s: seq<Pos> | |s| >= 1 witness [Pos(0, 0)]

  /** The state hooks `rows`, `cols`, `snake`, `direction`, `food`, `gameOver`, `pause` and `topScore`. */
  datatype State = State(
    rows: Dim,
    cols: Dim,
    snake: Body,
    dir: Direction,
    food: Pos,
    gameOver: bool,
    paused: bool,
    topScore: nat)

  /** Board size and starting cell of every session. */
  const StartRows: Dim := 20
  const StartCols: Dim := 20
  const StartCell: Pos := Pos(0, 0)

  /** The current score: segments beyond the first, one per food eaten. */
  function Score(s: State): nat {
    |s.snake| - 1
  }

  /** Ticks take effect only while the game is neither over nor paused. */
  predicate Running(s: State) {
    !s.gameOver && !s.paused
  }

  predicate AllInGrid(rows: Dim, cols: Dim, body: seq<Pos>) {
    forall i :: 0 <= i < |body| ==> InGrid(rows, cols, body[i])
  }

  predicate Distinct(body: seq<Pos>) {
    forall i, j :: 0 <= i < j < |body| ==> body[i] != body[j]
  }

  /** Consecutive segments are orthogonal neighbours. */
  predicate Contiguous(body: seq<Pos>) {
    forall i :: 0 <= i < |body| - 1 ==> Adjacent(body[i], body[i + 1])
  }

  /** What holds of every state the game reaches. */
  predicate Invariant(s: State) {
    && AllInGrid(s.rows, s.cols, s.snake)
    && Distinct(s.snake)
    && Contiguous(s.snake)
    && InGrid(s.rows, s.cols, s.food)
  }

  /** The index of the first segment equal to `p`, or `None` when no segment is. */
  function FindIndex(body: seq<Pos>, p: Pos): (r: Option<nat>)
    ensures r.None? <==> p !in body
    ensures r.Some? ==> r.value < |body| && body[r.value] == p
    ensures r.Some? ==> forall j :: 0 <= j < r.value ==> body[j] != p
  {
    if body == [] then None
    else if body[0] == p then Some(0)
    else
      match FindIndex(body[1..], p)
      case None => None
      case Some(k) => Some(k + 1)
  }

  /**
    `Array.prototype.find` over the body looking for cell `p`: the first matching
    segment itself, or `None` (JavaScript's `undefined`). A found cell is an
    array and so always truthy; the collision test only asks whether one was found.
   */
  function Find(body: seq<Pos>, p: Pos): (r: Option<Pos>)
    ensures r.None? <==> p !in body
    ensures r.Some? ==> r.value == p && r.value in body
  {
    match FindIndex(body, p)
    case None => None
    case Some(k) => Some(body[k])
  }

  /** `updateTopScore`: the score of a snake of `length` segments replaces the top score only when it beats it. */
  function UpdateTopScore(top: nat, length: nat): (r: nat)
    ensures r >= top && r >= length - 1
    ensures r == top || r == length - 1
  {
    if length - 1 > top then length - 1 else top
  }

  /** The cell the head would move to on the next tick. */
  function NextHead(s: State): Pos {
    Advance(s.snake[0], s.dir)
  }

  /** The tick ends the game: the candidate head leaves the board or lands on any current segment, tail included. */
  predicate Collides(s: State) {
    !InGrid(s.rows, s.cols, NextHead(s)) || NextHead(s) in s.snake
  }

  /** The tick eats: no collision and the candidate head is the food cell. */
  predicate Eats(s: State) {
    !Collides(s) && NextHead(s) == s.food
  }

  /**
    `moveSnake`, one tick. `d` is the random draw `generateFood` would consume
    if the snake eats; it is unused otherwise.
   */
  function Step(s: State, d: Draw): (r: State)
    ensures !Running(s) ==> r == s
    ensures r.rows == s.rows && r.cols == s.cols && r.paused == s.paused
    ensures r.topScore >= s.topScore
    ensures Running(s) ==> (r.gameOver <==> Collides(s))
    ensures Running(s) && Collides(s) ==>
      r.snake == s.snake && r.food == s.food && r.dir == s.dir && r.topScore >= Score(s)
    ensures Running(s) && !Collides(s) ==>
      r.snake[0] == NextHead(s) && r.snake[1..] <= s.snake && r.dir == s.dir && r.topScore == s.topScore
    ensures |r.snake| == if Running(s) && Eats(s) then |s.snake| + 1 else |s.snake|
  {
    if !Running(s) then s
    else
      var head := Advance(s.snake[0], s.dir);
      if head.row < 0 || head.row >= s.rows || head.col < 0 || head.col >= s.cols || Find(s.snake, head).Some? then
        s.(gameOver := true, topScore := UpdateTopScore(s.topScore, |s.snake|))
      else
        var grown := [head] + s.snake;
        if head == s.food then
          s.(snake := grown, food := GenerateFood(s.rows, s.cols, d))
        else
          assert grown[1..][..|s.snake| - 1] == s.snake[..|s.snake| - 1];
          s.(snake := grown[..|grown| - 1])
  }

  /** The state of the first render: a one-cell snake at the corner heading right, with the stored top score. */
  function Initial(storedTop: nat, d: Draw): (r: State)
    ensures Invariant(r) && Running(r)
    ensures r.rows == StartRows && r.cols == StartCols
    ensures r.snake == [StartCell] && r.dir == Right
    ensures Score(r) == 0 && r.topScore == storedTop
  {
    State(StartRows, StartCols, [StartCell], Right, GenerateFood(StartRows, StartCols, d), false, false, storedTop)
  }

  /** `restartGame`: a fresh session on the same board that keeps the top score. */
  function Restart(s: State, d: Draw): (r: State)
    ensures Invariant(r) && Running(r)
    ensures r.snake == [StartCell] && r.dir == Right
    ensures r.rows == s.rows && r.cols == s.cols && r.topScore == s.topScore
  {
    s.(snake := [StartCell], dir := Right, food := GenerateFood(s.rows, s.cols, d), gameOver := false, paused := false)
  }

}
