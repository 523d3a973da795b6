/**
  Properties of one tick of `moveSnake`: when it does nothing, where the head
  goes, the three outcomes (collision, translation, growth) and the snake
  invariant it keeps.
 */
module Movement {
  import opened Grid
  import opened Food
  import opened Game

  function Max(a: nat, b: nat): nat {
    if a < b then b else a
  }

  /** A tick while the game is over or paused changes nothing, so any number of them is the same as none. */
  lemma IdleStepIsIdentity(s: State, d: Draw, d': Draw)
    requires !Running(s)
    ensures Step(s, d) == s
    ensures Step(Step(s, d), d') == Step(s, d)
  {
  }

  /** The candidate head is the orthogonal neighbour of the old head in the current direction. */
  lemma StepMovesHeadOneCell(s: State, d: Draw)
    requires Running(s) && !Collides(s)
    ensures Adjacent(s.snake[0], Step(s, d).snake[0])
    ensures Step(s, d).snake[0] == Advance(s.snake[0], s.dir)
  {
  }

  /**
    A colliding tick ends the game and touches nothing but the flag and the top
    score, which becomes the larger of the old top score and the current score.
   */
  lemma StepCollision(s: State, d: Draw)
    requires Running(s) && Collides(s)
    ensures Step(s, d).gameOver
    ensures Step(s, d).snake == s.snake && Step(s, d).food == s.food && Step(s, d).dir == s.dir
    ensures Step(s, d).topScore == Max(s.topScore, Score(s))
  {
  }

  /** A clear tick that misses the food translates the snake: new head in front, tail dropped, food kept. */
  lemma StepTranslates(s: State, d: Draw)
    requires Running(s) && !Collides(s) && NextHead(s) != s.food
    ensures !Step(s, d).gameOver
    ensures Step(s, d).snake == [NextHead(s)] + s.snake[..|s.snake| - 1]
    ensures |Step(s, d).snake| == |s.snake| && Step(s, d).food == s.food
    ensures Score(Step(s, d)) == Score(s)
  {
  }

  /** A clear tick onto the food grows the snake by the new head and places new food on the board. */
  lemma StepGrows(s: State, d: Draw)
    requires Running(s) && Eats(s)
    ensures !Step(s, d).gameOver
    ensures Step(s, d).snake == [NextHead(s)] + s.snake
    ensures |Step(s, d).snake| == |s.snake| + 1 && Score(Step(s, d)) == Score(s) + 1
    ensures Step(s, d).food == GenerateFood(s.rows, s.cols, d)
    ensures InGrid(s.rows, s.cols, Step(s, d).food)
  {
  }

  /** Dropping the last segment keeps a body in bounds, distinct and contiguous. */
  lemma DropLastKeeps(rows: Dim, cols: Dim, body: seq<Pos>)
    requires |body| >= 1
    requires AllInGrid(rows, cols, body) && Distinct(body) && Contiguous(body)
    ensures AllInGrid(rows, cols, body[..|body| - 1])
    ensures Distinct(body[..|body| - 1]) && Contiguous(body[..|body| - 1])
  {
  }

  /** Putting a fresh in-grid neighbour of the head in front keeps a body in bounds, distinct and contiguous. */
  lemma {:induction false} PrependKeeps(rows: Dim, cols: Dim, head: Pos, body: seq<Pos>)
    requires |body| >= 1
    requires AllInGrid(rows, cols, body) && Distinct(body) && Contiguous(body)
    requires InGrid(rows, cols, head) && head !in body && Adjacent(head, body[0])
    ensures AllInGrid(rows, cols, [head] + body)
    ensures Distinct([head] + body) && Contiguous([head] + body)
  {
    var grown := [head] + body;
    forall i, j | 0 <= i < j < |grown|
      ensures grown[i] != grown[j]
    {
      if i == 0 {
        assert grown[j] == body[j - 1];
      } else {
        assert grown[i] == body[i - 1] && grown[j] == body[j - 1];
      }
    }
    forall i | 0 <= i < |grown| - 1
      ensures Adjacent(grown[i], grown[i + 1])
    {
      if i > 0 {
        assert grown[i] == body[i - 1] && grown[i + 1] == body[i];
      }
    }
  }

  /**
    Every tick keeps the snake on the board, free of overlaps and contiguous, and
    the food on the board. The collision test is what keeps the new head fresh.
   */
  lemma StepPreservesInvariant(s: State, d: Draw)
    requires Invariant(s)
    ensures Invariant(Step(s, d))
  {
    if Running(s) && !Collides(s) {
      var head := NextHead(s);
      PrependKeeps(s.rows, s.cols, head, s.snake);
      if head != s.food {
        DropLastKeeps(s.rows, s.cols, [head] + s.snake);
        assert ([head] + s.snake)[..|s.snake|] == [head] + s.snake[..|s.snake| - 1];
      }
    }
  }

  /** Once a tick has ended the game, further ticks change nothing. */
  lemma GameOverIsFinal(s: State, d: Draw, d': Draw)
    requires Step(s, d).gameOver
    ensures Step(Step(s, d), d') == Step(s, d)
  {
  }

  /**
    With no reversal guard, heading straight back towards the second segment is
    a self-collision: the candidate head is that segment.
   */
  lemma ReversalIsFatal(s: State, d: Draw)
    requires Running(s) && |s.snake| >= 2 && Advance(s.snake[0], s.dir) == s.snake[1]
    ensures Step(s, d).gameOver
  {
  }

  /**
    The collision test runs against the body before the move, so moving onto the
    tail's cell ends the game even on a tick that would have vacated it.
   */
  lemma TailCellIsFatal(s: State, d: Draw)
    requires Running(s) && NextHead(s) == s.snake[|s.snake| - 1]
    ensures Step(s, d).gameOver
  {
  }

}
