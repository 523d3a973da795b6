/**
  A session as a sequence of events: ticks of the interval, key presses, button
  clicks and restarts, applied one after another to the game state.
 */
module Session {
  import opened Grid
  import opened Food
  import opened Game
  import opened Input
  import Movement

  datatype Event =
    | Tick(draw: Draw)
    | KeyPress(code: int)
    | ArrowButton(dir: Direction)
    | PauseButton
    | RestartButton(draw: Draw)

  /**
    One event. The Restart button is rendered only on the game-over screen, so
    a click on it can only happen while the game is over.
   */
  function Apply(s: State, e: Event): (r: State)
    ensures r.rows == s.rows && r.cols == s.cols
    ensures r.topScore >= s.topScore
  {
    match e
    case Tick(d) => Step(s, d)
    case KeyPress(code) => HandleKey(s, code)
    case ArrowButton(dir) => PressArrowButton(s, dir)
    case PauseButton => PressPauseButton(s)
    case RestartButton(d) => if s.gameOver then Restart(s, d) else s
  }

  /** The state after the events `es`, in order. */
  function Run(s: State, es: seq<Event>): State
    decreases |es|
  {
    if es == [] then s else Run(Apply(s, es[0]), es[1..])
  }

  /** Every event keeps the invariant. */
  lemma ApplyPreservesInvariant(s: State, e: Event)
    requires Invariant(s)
    ensures Invariant(Apply(s, e))
  {
    if e.Tick? {
      Movement.StepPreservesInvariant(s, e.draw);
    }
  }

  /** Any sequence of events keeps the snake on the board, overlap-free and contiguous, and the food on the board. */
  lemma {:induction false} RunPreservesInvariant(s: State, es: seq<Event>)
    requires Invariant(s)
    ensures Invariant(Run(s, es))
    decreases |es|
  {
    if es != [] {
      ApplyPreservesInvariant(s, es[0]);
      RunPreservesInvariant(Apply(s, es[0]), es[1..]);
    }
  }

  /** Every state reachable from the first render satisfies the invariant. */
  lemma ReachableStatesAreValid(storedTop: nat, d: Draw, es: seq<Event>)
    ensures Invariant(Run(Initial(storedTop, d), es))
  {
    RunPreservesInvariant(Initial(storedTop, d), es);
  }

  /** The top score never decreases over any sequence of ticks, keys, clicks and restarts; the board never changes. */
  lemma {:induction false} RunTopScoreMonotone(s: State, es: seq<Event>)
    ensures Run(s, es).topScore >= s.topScore
    ensures Run(s, es).rows == s.rows && Run(s, es).cols == s.cols
    decreases |es|
  {
    if es != [] {
      RunTopScoreMonotone(Apply(s, es[0]), es[1..]);
    }
  }

  predicate AllTicks(es: seq<Event>) {
    forall i :: 0 <= i < |es| ==> es[i].Tick?
  }

  /** Ticks while the game is over or paused, however many, leave the state as it is. */
  lemma {:induction false} IdleTicksChangeNothing(s: State, es: seq<Event>)
    requires !Running(s) && AllTicks(es)
    ensures Run(s, es) == s
    decreases |es|
  {
    if es != [] {
      assert es[0].Tick?;
      IdleTicksChangeNothing(Apply(s, es[0]), es[1..]);
    }
  }

  /** A grid of the given size, a snake, a direction and a food cell, with the game running and no top score. */
  function Playing(rows: Dim, cols: Dim, snake: Body, dir: Direction, food: Pos): State {
    State(rows, cols, snake, dir, food, false, false, 0)
  }

  /** A 5 x 5 board, snake at (2,2) heading right onto the food at (2,3): the snake grows to two cells and the score is 1. */
  lemma EatingScenario(d: Draw)
    ensures Step(Playing(5, 5, [Pos(2, 2)], Right, Pos(2, 3)), d).snake == [Pos(2, 3), Pos(2, 2)]
    ensures Score(Step(Playing(5, 5, [Pos(2, 2)], Right, Pos(2, 3)), d)) == 1
  {
  }

  /** A 5 x 5 board, snake along the top row heading up: the head leaves the board and the top score becomes 2. */
  lemma WallScenario(d: Draw)
    ensures Step(Playing(5, 5, [Pos(0, 2), Pos(0, 1), Pos(0, 0)], Up, Pos(4, 4)), d).gameOver
    ensures Step(Playing(5, 5, [Pos(0, 2), Pos(0, 1), Pos(0, 0)], Up, Pos(4, 4)), d).topScore == 2
  {
  }

  /** A running snake (1,1),(1,0) heading right: pressing LEFT and ticking runs the head into the neck. */
  lemma ReversalScenario(s: State, d: Draw)
    requires Running(s) && s.snake == [Pos(1, 1), Pos(1, 0)] && s.dir == Right
    ensures Run(s, [KeyPress(KeyLeft), Tick(d)]).gameOver
  {
    var left := HandleKey(s, KeyLeft);
    assert left.dir == Left;
    Movement.ReversalIsFatal(left, d);
    RunTwo(s, KeyPress(KeyLeft), Tick(d));
  }

  /**
    The same snake on a 5 x 5 board with the food elsewhere: pressing LEFT then
    RIGHT before the tick leaves it heading right, onto (1,2).
   */
  lemma ReversalUndoneScenario(s: State, d: Draw)
    requires Running(s) && s.rows == 5 && s.cols == 5 && s.snake == [Pos(1, 1), Pos(1, 0)] && s.dir == Right
    requires s.food != Pos(1, 2)
    ensures Run(s, [KeyPress(KeyLeft), KeyPress(KeyRight), Tick(d)]).snake == [Pos(1, 2), Pos(1, 1)]
  {
    var left := HandleKey(s, KeyLeft);
    assert HandleKey(left, KeyRight) == s;
    var es := [KeyPress(KeyLeft), KeyPress(KeyRight), Tick(d)];
    assert es[0] == KeyPress(KeyLeft) && es[1..] == [KeyPress(KeyRight), Tick(d)];
    assert Run(s, es) == Run(left, [KeyPress(KeyRight), Tick(d)]);
    RunTwo(left, KeyPress(KeyRight), Tick(d));
    assert NextHead(s) == Pos(1, 2) && !Collides(s);
    Movement.StepTranslates(s, d);
  }

  /** Pausing with P makes ticks no-ops until P is pressed again. */
  lemma PauseScenario(s: State, d: Draw)
    requires Running(s)
    ensures Run(s, [KeyPress(KeyPause), Tick(d), Tick(d)]) == HandleKey(s, KeyPause)
    ensures Run(s, [KeyPress(KeyPause), Tick(d), KeyPress(KeyPause)]) == s
  {
    var paused := HandleKey(s, KeyPause);
    assert [KeyPress(KeyPause), Tick(d), Tick(d)][1..] == [Tick(d), Tick(d)];
    assert [KeyPress(KeyPause), Tick(d), KeyPress(KeyPause)][1..] == [Tick(d), KeyPress(KeyPause)];
    RunTwo(paused, Tick(d), Tick(d));
    RunTwo(paused, Tick(d), KeyPress(KeyPause));
  }

  /** Two events run one after the other. */
  lemma RunTwo(s: State, e1: Event, e2: Event)
    ensures Run(s, [e1, e2]) == Apply(Apply(s, e1), e2)
  {
    var s1 := Apply(s, e1);
    assert [e1, e2][0] == e1 && [e1, e2][1..] == [e2];
    assert Run(s, [e1, e2]) == Run(s1, [e2]);
    assert [e2][0] == e2 && [e2][1..] == [];
    assert Run(s1, [e2]) == Run(Apply(s1, e2), []);
  }

  /** Restarting after game over gives a one-cell snake at the corner heading right, with the top score kept. */
  lemma RestartScenario(s: State, d: Draw)
    requires s.gameOver
    ensures Run(s, [RestartButton(d)]).snake == [StartCell]
    ensures Run(s, [RestartButton(d)]).dir == Right && Running(Run(s, [RestartButton(d)]))
    ensures Run(s, [RestartButton(d)]).topScore == s.topScore
  {
    var es := [RestartButton(d)];
    assert es[0] == RestartButton(d) && es[1..] == [];
    assert Run(s, es) == Run(Restart(s, d), []);
  }

  /** A restart on the starting board is the first render with the top score carried over. */
  lemma RestartIsFirstRender(s: State, d: Draw)
    requires s.rows == StartRows && s.cols == StartCols
    ensures Restart(s, d) == Initial(s.topScore, d)
  {
  }

  /**
    Food placement does not avoid the body: on a 1 x 2 board, eating at (0,1)
    with a zero draw puts the new food at (0,0), under the snake's tail.
   */
  lemma FoodCanLandOnSnake()
    ensures Step(Playing(1, 2, [Pos(0, 0)], Right, Pos(0, 1)), Draw(0.0, 0.0)).food
      in Step(Playing(1, 2, [Pos(0, 0)], Right, Pos(0, 1)), Draw(0.0, 0.0)).snake
  {
  }

  /**
    The tail counts as an obstacle: a four-cell snake circling a 2 x 2 board dies
    moving onto its tail's cell although the tail would leave it on that tick.
   */
  lemma TailChaseScenario(d: Draw)
    ensures Step(Playing(2, 2, [Pos(0, 0), Pos(1, 0), Pos(1, 1), Pos(0, 1)], Right, Pos(0, 0)), d).gameOver
    ensures Invariant(Playing(2, 2, [Pos(0, 0), Pos(1, 0), Pos(1, 1), Pos(0, 1)], Right, Pos(0, 0)))
  {
    var s := Playing(2, 2, [Pos(0, 0), Pos(1, 0), Pos(1, 1), Pos(0, 1)], Right, Pos(0, 0));
    assert NextHead(s) == s.snake[3];
    assert Distinct(s.snake) by {
      forall i, j | 0 <= i < j < 4
        ensures s.snake[i] != s.snake[j]
      {
      }
    }
  }

}
