/**
  Player input: the `keydown` handler (`handleKeyPress`) and the on-screen
  arrow and pause buttons. Any arrow sets the direction outright: there is no
  guard against reversing into the body.
 */
module Input {
  import opened Options
  import opened Grid
  import opened Game

  const KeyLeft: int := 37
  const KeyUp: int := 38
  const KeyRight: int := 39
  const KeyDown: int := 40
  /** Key code of the letter P. */
  const KeyPause: int := 80

  /** The arrow key that requests direction `d`. */
  function KeyCode(d: Direction): (c: int)
    ensures KeyLeft <= c <= KeyDown
  {
    match d
    case Left => KeyLeft
    case Up => KeyUp
    case Right => KeyRight
    case Down => KeyDown
  }

  /** The direction an arrow key requests; `None` for every other key. */
  function KeyDirection(code: int): (r: Option<Direction>)
    ensures r.Some? <==> KeyLeft <= code <= KeyDown
    ensures r.Some? ==> KeyCode(r.value) == code
  {
    if code == KeyLeft then Some(Left)
    else if code == KeyUp then Some(Up)
    else if code == KeyRight then Some(Right)
    else if code == KeyDown then Some(Down)
    else None
  }

  /** Arrow keys and directions correspond one to one. */
  lemma KeyCodeRoundTrip(d: Direction, code: int)
    ensures KeyDirection(KeyCode(d)) == Some(d)
    ensures KeyDirection(code) == Some(d) <==> code == KeyCode(d)
  {
  }

  /**
    `handleKeyPress`: once the game is over every key is ignored; otherwise an
    arrow key sets the direction, P flips the pause flag and other keys do nothing.
   */
  function HandleKey(s: State, code: int): (r: State)
    ensures s.gameOver ==> r == s
    ensures r.rows == s.rows && r.cols == s.cols && r.snake == s.snake && r.food == s.food
    ensures r.gameOver == s.gameOver && r.topScore == s.topScore
    ensures !s.gameOver && KeyLeft <= code <= KeyDown ==> r.dir == KeyDirection(code).value && r.paused == s.paused
    ensures !s.gameOver && code == KeyPause ==> r.paused == !s.paused && r.dir == s.dir
    ensures !(KeyLeft <= code <= KeyDown) && code != KeyPause ==> r == s
  {
    if s.gameOver then s
    else
      match KeyDirection(code)
      case Some(d) => s.(dir := d)
      case None => if code == KeyPause then s.(paused := !s.paused) else s
  }

  /** An on-screen arrow button: it sets the direction without looking at the game-over flag. */
  function PressArrowButton(s: State, d: Direction): (r: State)
    ensures r.dir == d
    ensures r.(dir := s.dir) == s
  {
    s.(dir := d)
  }

  /** The on-screen Pause/Resume button: it flips the pause flag without looking at the game-over flag. */
  function PressPauseButton(s: State): (r: State)
    ensures r.paused != s.paused
    ensures r.(paused := s.paused) == s
  {
    s.(paused := !s.paused)
  }

  /** While the game runs, an arrow key and the matching button have the same effect. */
  lemma KeyMatchesArrowButton(s: State, d: Direction)
    requires !s.gameOver
    ensures HandleKey(s, KeyCode(d)) == PressArrowButton(s, d)
  {
  }

  /** While the game runs, P and the pause button have the same effect. */
  lemma KeyMatchesPauseButton(s: State)
    requires !s.gameOver
    ensures HandleKey(s, KeyPause) == PressPauseButton(s)
  {
  }

  /** Pressing P twice while the game runs restores the state. */
  lemma PauseTwiceIsIdentity(s: State)
    ensures HandleKey(HandleKey(s, KeyPause), KeyPause) == s
  {
  }

  /** The last arrow key pressed before a tick decides the direction; earlier ones leave no trace. */
  lemma LastArrowWins(s: State, d1: Direction, d2: Direction)
    requires !s.gameOver
    ensures HandleKey(HandleKey(s, KeyCode(d1)), KeyCode(d2)) == HandleKey(s, KeyCode(d2))
  {
  }

  /** No reversal guard: the key opposite to the current direction is obeyed whatever the snake's length. */
  lemma ReverseKeyIsObeyed(s: State)
    requires !s.gameOver
    ensures HandleKey(s, KeyCode(Opposite(s.dir))).dir == Opposite(s.dir)
  {
  }

  /** After game over the keyboard is dead but the arrow buttons still turn the snake. */
  lemma ButtonsBypassGameOver(s: State, d: Direction)
    requires s.gameOver
    ensures HandleKey(s, KeyCode(d)) == s
    ensures PressArrowButton(s, d).dir == d
    ensures PressPauseButton(s).paused != s.paused
  {
  }

}
