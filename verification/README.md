# Snake game-state machine

A Dafny model of the game logic inside the `App` component of a React snake game
(`src/App.js`). The snake moves on a fixed grid (20 x 20 in the game), eats food to
grow, and dies on hitting a wall or itself. The model covers the state held in the
component's hooks, the tick `moveSnake`, the keyboard handler `handleKeyPress`, the
on-screen arrow and pause buttons, `generateFood`, `restartGame` and `updateTopScore`.

Every operation is a pure function on an immutable `Game.State`. `Math.random()` is
replaced by a caller-supplied real `u` in [0, 1) (`Food.Unit`), and a food cell is
`Math.floor(u * n)` per coordinate, as in the source. A session is a sequence of
events (`Session.Event`: tick, key press, button click, restart), and `Session.Run`
applies them in order.

Modules:

- `Options`: `Option`, whose `None` models JavaScript's `undefined` result of `find`.
- `Grid`: cells, directions, the one-cell step `Advance` and orthogonal adjacency.
- `Food`: turning a random draw into a food cell.
- `Game`: the state, the snake invariant, `FindIndex` and `Find`, `UpdateTopScore`, `Step`, `Initial`, `Restart`.
- `Movement`: lemmas about one tick: no-op states, the three outcomes, and preservation of the invariant.
- `Input`: `HandleKey` and the on-screen buttons.
- `Session`: runs of events, whole-run invariants, top-score monotonicity and concrete scenarios.

The model follows the code as written. In particular:

- There is no reversal guard and no queued "pending" direction. An arrow key sets the direction at once, even the direction opposite to the current one.
- Food placement does not avoid the snake.
- Collision is tested against the body before the move, tail included.

## Model

| member | source | states |
|---|---|---|
| Grid.Advance | src/App.js:145-162 | the candidate head is an orthogonal neighbour of the old head; LEFT/RIGHT keep the row and decrease/increase the column; UP/DOWN keep the column and decrease/increase the row |
| Grid.AdvanceOpposite | src/App.js:145-162 | a step followed by a step in the opposite direction returns to the starting cell |
| Grid.AdvanceInjective | src/App.js:145-162 | the four directions lead to four different cells |
| Grid.AdjacentIsAdvance | src/App.js:145-162 | a cell is reachable in one step exactly when it is an orthogonal neighbour |
| Food.Pick | src/App.js:182 | `Math.floor(u * n)` for `u` in [0, 1) is an index in [0, n) |
| Food.SliceStart | src/App.js:182 | every index in [0, n) is produced by some random draw |
| Food.GenerateFood | src/App.js:181-183 | new food has row in [0, rows) and column in [0, cols) |
| Food.GenerateFoodReachesEveryCell | src/App.js:181-183 | every cell of the grid is a possible food cell, so nothing excludes the snake's own cells |
| Game.FindIndex | src/App.js:165 | the search over the body gives `None` exactly when the cell is not a segment, and otherwise the first index holding it |
| Game.Find | src/App.js:165 | `find` returns the first matching segment, which is the searched cell, and `undefined` exactly when the cell is not a segment; line 165 only tests whether anything was found |
| Game.UpdateTopScore | src/App.js:193-198 | the new top score is the larger of the old top score and the current score (length - 1) |
| Game.Step | src/App.js:142-179 | a tick while over or paused changes nothing; it ends the game exactly when the candidate head is off-grid or on a segment; it never lowers the top score; the length grows by one exactly on an eating tick and is otherwise kept |
| Game.Initial | src/App.js:88-98 | the first state is a running 20 x 20 board with snake `[(0,0)]` heading RIGHT, satisfies the snake invariant, has score 0 and carries the stored top score |
| Game.Restart | src/App.js:185-191 | restart gives a running one-cell snake at (0,0) heading RIGHT on the same board, satisfying the invariant, with the top score kept |
| Movement.IdleStepIsIdentity | src/App.js:143 | a tick while over or paused is the identity, so repeating it changes nothing |
| Movement.StepMovesHeadOneCell | src/App.js:145-171 | on a clear tick the new head is the old head's neighbour in the current direction |
| Movement.StepCollision | src/App.js:165-169 | a colliding tick sets game over, keeps snake, food and direction, and sets the top score to the maximum of the old one and length - 1 |
| Movement.StepTranslates | src/App.js:171-177 | a clear tick that misses the food gives `[head] + old[..|old|-1]`: same length, same score, same food |
| Movement.StepGrows | src/App.js:171-173 | a clear tick onto the food gives `[head] + old`: length and score grow by one and the new food is on the board |
| Movement.DropLastKeeps | src/App.js:175 | dropping the tail keeps the body in bounds, distinct and contiguous |
| Movement.PrependKeeps | src/App.js:165-171 | adding an in-grid, unoccupied neighbour of the head in front keeps the body in bounds, distinct and contiguous |
| Movement.StepPreservesInvariant | src/App.js:142-179 | every tick keeps all segments in bounds, distinct and contiguous, and the food in bounds |
| Movement.GameOverIsFinal | src/App.js:143-168 | once a tick has ended the game, later ticks change nothing |
| Movement.ReversalIsFatal | src/App.js:165 | heading straight back onto the second segment is a self-collision |
| Movement.TailCellIsFatal | src/App.js:165 | moving onto the tail's cell ends the game although the tail would have moved away |
| Input.KeyCode | src/App.js:120-132 | each direction has an arrow key code in 37..40 |
| Input.KeyDirection | src/App.js:120-132 | exactly the codes 37..40 request a direction, and that direction's key code is the code pressed |
| Input.KeyCodeRoundTrip | src/App.js:120-132 | key codes and directions correspond one to one |
| Input.HandleKey | src/App.js:118-140 | after game over every key is ignored; otherwise 37..40 set LEFT/UP/RIGHT/DOWN and nothing else, 80 flips only the pause flag, and other keys change nothing |
| Input.PressArrowButton | src/App.js:228-233 | an arrow button sets the direction, whatever the game-over flag, and changes nothing else |
| Input.PressPauseButton | src/App.js:234 | the pause button flips the pause flag, whatever the game-over flag, and changes nothing else |
| Input.KeyMatchesArrowButton | src/App.js:121-132 | while the game runs, an arrow key acts exactly like the matching button |
| Input.KeyMatchesPauseButton | src/App.js:133-134 | while the game runs, P acts exactly like the pause button |
| Input.PauseTwiceIsIdentity | src/App.js:133-134 | pressing P twice restores the state |
| Input.LastArrowWins | src/App.js:121-132 | of two arrow keys pressed between ticks only the last one matters |
| Input.ReverseKeyIsObeyed | src/App.js:121-132 | the key opposite to the current direction is obeyed: no reversal guard |
| Input.ButtonsBypassGameOver | src/App.js:228-234 | after game over the keys do nothing but the arrow and pause buttons still change direction and pause |
| Session.Apply | src/App.js:220-234 | no event changes the board size or lowers the top score |
| Session.ApplyPreservesInvariant | src/App.js:142-191 | every event keeps the snake invariant |
| Session.RunPreservesInvariant | src/App.js:142-191 | any sequence of events keeps the snake invariant |
| Session.ReachableStatesAreValid | src/App.js:88-98 | every state reachable from the first render satisfies the snake invariant |
| Session.RunTopScoreMonotone | src/App.js:193-198 | the top score never decreases over any sequence of ticks, keys, clicks and restarts |
| Session.IdleTicksChangeNothing | src/App.js:143 | any number of ticks while over or paused leave the state unchanged |
| Session.EatingScenario | src/App.js:171-173 | on a 5 x 5 board, snake (2,2) heading right onto food at (2,3) becomes (2,3),(2,2) with score 1 |
| Session.WallScenario | src/App.js:165-169 | a three-cell snake on the top row heading up dies and the top score becomes 2 |
| Session.ReversalScenario | src/App.js:121-132 | a running snake (1,1),(1,0) heading right, on any board: LEFT then a tick is a self-collision |
| Session.ReversalUndoneScenario | src/App.js:121-132 | the same snake on a 5 x 5 board with the food elsewhere: LEFT then RIGHT then a tick moves it on to (1,2),(1,1) |
| Session.PauseScenario | src/App.js:133-134 | after P, ticks are no-ops until P is pressed again |
| Session.RestartScenario | src/App.js:185-191 | restart after game over gives snake (0,0), direction RIGHT, a running game and the same top score |
| Session.RestartIsFirstRender | src/App.js:185-191 | restart on the 20 x 20 board is the first render with the top score carried over |
| Session.FoodCanLandOnSnake | src/App.js:181-183 | food can be placed on a cell of the snake |
| Session.TailChaseScenario | src/App.js:165 | a valid four-cell snake circling a 2 x 2 board dies moving onto its tail's cell |

## Left out

- Rendering, styled-components, cell colouring and the dark-mode toggle (src/App.js:1-81, 200-241): presentation only. The one rendering fact kept is that the Restart button exists only on the game-over screen (`Session.Apply` ignores a restart click otherwise).
- The `setInterval` timer and the `keydown` listener wiring (src/App.js:100-112): the model defines what one tick or one key does, not when it happens.
- `localStorage` reads and writes of `topScore` and `darkMode` (src/App.js:84-87, 95-98, 114-116, 196): external storage. The stored top score is an input `nat` to `Game.Initial`; a stored value that `parseInt` turns into `NaN` or a negative number is not modelled.
- `Math.random` (src/App.js:92, 182, 188): replaced by the caller-supplied draw `Food.Draw`.
- React stale closures and state batching. The `keydown` listener is registered once, so at run time it sees the first render's `gameOver` value. The interval's `moveSnake` is re-created only when `snake` or `pause` change, so it can see an old direction. `Input.HandleKey` and `Game.Step` model the handlers as written, reading the current state.
- Food.Pick: the product `u * n` is exact real arithmetic; floating-point rounding of `Math.random() * n` is not modelled.
- The board size: `rows` and `cols` are fixed at 20 by the game (`setRows` and `setCols` are never called). The model lets any positive size be used, and a session never changes it.
