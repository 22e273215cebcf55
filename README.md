# Snake and Tic-Tac-Toe engines, modelled in Dafny

This project models the two discrete game engines of a browser mini-games page.

**Snake** (`assets/js/snake.js`, class `SnakeGame`) is a grid simulation. Its state is:
- the body, a head-first list of cells;
- the committed direction and the pending direction;
- the apple;
- the score, the best-score record and the liveness flag.

The frame callback runs one step at most every 120 ms. Each step first commits the pending direction. The snake then dies (on a wall, or on any body cell, the tail included), grows (on the apple) or moves one cell. Arrow keys set the pending direction unless the key is the exact opposite of the committed direction. A swipe sets it by the larger delta, with no reversal check. A new apple comes from rejection sampling over random cells.

**Tic-Tac-Toe** (`assets/js/tic_tac_toe.js`, class `TicTacToe`) is a 3×3 board state machine:
- X moves first and the turns alternate;
- a move on an occupied cell, or after the game has ended, is ignored;
- completing a row, column or diagonal wins, and the winner's side scores;
- a full board with no line is a draw;
- the player's score is written to the record store only when it beats the stored value.

Layout:
- `wrappers.dfy`: module `Wrappers`, the `Option` type.
- `snake_rules.dfy`: module `Snake`. It holds cells and directions, the key and swipe filters, the touch tracker, the apple's sampling (`FirstFree`), the state value `Game`, the step function `Step` and the invariant `Inv` with its preservation lemmas.
- `snake_grid.dfy`: module `SnakeGrid`. It counts the grid: a free cell exists exactly when the body is not the whole grid.
- `snake_engine.dfy`: module `SnakeEngine`. Class `SnakeGame` has the source's fields. Its methods are specified by the functions of `Snake`, and `Valid()` is `Inv` of the current state.
- `tic_tac_toe_rules.dfy`: module `TicTacToe`. It holds the board, the eight lines, the winner check (a method with the source's loop, proved against the line predicate `HasLine`), the draw check, one move (`Move`), the record rule and the game invariant.
- `tic_tac_toe_engine.dfy`: module `TicTacToeEngine`. Class `TicTacToeGame` has the source's fields, and its methods are specified by `Move` and `Restart`.

Randomness is a parameter. Every Snake operation that may place an apple takes `candidates`, the cells the random source would produce, in order. Each candidate is in the grid, as `Math.floor(Math.random() * count)` guarantees. The operation needs one candidate to be off the body. Time is a parameter too: an integer number of milliseconds.

The grid size is `canvas.width / 20`, which may be fractional in the source. Head coordinates are integers, so `head.x >= count` behaves like `head.x >= ceil(count)`. `Math.floor(Math.random() * count)` ranges over `0 .. ceil(count) - 1`. The model therefore uses an integer `count`, standing for that ceiling.

## Model

| member | source | states |
|---|---|---|
| Snake.KeyVector | assets/js/snake.js:114-120 | a key maps to a direction iff it is one of the four arrow keys; ArrowUp, ArrowDown, ArrowLeft and ArrowRight each map to their own unit direction, and each direction comes from that key alone |
| Snake.PressKey | assets/js/snake.js:120-123 | the pending direction changes only to a mapped key's direction that is not the exact opposite of the committed direction, and always does for such a key; unmapped or opposite keys leave it unchanged |
| Snake.KeysNeverReverse | assets/js/snake.js:121-123 | key presses alone never make the pending direction the opposite of the committed one |
| Snake.Swipe | assets/js/snake.js:133-139 | the result is always one of the four unit vectors; it is horizontal iff abs(dx) > abs(dy), right iff additionally dx > 0, down iff vertical and dy > 0, so ties and zero deltas give up; no reversal check |
| Snake.TouchMoveAsWritten | assets/js/snake.js:132-141 | the handler as written: it steers by the delta from the remembered start, then resets the start to (0, 0) |
| Snake.SteersAsWritten | assets/js/snake.js:128-141 | as written, a gesture yields one steer per touchmove, the first measured from the touchstart position |
| Snake.LaterMovesSteerByPosition | assets/js/snake.js:132-141 | as written, every touchmove after the first of a gesture steers by the swipe of its absolute screen coordinates, whatever the start |
| Snake.ContinuedSwipeReverses | assets/js/snake.js:132-141 | as written, a gesture started at (300,100) that moves to (250,100), then (249,100), steers Left and then Right |
| Snake.TouchMove | assets/js/snake.js:132-141 | corrected handler: steers (by the swipe classifier on the delta from the start) iff the gesture has not steered yet, and then disarms it |
| Snake.GestureSteersOnce | assets/js/snake.js:128-141 | corrected: a gesture from touchstart on steers at most once, by its first move measured from the start |
| Snake.FirstFree | assets/js/snake.js:43-50 | the sampling loop's choice: the first candidate off the body; every earlier candidate is on the body |
| Snake.ResetGame | assets/js/snake.js:31-39 | after reset: body [(5,5)], both directions (1,0), score 0, alive, record kept, apple a sampled cell other than (5,5) |
| Snake.ResetEstablishesInv | assets/js/snake.js:31-39 | the reset state satisfies the invariant (length = score + 1, distinct cells in the grid, apple in the grid and off the body, record ≥ score) |
| Snake.Step | assets/js/snake.js:62-97 | direction committed first; death iff the new head leaves [0, count) on an axis or hits any body cell, the tail included, with body, score, apple and record unchanged; a plain move is new head + old body minus its last cell (same length); eating adds one point and one cell, raises the record to max(record, score) and places the new apple in the grid off the new body |
| Snake.StepPreservesInv | assets/js/snake.js:62-97 | every step keeps length = score + 1, no duplicate cells, all cells in the grid, a connected body, the apple in the grid and off the body, record ≥ score, and while alive the head one committed step ahead of the second cell |
| Snake.ReverseIsFatal | assets/js/snake.js:63-80 | a live snake of two or more cells whose pending direction is the opposite of the committed one dies on the next step |
| SnakeGrid.FreeCellIffNotFull | assets/js/snake.js:43-50 | for distinct in-grid cells, a free grid cell exists iff there are fewer cells than count², so the sampling loop can end iff the board is not full |
| SnakeGrid.LastAppleStarves | assets/js/snake.js:43-50 | when the snake eats the apple in the last free cell, no stream of in-grid cells has a cell off the grown body, so the step cannot be fed and the source's sampling loop would not end |
| SnakeEngine.SnakeGame.constructor | assets/js/snake.js:17-29 | reads the stored record, then resets: the state is the reset state with the stored record and the invariant holds |
| SnakeEngine.SnakeGame.Reset | assets/js/snake.js:31-41 | fields become the reset state (record kept), the last frame time is 0, and the invariant holds from any prior state |
| SnakeEngine.SnakeGame.SpawnApple | assets/js/snake.js:43-50 | do-while loop over the random stream: the apple becomes the first candidate off the body, so it is in the grid and on no body cell |
| SnakeEngine.SnakeGame.Loop | assets/js/snake.js:52-60 | steps (state = Step of the old state, last frame time := time) only when alive and time − last frame time ≥ 120; otherwise nothing changes; the invariant holds across every frame |
| SnakeEngine.SnakeGame.Update | assets/js/snake.js:62-97 | the in-place step (unshift the head, pop the tail unless eating) leaves exactly Step of the old state; it needs only a non-empty body |
| SnakeEngine.SnakeGame.KeyDown | assets/js/snake.js:113-124 | the pending direction becomes PressKey of the key, the committed direction and the old pending direction; nothing else changes |
| SnakeEngine.SnakeGame.TouchStart | assets/js/snake.js:128-131 | remembers the touch position as the gesture start and arms the gesture |
| SnakeEngine.SnakeGame.TouchMoved | assets/js/snake.js:132-141 | corrected handler: an armed gesture sets the pending direction to the swipe of its delta and disarms; otherwise nothing changes |
| SnakeEngine.SnakeGame.Stop | assets/js/snake.js:144-150 | the game is no longer alive and nothing else changes; a valid game stays valid |
| SnakeEngine.SnakeGame.Start | assets/js/snake.js:151-155 | a dead or stopped game is reset and becomes valid; a live game is left untouched; the game is alive afterwards and the touch tracker is unchanged |
| SnakeEngine.SnakeGame.IsRunning | assets/js/snake.js:175-177 | reports the liveness flag |
| SnakeEngine.SnakeGame.GetState | assets/js/snake.js:156-164 | returns body, apple, score, record and liveness (not the directions) |
| SnakeEngine.SnakeGame.SetState | assets/js/snake.js:165-174 | copies the five fields in unchecked; no invariant is promised afterwards |
| TicTacToe.CheckWinner | assets/js/tic_tac_toe.js:82-91 | the loop over rows and columns, then the two diagonals, returns true iff some row, column or diagonal holds three equal non-empty marks |
| TicTacToe.HasLineCases | assets/js/tic_tac_toe.js:84-89 | a line exists iff one of the three rows, three columns or two diagonals is complete |
| TicTacToe.Flat | assets/js/tic_tac_toe.js:94 | the flattened board lists the nine cells in reading order |
| TicTacToe.IsDraw | assets/js/tic_tac_toe.js:93-95 | the draw check as written (every entry of the flattened board is a mark) holds iff no cell of the board is empty |
| TicTacToe.FullIffNineMarks | assets/js/tic_tac_toe.js:93-95 | the board is full (no cell empty) iff X and O marks number nine |
| TicTacToe.SaveRecord | assets/js/tic_tac_toe.js:17-23 | the stored value changes only to a strictly higher player score, so it never decreases and ends at max(stored, player) |
| TicTacToe.Restart | assets/js/tic_tac_toe.js:47-50 | init: all-empty board, X to move, no winner; player score, computer score and record unchanged |
| TicTacToe.RestartEstablishesInv | assets/js/tic_tac_toe.js:47-50 | a restarted game satisfies the game invariant |
| TicTacToe.Place | assets/js/tic_tac_toe.js:63 | the chosen cell takes the mark and every other cell is unchanged |
| TicTacToe.Move | assets/js/tic_tac_toe.js:55-80 | after a finished game or on an occupied cell nothing changes; on a completed line the mover wins, keeps the turn, X's win scores for the player and O's for the computer, and the record is saved; a draw exactly on a full board with no line, with the turn kept; otherwise the turn flips and nothing is scored |
| TicTacToe.QuietMove | assets/js/tic_tac_toe.js:72-76 | a legal move that completes no line and leaves a cell empty only places the mark and passes the turn |
| TicTacToe.MovePreservesInv | assets/js/tic_tac_toe.js:55-80 | every move keeps the invariant: while in progress count(X) − count(O) is 0 or 1 and it is X's turn iff they are equal, with no line and a free cell; a win has a line and names the last mover; a draw is full with no line, so never both; the record is at least the player score |
| TicTacToe.PlayPreservesInv | assets/js/tic_tac_toe.js:55-80 | any sequence of clicks from a valid state keeps the invariant |
| TicTacToe.FinishedIsFinal | assets/js/tic_tac_toe.js:56 | once there is a winner or a draw, every later sequence of clicks changes nothing |
| TicTacToe.TopRowExample | assets/js/tic_tac_toe.js:55-80 | X(0,0), O(1,1), X(0,1), O(2,2), X(0,2) from a fresh round ends with winner X, the player score one higher, the record saved and the top row full of X |
| TicTacToeEngine.TicTacToeGame.constructor | assets/js/tic_tac_toe.js:30-45 | a fresh round with both scores 0 next to the stored record; the invariant holds |
| TicTacToeEngine.TicTacToeGame.Init | assets/js/tic_tac_toe.js:47-53 | fields become Restart of the old state and the invariant holds |
| TicTacToeEngine.TicTacToeGame.HandleClick | assets/js/tic_tac_toe.js:55-80 | the click handler (after the cell lookup) ignores clicks after the end and on occupied cells, leaves exactly Move of the old state and keeps the invariant |
| TicTacToeEngine.TicTacToeGame.PlaceMark | assets/js/tic_tac_toe.js:63-76 | the legal-click branch, which assigns the field the board value with the clicked cell replaced: win, draw or turn flip, leaving exactly Move of the old state |
| TicTacToeEngine.TicTacToeGame.Save | assets/js/tic_tac_toe.js:17-23 | the stored record becomes SaveRecord of the old stored value and the player score |
| TicTacToeEngine.TicTacToeGame.IsRunning | assets/js/tic_tac_toe.js:149-151 | true iff there is no winner and no draw |
| TicTacToeEngine.TicTacToeGame.Start | assets/js/tic_tac_toe.js:140-142 | a new round: Restart of the old state |
| TicTacToeEngine.TicTacToeGame.Reset | assets/js/tic_tac_toe.js:153-156 | a new round: Restart of the old state |

## Findings

| source | as written | input that shows it | evidently intended | confidence | as-written member | corrected member |
|---|---|---|---|---|---|---|
| assets/js/snake.js:132-141 | after each touchmove the gesture start is set to (0, 0); the comment calls this "prevent multi-move", but every later touchmove of the same gesture is then measured from the screen corner and steers again | touchstart at (300,100), touchmove to (250,100), touchmove to (249,100): the pending direction becomes Left, then Right (dx = 249 > dy = 100), a reversal into the body | one direction change per gesture, by its first move | medium; not executed | Snake.ContinuedSwipeReverses | Snake.GestureSteersOnce |

The engine class uses the corrected rule (`Snake.TouchMove`). The tracker has an `armed` flag: touchstart sets it, and the first touchmove that steers clears it.

Two further behaviours of the code, which the model follows:
- Touch input is not checked for reversal. A key press is checked only against the committed direction, not the pending one. So a pending direction opposite to the committed one is reachable by swipe, and `Snake.ReverseIsFatal` shows that it kills a snake of two or more cells.
- On a Tic-Tac-Toe win, `record.save` runs whichever side wins. It always compares the player's score.

## Left out

- `assets/js/pong.js` and `assets/js/games.js` are not part of this model. Pong is floating-point physics driven by `Math.random`. The page controller is DOM glue.
- Drawing is not modelled: both `#draw` methods, the game-over text, and the DOM score and record fields.
- Sound is not modelled: the `Audio` cue on eating.
- Reading and writing `localStorage` as strings, and `parseInt`, are not modelled. The Snake record is a natural-number field, with its initial value a constructor parameter. The Tic-Tac-Toe store is the `stored` field.
- `record.load`, `#updatePanel` and the `recordKey` getter are left out: they only display values or name the store key.
- Registering and removing listeners, `requestAnimationFrame` and `cancelAnimationFrame` are not modelled. The frame callback is a method called with the frame time.
- SnakeEngine.SnakeGame.Stop models only `alive := false`. The source's removal of never-registered listeners and its cancellation with a function instead of a frame id have no effect to model.
- The Tic-Tac-Toe `stop` is left out. It removes the click listener and clears the canvas, and has no effect on the game state.
- Tic-Tac-Toe clicks are cells (row, col) with 0 ≤ row, col < 3. The pixel-to-cell mapping uses float division and is left out. Out-of-board clicks are not modelled. In the source, a row outside 0..2 throws a TypeError at line 62. A valid row with a column outside 0..2 reads `undefined`, which is not `''`, so the click is silently ignored.
- Constructor failures are not modelled: the Tic-Tac-Toe check for a missing canvas, and a Snake built without a canvas.
- SnakeEngine.SnakeGame.constructor requires a grid of more than 5 cells per side (a canvas wider than 100 pixels). On a smaller grid the start cell (5, 5) is already off the grid, and the invariant cannot hold.
- SnakeEngine.SnakeGame.SpawnApple requires the random stream to hold a cell off the body. `SnakeGrid.FreeCellIffNotFull` states exactly when such a cell exists. When the snake eats the apple in the last free cell, the source's do-while loop never ends and the page freezes; `SnakeGrid.LastAppleStarves` shows no stream can feed that step, so the model does not reach the freeze.
- SnakeEngine.SnakeGame.TouchMoved follows the corrected one-steer-per-gesture rule of the Findings table, not the code as written. The as-written rule is `Snake.TouchMoveAsWritten`.
- SnakeEngine.SnakeGame.SetState promises no invariant, because the source accepts any state.
- SnakeEngine.SnakeGame.GetState returns a value copy. The source's getState returns the live body array, so a caller that mutates it changes the game; this aliasing is not modelled.
- Only the first touch point of a touch event is modelled, as the source reads only `touches[0]`.
- Frame times are integers (milliseconds). Touch coordinates are reals.
