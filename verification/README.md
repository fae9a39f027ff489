# Snake game state machine in Dafny

A model of the game logic of a browser Snake game (`snake.js`): the snake
moving over a canvas of `width` x `height` pixels in blocks of 20 pixels, fruits
that make it grow and score, the self- and edge-collision that ends the game, the
keyboard handler (arrow keys, `P` to pause, `R` to resume or restart), and the
part of the animation-frame callback that decides whether a simulation step runs.

All state lives in one immutable `GameState` record (snake and fruits as
sequences of pixel cells, head first; direction; score; the `gameOver` and
`paused` flags; the canvas size; the step timer). Every operation is a pure
function returning an `Outcome`: the new state plus what remains of the random
source.

Modules, one file each:

- `Board` (board.dfy): cells, directions, the bounds test, the collision test,
  and `Draw`, the pair of grid indices one `Math.random` attempt yields.
- `Fruit` (fruit.dfy): single-fruit placement with retry, and the three fruits
  of a new game.
- `Game` (game.dfy): the state, the new-game reset, the simulation step.
- `Input` (input.dfy): the keydown handler.
- `Loop` (loop.dfy): the step gate of the frame callback, and runs of key and
  frame events.
- `Invariants` (invariants.dfy): the invariant every state reachable from a new
  game on a canvas at least 80 x 1 keeps.
- `Scenarios` (scenarios.dfy): concrete runs on a 100 x 100 canvas.

Randomness is a parameter: a finite sequence of `Draw`s, each valid for the
canvas (`k == 0 || k * 20 < extent`, which is exactly the range of
`floor(random * extent / 20)` for `0 <= random < 1`). Fruit placement consumes
draws from the front until one lands off the snake, as the recursive retry does.
The precondition that enough such draws exist stands for the retry terminating.

The model follows the code in three places that are easy to misread:

- The phase is two independent flags, not one enumeration. `P` flips `paused`
  even after the game is over, and both flags can then be set.
- Fruits are an ordered list that may hold the same cell twice. Placement checks
  only the snake, never the other fruits.
- A reversal is rejected only relative to the direction pending when the key
  arrives, not the direction of the last step. Two quick perpendicular turns
  inside one step interval reverse the snake into its own neck
  (`Scenarios.QuickDoubleTurnScenario`).

## Model

| member | source | states |
|---|---|---|
| Board.Collides | snake.js:106-108 | the collision test is true exactly when the position is one of the snake's cells |
| Board.AdvanceKeepsAligned | snake.js:58 | moving a grid-aligned cell one block along a unit direction gives a different, grid-aligned cell |
| Board.DrawIsPlaced | snake.js:87-90 | every random attempt lands on a grid-aligned, non-negative cell before the far edges, and on the board when the canvas is non-empty |
| Board.OnBoardIsDrawable | snake.js:87-90 | conversely, every grid-aligned cell on the board is the result of some valid attempt |
| Fruit.SpawnFruit | snake.js:86-97 | the fruit is the first attempt off the snake and every earlier attempt was on the snake; exactly the attempts up to it are consumed; it is grid-aligned and inside the canvas |
| Fruit.SpawnFruits | snake.js:99-104 | a new game gets exactly three fruits, none on the snake, all placed on the canvas |
| Game.InitialSnake | snake.js:35-39 | the opening snake is three distinct, grid-aligned cells in a row, each one block right of the next, with the head in the block holding the canvas centre; on a canvas at least 80 wide and 1 high it lies inside |
| Game.Init | snake.js:34-45 | a new game: opening snake, direction right, score 0, neither paused nor over, three fruits off the snake; canvas size and step timer untouched |
| Game.FindFruit | snake.js:67-68 | the fruit loop finds the first index whose fruit is at the head, and finds none exactly when no fruit is there |
| Game.SpliceRemovesFirst | snake.js:67-70 | splicing out the index the loop found removes exactly the first occurrence of the head cell from the fruit list |
| Game.RemoveFirstMultiset | snake.js:70 | the splice takes exactly one copy of the eaten cell out of the fruits and keeps all others |
| Game.MoveSnake | snake.js:57-77 | out of bounds or on any segment (tail included) sets gameOver and nothing else; off every fruit the head is prepended and the tail dropped; on a fruit the score rises by one, the snake grows by the head, the first matching fruit is removed and one replacement off the new snake is appended |
| Input.Steer | snake.js:112-125 | steering keeps a unit direction unit, never yields its reverse, and changes it only to the heading of the arrow pressed |
| Input.SteerTurnsOnlyPerpendicular | snake.js:113-124 | for a unit direction an arrow key takes effect exactly when its heading is perpendicular; a reversal or a repeat changes nothing |
| Input.KeyDown | snake.js:110-139 | arrows steer only while neither paused nor over; P flips the pause flag; R clears pause, and after game over starts a new game; no key but that restart touches snake, fruits, score or gameOver |
| Input.PauseTwiceRestores | snake.js:128-130 | pressing P twice gives back exactly the original state |
| Input.KeyDownKeepsUnit | snake.js:111-126 | no key press takes the direction out of the four unit vectors |
| Input.DirectionChangesOnlyWhileRunning | snake.js:111 | the direction changes only by an arrow key in a running game or by the restart |
| Loop.GameLoop | snake.js:167-173 | a step runs only on a due frame (timer at 0 or at least 80 elapsed) of a running game, at most once; a due frame resets the timer to its timestamp even when paused or over; a frame that is not due changes nothing |
| Invariants.InitEstablishesInv | snake.js:34-45 | a new game on a canvas at least 80 x 1 satisfies the invariant |
| Invariants.StartEstablishesInv | snake.js:24-45 | the game as the page first starts it satisfies the invariant, with the step timer at 0 |
| Invariants.EatPreservesInv | snake.js:65-73 | a step onto a fruit keeps the snake distinct and on the board, three fruits on the board, and score equal to growth |
| Invariants.PlainStepPreservesInv | snake.js:58-76 | a step off every fruit keeps the snake distinct and on the board: the head is new and the tail is dropped |
| Invariants.MoveSnakePreservesInv | snake.js:57-77 | every simulation step keeps the invariant |
| Invariants.KeyDownPreservesInv | snake.js:110-139 | every key press keeps the invariant |
| Invariants.GameLoopPreservesInv | snake.js:167-173 | every frame keeps the invariant |
| Invariants.RunPreservesInv | snake.js:110-173 | after any sequence of key presses and frames the invariant holds, so no two snake cells ever coincide |
| Invariants.StepLengthAndScore | snake.js:65-76 | a completed step grows the snake and the score by one exactly when the head lands on a fruit, else leaves both; the fruit count is unchanged |
| Scenarios.PlainStepScenario | snake.js:57-77 | head (40,40) moving right on a 100 x 100 canvas with no fruit ahead moves to (60,40), drops the tail, keeps score 0 |
| Scenarios.EatScenario | snake.js:65-73 | stepping onto a fruit gives score 1, four segments, and the other two fruits followed by the replacement |
| Scenarios.EdgeThenRestartScenario | snake.js:136-138 | stepping to x = -20 ends the game; R then restores score 0, direction right, a running game and a new snake and fruits |
| Scenarios.QuickDoubleTurnScenario | snake.js:111-124 | Up then Left before the next step turns a right-moving snake to the left, and the next step collides with the neck |
| Scenarios.CoincidingFruitsScenario | snake.js:67-73 | when two fruits share the cell the head enters, only the first is eaten and the other stays under the head |

## Left out

- Drawing (snake, fruits, border, score, pause and game-over text, help text): rendering only, no state change.
- Image loading and the startup barrier that waits for it: asynchronous I/O. The model starts from `Init` applied to the declared initial state.
- The resize listener and `requestAnimationFrame` scheduling: host environment. `width` and `height` are fixed fields of the state.
- `Math.random`: replaced by a caller-supplied sequence of grid draws. Floating-point rounding of `random * extent / 20` is not modelled.
- Fruit.SpawnFruit: termination of the retry is assumed through the precondition that the draws contain one off the snake. A full board is not modelled.
- Timestamps are natural numbers, not floating-point milliseconds. `!lastMoveTime` is modelled as `lastMoveTime == 0`.
- Invariants.InitEstablishesInv: holds only on a canvas at least 80 pixels wide and 1 high. On a narrower canvas the opening snake starts partly at negative x.
