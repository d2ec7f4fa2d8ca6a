# Snake game state, modelled in Dafny

A model of the simulation core of a Rust Snake game: the snake's segmented
body (`src/snake.rs`) and the game state machine that owns it
(`src/game.rs`).

- `snake.dfy`, module `Snake`: the chain of segments. The source links
  `SnakePart` nodes through owned `next` pointers; here the class
  `SnakePart` holds the chain as `parts: seq<Segment>`, index 0 being the
  head. `Valid()` says there is exactly one head and it comes first. Each
  mutating method is proved against a pure function of the old chain:
  `MoveForward` against `Advance` (follow-the-leader, built from `Shift`,
  which carries the previous segment's pre-move cell as the source's
  `prev_pos` does), `AddPart` against `Grown`. The two read-only queries are
  cursor loops proved against `TailOccupies` (every segment but the head)
  and `CoversButLast` (every segment but the last).
- `game.dfy`, module `Game`: the class `Game` with the source's fields, and a
  value `GameView` of the same fields. Every method ensures that its new
  view equals a pure function of the old one (`SnakeStep`, `Steer`,
  `Spawned`, `Restarted`, `Tick`), and the lemmas beside those functions
  state what a step, a key press, a restart or a frame does. Two stretches
  of straight-line code get methods of their own, each proved against its
  own function: the running half of `update` up to the food spawn
  (`StepWhenDue`, against `Moved`) and the three head checks that end
  `update_snake` (`CheckHead`).

Time is an integer count of hundredths of a second: the movement period
0.2 s, the restart delay 1.0 s and the game-over increment 0.01 s become 20,
100 and 1. The random generator is a parameter: `draws` lists, in order, the
cells the two `gen_range` calls would produce.

Two consequences of the code are worth stating:
- `spawn_food` rejects a cell only when `is_inside` reports it, and
  `is_inside` never compares the last segment (src/snake.rs:111-116).
  Food can therefore be placed on the tail's cell: `CoversButLastIgnoresLast`
  states the query's blind spot and `FoodMayLandOnTail` the placement.
- `user_input` compares a key with the head's current direction, which an
  earlier key since the last step may already have changed
  (src/game.rs:68-76). Two keys between steps can therefore turn the snake
  back onto the cell its neck has just left (`TwoKeysReverse`).

A lone head starting at x = 1 needs width - 3 steps to reach x = width - 2,
and the next step ends the game (`RightWallEndsGame`).

Growth appends the new segment at the head's pre-move cell, which is also
the cell the second segment has just moved into. On a chain of two or more
segments, two segments share a cell for one step (`GrowthSharesCellWithSecond`).

## Model

| member | source | states |
|---|---|---|
| `Snake.MoveDirection.Opposite` | src/snake.rs:140-147 | the opposite direction is never the direction itself |
| `Snake.OppositeIsInvolution` | src/snake.rs:140-147 | taking the opposite twice gives back the direction |
| `Snake.Step` | src/snake.rs:75-80 | the head moves to a side-adjacent cell: Up and Down keep x, Left and Right keep y |
| `Snake.StepThenOppositeReturns` | src/snake.rs:75-80 | a move followed by a move in the opposite direction returns to the start cell |
| `Snake.Shift` | src/snake.rs:82-89 | each trailing segment takes the pre-move cell of the segment ahead of it and keeps its role and direction; the length is unchanged |
| `Snake.Advance` | src/snake.rs:67-89 | after a move the head has the given direction (or its old one), sits one cell along it, every other segment is at its predecessor's pre-move cell with its own direction, the length is unchanged and the chain stays well formed |
| `Snake.Grown` | src/snake.rs:43-52 | adding a part lengthens the chain by one, keeps every earlier segment, and the new last segment is a body segment at the given cell with the head's direction |
| `Snake.LoneHeadCoversNothing` | src/snake.rs:92-119 | a one-segment chain neither overlaps its tail nor reports any cell as inside |
| `Snake.CoversButLastIgnoresLast` | src/snake.rs:108-119 | whether a cell is inside depends only on the segments before the last one |
| `Snake.SnakePart.Init` | src/snake.rs:22-30 | a new chain is one head at (11, 11) moving right |
| `Snake.SnakePart.ConcatNew` | src/snake.rs:33-40 | the given segment is appended after the last one, nothing else changes |
| `Snake.SnakePart.AddPart` | src/snake.rs:43-52 | the chain becomes `Grown` of the old chain at (x, y) |
| `Snake.SnakePart.HeadPosition` | src/snake.rs:63-65 | the head's cell, read without change |
| `Snake.SnakePart.Position` | src/snake.rs:104-106 | the head's coordinates as a pair, the same cell `HeadPosition` gives |
| `Snake.SnakePart.MoveForward` | src/snake.rs:67-89 | the chain becomes `Advance` of the old chain, in one pass down the chain |
| `Snake.SnakePart.OverlapTail` | src/snake.rs:92-102 | true exactly when some segment other than the head is at (x, y) |
| `Snake.SnakePart.IsInside` | src/snake.rs:108-119 | true exactly when some segment other than the last is at (x, y) |
| `Game.NewGame` | src/game.rs:28-39 | a new game has the given size, a one-segment chain at (11, 11), no food, not over, nothing eaten, timer at zero |
| `Game.KeyDirection` | src/game.rs:56-66 | Up/W, Down/S, Left/A, Right/D map to the four directions, and only other keys map to nothing |
| `Game.Steer` | src/game.rs:55-77 | a non-direction key and a key reversing the head's direction leave the state unchanged; otherwise only the head's direction changes, to the key's |
| `Game.ReversalAfterTurnIsDropped` | src/game.rs:72-74 | after a turn, the key of the opposite direction is dropped and the turn stays |
| `Game.TwoKeysReverse` | src/game.rs:68-76 | moving right, Up then Left between steps is accepted and the next step on a three-segment chain ends the game: the head lands on the cell its neck has just left, which the third segment has entered |
| `Game.AfterGrowth` | src/game.rs:128-135 | the chain stays well formed, grows by one exactly when growth was pending, the pending flag is cleared and no other field changes |
| `Game.BoundsCheck` | src/game.rs:139-141 | only the game-over flag may change |
| `Game.FoodCheck` | src/game.rs:143-146 | only the `ate` and food flags may change |
| `Game.OverlapCheck` | src/game.rs:148-150 | only the game-over flag may change |
| `Game.SnakeStep` | src/game.rs:127-151 | one step keeps the chain well formed, grows it by one exactly when growth was pending, never clears game over and leaves size, food cell and timer unchanged |
| `Game.StepIgnoresTimer` | src/game.rs:127-151 | a step neither reads nor changes the timer |
| `Game.StepMovesChain` | src/game.rs:128-135 | the step's chain is the advanced chain, plus, when growth was pending, a body segment at the head's pre-move cell with the head's new direction |
| `Game.StepChecks` | src/game.rs:137-150 | after a step: game over iff it was over, the new head is off the interior, or it overlaps the tail; `ate` iff the new head is on the food cell; food remains iff it existed and the head is not on it |
| `Game.GrowthSharesCellWithSecond` | src/game.rs:128-135 | on a chain of two or more, the grown tail lands on the second segment's new cell |
| `Game.EatsWhileHittingWall` | src/game.rs:139-146 | a head moving onto food on the border both ends the game and eats the food |
| `Game.FirstStepOfNewGame` | src/game.rs:127-151 | the first step of a 20 x 20 game moves the head from (11, 11) to (12, 11), length 1, still playing |
| `Game.Run` | src/game.rs:127-151 | any number of steps keeps the chain well formed |
| `Game.RunGrowsOncePerMeal` | src/game.rs:132-146 | over any run of steps the chain never shrinks, and length plus pending growth rises by exactly the number of meals |
| `Game.LoneHeadCrossesRow` | src/game.rs:127-151 | a lone head moving right with no food on its row moves n cells and stays alive while in the interior |
| `Game.RightWallEndsGame` | src/game.rs:139-141 | a lone head from (1, y) reaches x = width - 2 alive after width - 3 steps, and the next step ends the game |
| `Game.FirstFree` | src/game.rs:43-49 | the index of the first draw `is_inside` accepts: every earlier draw is rejected and the chosen one is not |
| `Game.Spawned` | src/game.rs:41-53 | only the food changes; if some draw is accepted, food exists at the first draw `is_inside` does not report; if every draw is rejected, nothing changes |
| `Game.FoodMayLandOnTail` | src/game.rs:41-53 | when the first draw is the last segment's cell and no other segment covers it, the food is placed there |
| `Game.Restarted` | src/game.rs:116-125 | restart gives the `init` chain, not over, timer zero, same size, `ate` untouched, and food at the first draw |
| `Game.Moved` | src/game.rs:98-108 | up to the movement period only the timer advances; past it the timer returns to zero, the head moves one cell along its direction and the chain grows by the pending segment; game over is never cleared |
| `Game.Tick` | src/game.rs:97-114 | a frame keeps the chain well formed and the board size |
| `Game.TickWhileOver` | src/game.rs:99-103 | while over, a frame restarts exactly when the accumulated wait plus the increment exceeds the restart delay, and otherwise only adds to the timer |
| `Game.TickWhileRunning` | src/game.rs:104-113 | while running, food exists after a frame iff it existed after the step or some draw was accepted |
| `Game.Game.constructor` | src/game.rs:28-39 | the new game's view is `NewGame(width, height)` |
| `Game.Game.SpawnFood` | src/game.rs:41-53 | the view becomes `Spawned`; when placed, the food is in the interior, on no cell `is_inside` reports, and the snake is untouched |
| `Game.Game.UserInput` | src/game.rs:55-77 | the view becomes `Steer` of the old view and the key |
| `Game.Game.Update` | src/game.rs:97-114 | the view becomes `Tick` of the old view |
| `Game.Game.StepWhenDue` | src/game.rs:98-108 | the view becomes `Moved` of the old view, on the same snake object |
| `Game.Game.Restart` | src/game.rs:116-125 | the view becomes `Restarted`; food is placed exactly when a draw is supplied |
| `Game.Game.UpdateSnake` | src/game.rs:127-151 | the view becomes `SnakeStep` of the old view, on the same snake object |
| `Game.Game.CheckHead` | src/game.rs:137-150 | the view becomes the three checks applied in order to the old view, on the same snake object |

## Left out

- Drawing: `Game::draw` and `SnakePart::draw` only call the rendering library with colours; the `draw` module is not part of this model.
- Game.Game.SpawnFood: the random stream is a finite parameter; when every supplied draw is rejected it returns `placed == false` and leaves the state unchanged, where the source would keep drawing until some draw is accepted.
- Game.Game.Update: time is an integer in hundredths of a second; floating-point rounding of the accumulated `f64` wait is not modelled.
- Snake.Step: coordinates are unbounded integers; `i32` overflow of a head coordinate is not modelled; a head is never more than one cell past the interior or past its start cell (11, 11), which `init` uses whatever the board size.
- Game.Game.SpawnFood: requires width and height of at least 3. On a smaller board `gen_range` is given an empty range and the source panics, which happens on the first `update` because a new game has no food; `Game.Game.Update` and `Game.Game.Restart` carry the same requirement because they call it.
- Snake.SnakePart.ConcatNew: requires the appended segment to be a body segment, which is what its only caller passes; the source accepts any node.
- Snake.SnakePart: the chain is a sequence, so the cursor walks over `next` pointers, node ownership and node allocation are not modelled; the walk to the tail in `concat_new` is the append itself.
- Input: the windowing library's key type is reduced to the eight keys the game reads plus `Other`.
- The statements `self.width; self.height;` at the end of `restart` have no effect and are not modelled.
