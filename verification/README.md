# Snake game state, modelled in Dafny

A model of the game-state core of a terminal Snake game (`main.py`). The
original keeps every piece of state in frozen dataclasses whose methods return
new values. The model mirrors that with immutable datatypes and pure functions:

- `Inputs` holds the optional input of a tick: a direction or nothing.
- `Grid` holds cells (integer pairs), the four directions as unit offsets, the
  opposite-direction test and the board bounds check.
- `Food` holds the apple set, which carries its own width and height, and
  growing a new apple.
- `Snakes` holds the snake: body cells head first, direction, and pending
  growth (`eatenApples`). It has head/tail, move, turn and eat.
- `Games` holds the game: the game-over test, the score, one tick of
  `Update`, runs of many ticks, the invariant every tick keeps, and the
  opening position.
- `Scenarios` holds concrete ticks from the opening position.

The random apple placement is a parameter. `Grow`, `Eat` and `Update` take the
cell `spawn` where the placement settles. The precondition `SpawnOk` is the
condition that ends the original's re-roll loop: the cell is on the apple
set's board `[0, width) x [0, height)` and is not one of the snake's cells.

Details of the original's behaviour that the model keeps:

- The game is over when any body cell is off the board, not only the head.
- A new apple is kept off the snake, but it is not kept off the other apples.
  In play this never matters: the game holds exactly one apple at all times
  (`Snakes.EatKeepsOneApple`). Eating removes that apple before the new one is
  placed.
- Every apple adds one to pending growth. There are no apple sizes.
- A turn that takes effect builds the new snake from its cells and direction
  only. It therefore resets pending growth to zero. This includes a "turn"
  to the direction already held.

## Model

| member | source | states |
|---|---|---|
| Grid.Offset | main.py:28-33 | each direction is a unit offset: exactly one coordinate moves, by one |
| Grid.IsOpposite | main.py:35-36 | offsets summing to zero holds exactly for the pairs Up/Down and Left/Right |
| Grid.OppositeSymmetric | main.py:35-36 | opposition is symmetric and no direction is opposite to itself |
| Grid.Shift | main.py:20-21 | `Cell.move`: the cell one step along the direction's offset, never the start cell itself; its properties are stated by Grid.ShiftReverse, Grid.ShiftAdjacent and Grid.ShiftInjective |
| Grid.ShiftReverse | main.py:20-21 | stepping along a direction and then along its opposite returns to the start cell |
| Grid.ShiftAdjacent | main.py:20-21 | a step lands on a cell sharing an edge with the start |
| Grid.ShiftInjective | main.py:20-21 | two directions lead to the same cell only if they are the same direction |
| Grid.AllInBounds | main.py:112 | the cell-by-cell check holds exactly when every cell lies in [0, width) x [0, height) |
| Food.Grow | main.py:90-98 | width and height are kept; the new cell is on the board and off the snake; the apples afterwards are the old ones plus the new cell |
| Food.GrowInBounds | main.py:24-25 | growing keeps every apple on the board, since the random cell is drawn from 0..width-1 and 0..height-1 |
| Food.NoSpawnOnEmptyBoard | main.py:24-25 | on an apple board of width or height at most 0 no cell meets the placement condition, since the random draw has an empty range |
| Food.GrowCount | main.py:94-98 | the set gains one apple when the chosen cell held none, and is unchanged when it already held one |
| Snakes.Head | main.py:45-47 | `Snake.head`: the first body cell, defined only for a non-empty body; Snakes.Tail states that head followed by tail rebuilds the body |
| Snakes.Tail | main.py:45-51 | head followed by tail is the whole body; the tail of an empty body is empty |
| Snakes.Move | main.py:53-60 | the new head is the old head shifted by the direction; the rest is a prefix of the old body; the length is kept when no growth is pending and grows by one otherwise; the direction is kept; pending growth drops by one and never goes negative |
| Snakes.Turn | main.py:62-65 | no input or a reversal leaves the snake unchanged; any other direction keeps the cells, takes the new direction and resets pending growth to 0; the result never faces opposite to the old direction |
| Snakes.Eat | main.py:67-81 | with the head off every apple, snake and apples are unchanged; on an apple, cells and direction are kept, pending growth goes up by one, width and height are kept, and the apples become the old ones minus the head plus a new cell that is on the board and off the snake; no apple is left under the head |
| Snakes.TurnIdempotent | main.py:62-65 | turning twice with the same input equals turning once |
| Snakes.TurnDropsGrowth | main.py:53-65 | with growth pending, a turn that takes effect makes the next move keep the length, where moving without it would grow by one |
| Snakes.MoveNGrowth | main.py:53-60 | after n moves the body has grown by the smaller of n and the pending growth, the pending growth has gone down by as much, and the direction is kept |
| Snakes.MoveConnected | main.py:53-60 | a move keeps consecutive body cells edge-adjacent |
| Snakes.EatClearsBody | main.py:67-98 | if only the head could be on an apple, then after eating no apple lies under any body cell |
| Snakes.EatKeepsOneApple | main.py:67-98 | a board holding one apple still holds exactly one after eating |
| Games.IsOver | main.py:108-113 | over exactly when some tail cell equals the head or some body cell lies outside [0, width) x [0, height) |
| Games.Score | main.py:115-117 | `Game.score`: the body length, at least 1 for a non-empty body; Games.UpdateScore and Games.RunScore state how it changes over ticks |
| Games.Update | main.py:119-128 | an over game is returned unchanged; a live game keeps width and height and becomes eat(move(turn(d))); the new head is one step from the old one and no apple lies under it |
| Games.UpdateScore | main.py:115-128 | the score grows by one when growth is still pending after the turn, and is unchanged otherwise, including on an over game |
| Games.RunOver | main.py:119-121 | an over game accepts any sequence of ticks and stays identical |
| Games.RunScore | main.py:115-128 | the score never decreases over any sequence of ticks |
| Games.AdvancedCells | main.py:53-60 | after turning and moving, every body cell except the head is a cell the snake covered before |
| Games.UpdateKeepsSnake | main.py:53-65 | a live tick keeps the body connected and the pending growth non-negative |
| Games.UpdateKeepsApples | main.py:67-98 | a live tick keeps exactly one apple, on the game's board and not under the snake |
| Games.UpdateInvariant | main.py:119-128 | a tick keeps the body non-empty and connected, pending growth non-negative, exactly one apple, every apple on the game's board, and no apple under the snake |
| Games.RunInvariant | main.py:119-128 | the same invariant holds after any sequence of ticks |
| Games.Opening | main.py:161-167 | the opening board and snake of `main`: 20 x 10, body (3,1),(2,1),(1,1) on the board, heading right, no growth pending, with the given apples |
| Games.Start | main.py:158-173 | the opening game is live, scores 3, heads right with no growth pending, and holds only the one apple |
| Games.StartInvariant | main.py:161-173 | the opening game satisfies the invariant when its apple is not under the snake |
| Games.StartApplePlacement | main.py:168-172 | the opening placement can put the apple under the snake, and then the invariant does not hold |
| Scenarios.SlideRight | main.py:161-166 | from (3,1),(2,1),(1,1) heading right on 20 x 10 with no apple at (4,1), one tick with no input gives (4,1),(3,1),(2,1): length 3, game not over, apples unchanged |
| Scenarios.EatAhead | main.py:67-81 | from the opening with an apple at (4,1), one tick with no input gives exactly the body (4,1),(3,1),(2,1), one growth pending, and the apples minus (4,1) plus the new cell |
| Scenarios.EatThenGrow | main.py:53-81 | with an apple at (4,1), the first tick eats it and leaves growth pending; the second tick gives a four-cell body |
| Scenarios.EatThenTurn | main.py:62-65 | with an apple at (4,1), eating and then turning down loses the growth, so the body stays three cells long |
| Scenarios.OffTheEdge | main.py:109-121 | heading right from column 19 puts the head at (20,1); the game is over with score 3, and a further tick leaves it unchanged |

## Left out

- `draw` and `main` (main.py:131-186): curses drawing, key polling, the key-to-direction table, the pause toggle and the quit key are terminal I/O and plumbing. The opening position that `main` builds is modelled as `Games.Start`, built on the opening board `Games.Opening`.
- The seeded random generator and the re-roll loops (main.py:12, main.py:24-25, main.py:91-93): the chosen cell is a parameter constrained by `SpawnOk`. On a board the snake fills, the original loops forever. The model does not reproduce this, because no `spawn` can meet the precondition.
- Snakes.Eat, Games.Update: when the apple board has width or height at most 0 and the head lands on an apple, the original raises an error from the empty random range (main.py:24-25, main.py:91). The model excludes this case through `SpawnOk`, which no cell meets there (`Food.NoSpawnOnEmptyBoard`).
- Snakes.Head, Snakes.Move, Snakes.Eat, Games.IsOver, Games.Update: these require a non-empty body. In the original, taking the head of an empty body raises an exception, so no caller can use these operations on an empty snake.
- Pending growth is modelled as an unbounded integer, as in the original. Negative values never occur from the opening position, and `Move` treats them as the original does.
