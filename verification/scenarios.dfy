/** Concrete ticks from the opening board (`Games.Opening`): 20 x 10 with the
    snake (3, 1), (2, 1), (1, 1) heading right. The apple set is left open apart
    from the cells each scenario needs to be free or taken.
 */
module Scenarios {
  import opened Inputs
  import opened Grid
  import opened Food
  import opened Snakes
  import opened Games

  /** No apple ahead and no input: the snake slides one cell right, keeps its
      length and the game goes on. */
  lemma SlideRight(apples: set<Cell>, spawn: Cell)
    requires Cell(4, 1) !in apples
    ensures Ready(Opening(apples), None, spawn)
    ensures var r := Update(Opening(apples), None, spawn);
            && r.snake.cells == [Cell(4, 1), Cell(3, 1), Cell(2, 1)]
            && Score(r) == 3 && !IsOver(r) && r.apples == Opening(apples).apples
  {
    // Intermediate state, kept so the proof stays within its resource limit on every solver seed.
    var r := Update(Opening(apples), None, spawn);
    assert r.snake.cells == [Cell(4, 1), Cell(3, 1), Cell(2, 1)];
  }

  /** The first tick into the apple at (4, 1): the exact game it produces. */
  lemma EatAhead(apples: set<Cell>, spawn: Cell)
    requires Cell(4, 1) in apples
    requires InBounds(spawn, 20, 10) && spawn !in [Cell(4, 1), Cell(3, 1), Cell(2, 1)]
    ensures Ready(Opening(apples), None, spawn)
    ensures Update(Opening(apples), None, spawn) ==
            Game(20, 10, Snake([Cell(4, 1), Cell(3, 1), Cell(2, 1)], Right, 1),
                 Apples(20, 10, (apples - {Cell(4, 1)}) + {spawn}))
  {
    // Intermediate state, kept so the proof stays within its resource limit on every solver seed.
    assert Advanced(Opening(apples), None).cells == [Cell(4, 1), Cell(3, 1), Cell(2, 1)];
  }

  /** An apple ahead: the first tick eats it (one growth pending, a new apple
      at `spawn`), the second tick pays the growth out as a fourth cell. */
  lemma EatThenGrow(apples: set<Cell>, spawn: Cell, spawn2: Cell)
    requires Cell(4, 1) in apples && Cell(5, 1) !in apples
    requires InBounds(spawn, 20, 10) && spawn !in [Cell(4, 1), Cell(3, 1), Cell(2, 1)]
    requires spawn != Cell(5, 1)
    ensures Ready(Opening(apples), None, spawn)
    ensures var g1 := Update(Opening(apples), None, spawn);
            && Head(g1.snake) == Cell(4, 1) && g1.snake.eatenApples == 1 && Score(g1) == 3
            && g1.apples.cells == (apples - {Cell(4, 1)}) + {spawn}
            && Ready(g1, None, spawn2)
            && var g2 := Update(g1, None, spawn2);
               && g2.snake.cells == [Cell(5, 1), Cell(4, 1), Cell(3, 1), Cell(2, 1)]
               && g2.snake.eatenApples == 0 && !IsOver(g2)
  {
    EatAhead(apples, spawn);
    var g1 := Update(Opening(apples), None, spawn);
    // Intermediate state, kept so the proof stays within its resource limit on every solver seed.
    assert Advanced(g1, None).cells == [Cell(5, 1), Cell(4, 1), Cell(3, 1), Cell(2, 1)];
  }

  /** An apple ahead, then a turn down on the next tick: the turn clears the
      pending growth, so the apple is eaten but the snake stays three long. */
  lemma EatThenTurn(apples: set<Cell>, spawn: Cell, spawn2: Cell)
    requires Cell(4, 1) in apples && Cell(4, 2) !in apples
    requires InBounds(spawn, 20, 10) && spawn !in [Cell(4, 1), Cell(3, 1), Cell(2, 1)]
    requires spawn != Cell(4, 2)
    ensures Ready(Opening(apples), None, spawn)
    ensures var g1 := Update(Opening(apples), None, spawn);
            && g1.snake.eatenApples == 1
            && Ready(g1, Some(Down), spawn2)
            && var g2 := Update(g1, Some(Down), spawn2);
               && g2.snake.cells == [Cell(4, 2), Cell(4, 1), Cell(3, 1)]
               && g2.snake.eatenApples == 0 && Score(g2) == 3
  {
    EatAhead(apples, spawn);
    var g1 := Update(Opening(apples), None, spawn);
    // Intermediate state, kept so the proof stays within its resource limit on every solver seed.
    assert Advanced(g1, Some(Down)).cells == [Cell(4, 2), Cell(4, 1), Cell(3, 1)];
  }

  /** Heading right from the last column: the head leaves the board, the game
      is over with the length it had, and a further tick changes nothing. */
  lemma OffTheEdge(apples: set<Cell>, spawn: Cell, spawn2: Cell)
    requires Cell(20, 1) !in apples
    ensures var g := Game(20, 10, Snake([Cell(19, 1), Cell(18, 1), Cell(17, 1)], Right, 0),
                          Apples(20, 10, apples));
            && Ready(g, None, spawn)
            && var r := Update(g, None, spawn);
               && IsOver(r) && Score(r) == 3 && Head(r.snake) == Cell(20, 1)
               && Ready(r, Some(Up), spawn2) && Update(r, Some(Up), spawn2) == r
  {
  }
}
