/** A game: the board size, the snake and the apples, advanced one tick at a
    time. A tick turns the snake, moves it and lets it eat; a game that is
    over stays exactly as it is.
 */
module Games {
  import opened Inputs
  import opened Grid
  import opened Food
  import opened Snakes

  datatype Game = Game(width: int, height: int, snake: Snake, apples: Apples)

  /** The game is over when the head runs into the body or some body cell
      has left the board. */
  function IsOver(g: Game): (over: bool)
    requires |g.snake.cells| > 0
    ensures over <==>
              || (exists i :: 1 <= i < |g.snake.cells| && g.snake.cells[i] == g.snake.cells[0])
              || (exists i :: 0 <= i < |g.snake.cells| && !InBounds(g.snake.cells[i], g.width, g.height))
  {
    Head(g.snake) in Tail(g.snake) || !AllInBounds(g.snake.cells, g.width, g.height)
  }

  /** The score is the length of the body. */
  function Score(g: Game): (n: nat)
    ensures |g.snake.cells| > 0 ==> n >= 1
  {
    |g.snake.cells|
  }

  /** The snake as it stands after turning and moving, before it eats. */
  function Advanced(g: Game, d: Option<Direction>): (s: Snake)
    requires |g.snake.cells| > 0
    ensures |s.cells| > 0
  {
    Move(Turn(g.snake, d))
  }

  /** `spawn` is a cell the apple placement of this tick may settle on: it is
      only consulted when the advanced head lands on an apple, and then it
      must be on the apples' board and off the advanced snake. */
  predicate Ready(g: Game, d: Option<Direction>, spawn: Cell)
  {
    && |g.snake.cells| > 0
    && (!IsOver(g) && Head(Advanced(g, d)) in g.apples.cells ==>
          SpawnOk(g.apples, Advanced(g, d).cells, spawn))
  }

  /** One tick: nothing once the game is over, otherwise turn, move and eat. */
  function Update(g: Game, d: Option<Direction>, spawn: Cell): (r: Game)
    requires Ready(g, d, spawn)
    ensures |r.snake.cells| > 0
    ensures IsOver(g) ==> r == g
    ensures !IsOver(g) ==>
              && r.width == g.width && r.height == g.height
              && (r.snake, r.apples) == Eat(Move(Turn(g.snake, d)), g.apples, spawn)
    ensures !IsOver(g) ==> Head(r.snake) == Shift(Head(g.snake), r.snake.direction)
    ensures !IsOver(g) ==> Head(r.snake) !in r.apples.cells
  {
    if IsOver(g) then g
    else
      var (snake, apples) := Eat(Advanced(g, d), g.apples, spawn);
      Game(g.width, g.height, snake, apples)
  }

  /** The length grows by one exactly when growth is still pending after the
      turn; otherwise it stays the same. */
  lemma UpdateScore(g: Game, d: Option<Direction>, spawn: Cell)
    requires Ready(g, d, spawn)
    ensures !IsOver(g) && Turn(g.snake, d).eatenApples != 0 ==>
              Score(Update(g, d, spawn)) == Score(g) + 1
    ensures IsOver(g) || Turn(g.snake, d).eatenApples == 0 ==>
              Score(Update(g, d, spawn)) == Score(g)
  {
  }

  /** One input per tick: the direction read (if any) and the cell the apple
      placement would settle on during that tick. */
  type Tick = (Option<Direction>, Cell)

  /** Each tick of the sequence is `Ready` in the game reached before it. */
  predicate Playable(g: Game, ticks: seq<Tick>)
    decreases |ticks|
  {
    && |g.snake.cells| > 0
    && (|ticks| > 0 ==>
          && Ready(g, ticks[0].0, ticks[0].1)
          && Playable(Update(g, ticks[0].0, ticks[0].1), ticks[1..]))
  }

  /** The game after the given ticks, one `Update` per tick. */
  function Run(g: Game, ticks: seq<Tick>): (r: Game)
    requires Playable(g, ticks)
    ensures |r.snake.cells| > 0
    decreases |ticks|
  {
    if |ticks| == 0 then g
    else Run(Update(g, ticks[0].0, ticks[0].1), ticks[1..])
  }

  /** Once over, a game accepts every input and no sequence of ticks
      changes it. */
  lemma {:induction false} RunOver(g: Game, ticks: seq<Tick>)
    requires |g.snake.cells| > 0 && IsOver(g)
    ensures Playable(g, ticks)
    ensures Run(g, ticks) == g
    decreases |ticks|
  {
    if |ticks| > 0 {
      RunOver(g, ticks[1..]);
    }
  }

  /** The body never shrinks over any number of ticks. */
  lemma {:induction false} RunScore(g: Game, ticks: seq<Tick>)
    requires Playable(g, ticks)
    ensures Score(Run(g, ticks)) >= Score(g)
    decreases |ticks|
  {
    if |ticks| > 0 {
      UpdateScore(g, ticks[0].0, ticks[0].1);
      RunScore(Update(g, ticks[0].0, ticks[0].1), ticks[1..]);
    }
  }

  /** No apple lies under the snake. */
  ghost predicate ApplesOffSnake(g: Game)
  {
    forall i :: 0 <= i < |g.snake.cells| ==> g.snake.cells[i] !in g.apples.cells
  }

  /** What every game reached from a sound start satisfies: a non-empty,
      connected body, no negative pending growth, exactly one apple, on the
      board of the game and not under the snake. */
  ghost predicate Invariant(g: Game)
  {
    && |g.snake.cells| > 0
    && g.snake.eatenApples >= 0
    && Connected(g.snake.cells)
    && g.apples.width == g.width && g.apples.height == g.height
    && ApplesInBounds(g.apples)
    && |g.apples.cells| == 1
    && ApplesOffSnake(g)
  }

  /** The snake advanced into the cells it covered before, plus one new head. */
  lemma AdvancedCells(g: Game, d: Option<Direction>)
    requires |g.snake.cells| > 0
    ensures forall i :: 1 <= i < |Advanced(g, d).cells| ==>
              Advanced(g, d).cells[i] in g.snake.cells
  {
  }

  /** A live tick keeps the body non-empty and connected and the pending
      growth non-negative. */
  lemma UpdateKeepsSnake(g: Game, d: Option<Direction>, spawn: Cell)
    requires Ready(g, d, spawn) && !IsOver(g)
    requires g.snake.eatenApples >= 0 && Connected(g.snake.cells)
    ensures Update(g, d, spawn).snake.eatenApples >= 0
    ensures Connected(Update(g, d, spawn).snake.cells)
  {
    // The steps below spell out the argument and keep the proof stable across solver seeds.
    var s := Advanced(g, d);
    MoveConnected(Turn(g.snake, d));
    assert Update(g, d, spawn).snake.cells == s.cells;
  }

  /** A live tick keeps exactly one apple, on the game's board and not under
      the snake. */
  lemma UpdateKeepsApples(g: Game, d: Option<Direction>, spawn: Cell)
    requires Ready(g, d, spawn) && !IsOver(g)
    requires g.apples.width == g.width && g.apples.height == g.height
    requires ApplesInBounds(g.apples) && |g.apples.cells| == 1 && ApplesOffSnake(g)
    ensures var r := Update(g, d, spawn);
            && r.apples.width == r.width && r.apples.height == r.height
            && ApplesInBounds(r.apples) && |r.apples.cells| == 1 && ApplesOffSnake(r)
  {
    // The steps below spell out the argument and keep the proof stable across solver seeds.
    var s := Advanced(g, d);
    var r := Update(g, d, spawn);
    assert (r.snake, r.apples) == Eat(s, g.apples, spawn);
    AdvancedCells(g, d);
    forall i | 1 <= i < |s.cells|
      ensures s.cells[i] !in g.apples.cells
    {
      var k :| 0 <= k < |g.snake.cells| && g.snake.cells[k] == s.cells[i];
    }
    EatClearsBody(s, g.apples, spawn);
    EatKeepsOneApple(s, g.apples, spawn);
    assert r.snake.cells == s.cells;
  }

  /** A tick keeps the invariant. */
  lemma UpdateInvariant(g: Game, d: Option<Direction>, spawn: Cell)
    requires Invariant(g) && Ready(g, d, spawn)
    ensures Invariant(Update(g, d, spawn))
  {
    if !IsOver(g) {
      UpdateKeepsSnake(g, d, spawn);
      UpdateKeepsApples(g, d, spawn);
    }
  }

  /** Every game reached by ticks from one that keeps the invariant keeps it. */
  lemma {:induction false} RunInvariant(g: Game, ticks: seq<Tick>)
    requires Invariant(g) && Playable(g, ticks)
    ensures Invariant(Run(g, ticks))
    decreases |ticks|
  {
    if |ticks| > 0 {
      UpdateInvariant(g, ticks[0].0, ticks[0].1);
      RunInvariant(Update(g, ticks[0].0, ticks[0].1), ticks[1..]);
    }
  }

  /** The opening board and snake: 20 x 10, a three-cell snake heading right
      from (3, 1) with no growth pending, and the given apples. */
  function Opening(apples: set<Cell>): (g: Game)
    ensures Score(g) == 3 && AllInBounds(g.snake.cells, g.width, g.height)
    ensures g.snake.direction == Right && g.snake.eatenApples == 0
    ensures g.apples.cells == apples
  {
    Game(20, 10, Snake([Cell(3, 1), Cell(2, 1), Cell(1, 1)], Right, 0), Apples(20, 10, apples))
  }

  /** The opening position of a game: the opening board with one apple at
      `apple`. */
  function Start(apple: Cell): (g: Game)
    requires InBounds(apple, 20, 10)
    ensures Score(g) == 3 && !IsOver(g)
    ensures g.snake.direction == Right && g.snake.eatenApples == 0
    ensures g.apples.cells == {apple}
  {
    Opening({apple})
  }

  lemma StartConnected(apple: Cell)
    requires InBounds(apple, 20, 10)
    ensures Connected(Start(apple).snake.cells)
  {
  }

  lemma StartApplesInBounds(apple: Cell)
    requires InBounds(apple, 20, 10)
    ensures ApplesInBounds(Start(apple).apples)
  {
  }

  lemma StartApplesOffSnake(apple: Cell)
    requires InBounds(apple, 20, 10)
    ensures ApplesOffSnake(Start(apple)) <==> apple !in Start(apple).snake.cells
  {
  }

  /** The opening position keeps the invariant when its apple is not under
      the snake. */
  lemma StartInvariant(apple: Cell)
    requires InBounds(apple, 20, 10)
    ensures apple !in Start(apple).snake.cells ==> Invariant(Start(apple))
  {
    StartConnected(apple);
    StartApplesInBounds(apple);
    StartApplesOffSnake(apple);
  }

  /** The opening placement does not rule out an apple under the snake, and
      then the opening position breaks the invariant. */
  lemma StartApplePlacement(apple: Cell)
    requires InBounds(apple, 20, 10)
    ensures Invariant(Start(apple)) ==> apple !in Start(apple).snake.cells
    ensures apple == Cell(2, 1) ==> !Invariant(Start(apple))
  {
    StartApplesOffSnake(apple);
  }
}
