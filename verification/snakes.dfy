/** The snake: its body cells (head first), its direction of travel and the
    number of apples eaten but not yet turned into body length.

    Every operation returns a new snake value; none changes its argument.
 */
module Snakes {
  import opened Inputs
  import opened Grid
  import opened Food

  /** `eatenApples` is the pending growth: while it is non-zero a move keeps
      the last cell instead of dropping it. */
  datatype Snake = Snake(cells: seq<Cell>, direction: Direction, eatenApples: int)

  function Max(a: int, b: int): int
  {
    if a < b then b else a
  }

  function Min(a: int, b: int): int
  {
    if a < b then a else b
  }

  /** The first cell of the body; an empty body has no head. */
  function Head(s: Snake): Cell
    requires |s.cells| > 0
  {
    s.cells[0]
  }

  /** The body without its head (empty for an empty body). */
  function Tail(s: Snake): (t: seq<Cell>)
    ensures |s.cells| > 0 ==> [Head(s)] + t == s.cells
    ensures |s.cells| == 0 ==> t == []
  {
    if |s.cells| == 0 then [] else s.cells[1..]
  }

  /** Consecutive body cells share an edge. */
  ghost predicate Connected(cells: seq<Cell>)
  {
    forall i :: 0 <= i < |cells| - 1 ==> Adjacent(cells[i], cells[i + 1])
  }

  /** Advances one cell: a new head one step along the direction, the old body
      behind it, minus its last cell unless growth is pending. */
  function Move(s: Snake): (r: Snake)
    requires |s.cells| > 0
    ensures |r.cells| > 0
    ensures Head(r) == Shift(Head(s), s.direction)
    ensures Tail(r) <= s.cells
    ensures s.eatenApples == 0 ==> |r.cells| == |s.cells|
    ensures s.eatenApples != 0 ==> |r.cells| == |s.cells| + 1
    ensures r.direction == s.direction
    ensures r.eatenApples >= 0
    ensures s.eatenApples > 0 ==> r.eatenApples == s.eatenApples - 1
    ensures s.eatenApples <= 0 ==> r.eatenApples == 0
  {
    var body := if s.eatenApples == 0 then s.cells[..|s.cells| - 1] else s.cells;
    Snake([Shift(Head(s), s.direction)] + body, s.direction, Max(0, s.eatenApples - 1))
  }

  /** Changes direction, ignoring no input and a reversal. The new snake is
      built from the cells and the direction alone, so a turn that takes
      effect drops any pending growth, even a turn to the current direction. */
  function Turn(s: Snake, d: Option<Direction>): (r: Snake)
    ensures d.None? ==> r == s
    ensures d.Some? && IsOpposite(d.value, s.direction) ==> r == s
    ensures d.Some? && !IsOpposite(d.value, s.direction) ==>
              r.cells == s.cells && r.direction == d.value && r.eatenApples == 0
    ensures !IsOpposite(r.direction, s.direction)
  {
    if d.None? || IsOpposite(d.value, s.direction) then s
    else Snake(s.cells, d.value, 0)
  }

  /** When the head is on an apple: one more pending growth, that apple gone
      and a new one grown at `spawn`, off the snake. Otherwise nothing changes. */
  function Eat(s: Snake, a: Apples, spawn: Cell): (r: (Snake, Apples))
    requires |s.cells| > 0
    requires Head(s) in a.cells ==> SpawnOk(a, s.cells, spawn)
    ensures Head(s) !in a.cells ==> r == (s, a)
    ensures Head(s) in a.cells ==>
              && r.0.cells == s.cells && r.0.direction == s.direction
              && r.0.eatenApples == s.eatenApples + 1
              && r.1.width == a.width && r.1.height == a.height
              && r.1.cells == (a.cells - {Head(s)}) + {spawn}
              && spawn !in s.cells
              && InBounds(spawn, a.width, a.height)
    ensures Head(s) !in r.1.cells
  {
    if Head(s) !in a.cells then (s, a)
    else
      (Snake(s.cells, s.direction, s.eatenApples + 1),
       Grow(Apples(a.width, a.height, a.cells - {Head(s)}), s.cells, spawn))
  }

  /** Turning twice with the same input is the same as turning once. */
  lemma TurnIdempotent(s: Snake, d: Option<Direction>)
    ensures Turn(Turn(s, d), d) == Turn(s, d)
  {
  }

  /** A turn that takes effect loses pending growth: the next move keeps the
      length instead of growing, even when the new direction is the old one. */
  lemma TurnDropsGrowth(s: Snake, d: Direction)
    requires |s.cells| > 0 && s.eatenApples > 0
    requires !IsOpposite(d, s.direction)
    ensures Turn(s, Some(d)).eatenApples == 0
    ensures |Move(Turn(s, Some(d))).cells| == |s.cells|
    ensures |Move(s).cells| == |s.cells| + 1
  {
  }

  /** `n` moves in a row, with no turn or apple in between. */
  function MoveN(s: Snake, n: nat): (r: Snake)
    requires |s.cells| > 0
    ensures |r.cells| > 0
    decreases n
  {
    if n == 0 then s else MoveN(Move(s), n - 1)
  }

  /** Pending growth is paid out one cell per move: after `n` moves the body
      has grown by `n` cells, or by all the pending growth if that is less. */
  lemma {:induction false} MoveNGrowth(s: Snake, n: nat)
    requires |s.cells| > 0 && s.eatenApples >= 0
    ensures |MoveN(s, n).cells| == |s.cells| + Min(n, s.eatenApples)
    ensures MoveN(s, n).eatenApples == Max(0, s.eatenApples - n)
    ensures MoveN(s, n).direction == s.direction
    decreases n
  {
    if n > 0 {
      MoveNGrowth(Move(s), n - 1);
    }
  }

  /** A move keeps the body connected: the new head touches the old head and
      the rest is a prefix of the old body. */
  lemma MoveConnected(s: Snake)
    requires |s.cells| > 0 && Connected(s.cells)
    ensures Connected(Move(s).cells)
  {
  }

  /** If only the head might be on an apple, eating leaves no apple anywhere
      under the snake: the apple at the head is removed and the new one is
      placed off the body. */
  lemma EatClearsBody(s: Snake, a: Apples, spawn: Cell)
    requires |s.cells| > 0
    requires Head(s) in a.cells ==> SpawnOk(a, s.cells, spawn)
    requires forall i :: 1 <= i < |s.cells| ==> s.cells[i] !in a.cells
    ensures Eat(s, a, spawn).0.cells == s.cells
    ensures forall i :: 0 <= i < |s.cells| ==> s.cells[i] !in Eat(s, a, spawn).1.cells
  {
  }

  /** With a single apple on the board there is still a single apple after
      eating: the eaten one is replaced, the uneaten one stays. */
  lemma EatKeepsOneApple(s: Snake, a: Apples, spawn: Cell)
    requires |s.cells| > 0
    requires Head(s) in a.cells ==> SpawnOk(a, s.cells, spawn)
    requires |a.cells| == 1
    ensures |Eat(s, a, spawn).1.cells| == 1
  {
  }
}
