/** Grid coordinates and directions of travel.

    A cell is an integer pair; a direction is a unit offset between cells.
    The board is the rectangle [0, width) x [0, height), y growing downwards.
 */
module Grid {

  /** A grid coordinate. Equality is by coordinate, as for a frozen value. */
  datatype Cell = Cell(x: int, y: int)

  datatype Direction = Up | Down | Left | Right

  function Abs(n: int): nat
  {
    if n < 0 then -n else n
  }

  /** The unit offset each direction stands for. */
  function Offset(d: Direction): (c: Cell)
    ensures Abs(c.x) + Abs(c.y) == 1
  {
    match d
    case Up => Cell(0, -1)
    case Down => Cell(0, 1)
    case Left => Cell(-1, 0)
    case Right => Cell(1, 0)
  }

  /** The opposite direction, as a plain table. */
  function Reverse(d: Direction): Direction
  {
    match d
    case Up => Down
    case Down => Up
    case Left => Right
    case Right => Left
  }

  /** The cell one step from `c` in direction `d`. */
  function Shift(c: Cell, d: Direction): (r: Cell)
    ensures r != c
  {
    Cell(c.x + Offset(d).x, c.y + Offset(d).y)
  }

  /** Two cells that share an edge. */
  predicate Adjacent(a: Cell, b: Cell)
  {
    Abs(a.x - b.x) + Abs(a.y - b.y) == 1
  }

  /** Two directions are opposite when their offsets sum to zero.
      This agrees with the Up/Down, Left/Right table `Reverse`. */
  predicate IsOpposite(a: Direction, b: Direction)
    ensures IsOpposite(a, b) <==> b == Reverse(a)
  {
    Offset(a).x + Offset(b).x == 0 && Offset(a).y + Offset(b).y == 0
  }

  /** Opposition is symmetric and no direction opposes itself. */
  lemma OppositeSymmetric(a: Direction, b: Direction)
    ensures IsOpposite(a, b) <==> IsOpposite(b, a)
    ensures !IsOpposite(a, a)
  {
  }

  /** Stepping forward and then in the opposite direction returns to the start. */
  lemma ShiftReverse(c: Cell, d: Direction)
    ensures Shift(Shift(c, d), Reverse(d)) == c
  {
  }

  /** A step lands on a neighbouring cell. */
  lemma ShiftAdjacent(c: Cell, d: Direction)
    ensures Adjacent(Shift(c, d), c)
  {
  }

  /** Different directions lead to different cells. */
  lemma ShiftInjective(c: Cell, d1: Direction, d2: Direction)
    ensures Shift(c, d1) == Shift(c, d2) <==> d1 == d2
  {
  }

  /** The cell lies on the board [0, width) x [0, height). */
  predicate InBounds(c: Cell, width: int, height: int)
  {
    0 <= c.x < width && 0 <= c.y < height
  }

  /** Every cell of the list lies on the board, checked one cell at a time. */
  function AllInBounds(cells: seq<Cell>, width: int, height: int): (r: bool)
    ensures r <==> forall i :: 0 <= i < |cells| ==> InBounds(cells[i], width, height)
  {
    if |cells| == 0 then true
    else InBounds(cells[0], width, height) && AllInBounds(cells[1..], width, height)
  }
}
