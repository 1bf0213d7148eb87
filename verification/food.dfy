/** The set of apples lying on the board.

    The apple set carries its own width and height; a new apple is placed on
    a random cell of [0, width) x [0, height) that the snake does not cover.
    The random choice is a parameter here: `spawn` is the cell the placement
    settles on, and `SpawnOk` is the condition under which it stops looking.
 */
module Food {
  import opened Grid

  datatype Apples = Apples(width: int, height: int, cells: set<Cell>)

  /** `c` is a cell the placement may settle on: on the board and not under
      any of the `occupied` cells. Cells of other apples are not excluded. */
  predicate SpawnOk(a: Apples, occupied: seq<Cell>, c: Cell)
  {
    InBounds(c, a.width, a.height) && c !in occupied
  }

  /** Every apple lies on the apple set's own board. */
  ghost predicate ApplesInBounds(a: Apples)
  {
    forall c :: c in a.cells ==> InBounds(c, a.width, a.height)
  }

  /** Adds one apple at `spawn`, which lies on the board and off the snake. */
  function Grow(a: Apples, occupied: seq<Cell>, spawn: Cell): (r: Apples)
    requires SpawnOk(a, occupied, spawn)
    ensures r.width == a.width && r.height == a.height
    ensures spawn in r.cells && spawn !in occupied
    ensures InBounds(spawn, r.width, r.height)
    ensures forall c :: c in r.cells <==> c in a.cells || c == spawn
  {
    Apples(a.width, a.height, a.cells + {spawn})
  }

  /** Growing keeps every apple on the board. */
  lemma GrowInBounds(a: Apples, occupied: seq<Cell>, spawn: Cell)
    requires SpawnOk(a, occupied, spawn)
    requires ApplesInBounds(a)
    ensures ApplesInBounds(Grow(a, occupied, spawn))
  {
  }

  /** The set gains exactly one apple when the chosen cell was free of apples,
      and none when an apple already lay there. */
  lemma GrowCount(a: Apples, occupied: seq<Cell>, spawn: Cell)
    requires SpawnOk(a, occupied, spawn)
    ensures spawn !in a.cells ==> |Grow(a, occupied, spawn).cells| == |a.cells| + 1
    ensures spawn in a.cells ==> Grow(a, occupied, spawn) == a
  {
  }

  /** On a board with no columns or no rows there is no cell to place an
      apple on; the original's random draw from an empty range fails there. */
  lemma NoSpawnOnEmptyBoard(a: Apples, occupied: seq<Cell>, c: Cell)
    requires a.width <= 0 || a.height <= 0
    ensures !SpawnOk(a, occupied, c)
  {
  }
}
