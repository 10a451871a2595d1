/** The playing field: a 30 x 20 torus of cells, the four directions the
    snake can travel in, and the one-cell step that wraps at the edges. */
module Grid {

  /** Number of columns and rows of the field (GRID_WIDTH, GRID_HEIGHT). */
  const Width: int := 30
  const Height: int := 20

  /** A grid position, as java.awt.Point: equal when both coordinates are. */
  datatype Cell = Cell(x: int, y: int)

  predicate InBounds(c: Cell) {
    0 <= c.x < Width && 0 <= c.y < Height
  }

  predicate AllInBounds(cells: seq<Cell>) {
    forall i :: 0 <= i < |cells| ==> InBounds(cells[i])
  }

  /** Where a new game starts: the centre cell (GRID_WIDTH / 2, GRID_HEIGHT / 2). */
  const Start: Cell := Cell(Width / 2, Height / 2)

  datatype Direction = Left | Right | Up | Down

  function Opposite(d: Direction): (r: Direction)
    ensures r != d
  {
    match d
    case Left => Right
    case Right => Left
    case Up => Down
    case Down => Up
  }

  /** Reversing twice gives back the original direction. */
  lemma OppositeTwice(d: Direction)
    ensures Opposite(Opposite(d)) == d
  {
  }

  /** Java's integer `/`: the quotient truncates toward zero (unlike
      Dafny's `/`, which rounds so that the remainder is never negative). */
  function JavaQuot(a: int, b: int): int
    requires b > 0
  {
    if a >= 0 then a / b else -((-a) / b)
  }

  /** Java's integer `%`: the remainder that goes with the truncating
      quotient, so it takes the sign of the dividend (unlike Dafny's `%`). */
  function JavaRem(a: int, b: int): (r: int)
    requires b > 0
    ensures a == JavaQuot(a, b) * b + r
    ensures -b < r < b
    ensures a >= 0 ==> 0 <= r
    ensures a <= 0 ==> r <= 0
    ensures a >= 0 ==> r == a % b
  {
    if a >= 0 then a % b else -((-a) % b)
  }

  /** The cell one step from `c` in direction `d`: moving left or up adds
      the grid size before taking the remainder, so an in-bounds cell never
      leaves the grid; up decreases y (screen coordinates). */
  function Step(c: Cell, d: Direction): (r: Cell)
    ensures d == Left || d == Right ==> r.y == c.y
    ensures d == Up || d == Down ==> r.x == c.x
    ensures InBounds(c) ==> InBounds(r)
  {
    match d
    case Left => Cell(JavaRem(c.x - 1 + Width, Width), c.y)
    case Right => Cell(JavaRem(c.x + 1, Width), c.y)
    case Up => Cell(c.x, JavaRem(c.y - 1 + Height, Height))
    case Down => Cell(c.x, JavaRem(c.y + 1, Height))
  }

  /** On the torus a step is undone by a step the opposite way. */
  lemma StepThenBack(c: Cell, d: Direction)
    requires InBounds(c)
    ensures Step(Step(c, d), Opposite(d)) == c
  {
  }

  /** A step always reaches a different cell: the grid is wider and taller than one cell. */
  lemma StepMoves(c: Cell, d: Direction)
    requires InBounds(c)
    ensures Step(c, d) != c
  {
  }

  /** Inside the grid a step is the unit move on the torus: one cell along
      its axis, taken modulo the grid size. */
  lemma StepIsTorusMove(c: Cell)
    requires InBounds(c)
    ensures Step(c, Left) == Cell((c.x - 1) % Width, c.y)
    ensures Step(c, Right) == Cell((c.x + 1) % Width, c.y)
    ensures Step(c, Up) == Cell(c.x, (c.y - 1) % Height)
    ensures Step(c, Down) == Cell(c.x, (c.y + 1) % Height)
  {
  }

  /** Stepping off an edge re-enters at the opposite edge. */
  lemma StepWraps(c: Cell)
    requires InBounds(c)
    ensures c.x == Width - 1 ==> Step(c, Right) == Cell(0, c.y)
    ensures c.x == 0 ==> Step(c, Left) == Cell(Width - 1, c.y)
    ensures c.y == 0 ==> Step(c, Up) == Cell(c.x, Height - 1)
    ensures c.y == Height - 1 ==> Step(c, Down) == Cell(c.x, 0)
  {
  }
}
