/** Short games played against the contracts of SnakeGame alone: every
    random draw is fixed by hand, so each outcome is determined. */
module Scenarios {
  import opened Grid
  import opened Keys
  import opened CellLists
  import opened Game

  /** A new game with food right of the start cell: one tick eats it. */
  method EatFirstFood() returns (snake: seq<Cell>, score: int, running: bool)
    ensures snake == [Cell(16, 10), Cell(15, 10)]
    ensures score == 1
    ensures running
  {
    var g := new SnakeGame(Cell(16, 10));
    g.Tick(Cell(3, 3));
    snake, score, running := g.snake, g.score, g.gameRunning;
  }

  /** An obstacle spawned right of the start cell is run into on the next
      tick: it disappears and the score drops to -5; the game goes on. */
  method HitObstacle() returns (snake: seq<Cell>, obstacles: seq<Cell>, score: int, running: bool)
    ensures snake == [Cell(16, 10)]
    ensures obstacles == []
    ensures score == -5
    ensures running
  {
    var g := new SnakeGame(Cell(0, 0));
    g.AddObstacle(Cell(16, 10));
    g.Tick(Cell(3, 3));
    snake, obstacles, score, running := g.snake, g.obstacles, g.score, g.gameRunning;
  }

  /** Grow to three cells heading right, then press Up and Left before the
      next tick: both keys are taken, the snake turns back into its own
      second cell and the game ends. A further tick and an arrow key change
      nothing; R starts over. */
  method ReverseIntoSelf()
    returns (overScore: int, overSnake: seq<Cell>, overRunning: bool, overDirection: Direction,
             frozenScore: int, frozenSnake: seq<Cell>, frozenObstacles: seq<Cell>,
             frozenFood: Cell, frozenDirection: Direction, frozenRunning: bool, restarted: bool)
    ensures overScore == 2 && overSnake == [Cell(16, 10), Cell(17, 10), Cell(16, 10)]
    ensures !overRunning && overDirection == Left
    ensures frozenScore == overScore && frozenSnake == overSnake && frozenObstacles == []
    ensures frozenFood == Cell(0, 0) && frozenDirection == Left && !frozenRunning
    ensures restarted
  {
    var g := new SnakeGame(Cell(16, 10));
    g.Tick(Cell(17, 10));
    assert g.snake == [Cell(16, 10), Cell(15, 10)] && g.obstacles == [] && g.score == 1;
    g.Tick(Cell(0, 0));
    assert g.snake == [Cell(17, 10), Cell(16, 10), Cell(15, 10)] && g.obstacles == [];
    assert g.score == 2 && g.gameRunning && g.direction == Right;
    g.KeyPressed(KeyUp, Cell(0, 0));
    g.KeyPressed(KeyLeft, Cell(0, 0));
    assert g.direction == Left;
    g.Tick(Cell(0, 0));
    assert g.snake[2] == g.snake[0];
    overScore, overSnake, overRunning, overDirection := g.score, g.snake, g.gameRunning, g.direction;
    g.Tick(Cell(0, 0));
    g.KeyPressed(KeyRight, Cell(0, 0));
    frozenScore, frozenSnake, frozenObstacles := g.score, g.snake, g.obstacles;
    frozenFood, frozenDirection, frozenRunning := g.food, g.direction, g.gameRunning;
    g.KeyPressed(KeyR, Cell(5, 5));
    restarted := g.gameRunning && g.snake == [Start] && g.score == 0;
  }

  /** A two-cell snake heading right turns back with Up then Left. With
      the food elsewhere its head lands on the old tail cell, which is
      dropped on the same tick, and the game goes on. With the food on that
      tail cell the tail is kept, and the head meets it: game over. */
  method TwoCellReversal()
    returns (safeSnake: seq<Cell>, safeRunning: bool, fedSnake: seq<Cell>, fedRunning: bool)
    ensures safeSnake == [Cell(15, 10), Cell(16, 10)] && safeRunning
    ensures fedSnake == [Cell(15, 10), Cell(16, 10), Cell(15, 10)] && !fedRunning
  {
    var g := new SnakeGame(Cell(16, 10));
    g.Tick(Cell(0, 0));
    assert g.snake == [Cell(16, 10), Cell(15, 10)] && g.food == Cell(0, 0) && g.gameRunning;
    g.KeyPressed(KeyUp, Cell(0, 0));
    g.KeyPressed(KeyLeft, Cell(0, 0));
    g.Tick(Cell(0, 0));
    safeSnake, safeRunning := g.snake, g.gameRunning;

    var h := new SnakeGame(Cell(16, 10));
    h.Tick(Cell(15, 10));
    assert h.snake == [Cell(16, 10), Cell(15, 10)] && h.food == Cell(15, 10) && h.gameRunning;
    h.KeyPressed(KeyUp, Cell(0, 0));
    h.KeyPressed(KeyLeft, Cell(0, 0));
    h.Tick(Cell(0, 0));
    assert h.snake[2] == h.snake[0];
    fedSnake, fedRunning := h.snake, h.gameRunning;
  }
}
