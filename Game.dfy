/** The game state machine: the snake, obstacles, food, direction, score
    and run flags, updated in place by the timer tick, the obstacle spawner
    and key presses. Each random cell the game draws is a parameter. */
module Game {
  import opened Grid
  import opened Keys
  import opened CellLists

  class SnakeGame {
    /** Head first, tail last. */
    var snake: seq<Cell>
    var obstacles: seq<Cell>
    var food: Cell
    var direction: Direction
    var gameOver: bool
    var gameRunning: bool
    var score: int

    /** What every operation keeps: a non-empty snake, the two run flags
        in step, and every cell on the grid. */
    ghost predicate Valid()
      reads this
    {
      && |snake| >= 1
      && gameOver == !gameRunning
      && AllInBounds(snake)
      && AllInBounds(obstacles)
      && InBounds(food)
    }

    /** The state of a new game whose food was drawn at `f`. */
    ghost predicate IsNewGame(f: Cell)
      reads this
    {
      && snake == [Start]
      && obstacles == []
      && food == f
      && direction == Right
      && !gameOver
      && gameRunning
      && score == 0
    }

    constructor (firstFood: Cell)
      requires InBounds(firstFood)
      ensures Valid()
      ensures IsNewGame(firstFood)
    {
      snake := [Start];
      obstacles := [];
      food := firstFood;
      direction := Right;
      gameOver := false;
      gameRunning := true;
      score := 0;
    }

    /** One action of the 100 ms game timer: nothing happens once the game
        is over; otherwise the snake moves and collisions are resolved.
        `newFood` is where food goes if the snake eats this tick. */
    method Tick(newFood: Cell)
      requires Valid()
      requires InBounds(newFood)
      modifies this
      ensures Valid()
      ensures !old(gameRunning) ==> unchanged(this)
      ensures old(gameRunning) ==>
        var h := Step(old(snake)[0], old(direction));
        var ate := h == old(food);
        && snake == [h] + (if ate then old(snake) else old(snake)[..|old(snake)| - 1])
        && |snake| == |old(snake)| + (if ate then 1 else 0)
        && food == (if ate then newFood else old(food))
        && obstacles == RemoveFirst(old(obstacles), h)
        && score == old(score) + (if ate then 1 else 0) - (if h in old(obstacles) then 5 else 0)
        && direction == old(direction)
        && gameOver == HitsBody(snake)
        && gameRunning == !HitsBody(snake)
    {
      if gameRunning {
        Move(newFood);
        CheckCollision();
      }
    }

    /** Puts the wrapped-around next cell in front of the snake; eating the
        food scores a point, moves the food to `newFood` and keeps the tail,
        otherwise the tail is dropped. */
    method Move(newFood: Cell)
      requires Valid()
      requires InBounds(newFood)
      modifies this
      ensures Valid()
      ensures var h := Step(old(snake)[0], old(direction));
        if h == old(food) then
          snake == [h] + old(snake) && score == old(score) + 1 && food == newFood
        else
          snake == [h] + old(snake)[..|old(snake)| - 1] && score == old(score) && food == old(food)
      ensures obstacles == old(obstacles) && direction == old(direction)
      ensures gameOver == old(gameOver) && gameRunning == old(gameRunning)
    {
      var head := Step(snake[0], direction);
      snake := [head] + snake;
      if head == food {
        UpdateScore();
        food := newFood;
      } else {
        snake := snake[..|snake| - 1];
      }
    }

    /** A head on an obstacle removes the first such obstacle and costs 5
        points; a head on any later body cell ends the game. */
    method CheckCollision()
      requires Valid()
      modifies this
      ensures Valid()
      ensures snake == old(snake) && food == old(food) && direction == old(direction)
      ensures obstacles == RemoveFirst(old(obstacles), snake[0])
      ensures score == old(score) - (if snake[0] in old(obstacles) then 5 else 0)
      ensures HitsBody(snake) ==> gameOver && !gameRunning
      ensures !HitsBody(snake) ==> gameOver == old(gameOver) && gameRunning == old(gameRunning)
    {
      var head := snake[0];

      var k := 0;
      while k < |obstacles|
        invariant 0 <= k <= |obstacles|
        invariant obstacles == old(obstacles) && score == old(score)
        invariant head !in obstacles[..k]
      {
        if obstacles[k] == head {
          RemoveFirstInBounds(obstacles, head);
          obstacles := RemoveFirst(obstacles, head);
          score := score - 5;
          break;
        }
        assert obstacles[..k + 1] == obstacles[..k] + [obstacles[k]];
        k := k + 1;
      }

      var i := 1;
      while i < |snake|
        invariant 1 <= i <= |snake|
        invariant forall j :: 1 <= j < i ==> snake[j] != head
        invariant gameOver == old(gameOver) && gameRunning == old(gameRunning)
      {
        if snake[i] == head {
          gameOver := true;
          gameRunning := false;
          break;
        }
        i := i + 1;
      }
    }

    method UpdateScore()
      requires Valid()
      modifies this`score
      ensures Valid()
      ensures score == old(score) + 1
    {
      score := score + 1;
    }

    /** One action of the 10 s obstacle timer, which runs whatever the run
        state: appends an obstacle at the drawn cell `cell`. */
    method AddObstacle(cell: Cell)
      requires Valid()
      requires InBounds(cell)
      modifies this`obstacles
      ensures Valid()
      ensures obstacles == old(obstacles) + [cell]
    {
      obstacles := obstacles + [cell];
    }

    /** A key press: an arrow key may change the direction (see
        NextDirection); R starts a new game once this one is over, with its
        food at `newFood`; every other key is ignored. */
    method KeyPressed(code: int, newFood: Cell)
      requires Valid()
      requires InBounds(newFood)
      modifies this
      ensures Valid()
      ensures !old(gameRunning) && code == KeyR ==> IsNewGame(newFood)
      ensures !(!old(gameRunning) && code == KeyR) ==>
        && direction == NextDirection(old(gameRunning), old(direction), code)
        && snake == old(snake) && obstacles == old(obstacles) && food == old(food)
        && score == old(score) && gameOver == old(gameOver) && gameRunning == old(gameRunning)
    {
      var requested := ArrowKey(code);
      if gameRunning && requested.Some? && requested.value != Opposite(direction) {
        direction := requested.value;
      }
      if !gameRunning && code == KeyR {
        ResetGame(newFood);
      }
    }

    /** Clears the board back to a new game with its food at `newFood`. */
    method ResetGame(newFood: Cell)
      requires InBounds(newFood)
      modifies this
      ensures Valid()
      ensures IsNewGame(newFood)
    {
      snake := [Start];
      obstacles := [];
      food := newFood;
      direction := Right;
      gameOver := false;
      gameRunning := true;
      score := 0;
    }
  }
}
