# Snake game state machine, in Dafny

This project models the game logic of a single-screen Snake game written in
Java (`SnakeGame.java`). A snake moves on a 30 x 20 grid whose edges wrap
around. It grows by eating food. An obstacle timer drops hazards that cost
5 points each when the snake's head hits one. The game ends when the head
runs into the snake's own body, and the R key starts a new game.

The model follows the Java class field by field. `Game.SnakeGame` is a
Dafny class with the same state: `snake` (head first), `obstacles`, `food`,
`direction`, `gameOver`, `gameRunning` and `score`. Its methods mirror
`move`, `checkCollision`, `updateScore`, `addObstacle`, `keyPressed`,
`resetGame`, the constructor, and the 100 ms timer action (`Tick`). Each
method changes the fields in place. Its contract states the whole new state
in terms of the old one. Every method except `ResetGame`, which
establishes it from any state, requires and keeps the object invariant
`Valid()`:
- the snake is never empty;
- `gameOver == !gameRunning`;
- every snake, obstacle and food cell lies on the grid.

`Tick` is the 100 ms timer action: it checks `gameRunning`, then calls
`move` and then `checkCollision`. Modules:
- `Grid`: cells, directions, Java's truncating `%`, and the wrapping step.
- `Keys`: AWT key codes, and the rule that accepts or refuses an arrow key.
- `CellLists`: first match in a list, `ArrayList.remove(Object)`, and the
  self-collision test.
- `Game`: the class.
- `Scenarios`: four short games played against the class's contracts only.

Every random draw (`new Random().nextInt(GRID_WIDTH)` and
`nextInt(GRID_HEIGHT)`) becomes a `Cell` parameter that must lie on the
grid. These are the food cell given to the constructor, `Tick`,
`KeyPressed` and `ResetGame`, and the obstacle cell given to `AddObstacle`.
`Tick` uses its food cell only when the snake eats. `KeyPressed` uses its
food cell only when it restarts the game.

Behaviour of the code that is easy to get wrong, kept as written:
- The arrow-key guard compares against the stored direction, not the one
  last moved in. So two presses between ticks (Up then Left while heading
  right) are both accepted, and the snake turns back on itself.
  `Keys.TwoPressesReverse` shows this, and `Scenarios.ReverseIntoSelf`
  plays it to a game over. The guard does not stop a 180-degree turn made
  by two presses between ticks.
- On the tick that ends the game, that tick's +1 for food and -5 for an
  obstacle are applied before the game stops. The score is frozen from the
  next tick on, not at its value before the fatal tick.
- A two-cell snake that reverses moves its head onto its old tail cell.
  Unless the food lies on that cell, the tail is dropped on the same tick
  and no collision happens. With the food there, the tail is kept and the
  game ends. `Scenarios.TwoCellReversal` shows both cases.

## Model

| member | source | states |
|---|---|---|
| Grid.Opposite | SnakeGame.java:148-151 | the direction the arrow-key guard refuses after each stored direction; no direction is its own opposite |
| Grid.OppositeTwice | SnakeGame.java:148-151 | the opposite relation is symmetric: reversing twice gives the original direction |
| Grid.JavaRem | SnakeGame.java:67-73 | Java's `%` on a positive modulus: with the truncating quotient q, a == q * b + r; the result is strictly between -b and b, has the sign of the dividend, and equals Dafny's `%` for non-negative dividends |
| Grid.Step | SnakeGame.java:62-74 | the new head changes only x for Left and Right and only y for Up and Down; from an in-bounds head it stays within 0 <= x < 30, 0 <= y < 20 in every direction |
| Grid.StepThenBack | SnakeGame.java:66-74 | on the torus a step is undone by a step in the opposite direction |
| Grid.StepMoves | SnakeGame.java:66-74 | a step from an in-bounds cell always reaches a different cell |
| Grid.StepIsTorusMove | SnakeGame.java:66-74 | from an in-bounds cell, each direction moves one cell along its axis, modulo the grid width or height |
| Grid.StepWraps | SnakeGame.java:66-74 | leaving an edge of the grid re-enters at the opposite edge, in all four directions |
| Keys.KeyCode | SnakeGame.java:26 | the code stored for each direction is one of VK_LEFT..VK_DOWN (37..40) |
| Keys.ArrowKey | SnakeGame.java:147-151 | a key code names a direction exactly when it is one of the four arrow codes, and then it is that direction's code |
| Keys.ArrowKeyOfKeyCode | SnakeGame.java:147-152 | decoding the stored code of a direction gives back that direction |
| Keys.NextDirection | SnakeGame.java:146-153 | the direction changes only while running and only to the pressed arrow; an arrow that is not the reverse of the stored direction is always taken while running; the result is never the reverse of the stored direction |
| Keys.ReverseRefused | SnakeGame.java:148-151 | pressing the reverse of the stored direction leaves it unchanged |
| Keys.StoppedIgnoresKeys | SnakeGame.java:148 | while the game is not running no key changes the direction |
| Keys.TwoPressesReverse | SnakeGame.java:148-152 | heading right, Up then Left between ticks are both taken, although Left alone is refused |
| CellLists.FirstIndex | SnakeGame.java:89-90 | the position of the first obstacle equal to the head: it holds the head and no earlier entry does; -1 exactly when the head is on no obstacle |
| CellLists.RemoveFirst | SnakeGame.java:91 | `obstacles.remove(obstacle)`: with a match, exactly one entry goes, the first match, and the others keep their order; with no match the list is unchanged |
| CellLists.RemoveFirstMultiset | SnakeGame.java:91 | removing a matched obstacle takes out exactly one copy of that cell and no other cell |
| CellLists.RemoveFirstInBounds | SnakeGame.java:89-95 | removing an obstacle leaves every remaining obstacle on the grid |
| CellLists.SingleCellNeverHits | SnakeGame.java:97-98 | the self-collision test cannot fire for a one-cell snake |
| Game.SnakeGame.constructor | SnakeGame.java:21-29 | a new game: snake [(15,10)], no obstacles, food at the drawn cell, direction Right, running, not over, score 0; the invariant holds |
| Game.SnakeGame.Tick | SnakeGame.java:43-50 | while not running nothing changes; otherwise the new head comes first, the snake grows by one exactly when the head lands on the food, score rises by 1 on food and falls by 5 on an obstacle, the first matching obstacle goes, and the game ends exactly when the head meets a later body cell; the invariant holds |
| Game.SnakeGame.Move | SnakeGame.java:62-83 | the wrapped next cell is put in front; on food: whole old snake kept, score +1, food moved to the drawn cell; otherwise: last cell dropped, score and food unchanged; obstacles, direction and flags unchanged |
| Game.SnakeGame.CheckCollision | SnakeGame.java:85-104 | the first obstacle on the head is removed with score -5, and nothing else happens when there is none; the game is over and stopped when the head meets a body cell at index >= 1, and the flags are untouched otherwise; snake, food and direction unchanged |
| Game.SnakeGame.UpdateScore | SnakeGame.java:106-108 | score rises by exactly 1 and nothing else changes |
| Game.SnakeGame.AddObstacle | SnakeGame.java:110-116 | appends exactly the drawn cell to the obstacles and changes nothing else, whatever the run state; the invariant holds |
| Game.SnakeGame.KeyPressed | SnakeGame.java:146-157 | R while not running starts a new game; any other case changes only the direction, and only as the arrow-key guard allows |
| Game.SnakeGame.ResetGame | SnakeGame.java:163-173 | from any state: snake [(15,10)], no obstacles, food at the drawn cell, direction Right, score 0, running and not over |
| Scenarios.EatFirstFood | SnakeGame.java:62-83 | a new game with food at (16,10): one tick gives snake [(16,10),(15,10)] and score 1, still running |
| Scenarios.HitObstacle | SnakeGame.java:85-95 | an obstacle spawned at (16,10) is hit on the next tick: it is removed, score is -5, the game goes on |
| Scenarios.ReverseIntoSelf | SnakeGame.java:97-103 | two quick presses turn a three-cell snake into itself: the game stops at score 2 heading Left; a further tick and an arrow key leave score, snake, obstacles, food, direction and the stopped state unchanged; R restarts |
| Scenarios.TwoCellReversal | SnakeGame.java:76-82 | a two-cell snake reversing onto its old tail survives when the food is elsewhere and ends the game when the food is on that tail cell |

## Left out

- Swing and AWT plumbing is not modelled: the panel, `paintComponent` drawing and text, preferred size, focus, listener registration, `repaint`, `main` and the frame. None of it touches game state.
- `javax.swing.Timer` scheduling is not modelled, including the interleaving of the 100 ms and 10 s timers. `Tick`, `AddObstacle` and `KeyPressed` are separate atomic methods that a caller may invoke in any order.
- `java.util.Random` is not modelled: each draw is an in-bounds cell parameter, and the uniform distribution is not captured.
- `GRID_SIZE`, the pixel size of a cell, only matters for drawing.
- `keyReleased` and `keyTyped` are empty and are not modelled.
- `move`'s fallthrough when `direction` matches no arrow code is not modelled. Only arrow codes are ever stored, so the branch is unreachable; `Direction` is a four-value datatype.
- Game.SnakeGame.Tick: does not model the 32-bit wrap-around of `score`; score is an unbounded integer. Overflow takes about 2^31 food eaten, and underflow about 2^31/5 (some 4.3 x 10^8) obstacle hits.
- Game.SnakeGame.Move: does not model the 32-bit wrap-around of `score++`, which takes about 2^31 food eaten.
- Game.SnakeGame.CheckCollision: does not model the 32-bit wrap-around of `score -= 5`, which takes about 2^31/5 obstacle hits.
- Game.SnakeGame.UpdateScore: does not model the 32-bit wrap-around of `score++`, which takes about 2^31 food eaten.
