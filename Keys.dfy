/** Keyboard input: the AWT key codes the game reacts to, and the rule
    that decides whether an arrow key changes the snake's direction. */
module Keys {
  import opened Grid

  datatype Option<T> = None | Some(value: T)

  /** Key codes of java.awt.event.KeyEvent (VK_LEFT, VK_UP, VK_RIGHT, VK_DOWN, VK_R). */
  const KeyLeft: int := 37
  const KeyUp: int := 38
  const KeyRight: int := 39
  const KeyDown: int := 40
  const KeyR: int := 82

  /** The key code the game stores for a direction. */
  function KeyCode(d: Direction): (code: int)
    ensures KeyLeft <= code <= KeyDown
  {
    match d
    case Left => KeyLeft
    case Up => KeyUp
    case Right => KeyRight
    case Down => KeyDown
  }

  /** The direction an arrow key asks for; None for every other key. */
  function ArrowKey(code: int): (r: Option<Direction>)
    ensures r.Some? <==> KeyLeft <= code <= KeyDown
    ensures r.Some? ==> KeyCode(r.value) == code
  {
    if code == KeyLeft then Some(Left)
    else if code == KeyUp then Some(Up)
    else if code == KeyRight then Some(Right)
    else if code == KeyDown then Some(Down)
    else None
  }

  lemma ArrowKeyOfKeyCode(d: Direction)
    ensures ArrowKey(KeyCode(d)) == Some(d)
  {
  }

  /** The stored direction after a key press: an arrow key is taken only
      while the game runs and only when it is not the reverse of the STORED
      direction; anything else leaves the direction as it was. */
  function NextDirection(running: bool, current: Direction, code: int): (r: Direction)
    ensures r != Opposite(current)
    ensures r != current ==> running && ArrowKey(code) == Some(r)
    ensures running && ArrowKey(code).Some? && ArrowKey(code).value != Opposite(current)
            ==> r == ArrowKey(code).value
  {
    match ArrowKey(code)
    case Some(d) => if running && d != Opposite(current) then d else current
    case None => current
  }

  /** The reverse of the stored direction is always refused. */
  lemma ReverseRefused(running: bool, current: Direction)
    ensures NextDirection(running, current, KeyCode(Opposite(current))) == current
  {
  }

  /** While the game is not running no key changes the direction. */
  lemma StoppedIgnoresKeys(current: Direction, code: int)
    ensures NextDirection(false, current, code) == current
  {
  }

  /** The guard looks at the stored direction only, so two presses between
      ticks can turn the snake around: heading right, Up then Left are both
      taken and the next tick moves left. */
  lemma TwoPressesReverse()
    ensures NextDirection(true, Right, KeyUp) == Up
    ensures NextDirection(true, NextDirection(true, Right, KeyUp), KeyLeft) == Left
    ensures NextDirection(true, Right, KeyLeft) == Right
  {
  }
}
