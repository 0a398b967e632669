/**
 * The ghosts app's per-frame keyboard dispatch: of the four movement
 * bindings, the first pressed one in the priority order LEFT, RIGHT, DOWN,
 * UP moves the player one cell, and at most one move is issued per frame.
 */
module GhostsInput {
  import opened Optional

  datatype Direction = Left | Right | Down | Up

  /** Which movement bindings read as pressed in this frame. */
  datatype Bindings = Bindings(left: bool, right: bool, down: bool, up: bool)

  /** The order in which the bindings are tried. */
  const Priority: seq<Direction> := [Left, Right, Down, Up]

  predicate IsPressed(b: Bindings, d: Direction) {
    match d
    case Left => b.left
    case Right => b.right
    case Down => b.down
    case Up => b.up
  }

  /** The `(row, column)` step passed to `movePlayer` for a direction: one cell, along one axis. */
  function Delta(d: Direction): (r: (int, int))
    ensures (r.0 == 0) != (r.1 == 0)
    ensures -1 <= r.0 <= 1 && -1 <= r.1 <= 1
  {
    match d
    case Left => (0, -1)
    case Right => (0, 1)
    case Down => (1, 0)
    case Up => (-1, 0)
  }

  /**
   * The direction moved in this frame, if any: the first pressed binding in
   * priority order, and none when no binding is pressed.
   */
  function Move(b: Bindings): (r: Option<Direction>)
    ensures r.Some? ==> IsPressed(b, r.value)
  {
    if b.left then Some(Left)
    else if b.right then Some(Right)
    else if b.down then Some(Down)
    else if b.up then Some(Up)
    else None
  }

  /** `Move` agrees with the priority order: it picks the earliest pressed binding, or none. */
  lemma MoveIsFirstPressed(b: Bindings)
    ensures Move(b).None? <==> forall k | 0 <= k < |Priority| :: !IsPressed(b, Priority[k])
    ensures Move(b).Some? ==> exists k | 0 <= k < |Priority| :: Priority[k] == Move(b).value
                                  && forall j | 0 <= j < k :: !IsPressed(b, Priority[j])
  {
    assert Priority[0] == Left && Priority[1] == Right && Priority[2] == Down && Priority[3] == Up;
    if b.left {
      assert Priority[0] == Move(b).value;
    } else if b.right {
      assert Priority[1] == Move(b).value;
    } else if b.down {
      assert Priority[2] == Move(b).value;
    } else if b.up {
      assert Priority[3] == Move(b).value;
    }
  }

  /** The single `movePlayer(row, column)` call a frame makes, if any. */
  function MovePlayer(b: Bindings): (r: Option<(int, int)>)
    ensures r.None? <==> !(b.left || b.right || b.down || b.up)
    ensures b.left ==> r == Some((0, -1))
    ensures !b.left && b.right ==> r == Some((0, 1))
    ensures !b.left && !b.right && b.down ==> r == Some((1, 0))
    ensures !b.left && !b.right && !b.down && b.up ==> r == Some((-1, 0))
  {
    match Move(b)
    case None => None
    case Some(d) => Some(Delta(d))
  }

  /** Distinct directions move the player to distinct cells. */
  lemma DeltaInjective(d: Direction, e: Direction)
    requires Delta(d) == Delta(e)
    ensures d == e
  {
  }
}
