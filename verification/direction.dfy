/**
 Directions of travel and the arrow keys that request them.
 */
module Direction {
  import opened Board

  datatype Dir = Up | Down | Left | Right

  /** The direction that would turn the snake straight back onto itself. */
  function Opposite(d: Dir): Dir {
    match d
    case Up => Down
    case Down => Up
    case Left => Right
    case Right => Left
  }

  /** One cell in direction `d`; up decreases y, down increases it. */
  function Move(p: Pos, d: Dir): (q: Pos)
    ensures Adjacent(p, q)
    ensures d == Up || d == Down ==> q.x == p.x
    ensures d == Left || d == Right ==> q.y == p.y
  {
    match d
    case Up => Pos(p.x, p.y - 1)
    case Down => Pos(p.x, p.y + 1)
    case Left => Pos(p.x - 1, p.y)
    case Right => Pos(p.x + 1, p.y)
  }

  /** Moving one way and then the opposite way returns to the start. */
  lemma MoveBack(p: Pos, d: Dir)
    ensures Move(Move(p, d), Opposite(d)) == p
  {
  }

  /** True iff `p` sits on the side of the board that `d` heads towards. */
  predicate FacesEdge(p: Pos, d: Dir) {
    match d
    case Up => p.y == 0
    case Down => p.y == Size - 1
    case Left => p.x == 0
    case Right => p.x == Size - 1
  }

  /** From a cell on the board, one move leaves the board exactly when that cell faces the edge. */
  lemma LeavesBoardIffFacesEdge(p: Pos, d: Dir)
    requires InBounds(p)
    ensures !InBounds(Move(p, d)) <==> FacesEdge(p, d)
  {
  }

  /** A key press as the game sees it: one of the four arrows, or anything else. */
  datatype Key = Arrow(dir: Dir) | Other

  /** Reads the browser key name; only the four arrow keys mean anything to the game. */
  function ParseKey(name: string): (k: Key)
    ensures k == Arrow(Up) <==> name == "ArrowUp"
    ensures k == Arrow(Down) <==> name == "ArrowDown"
    ensures k == Arrow(Left) <==> name == "ArrowLeft"
    ensures k == Arrow(Right) <==> name == "ArrowRight"
  {
    if name == "ArrowUp" then Arrow(Up)
    else if name == "ArrowDown" then Arrow(Down)
    else if name == "ArrowLeft" then Arrow(Left)
    else if name == "ArrowRight" then Arrow(Right)
    else Other
  }
}
