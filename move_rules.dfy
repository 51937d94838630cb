/** The six neighbours of a cell on the hexagonal board (class MoveRules). */
module MoveRules {

  /** The six directions, in the order the Java enum declares them. */
  datatype MoveDirection = LEFT | RIGHT | UPLEFT | UPRIGHT | DOWNLEFT | DOWNRIGHT

  /** MoveDirection.values() */
  const Directions: seq<MoveDirection> := [LEFT, RIGHT, UPLEFT, UPRIGHT, DOWNLEFT, DOWNRIGHT]

  /** A board position: x is the column, y the row (an [x, y] list in the Java code). */
  datatype Coord = Coord(x: int, y: int)

  /** Math.abs, for the distances and paddings built on board coordinates. */
  function Abs(n: int): nat {
    if n < 0 then -n else n
  }

  /** Appending in two steps is appending the two parts at once; the logs and buffers grow this way. */
  lemma ConcatAssoc<T>(a: seq<T>, b: seq<T>, c: seq<T>)
    ensures a + b + c == a + (b + c)
  {
  }

  /**
   * The hexagonal rows are "offset": odd rows sit half a cell to the right of even rows,
   * so a diagonal step changes x only when it leaves a row of the matching parity.
   */
  predicate EvenRow(y: int) {
    y % 2 == 0
  }

  function ApplyShift(c: Coord, xShift: int, yShift: int): (r: Coord)
    ensures r.x - c.x == xShift && r.y - c.y == yShift
  {
    Coord(c.x + xShift, c.y + yShift)
  }

  /** The neighbour of c in direction d. */
  function ApplyShiftBasedOnDirection(c: Coord, d: MoveDirection): Coord
  {
    match d
    case LEFT => ApplyShift(c, -1, 0)
    case RIGHT => ApplyShift(c, 1, 0)
    case UPRIGHT => if EvenRow(c.y) then ApplyShift(c, 0, -1) else ApplyShift(c, 1, -1)
    case DOWNRIGHT => if EvenRow(c.y) then ApplyShift(c, 0, 1) else ApplyShift(c, 1, 1)
    case UPLEFT => if EvenRow(c.y) then ApplyShift(c, -1, -1) else ApplyShift(c, 0, -1)
    case DOWNLEFT => if EvenRow(c.y) then ApplyShift(c, -1, 1) else ApplyShift(c, 0, 1)
  }

  /** Where each direction leads. */
  lemma ShiftGeometry(c: Coord, d: MoveDirection)
    ensures var r := ApplyShiftBasedOnDirection(c, d);
      && r != c
      && -1 <= r.x - c.x <= 1 && -1 <= r.y - c.y <= 1
      // horizontal moves stay in the row, the diagonals change row by one
      && (r.y == c.y <==> d == LEFT || d == RIGHT)
      && (r.y == c.y - 1 <==> d == UPLEFT || d == UPRIGHT)
      && (r.y == c.y + 1 <==> d == DOWNLEFT || d == DOWNRIGHT)
      // a "right" diagonal moves right exactly from an odd row, a "left" one moves left exactly from an even row
      && ((d == UPRIGHT || d == DOWNRIGHT) ==> r.x - c.x == (if EvenRow(c.y) then 0 else 1))
      && ((d == UPLEFT || d == DOWNLEFT) ==> r.x - c.x == (if EvenRow(c.y) then -1 else 0))
  {
  }

  /** Two shifts the AI tests check: down-left from the even row 2, up-right from the odd row 1. */
  lemma ShiftExamples()
    ensures ApplyShiftBasedOnDirection(Coord(1, 2), DOWNLEFT) == Coord(0, 3)
    ensures ApplyShiftBasedOnDirection(Coord(1, 1), UPRIGHT) == Coord(2, 0)
  {
  }

  /** The direction pointing back. */
  function Opposite(d: MoveDirection): MoveDirection {
    match d
    case LEFT => RIGHT
    case RIGHT => LEFT
    case UPLEFT => DOWNRIGHT
    case DOWNRIGHT => UPLEFT
    case UPRIGHT => DOWNLEFT
    case DOWNLEFT => UPRIGHT
  }

  /** Stepping in a direction and then in the opposite one returns to the start. */
  lemma StepBack(c: Coord, d: MoveDirection)
    ensures ApplyShiftBasedOnDirection(ApplyShiftBasedOnDirection(c, d), Opposite(d)) == c
  {
    var n := ApplyShiftBasedOnDirection(c, d);
    if d != LEFT && d != RIGHT {
      // a diagonal step flips the parity of the row
      assert EvenRow(n.y) <==> !EvenRow(c.y);
    }
  }

  /** The six neighbours of a cell are pairwise different, so every direction leads somewhere else. */
  lemma NeighboursDistinct(c: Coord, d1: MoveDirection, d2: MoveDirection)
    requires d1 != d2
    ensures ApplyShiftBasedOnDirection(c, d1) != ApplyShiftBasedOnDirection(c, d2)
  {
  }

  /** Every direction is listed once in Directions. */
  lemma DirectionsComplete(d: MoveDirection)
    ensures d in Directions
    ensures forall i, j | 0 <= i < j < |Directions| :: Directions[i] != Directions[j]
  {
  }
}
