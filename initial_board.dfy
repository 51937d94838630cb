/**
 * The board startGame lays out: an n x n array (n odd, at least 5) whose row i holds
 * face-down discs in the columns [RowStart(n, i), RowEnd(n, i)) and nulls elsewhere,
 * with three black and three white discs around the face-down centre.
 */
module InitialBoard {
  import opened Wrappers
  import opened MoveRules
  import opened ModelView

  /** The sizes startGame accepts. */
  predicate ValidBoardSize(n: int) {
    n > 3 && n % 2 != 0
  }

  /** The first column of row i that belongs to the hexagon. */
  function RowStart(n: int, i: int): int {
    var m := n / 2;
    if m % 2 != 0 then
      if i <= m then (m + 1) / 2 - (i + 1) / 2 else (i - m + 1) / 2
    else
      if i <= m then m / 2 - (i + 1) / 2 else (i - m) / 2
  }

  /** One past the last column of row i that belongs to the hexagon. */
  function RowEnd(n: int, i: int): int {
    var m := n / 2;
    if i <= m then n - (m / 2 - i / 2)
    else if m % 2 != 0 then n - (i - m) / 2
    else n - (i - m + 1) / 2
  }

  /** The six discs setPiecesForEvenMiddle places around (m, m). */
  function EvenMiddlePieces(m: int, c: Coord): Option<DiscColor> {
    if c == Coord(m + 1, m) || c == Coord(m, m - 1) || c == Coord(m, m + 1) then Some(BLACK)
    else if c == Coord(m + 1, m + 1) || c == Coord(m + 1, m - 1) || c == Coord(m - 1, m) then Some(WHITE)
    else None
  }

  /** The six discs setPiecesForOddMiddle places around (m, m). */
  function OddMiddlePieces(m: int, c: Coord): Option<DiscColor> {
    if c == Coord(m - 1, m) || c == Coord(m, m + 1) || c == Coord(m, m - 1) then Some(BLACK)
    else if c == Coord(m - 1, m - 1) || c == Coord(m - 1, m + 1) || c == Coord(m + 1, m) then Some(WHITE)
    else None
  }

  /**
   * The starting discs of a board of size n. setStartingPieces calls setPiecesForEvenMiddle
   * when the middle index n / 2 is odd, and setPiecesForOddMiddle when it is even.
   */
  function StartingColor(n: int, c: Coord): Option<DiscColor> {
    if (n / 2) % 2 != 0 then EvenMiddlePieces(n / 2, c) else OddMiddlePieces(n / 2, c)
  }

  /** The entry at column x of row y once startGame(n) has finished. */
  function InitialSlot(n: int, x: int, y: int): Slot {
    match StartingColor(n, Coord(x, y))
    case Some(color) => Disc(color)
    case None => if RowStart(n, y) <= x < RowEnd(n, y) then Disc(FACEDOWN) else Null
  }

  function InitialGrid(n: nat): (g: Grid)
    ensures |g| == n && IsSquare(g)
  {
    seq(n, y => seq(n, x => InitialSlot(n, x, y)))
  }

  /**
   * The laid-out rows form a regular hexagon: each row fits the board, the middle row is
   * full, and each row one step further from the middle is one cell shorter.
   */
  lemma RowWidth(n: int, i: int)
    requires ValidBoardSize(n) && 0 <= i < n
    ensures 0 <= RowStart(n, i) <= RowEnd(n, i) <= n
    ensures RowEnd(n, i) - RowStart(n, i) == n - (if i <= n / 2 then n / 2 - i else i - n / 2)
  {
  }

  /** The hexagon is symmetric about the middle row. */
  lemma RowsSymmetric(n: int, i: int)
    requires ValidBoardSize(n) && 0 <= i < n
    ensures RowStart(n, i) == RowStart(n, n - 1 - i) && RowEnd(n, i) == RowEnd(n, n - 1 - i)
  {
    if i < n / 2 {
      MirrorRow(n, i);
    } else if i > n / 2 {
      MirrorRow(n, n - 1 - i);
    }
  }

  /** Row lo above the middle and the row as far below it, n - 1 - lo, have the same interval. */
  lemma MirrorRow(n: int, lo: int)
    requires ValidBoardSize(n) && 0 <= lo < n / 2
    ensures RowStart(n, lo) == RowStart(n, n - 1 - lo) && RowEnd(n, lo) == RowEnd(n, n - 1 - lo)
  {
    var m := n / 2;
    var hi := n - 1 - lo;
    var k := m - lo;
    var q, h := m / 2, lo / 2;
    assert n == 2 * m + 1 && hi - m == k && hi > m;
    if m % 2 != 0 {
      assert RowStart(n, lo) == (m + 1) / 2 - (lo + 1) / 2 && RowStart(n, hi) == (k + 1) / 2;
      assert RowEnd(n, lo) == n - (m / 2 - lo / 2) && RowEnd(n, hi) == n - k / 2;
      if lo % 2 == 0 {
        assert m == 2 * q + 1 && lo == 2 * h && (lo + 1) / 2 == h && k == 2 * (q - h) + 1;
      } else {
        assert m == 2 * q + 1 && lo == 2 * h + 1 && (lo + 1) / 2 == h + 1 && k == 2 * (q - h);
      }
    } else {
      assert RowStart(n, lo) == m / 2 - (lo + 1) / 2 && RowStart(n, hi) == k / 2;
      assert RowEnd(n, lo) == n - (m / 2 - lo / 2) && RowEnd(n, hi) == n - (k + 1) / 2;
      if lo % 2 == 0 {
        assert m == 2 * q && lo == 2 * h && (lo + 1) / 2 == h && k == 2 * (q - h);
      } else {
        assert m == 2 * q && lo == 2 * h + 1 && (lo + 1) / 2 == h + 1 && k == 2 * (q - h) - 1;
      }
    }
  }

  /** The six starting discs lie inside the rows' intervals, so every row is one unbroken run of cells. */
  lemma StartingDiscsInside(n: int, c: Coord)
    requires ValidBoardSize(n)
    ensures StartingColor(n, c).Some? ==> 0 <= c.y < n && RowStart(n, c.y) <= c.x < RowEnd(n, c.y)
  {
  }

  /**
   * The starting discs are exactly the six neighbours of the centre, with the colours
   * alternating around it: each disc faces one of the other colour across the centre,
   * and the centre itself stays face down.
   */
  lemma StartingDiscsRingCentre(n: int)
    requires ValidBoardSize(n)
    ensures var centre := Coord(n / 2, n / 2);
      && InitialSlot(n, centre.x, centre.y) == Disc(FACEDOWN)
      && (forall c :: StartingColor(n, c).Some? <==> exists d :: c == ApplyShiftBasedOnDirection(centre, d))
      && (forall d :: StartingColor(n, ApplyShiftBasedOnDirection(centre, d)) !=
                      StartingColor(n, ApplyShiftBasedOnDirection(centre, Opposite(d))))
  {
    var m := n / 2;
    var centre := Coord(m, m);
    forall c | StartingColor(n, c).Some?
      ensures exists d :: c == ApplyShiftBasedOnDirection(centre, d)
    {
      if m % 2 != 0 {
        if c == Coord(m + 1, m) { assert c == ApplyShiftBasedOnDirection(centre, RIGHT); }
        else if c == Coord(m, m - 1) { assert c == ApplyShiftBasedOnDirection(centre, UPLEFT); }
        else if c == Coord(m, m + 1) { assert c == ApplyShiftBasedOnDirection(centre, DOWNLEFT); }
        else if c == Coord(m + 1, m + 1) { assert c == ApplyShiftBasedOnDirection(centre, DOWNRIGHT); }
        else if c == Coord(m + 1, m - 1) { assert c == ApplyShiftBasedOnDirection(centre, UPRIGHT); }
        else { assert c == ApplyShiftBasedOnDirection(centre, LEFT); }
      } else {
        if c == Coord(m - 1, m) { assert c == ApplyShiftBasedOnDirection(centre, LEFT); }
        else if c == Coord(m, m + 1) { assert c == ApplyShiftBasedOnDirection(centre, DOWNRIGHT); }
        else if c == Coord(m, m - 1) { assert c == ApplyShiftBasedOnDirection(centre, UPRIGHT); }
        else if c == Coord(m - 1, m - 1) { assert c == ApplyShiftBasedOnDirection(centre, UPLEFT); }
        else if c == Coord(m - 1, m + 1) { assert c == ApplyShiftBasedOnDirection(centre, DOWNLEFT); }
        else { assert c == ApplyShiftBasedOnDirection(centre, RIGHT); }
      }
    }
  }
}
