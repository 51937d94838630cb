/**
 * The board as the read-only side of the model shows it (ReadOnlyReversiModel as
 * ReversiHexModel implements it): a square grid of discs in which null entries lie
 * outside the hexagon, the player to move, and the reported dimensions.
 */
module ModelView {
  import opened MoveRules

  datatype DiscColor = BLACK | WHITE | FACEDOWN
  datatype PlayerTurn = PLAYER1 | PLAYER2
  datatype GameState = STALEMATE | PLAYER2WIN | PLAYER1WIN | ONGOING

  /** One entry of the Disc[][] array: null (not part of the hexagon) or a disc of some colour. */
  datatype Slot = Null | Disc(color: DiscColor)

  /** Rows of slots, indexed grid[y][x]. */
  type Grid = seq<seq<Slot>>

  /** The largest board the model admits; it keeps every coordinate and distance below Integer.MAX_VALUE. */
  const MaxBoardSize: int := 0x4000_0000

  predicate IsSquare(g: Grid) {
    forall y | 0 <= y < |g| :: |g[y]| == |g|
  }

  /**
   * A snapshot of a started game as its read-only interface reports it: `dims` is
   * getDimensions() (the size passed to startGame, 0 for a mock board) while the
   * bounds checks use the length of the array itself.
   */
  datatype View = View(board: Grid, turn: PlayerTurn, dims: int)

  predicate WellFormed(v: View) {
    IsSquare(v.board) && |v.board| <= MaxBoardSize
  }

  /** checkValidCoordinates: inside the array and not a null entry. */
  predicate CheckValidCoordinates(g: Grid, c: Coord)
    requires IsSquare(g)
  {
    0 <= c.x < |g| && 0 <= c.y < |g| && g[c.y][c.x] != Null
  }

  /** The colour of the disc at a valid position (getDiscAt(x, y).getColor()). */
  function ColorAt(g: Grid, c: Coord): DiscColor
    requires IsSquare(g) && CheckValidCoordinates(g, c)
  {
    g[c.y][c.x].color
  }

  /** The fixed colour map of the model: player 1 plays black, player 2 plays white. */
  function GetPlayerColor(p: PlayerTurn): (r: DiscColor)
    ensures r != FACEDOWN
    ensures r == BLACK <==> p == PLAYER1
  {
    match p
    case PLAYER1 => BLACK
    case PLAYER2 => WHITE
  }

  function GetOpponent(p: PlayerTurn): (r: PlayerTurn)
    ensures r != p
    ensures GetPlayerColor(r) != GetPlayerColor(p)
  {
    if p == PLAYER2 then PLAYER1 else PLAYER2
  }

  /** Every position holding a disc of the given colour. */
  ghost function CellsOf(g: Grid, color: DiscColor): set<Coord>
    requires IsSquare(g)
  {
    set y, x | 0 <= y < |g| && 0 <= x < |g| && g[y][x] == Disc(color) :: Coord(x, y)
  }

  /** Every position that belongs to the hexagon. */
  ghost function Addressable(g: Grid): set<Coord>
    requires IsSquare(g)
  {
    set y, x | 0 <= y < |g| && 0 <= x < |g| && g[y][x] != Null :: Coord(x, y)
  }

  /** Each cell of the hexagon is black, white or face down, and no two at once. */
  lemma {:induction false} ColorsPartitionBoard(g: Grid)
    requires IsSquare(g)
    ensures CellsOf(g, BLACK) + CellsOf(g, WHITE) + CellsOf(g, FACEDOWN) == Addressable(g)
    ensures CellsOf(g, BLACK) !! CellsOf(g, WHITE)
    ensures CellsOf(g, BLACK) !! CellsOf(g, FACEDOWN) && CellsOf(g, WHITE) !! CellsOf(g, FACEDOWN)
    ensures |CellsOf(g, BLACK)| + |CellsOf(g, WHITE)| + |CellsOf(g, FACEDOWN)| == |Addressable(g)|
  {
    var b, w, f := CellsOf(g, BLACK), CellsOf(g, WHITE), CellsOf(g, FACEDOWN);
    forall c | c in Addressable(g) ensures c in b + w + f {
      assert 0 <= c.y < |g| && 0 <= c.x < |g| && g[c.y][c.x] != Null;
      match g[c.y][c.x].color
      case BLACK => assert c in b;
      case WHITE => assert c in w;
      case FACEDOWN => assert c in f;
    }
    assert |b + w| == |b| + |w|;
    assert |(b + w) + f| == |b + w| + |f|;
  }
}
