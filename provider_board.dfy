/**
 * The board of the second (provider) model: a d x d array of cells in which the entries
 * outside a hexagon are null. Entry [i][j] holds the cell with coordinate (i, j); lines are
 * taken along the second index j, and line d / 2 is the full middle line.
 */
module ProviderBoard {
  import opened ProviderCell

  /** The entries nullifyTopHalfMakeHexShape clears: in line j < d / 2, indices 0 .. d / 2 - 1 - j. */
  predicate TopNulled(d: int, i: int, j: int) {
    j < d / 2 && i <= d / 2 - 1 - j
  }

  /** The entries nullifyBottomToMakeHexShape clears: in line d - 1 - t (t < d / 2), indices d / 2 + t + 1 .. d - 1. */
  predicate BottomNulled(d: int, i: int, j: int) {
    j > d / 2 && i > d / 2 + (d - 1 - j)
  }

  predicate Nulled(d: int, i: int, j: int) {
    TopNulled(d, i, j) || BottomNulled(d, i, j)
  }

  /** The number of entries of line j, among indices 0 .. i - 1, that stay. */
  function CellsInLine(d: int, j: int, i: int): nat
    decreases i
  {
    if i <= 0 then 0 else CellsInLine(d, j, i - 1) + (if Nulled(d, i - 1, j) then 0 else 1)
  }

  /**
   * The kept entries of a line form one run, so the middle line is never cut and each line
   * further from the middle is one cell shorter: line j keeps d - |d / 2 - j| cells, the
   * row lengths of the hexagon the first model lays out.
   */
  lemma {:induction false} LineWidth(d: int, j: int, i: int)
    requires 0 <= j < d && 0 <= i <= d
    ensures var lo := if j < d / 2 then d / 2 - j else 0;
      var hi := if j > d / 2 then d / 2 + (d - 1 - j) + 1 else d;
      CellsInLine(d, j, i) == if i <= lo then 0 else if i <= hi then i - lo else hi - lo
    ensures i == d ==> CellsInLine(d, j, i) == d - (if j < d / 2 then d / 2 - j else j - d / 2)
    decreases i
  {
    if i > 0 {
      LineWidth(d, j, i - 1);
    }
  }

  /** The middle line keeps every entry. */
  lemma MiddleLineKept(d: int, i: int)
    ensures !Nulled(d, i, d / 2)
  {
  }

  class Board {
    const gameBoard: array2<Cell?>

    /** The array is square, as every constructor makes it. */
    ghost predicate Valid()
      reads this
    {
      gameBoard.Length0 == gameBoard.Length1
    }

    /** Exactly the entries outside the hexagon are null. */
    ghost predicate Hexagon()
      reads this, gameBoard
    {
      forall i, j | 0 <= i < gameBoard.Length0 && 0 <= j < gameBoard.Length1 ::
        gameBoard[i, j] == null <==> Nulled(gameBoard.Length0, i, j)
    }

    /** Board(): the default size, 7. */
    constructor Default()
      ensures Valid() && Hexagon() && fresh(gameBoard) && gameBoard.Length0 == 7
      ensures forall i, j | 0 <= i < 7 && 0 <= j < 7 && gameBoard[i, j] != null ::
        fresh(gameBoard[i, j]) && gameBoard[i, j].stateOfCell == EMPTY && gameBoard[i, j].cellsCoordinate == Coordinate(i, j)
    {
      var a := FilledCells(7, 7);
      gameBoard := a;
      new;
      NullifyTopHalfMakeHexShape();
      NullifyBottomToMakeHexShape();
    }

    /**
     * Board(dimension): a fresh empty cell with coordinate (i, j) at every entry of the
     * hexagon, and null elsewhere.
     */
    constructor (dimension: int)
      requires dimension >= 0
      ensures Valid() && Hexagon() && fresh(gameBoard) && gameBoard.Length0 == dimension
      ensures forall i, j | 0 <= i < dimension && 0 <= j < dimension && gameBoard[i, j] != null ::
        fresh(gameBoard[i, j]) && gameBoard[i, j].stateOfCell == EMPTY && gameBoard[i, j].cellsCoordinate == Coordinate(i, j)
    {
      var a := FilledCells(dimension, dimension);
      gameBoard := a;
      new;
      NullifyTopHalfMakeHexShape();
      NullifyBottomToMakeHexShape();
    }

    /**
     * The copy constructor: a board of the same size and shape whose cells are all new and
     * empty; the pieces of the other board are not copied.
     */
    constructor Copy(other: Board)
      requires other.Valid()
      ensures Valid() && Hexagon() && fresh(gameBoard) && gameBoard.Length0 == other.gameBoard.Length0
      ensures other.Hexagon() ==> forall i, j | 0 <= i < gameBoard.Length0 && 0 <= j < gameBoard.Length0 ::
        (gameBoard[i, j] == null) == (other.gameBoard[i, j] == null)
      ensures forall i, j | 0 <= i < gameBoard.Length0 && 0 <= j < gameBoard.Length0 && gameBoard[i, j] != null ::
        fresh(gameBoard[i, j]) && gameBoard[i, j].stateOfCell == EMPTY && gameBoard[i, j].cellsCoordinate == Coordinate(i, j)
    {
      var a := FilledCells(other.gameBoard.Length0, other.gameBoard.Length1);
      gameBoard := a;
      new;
      NullifyTopHalfMakeHexShape();
      NullifyBottomToMakeHexShape();
    }

    /** A rows x cols array holding a fresh empty cell with coordinate (i, j) at each entry. */
    static method FilledCells(rows: nat, cols: nat) returns (a: array2<Cell?>)
      ensures fresh(a) && a.Length0 == rows && a.Length1 == cols
      ensures forall i, j | 0 <= i < rows && 0 <= j < cols ::
        a[i, j] != null && fresh(a[i, j]) && a[i, j].stateOfCell == EMPTY && a[i, j].cellsCoordinate == Coordinate(i, j)
    {
      a := new Cell?[rows, cols];
      for i := 0 to rows
        invariant forall ii, j | 0 <= ii < i && 0 <= j < cols ::
          a[ii, j] != null && fresh(a[ii, j]) && a[ii, j].stateOfCell == EMPTY && a[ii, j].cellsCoordinate == Coordinate(ii, j)
      {
        FillRow(a, i);
      }
    }

    /** Fills entries [i][0] .. [i][cols - 1] with fresh empty cells. */
    static method FillRow(a: array2<Cell?>, i: nat)
      requires i < a.Length0
      modifies a
      ensures forall ii, j | 0 <= ii < a.Length0 && 0 <= j < a.Length1 && ii != i :: a[ii, j] == old(a[ii, j])
      ensures forall j | 0 <= j < a.Length1 ::
        a[i, j] != null && fresh(a[i, j]) && a[i, j].stateOfCell == EMPTY && a[i, j].cellsCoordinate == Coordinate(i, j)
    {
      for j := 0 to a.Length1
        invariant forall ii, jj | 0 <= ii < a.Length0 && 0 <= jj < a.Length1 && ii != i :: a[ii, jj] == old(a[ii, jj])
        invariant forall jj | 0 <= jj < j ::
          a[i, jj] != null && fresh(a[i, jj]) && a[i, jj].stateOfCell == EMPTY && a[i, jj].cellsCoordinate == Coordinate(i, jj)
      {
        a[i, j] := new Cell(EMPTY, Coordinate(i, j));
      }
    }

    /** nullifyTopHalfMakeHexShape: clears the entries TopNulled names and leaves the rest. */
    method NullifyTopHalfMakeHexShape()
      requires Valid()
      modifies gameBoard
      ensures forall i, j | 0 <= i < gameBoard.Length0 && 0 <= j < gameBoard.Length1 ::
        gameBoard[i, j] == if TopNulled(gameBoard.Length0, i, j) then null else old(gameBoard[i, j])
    {
      var numToSubtract := 0;
      var numRows := gameBoard.Length0;
      for row := 0 to numRows / 2
        invariant numToSubtract == row
        invariant forall i, j | 0 <= i < numRows && 0 <= j < numRows ::
          gameBoard[i, j] == if j < row && TopNulled(numRows, i, j) then null else old(gameBoard[i, j])
      {
        NullTopLine(row);
        numToSubtract := numToSubtract + 1;
      }
    }

    /** One pass of the outer loop of nullifyTopHalfMakeHexShape: entries [0][row] .. [d / 2 - 1 - row][row]. */
    method NullTopLine(row: int)
      requires Valid() && 0 <= row < gameBoard.Length0 / 2
      modifies gameBoard
      ensures forall i, j | 0 <= i < gameBoard.Length0 && 0 <= j < gameBoard.Length1 ::
        gameBoard[i, j] == if j == row && i <= gameBoard.Length0 / 2 - 1 - row then null else old(gameBoard[i, j])
    {
      var numToSubtract := row;
      var count := gameBoard.Length0 / 2 - 1;
      while count >= 0
        invariant row - 1 <= count <= gameBoard.Length0 / 2 - 1
        invariant forall i, j | 0 <= i < gameBoard.Length0 && 0 <= j < gameBoard.Length1 ::
          gameBoard[i, j] == if j == row && count - row < i <= gameBoard.Length0 / 2 - 1 - row then null else old(gameBoard[i, j])
      {
        if count - numToSubtract < 0 {
          break;
        }
        gameBoard[count - numToSubtract, row] := null;
        count := count - 1;
      }
    }

    /** nullifyBottomToMakeHexShape: clears the entries BottomNulled names and leaves the rest. */
    method NullifyBottomToMakeHexShape()
      requires Valid()
      modifies gameBoard
      ensures forall i, j | 0 <= i < gameBoard.Length0 && 0 <= j < gameBoard.Length1 ::
        gameBoard[i, j] == if BottomNulled(gameBoard.Length0, i, j) then null else old(gameBoard[i, j])
    {
      var numRows := gameBoard.Length0;
      var numTimes := 0;
      var row := numRows - 1;
      while row >= numRows / 2 + 1
        invariant numRows / 2 <= row <= numRows - 1 || (numRows == 0 && row == -1)
        invariant numTimes == numRows - 1 - row
        invariant forall i, j | 0 <= i < numRows && 0 <= j < numRows ::
          gameBoard[i, j] == if j > row && BottomNulled(numRows, i, j) then null else old(gameBoard[i, j])
      {
        NullBottomLine(row, numTimes);
        numTimes := numTimes + 1;
        row := row - 1;
      }
    }

    /** One pass of the outer loop of nullifyBottomToMakeHexShape: entries [d / 2 + numTimes + 1][row] .. [d - 1][row]. */
    method NullBottomLine(row: int, numTimes: int)
      requires Valid() && 0 <= row < gameBoard.Length0 && numTimes == gameBoard.Length0 - 1 - row
      modifies gameBoard
      ensures forall i, j | 0 <= i < gameBoard.Length0 && 0 <= j < gameBoard.Length1 ::
        gameBoard[i, j] == if j == row && i > gameBoard.Length0 / 2 + numTimes then null else old(gameBoard[i, j])
    {
      var numRows := gameBoard.Length0;
      var count := numRows - 1;
      while count > numRows / 2 + numTimes
        invariant numRows / 2 + numTimes <= count <= numRows - 1 || (count == numRows - 1 && count <= numRows / 2 + numTimes)
        invariant forall i, j | 0 <= i < numRows && 0 <= j < numRows ::
          gameBoard[i, j] == if j == row && i > count then null else old(gameBoard[i, j])
      {
        gameBoard[count, row] := null;
        count := count - 1;
      }
    }

    /** getCells: the array itself, shared with the caller. */
    function GetCells(): array2<Cell?>
      reads this
    {
      gameBoard
    }
  }
}
