/**
 * The cell of the second (provider) model: a hexagon cell at a fixed coordinate, empty or
 * holding a black or a white piece. A piece is placed once and can then only be flipped.
 */
module ProviderCell {
  import opened Wrappers

  /** An immutable pair (q, r). */
  datatype Coordinate = Coordinate(q: int, r: int)

  datatype CellState = BLACKFILLED | WHITEFILLED | EMPTY

  /** The colours a caller can pass; any colour other than black and white is Other. */
  datatype Color = Black | White | Other

  /** The state fillMyCell moves to: only an empty cell takes a piece, and only a black or white one. */
  function Filled(s: CellState, color: Color): Result<CellState, Exception> {
    if !s.EMPTY? then Failure(IllegalState)
    else if color == Black then Success(BLACKFILLED)
    else if color == White then Success(WHITEFILLED)
    else Failure(IllegalArgument)
  }

  /** The state flipMyColor moves to: the other colour, and an empty cell cannot be flipped. */
  function Flipped(s: CellState): Result<CellState, Exception> {
    if s == WHITEFILLED then Success(BLACKFILLED)
    else if s == BLACKFILLED then Success(WHITEFILLED)
    else Failure(IllegalState)
  }

  /** The colour getColor reports for a state: the piece's colour, and an empty cell has none. */
  function ColorOf(s: CellState): Result<Color, Exception> {
    if s == BLACKFILLED then Success(Black)
    else if s == WHITEFILLED then Success(White)
    else Failure(IllegalArgument)
  }

  /** Filling an empty cell with black or white makes it report exactly that colour. */
  lemma FillThenColor(color: Color)
    requires color != Other
    ensures Filled(EMPTY, color).Success?
    ensures ColorOf(Filled(EMPTY, color).value) == Success(color)
  {
  }

  /** A filled cell cannot be filled again, whatever the colour. */
  lemma FillOnce(s: CellState, color: Color, color2: Color)
    requires Filled(s, color).Success?
    ensures Filled(Filled(s, color).value, color2) == Failure(IllegalState)
  {
  }

  /**
   * Flipping is defined exactly on the filled states, changes the reported colour, and
   * flipping twice gives back the state flipped.
   */
  lemma FlipInvolution(s: CellState)
    ensures Flipped(s).Success? <==> !s.EMPTY?
    ensures !s.EMPTY? ==> Flipped(Flipped(s).value) == Success(s)
    ensures !s.EMPTY? ==> ColorOf(Flipped(s).value).Success? && ColorOf(Flipped(s).value) != ColorOf(s)
  {
  }

  class Cell {
    var stateOfCell: CellState
    const cellsCoordinate: Coordinate

    constructor (stateOfCell: CellState, cellsCoordinate: Coordinate)
      ensures this.stateOfCell == stateOfCell && this.cellsCoordinate == cellsCoordinate
    {
      this.stateOfCell := stateOfCell;
      this.cellsCoordinate := cellsCoordinate;
    }

    /** A cell with no piece. */
    constructor Empty(cellsCoordinate: Coordinate)
      ensures stateOfCell == EMPTY && this.cellsCoordinate == cellsCoordinate
    {
      this.cellsCoordinate := cellsCoordinate;
      stateOfCell := EMPTY;
    }

    /** getColor: black or white for a filled cell; an empty cell throws. */
    function GetColor(): (r: Result<Color, Exception>)
      reads this
      ensures r.Success? <==> !stateOfCell.EMPTY?
      ensures r == Success(Black) <==> stateOfCell == BLACKFILLED
      ensures r == Success(White) <==> stateOfCell == WHITEFILLED
      ensures r.Failure? ==> r.error == IllegalArgument
    {
      if stateOfCell == BLACKFILLED then Success(Black)
      else if stateOfCell == WHITEFILLED then Success(White)
      else Failure(IllegalArgument)
    }

    function GetQCoord(): int {
      cellsCoordinate.q
    }

    function GetRCoord(): int {
      cellsCoordinate.r
    }

    /** getCellsCoordinate, which agrees with getQCoord and getRCoord. */
    function GetCellsCoordinate(): (c: Coordinate)
      ensures c == Coordinate(GetQCoord(), GetRCoord())
    {
      cellsCoordinate
    }

    /** getStateOfCell, which determines what getColor reports. */
    function GetStateOfCell(): (s: CellState)
      reads this
      ensures ColorOf(s) == GetColor()
    {
      stateOfCell
    }

    /**
     * fillMyCell: puts a piece of the given colour on an empty cell. A filled cell throws
     * IllegalStateException and a colour other than black or white IllegalArgumentException,
     * and in both cases the state stays as it was.
     */
    method FillMyCell(color: Color) returns (r: Outcome<Exception>)
      modifies this
      ensures Filled(old(stateOfCell), color).Success? ==> r == Done && stateOfCell == Filled(old(stateOfCell), color).value
      ensures Filled(old(stateOfCell), color).Failure? ==> r == Fail(Filled(old(stateOfCell), color).error) && stateOfCell == old(stateOfCell)
      ensures old(stateOfCell).EMPTY? && color != Other ==> GetColor() == Success(color)
    {
      if stateOfCell == EMPTY {
        if color == Black {
          stateOfCell := BLACKFILLED;
        } else if color == White {
          stateOfCell := WHITEFILLED;
        } else {
          return Fail(IllegalArgument);
        }
      } else {
        return Fail(IllegalState);
      }
      r := Done;
    }

    /**
     * flipMyColor: a white piece becomes black and a black one white; an empty cell throws
     * IllegalStateException and stays empty.
     */
    method FlipMyColor() returns (r: Outcome<Exception>)
      modifies this
      ensures Flipped(old(stateOfCell)).Success? ==> r == Done && stateOfCell == Flipped(old(stateOfCell)).value
      ensures Flipped(old(stateOfCell)).Failure? ==> r == Fail(IllegalState) && stateOfCell == old(stateOfCell)
      ensures !old(stateOfCell).EMPTY? ==> GetColor().Success? && GetColor() != old(GetColor())
    {
      if stateOfCell == WHITEFILLED {
        stateOfCell := BLACKFILLED;
      } else if stateOfCell == BLACKFILLED {
        stateOfCell := WHITEFILLED;
      } else {
        return Fail(IllegalState);
      }
      r := Done;
    }
  }
}
