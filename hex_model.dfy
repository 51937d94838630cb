/**
 * The hexagonal Reversi engine: the board is a square array whose corners hold no cell
 * (Null), the player to move, and the log of what has been played.
 */
module HexModel {
  import opened Wrappers
  import opened MoveRules
  import opened ModelView
  import opened BoardUtils
  import opened InitialBoard
  import opened GameRules

  /**
   * The margins initBoardWithOddMiddle keeps for row i: the left margin it uses is the row's
   * start, the right margin its end (a margin of -1 on the row after the middle still fills
   * the whole row), and the updated margins are those the loop expects at row i + 1.
   */
  lemma OddMiddleRow(n: int, i: int, left: int, right: int)
    requires ValidBoardSize(n) && (n / 2) % 2 != 0 && 0 <= i < n
    requires i <= n / 2 ==> left == (n / 2 + 1) / 2 - i / 2 && right == (n / 2) / 2 - i / 2
    requires i > n / 2 ==> left == (i - n / 2) / 2 && right == if i == n / 2 + 1 then -1 else (i - n / 2) / 2
    ensures var m := n / 2;
      var d := if m - i >= 0 then m - i else i - m;
      var l := if i <= m then (if d % 2 == 0 then left - 1 else left) else (if d % 2 != 0 then left + 1 else left);
      var r := if i <= m then (if d % 2 == 0 then right - 1 else right)
        else (if right < 0 then 0 else right) + (if d % 2 != 0 then 1 else 0);
      && l == RowStart(n, i)
      && (n - right == RowEnd(n, i) || (right == -1 && RowEnd(n, i) == n))
      && (i + 1 <= m ==> l == (m + 1) / 2 - (i + 1) / 2 && r == m / 2 - (i + 1) / 2)
      && (i + 1 > m ==> l == (i + 1 - m) / 2 && r == if i + 1 == m + 1 then -1 else (i + 1 - m) / 2)
  {
    var m := n / 2;
    var q := m / 2;
    assert n == 2 * m + 1 && m == 2 * q + 1 && m % 2 == 1 && (m + 1) / 2 == q + 1;
    if i <= m {
      var h := i / 2;
      if i % 2 == 0 {
        assert i == 2 * h && (i + 1) / 2 == h;
        assert m - i == 2 * (q - h) + 1 && (m - i) % 2 == 1;
        assert RowStart(n, i) == q + 1 - h == left && RowEnd(n, i) == n - (q - h) && right == q - h;
      } else {
        assert i == 2 * h + 1 && (i + 1) / 2 == h + 1;
        assert m - i == 2 * (q - h) && (m - i) % 2 == 0;
        assert RowStart(n, i) == q - h == left - 1 && RowEnd(n, i) == n - (q - h) && right == q - h;
      }
      assert i == m ==> (i + 1 - m) / 2 == 0;
    } else {
      var h := (i - m) / 2;
      if (i - m) % 2 == 0 {
        assert i - m == 2 * h && (i - m + 1) / 2 == h && (i + 1 - m) / 2 == h;
        assert RowStart(n, i) == h == left && RowEnd(n, i) == n - h;
      } else {
        assert i - m == 2 * h + 1 && (i - m + 1) / 2 == h + 1 && (i + 1 - m) / 2 == h + 1;
        assert RowStart(n, i) == h + 1 == left + 1 && RowEnd(n, i) == n - h;
      }
    }
  }

  /**
   * The margins initBoardWithEvenMiddle keeps for row i: after the right margin's update
   * below the middle, the left margin is the row's start and the right margin its end, and
   * the updated margins are those the loop expects at row i + 1.
   */
  lemma EvenMiddleRow(n: int, i: int, left: int, right: int)
    requires ValidBoardSize(n) && (n / 2) % 2 == 0 && 0 <= i < n
    requires i <= n / 2 ==> left == (n / 2) / 2 - (i + 1) / 2 && right == (n / 2) / 2 - i / 2
    requires i > n / 2 ==> left == (i - n / 2) / 2 && right == (i - n / 2) / 2
    ensures var m := n / 2;
      var d := if m - i >= 0 then m - i else i - m;
      var r0 := if i > m && d % 2 != 0 then right + 1 else right;
      var l1 := if i <= m then (if d % 2 != 0 then left else left - 1) else (if d % 2 != 0 then left + 1 else left);
      var r1 := if i <= m && d % 2 != 0 then r0 - 1 else r0;
      var l2 := if i == m then 0 else l1;
      && left == RowStart(n, i) && n - r0 == RowEnd(n, i)
      && (i + 1 <= m ==> l2 == m / 2 - (i + 2) / 2 && r1 == m / 2 - (i + 1) / 2)
      && (i + 1 > m ==> l2 == (i + 1 - m) / 2 && r1 == (i + 1 - m) / 2)
  {
    var m := n / 2;
    var q := m / 2;
    assert n == 2 * m + 1 && m == 2 * q && m % 2 == 0;
    if i <= m {
      var h := i / 2;
      if i % 2 == 0 {
        assert i == 2 * h && (i + 1) / 2 == h && (i + 2) / 2 == h + 1;
        assert m - i == 2 * (q - h) && (m - i) % 2 == 0;
        assert RowStart(n, i) == q - h == left && RowEnd(n, i) == n - (q - h) && right == q - h;
      } else {
        assert i == 2 * h + 1 && (i + 1) / 2 == h + 1 && (i + 2) / 2 == h + 1;
        assert m - i == 2 * (q - h) - 1 && (m - i) % 2 == 1;
        assert RowStart(n, i) == q - h - 1 == left && RowEnd(n, i) == n - (q - h) && right == q - h;
      }
      assert i == m ==> (i + 1 - m) / 2 == 0;
    } else {
      var h := (i - m) / 2;
      if (i - m) % 2 == 0 {
        assert i - m == 2 * h && (i - m + 1) / 2 == h && (i + 1 - m) / 2 == h;
        assert RowStart(n, i) == h == left && RowEnd(n, i) == n - h && right == h;
      } else {
        assert i - m == 2 * h + 1 && (i - m + 1) / 2 == h + 1 && (i + 1 - m) / 2 == h + 1;
        assert RowStart(n, i) == h == left && RowEnd(n, i) == n - (h + 1) && right == h;
      }
    }
  }

  class ReversiHexModel {
    var gameOn: bool
    var gameBoard: array2<Slot>
    var pt: PlayerTurn
    var numRows: int
    var numColumns: int
    var playerAction: seq<Action>
    var state: GameState

    /** The board is square and small enough for int arithmetic; before startGame it is empty. */
    ghost predicate Valid()
      reads this`gameBoard, this`gameOn
    {
      gameBoard.Length0 == gameBoard.Length1 <= MaxBoardSize
      && (!gameOn ==> gameBoard.Length0 == 0)
    }

    /** The board as a value, row y first. */
    function Grid(): (g: Grid)
      reads this`gameBoard, gameBoard
      requires gameBoard.Length0 == gameBoard.Length1
      ensures |g| == gameBoard.Length0 && IsSquare(g)
      ensures forall y, x | 0 <= y < |g| && 0 <= x < |g| :: g[y][x] == gameBoard[y, x]
    {
      var a := gameBoard;
      seq(a.Length0, y requires 0 <= y < a.Length0 reads a =>
        seq(a.Length1, x requires 0 <= x < a.Length1 reads a => a[y, x]))
    }

    /** What a read-only view of this model shows. */
    function Snapshot(): (v: View)
      reads this`gameBoard, this`gameOn, this`pt, this`numRows, gameBoard
      requires Valid()
      ensures WellFormed(v)
    {
      View(Grid(), pt, numRows)
    }

    /** A model before startGame: no board yet, player 1 to move, nothing logged. */
    constructor ()
      ensures Valid() && !gameOn && numRows == 0 && numColumns == 0
      ensures pt == PLAYER1 && playerAction == [] && state == ONGOING
    {
      gameOn := false;
      gameBoard := new Slot[0, 0];
      pt := PLAYER1;
      numRows := 0;
      numColumns := 0;
      playerAction := [];
      state := ONGOING;
    }

    /** A started model playing on the caller's own array (the two share it); dimensions read 0. */
    constructor Mock(mockBoard: array2<Slot>)
      requires mockBoard.Length0 == mockBoard.Length1 <= MaxBoardSize
      ensures Valid() && gameOn && gameBoard == mockBoard && numRows == 0 && numColumns == 0
      ensures pt == PLAYER1 && playerAction == [] && state == ONGOING
    {
      gameBoard := mockBoard;
      gameOn := true;
      numRows := 0;
      numColumns := 0;
      pt := PLAYER1;
      playerAction := [];
      state := ONGOING;
    }

    /** Turns the cells of row i from column spacesMaxLeft up to n - spacesMaxRight face down. */
    method PlaceGameDiscs(spacesMaxLeft: int, spacesMaxRight: int, i: int)
      requires gameBoard.Length0 == gameBoard.Length1 && 0 <= i < gameBoard.Length0
      modifies gameBoard
      ensures forall y, x | 0 <= y < gameBoard.Length0 && 0 <= x < gameBoard.Length1 ::
        gameBoard[y, x] ==
          if y == i && spacesMaxLeft <= x < gameBoard.Length0 - spacesMaxRight then Disc(FACEDOWN)
          else old(gameBoard[y, x])
    {
      for j := 0 to gameBoard.Length1
        invariant forall y, x | 0 <= y < gameBoard.Length0 && 0 <= x < gameBoard.Length1 ::
          gameBoard[y, x] ==
            if y == i && x < j && spacesMaxLeft <= x < gameBoard.Length0 - spacesMaxRight then Disc(FACEDOWN)
            else old(gameBoard[y, x])
      {
        if j >= spacesMaxLeft && j < gameBoard.Length0 - spacesMaxRight {
          gameBoard[i, j] := Disc(FACEDOWN);
        }
      }
    }

    /** Lays out the hexagon's rows when the middle row index n / 2 is odd. */
    method InitBoardWithOddMiddle()
      requires gameBoard.Length0 == gameBoard.Length1 && ValidBoardSize(gameBoard.Length0)
      requires (gameBoard.Length0 / 2) % 2 != 0
      requires forall y, x | 0 <= y < gameBoard.Length0 && 0 <= x < gameBoard.Length1 :: gameBoard[y, x] == Null
      modifies gameBoard
      ensures forall y, x | 0 <= y < gameBoard.Length0 && 0 <= x < gameBoard.Length1 ::
        gameBoard[y, x] == if RowStart(gameBoard.Length0, y) <= x < RowEnd(gameBoard.Length0, y) then Disc(FACEDOWN) else Null
    {
      var n := gameBoard.Length0;
      var middle := n / 2;
      var maxSpaces := n - (n + 1) / 2;
      var spacesMaxLeft := (maxSpaces + 1) / 2;
      var spacesMaxRight := maxSpaces - spacesMaxLeft;
      var middleCrossed := false;
      for i := 0 to n
        invariant middleCrossed == (i > middle)
        invariant i <= middle ==> spacesMaxLeft == (middle + 1) / 2 - i / 2 && spacesMaxRight == middle / 2 - i / 2
        invariant i > middle ==> spacesMaxLeft == (i - middle) / 2
        invariant i > middle ==> spacesMaxRight == if i == middle + 1 then -1 else (i - middle) / 2
        invariant forall y, x | 0 <= y < n && 0 <= x < n ::
          gameBoard[y, x] == if y < i && RowStart(n, y) <= x < RowEnd(n, y) then Disc(FACEDOWN) else Null
      {
        var distanceFromMiddle := if middle - i >= 0 then middle - i else i - middle;
        OddMiddleRow(n, i, spacesMaxLeft, spacesMaxRight);
        if !middleCrossed {
          if distanceFromMiddle % 2 == 0 {
            spacesMaxLeft := spacesMaxLeft - 1;
          }
        } else {
          if distanceFromMiddle % 2 != 0 {
            spacesMaxLeft := spacesMaxLeft + 1;
          }
        }
        PlaceGameDiscs(spacesMaxLeft, spacesMaxRight, i);
        if !middleCrossed {
          if distanceFromMiddle % 2 == 0 {
            spacesMaxRight := spacesMaxRight - 1;
          }
        } else {
          if spacesMaxRight < 0 {
            spacesMaxRight := 0;
          }
          if distanceFromMiddle % 2 != 0 {
            spacesMaxRight := spacesMaxRight + 1;
          }
        }
        if i == middle {
          middleCrossed := true;
        }
      }
    }

    /** Lays out the hexagon's rows when the middle row index n / 2 is even. */
    method InitBoardWithEvenMiddle()
      requires gameBoard.Length0 == gameBoard.Length1 && ValidBoardSize(gameBoard.Length0)
      requires (gameBoard.Length0 / 2) % 2 == 0
      requires forall y, x | 0 <= y < gameBoard.Length0 && 0 <= x < gameBoard.Length1 :: gameBoard[y, x] == Null
      modifies gameBoard
      ensures forall y, x | 0 <= y < gameBoard.Length0 && 0 <= x < gameBoard.Length1 ::
        gameBoard[y, x] == if RowStart(gameBoard.Length0, y) <= x < RowEnd(gameBoard.Length0, y) then Disc(FACEDOWN) else Null
    {
      var n := gameBoard.Length0;
      var middle := n / 2;
      var maxSpaces := n - (n + 1) / 2;
      var spacesMaxLeft := (maxSpaces + 1) / 2;
      var spacesMaxRight := maxSpaces - spacesMaxLeft;
      var middleCrossed := false;
      for i := 0 to n
        invariant middleCrossed == (i > middle)
        invariant i <= middle ==> spacesMaxLeft == middle / 2 - (i + 1) / 2 && spacesMaxRight == middle / 2 - i / 2
        invariant i > middle ==> spacesMaxLeft == (i - middle) / 2 && spacesMaxRight == (i - middle) / 2
        invariant forall y, x | 0 <= y < n && 0 <= x < n ::
          gameBoard[y, x] == if y < i && RowStart(n, y) <= x < RowEnd(n, y) then Disc(FACEDOWN) else Null
      {
        var distanceFromMiddle := if middle - i >= 0 then middle - i else i - middle;
        EvenMiddleRow(n, i, spacesMaxLeft, spacesMaxRight);
        if middleCrossed {
          if distanceFromMiddle % 2 != 0 {
            spacesMaxRight := spacesMaxRight + 1;
          }
        }
        PlaceGameDiscs(spacesMaxLeft, spacesMaxRight, i);
        if !middleCrossed {
          if distanceFromMiddle % 2 != 0 {
            spacesMaxRight := spacesMaxRight - 1;
          } else {
            spacesMaxLeft := spacesMaxLeft - 1;
          }
        } else {
          if distanceFromMiddle % 2 != 0 {
            spacesMaxLeft := spacesMaxLeft + 1;
          }
        }
        if i == middle {
          middleCrossed := true;
          spacesMaxLeft := 0;
        }
      }
    }
 
    /** Puts a disc of the given colour at column x of row y. */
    method SetPiece(x: int, y: int, color: DiscColor)
      requires 0 <= y < gameBoard.Length0 && 0 <= x < gameBoard.Length1
      modifies gameBoard
      ensures gameBoard[y, x] == Disc(color)
      ensures forall yy, xx | 0 <= yy < gameBoard.Length0 && 0 <= xx < gameBoard.Length1 && (yy, xx) != (y, x) ::
        gameBoard[yy, xx] == old(gameBoard[yy, xx])
    {
      gameBoard[y, x] := Disc(color);
    }

    /** Places the six discs of OddMiddlePieces around (middle, middle). */
    method SetPiecesForOddMiddle(middle: int)
      requires 1 <= middle && middle + 1 < gameBoard.Length0 && middle + 1 < gameBoard.Length1
      modifies gameBoard
      ensures forall y, x | 0 <= y < gameBoard.Length0 && 0 <= x < gameBoard.Length1 ::
        gameBoard[y, x] == match OddMiddlePieces(middle, Coord(x, y))
          case Some(color) => Disc(color)
          case None => old(gameBoard[y, x])
    {
      SetPiece(middle - 1, middle, BLACK);
      SetPiece(middle, middle + 1, BLACK);
      SetPiece(middle, middle - 1, BLACK);
      SetPiece(middle - 1, middle - 1, WHITE);
      SetPiece(middle - 1, middle + 1, WHITE);
      SetPiece(middle + 1, middle, WHITE);
    }

    /** Places the six discs of EvenMiddlePieces around (middle, middle). */
    method SetPiecesForEvenMiddle(middle: int)
      requires 1 <= middle && middle + 1 < gameBoard.Length0 && middle + 1 < gameBoard.Length1
      modifies gameBoard
      ensures forall y, x | 0 <= y < gameBoard.Length0 && 0 <= x < gameBoard.Length1 ::
        gameBoard[y, x] == match EvenMiddlePieces(middle, Coord(x, y))
          case Some(color) => Disc(color)
          case None => old(gameBoard[y, x])
    {
      SetPiece(middle + 1, middle, BLACK);
      SetPiece(middle, middle - 1, BLACK);
      SetPiece(middle, middle + 1, BLACK);
      SetPiece(middle + 1, middle + 1, WHITE);
      SetPiece(middle + 1, middle - 1, WHITE);
      SetPiece(middle - 1, middle, WHITE);
    }

    /** Places the six starting discs; the layout depends on the parity of n / 2. */
    method SetStartingPieces()
      requires gameBoard.Length0 == gameBoard.Length1 && ValidBoardSize(gameBoard.Length0)
      modifies gameBoard
      ensures forall y, x | 0 <= y < gameBoard.Length0 && 0 <= x < gameBoard.Length1 ::
        gameBoard[y, x] == match StartingColor(gameBoard.Length0, Coord(x, y))
          case Some(color) => Disc(color)
          case None => old(gameBoard[y, x])
    {
      var middle := gameBoard.Length0 / 2;
      if middle % 2 != 0 {
        SetPiecesForEvenMiddle(middle);
      } else {
        SetPiecesForOddMiddle(middle);
      }
    }

    /** Lays out the hexagon of face-down cells on an empty board, then the starting discs. */
    method InitBoard()
      requires gameBoard.Length0 == gameBoard.Length1 && ValidBoardSize(gameBoard.Length0)
      requires forall y, x | 0 <= y < gameBoard.Length0 && 0 <= x < gameBoard.Length1 :: gameBoard[y, x] == Null
      modifies gameBoard
      ensures forall y, x | 0 <= y < gameBoard.Length0 && 0 <= x < gameBoard.Length1 ::
        gameBoard[y, x] == InitialSlot(gameBoard.Length0, x, y)
    {
      var middle := gameBoard.Length0 / 2;
      if middle % 2 == 0 {
        InitBoardWithEvenMiddle();
      } else {
        InitBoardWithOddMiddle();
      }
      SetStartingPieces();
    }

    /** Why startGame(boardSize) is refused, if it is. */
    function CheckStartGameConditions(boardSize: int): (r: Outcome<Exception>)
      reads this
      ensures r == Done <==> !gameOn && ValidBoardSize(boardSize)
      ensures gameOn ==> r == Fail(IllegalState)
      ensures !gameOn && !ValidBoardSize(boardSize) ==> r == Fail(IllegalArgument)
    {
      if gameOn then Fail(IllegalState)
      else if boardSize <= 3 || boardSize % 2 == 0 then Fail(IllegalArgument)
      else Done
    }

    /**
     * Starts a game on a fresh board of the given size. The dimensions are recorded before
     * the checks, so a refused call still changes what getDimensions reports.
     */
    method StartGame(boardSize: int) returns (r: Outcome<Exception>)
      requires Valid() && boardSize <= MaxBoardSize
      modifies this
      ensures Valid()
      ensures numRows == boardSize && numColumns == boardSize
      ensures pt == old(pt) && playerAction == old(playerAction) && state == old(state)
      ensures old(gameOn) ==> r == Fail(IllegalState) && gameOn && gameBoard == old(gameBoard)
      ensures !old(gameOn) && !ValidBoardSize(boardSize) ==>
        r == Fail(IllegalArgument) && !gameOn && gameBoard == old(gameBoard)
      ensures !old(gameOn) && ValidBoardSize(boardSize) ==>
        r == Done && gameOn && fresh(gameBoard) && Grid() == InitialGrid(boardSize)
    {
      numRows := boardSize;
      numColumns := boardSize;
      r := CheckStartGameConditions(boardSize);
      if r.Fail? {
        return;
      }
      gameOn := true;
      gameBoard := new Slot[numRows, numColumns]((y, x) => Null);
      InitBoard();
      assert forall y | 0 <= y < boardSize :: Grid()[y] == InitialGrid(boardSize)[y];
    }

    /** getDimensions: the recorded size (0 on a mock board). */
    function GetDimensions(): (r: Result<int, Exception>)
      reads this
      ensures r.Success? <==> gameOn
      ensures gameOn ==> r.value == numRows
      ensures !gameOn ==> r.error == IllegalState
    {
      if !gameOn then Failure(IllegalState) else Success(numRows)
    }

    /** checkValidCoordinates; before startGame there is no board to look at. */
    function CheckValidCoordinates(x: int, y: int): (r: Result<bool, Exception>)
      reads this, gameBoard
      requires Valid()
      ensures !gameOn ==> r == Failure(NullPointer)
      ensures gameOn ==> r.Success? && (r.value <==> Coord(x, y) in Addressable(Grid()))
    {
      if !gameOn then Failure(NullPointer)
      else Success(0 <= x < gameBoard.Length0 && 0 <= y < gameBoard.Length0 && gameBoard[y, x] != Null)
    }

    /** getDiscAt, as the colour of the disc found. */
    function GetDiscAt(x: int, y: int): (r: Result<DiscColor, Exception>)
      reads this, gameBoard
      requires Valid()
      ensures !gameOn ==> r == Failure(IllegalState)
      ensures gameOn && Coord(x, y) !in Addressable(Grid()) ==> r == Failure(IllegalArgument)
      ensures gameOn && Coord(x, y) in Addressable(Grid()) ==> r.Success? && Coord(x, y) in CellsOf(Grid(), r.value)
    {
      if !gameOn then Failure(IllegalState)
      else if !CheckValidCoordinates(x, y).value then Failure(IllegalArgument)
      else Success(gameBoard[y, x].color)
    }

    /** isDiscFlipped: whether the cell shows a colour, i.e. is not face down. */
    function IsDiscFlipped(x: int, y: int): (r: Result<bool, Exception>)
      reads this, gameBoard
      requires Valid()
      ensures !gameOn ==> r == Failure(IllegalState)
      ensures gameOn && Coord(x, y) !in Addressable(Grid()) ==> r == Failure(IllegalArgument)
      ensures gameOn && Coord(x, y) in Addressable(Grid()) ==>
        r.Success? && (r.value <==> Coord(x, y) !in CellsOf(Grid(), FACEDOWN))
    {
      if !gameOn then Failure(IllegalState)
      else if !CheckValidCoordinates(x, y).value then Failure(IllegalArgument)
      else Success(gameBoard[y, x].color != FACEDOWN)
    }

    /**
     * canPlayerPlay: the cell is on the board and still face down. An invalid position
     * answers false; an unstarted game still throws.
     */
    function CanPlayerPlay(x: int, y: int): (r: Result<bool, Exception>)
      reads this, gameBoard
      requires Valid()
      ensures !gameOn ==> r == Failure(IllegalState)
      ensures gameOn ==> r.Success? && (r.value <==> Coord(x, y) in CellsOf(Grid(), FACEDOWN))
    {
      match IsDiscFlipped(x, y)
      case Success(flipped) => Success(!flipped)
      case Failure(e) => if e == IllegalArgument then Success(false) else Failure(e)
    }

    function CurrentTurn(): (r: Result<PlayerTurn, Exception>)
      reads this
      ensures r.Success? <==> gameOn
      ensures gameOn ==> r.value == pt
      ensures !gameOn ==> r.error == IllegalState
    {
      if !gameOn then Failure(IllegalState) else Success(pt)
    }

    function GetCurrentGameState(): (r: Result<GameState, Exception>)
      reads this
      ensures r.Success? <==> gameOn
      ensures gameOn ==> r.value == state
      ensures !gameOn ==> r.error == IllegalState
    {
      if !gameOn then Failure(IllegalState) else Success(state)
    }

    /** getCurrentBoardState: a copy of the board that later moves do not touch. */
    method GetCurrentBoardState() returns (r: Result<array2<Slot>, Exception>)
      requires Valid()
      ensures !gameOn ==> r == Failure(IllegalState)
      ensures gameOn ==> (r.Success? && fresh(r.value)
        && r.value.Length0 == gameBoard.Length0 && r.value.Length1 == gameBoard.Length1
        && forall y, x | 0 <= y < gameBoard.Length0 && 0 <= x < gameBoard.Length1 :: r.value[y, x] == gameBoard[y, x])
    {
      if !gameOn {
        return Failure(IllegalState);
      }
      var copy := new Slot[gameBoard.Length0, gameBoard.Length1]((y, x) => Null);
      for i := 0 to gameBoard.Length0
        invariant forall y, x | 0 <= y < i && 0 <= x < gameBoard.Length1 :: copy[y, x] == gameBoard[y, x]
      {
        for j := 0 to gameBoard.Length1
          invariant forall y, x | 0 <= y < i && 0 <= x < gameBoard.Length1 :: copy[y, x] == gameBoard[y, x]
          invariant forall x | 0 <= x < j :: copy[i, x] == gameBoard[i, x]
        {
          copy[i, j] := gameBoard[i, j];
        }
      }
      return Success(copy);
    }

    /** getScore: how many discs of the player's colour the board holds. */
    method GetScore(player: PlayerTurn) returns (r: Result<int, Exception>)
      requires Valid()
      ensures !gameOn ==> r == Failure(IllegalState)
      ensures gameOn ==> r == Success(|CellsOf(Grid(), GetPlayerColor(player))|)
    {
      if !gameOn {
        return Failure(IllegalState);
      }
      ghost var g := Grid();
      var color := GetPlayerColor(player);
      var count := 0;
      var n := gameBoard.Length0;
      for i := 0 to n
        invariant count == ScanCount(g, color, i, 0)
      {
        for j := 0 to n
          invariant count == ScanCount(g, color, i, j)
        {
          var slot := gameBoard[i, j];
          assert slot == g[i][j];
          if slot != Null && slot.color == color {
            count := count + 1;
          }
        }
      }
      ScanCountsColour(g, color);
      return Success(count);
    }

    /** doesPlayerHaveLegalMove: in fact, whether the player to move has any disc left. */
    method DoesPlayerHaveLegalMove() returns (r: Result<bool, Exception>)
      requires Valid()
      ensures !gameOn ==> r == Failure(IllegalState)
      ensures gameOn ==> r == Success(CellsOf(Grid(), GetPlayerColor(pt)) != {})
    {
      var score := GetScore(pt);
      if score.Failure? {
        return Failure(score.error);
      }
      return Success(score.value != 0);
    }

    /** noMoreLegalMoves: searches every face-down cell, column by column, for a capture. */
    method NoMoreLegalMoves() returns (r: bool)
      requires Valid()
      ensures r == NoLegalMoves(Snapshot())
    {
      var v := Snapshot();
      var n := gameBoard.Length0;
      for i := 0 to n
        invariant forall x, y | 0 <= x < i && 0 <= y < n :: NoCaptureAt(v, x, y)
      {
        var found := SearchColumn(i, v);
        if found {
          return false;
        }
        ExtendColumn(v, i);
      }
      assert NoLegalMoves(v);
      return true;
    }

    /** The inner loop of noMoreLegalMoves: the cells of column i, row by row. */
    method SearchColumn(i: int, v: View) returns (found: bool)
      requires Valid() && v == Snapshot() && 0 <= i < gameBoard.Length0
      ensures found ==> !NoLegalMoves(v)
      ensures !found ==> forall y | 0 <= y < |v.board| :: NoCaptureAt(v, i, y)
    {
      var n := gameBoard.Length0;
      for j := 0 to n
        invariant forall y | 0 <= y < j :: NoCaptureAt(v, i, y)
      {
        var capture := CapturesAt(i, j, v);
        if capture {
          Witness(v, i, j);
          return true;
        }
      }
      return false;
    }

    /** One step of that loop: whether cell (i, j) is face down and bfs finds a non-empty path from it. */
    method CapturesAt(i: int, j: int, v: View) returns (capture: bool)
      requires Valid() && v == Snapshot() && 0 <= i < gameBoard.Length0 && 0 <= j < gameBoard.Length0
      ensures capture <==> !NoCaptureAt(v, i, j)
    {
      var slot := gameBoard[j, i];
      assert slot == v.board[j][i];
      if slot != Null && slot.color == FACEDOWN {
        var moves := Bfs(v, Coord(i, j));
        capture := !(forall k | 0 <= k < |moves| :: moves[k] == []);
        CellVerdict(v, i, j, moves);
      } else {
        capture := false;
        CellVerdict(v, i, j, []);
      }
    }

    static lemma CellVerdict(v: View, x: int, y: int, moves: Move)
      requires IsSquare(v.board) && 0 <= x < |v.board| && 0 <= y < |v.board|
      requires v.board[y][x] == Disc(FACEDOWN) ==> moves == MoveAt(v, Coord(x, y))
      ensures NoCaptureAt(v, x, y) <==>
        (v.board[y][x] == Disc(FACEDOWN) ==> forall k | 0 <= k < |moves| :: moves[k] == [])
    {
      AllPathsEmpty(v, Coord(x, y));
    }

    static lemma Witness(v: View, x: int, y: int)
      requires IsSquare(v.board) && 0 <= x < |v.board| && 0 <= y < |v.board| && !NoCaptureAt(v, x, y)
      ensures !NoLegalMoves(v)
    {
    }

    static lemma ExtendColumn(v: View, i: int)
      requires IsSquare(v.board) && 0 <= i < |v.board|
      requires forall x, y | 0 <= x < i && 0 <= y < |v.board| :: NoCaptureAt(v, x, y)
      requires forall y | 0 <= y < |v.board| :: NoCaptureAt(v, i, y)
      ensures forall x, y | 0 <= x < i + 1 && 0 <= y < |v.board| :: NoCaptureAt(v, x, y)
    {
    }

    /** Hands the turn to the other player. */
    method TogglePlayer()
      requires gameOn
      modifies this`pt
      ensures pt == GetOpponent(old(pt))
    {
      if pt == PLAYER1 {
        pt := PLAYER2;
      } else {
        pt := PLAYER1;
      }
    }

    /**
     * makeMove: a refused position leaves everything as it was and reports why; a legal one
     * paints every position of every path of the move with the mover's colour, logs one line
     * per path entry, and hands the turn over. Before startGame there is no board to check.
     */
    method MakeMove(x: int, y: int) returns (r: Result<seq<ModelEvent>, Exception>)
      requires Valid()
      modifies this`pt, this`playerAction, gameBoard
      ensures !gameOn ==> r == Failure(NullPointer) && pt == old(pt) && playerAction == old(playerAction)
      ensures var c, v := Coord(x, y), old(Snapshot());
        gameOn && Rejection(v, c).Some? ==>
          && r == Success([ILLEGALMOVE(Rejection(v, c).value), TurnEvent(pt)])
          && pt == old(pt) && playerAction == old(playerAction) && Grid() == v.board
      ensures var c, v := Coord(x, y), old(Snapshot());
        gameOn && Rejection(v, c) == None ==>
          && r == Success([TurnEvent(pt)]) && pt == GetOpponent(v.turn)
          && Grid() == AfterMove(v, c) && playerAction == old(playerAction) + MoveLog(MoveAt(v, c))
    {
      if !gameOn {
        return Failure(NullPointer);
      }
      var c := Coord(x, y);
      ghost var v := Snapshot();
      var rejection, moves := Screen(c);
      if rejection.Some? {
        return Success([ILLEGALMOVE(rejection.value), TurnEvent(pt)]);
      }
      r := PlayLegalMove(c, moves, v);
    }

    /**
     * The tests makeMove runs before it changes anything, in their order: the position is
     * on the board, its cell is face down, and bfs finds a non-empty path from it. The
     * first that fails is the reason reported; when all pass, moves is what bfs found.
     */
    method Screen(c: Coord) returns (rejection: Option<MoveRejection>, moves: Move)
      requires Valid() && gameOn
      ensures rejection == Rejection(Snapshot(), c)
      ensures rejection == None ==> moves == MoveAt(Snapshot(), c)
    {
      var v := Snapshot();
      var valid := CheckValidCoordinates(c.x, c.y);
      assert valid.value == ModelView.CheckValidCoordinates(v.board, c);
      if !valid.value {
        return Some(OutOfBounds), [];
      }
      var disc := GetDiscAt(c.x, c.y);
      assert disc.value == ColorAt(v.board, c);
      if disc.value != FACEDOWN {
        return Some(NotFaceDown), [];
      }
      moves := Bfs(v, c);
      var allEmptyLists := forall k | 0 <= k < |moves| :: moves[k] == [];
      assert allEmptyLists <==> moves == [] by {
        AllPathsEmpty(v, c);
      }
      if allEmptyLists {
        return Some(NoCapture), moves;
      }
      rejection := None;
    }

    /** The accepting branch of makeMove: paint and log the move, then hand the turn over. */
    method PlayLegalMove(c: Coord, moves: Move, ghost v: View) returns (r: Result<seq<ModelEvent>, Exception>)
      requires Valid() && gameOn && v == Snapshot() && Rejection(v, c) == None && moves == MoveAt(v, c)
      modifies this`pt, this`playerAction, gameBoard
      ensures r == Success([TurnEvent(pt)]) && pt == GetOpponent(v.turn)
      ensures Grid() == AfterMove(v, c) && playerAction == old(playerAction) + MoveLog(moves)
    {
      var color := GetPlayerColor(pt);
      ghost var target := AfterMove(v, c);
      LegalMovePaints(v, c, moves, color);
      PaintMove(moves, color, v);
      ghost var log := playerAction;
      assert Grid() == target && log == old(playerAction) + MoveLog(moves);
      TogglePlayer();
      assert Grid() == target && playerAction == log && pt == GetOpponent(v.turn);
      r := Success([TurnEvent(pt)]);
    }

    /** The cells a legal move paints all lie on the board, and painting them gives AfterMove. */
    lemma LegalMovePaints(v: View, c: Coord, moves: Move, color: DiscColor)
      requires IsSquare(v.board) && Rejection(v, c) == None && moves == MoveAt(v, c) && color == OwnColor(v)
      ensures FlipSet(moves) <= Addressable(v.board)
      ensures AfterMove(v, c) == Painted(v.board, FlipSet(moves), color)
    {
      LegalMoveOnBoard(v, c);
    }

    /** The painting and logging loop of makeMove, path by path and entry by entry. */
    method PaintMove(moves: Move, color: DiscColor, ghost v: View)
      requires Valid() && v.board == Grid() && FlipSet(moves) <= Addressable(v.board)
      modifies this`playerAction, gameBoard
      ensures Grid() == Painted(v.board, FlipSet(moves), color)
      ensures playerAction == old(playerAction) + MoveLog(moves)
    {
      var n := gameBoard.Length0;
      ghost var log0 := playerAction;
      for i := 0 to |moves|
        invariant forall yy, xx | 0 <= yy < n && 0 <= xx < n ::
          gameBoard[yy, xx] == if Coord(xx, yy) in FlipSet(moves[..i]) then Disc(color) else v.board[yy][xx]
        invariant playerAction == log0 + MoveLog(moves[..i])
      {
        var l := moves[i];
        MovePrefixStep(moves, i);
        PaintPath(l, color, v, FlipSet(moves[..i]));
        ConcatAssoc(log0, MoveLog(moves[..i]), PathLog(l));
      }
      assert moves[..|moves|] == moves;
      assert Grid() == Painted(v.board, FlipSet(moves), color) by {
        assert forall yy | 0 <= yy < n :: Grid()[yy] == Painted(v.board, FlipSet(moves), color)[yy];
      }
    }

    /** The inner loop of makeMove's painting: the cells of one path, each painted and logged. */
    method PaintPath(l: Path, color: DiscColor, ghost v: View, ghost done: set<Coord>)
      requires Valid() && IsSquare(v.board) && |v.board| == gameBoard.Length0
      requires forall item | item in l :: item in Addressable(v.board)
      requires forall yy, xx | 0 <= yy < gameBoard.Length0 && 0 <= xx < gameBoard.Length0 ::
        gameBoard[yy, xx] == if Coord(xx, yy) in done then Disc(color) else v.board[yy][xx]
      modifies this`playerAction, gameBoard
      ensures forall yy, xx | 0 <= yy < gameBoard.Length0 && 0 <= xx < gameBoard.Length0 ::
        gameBoard[yy, xx] == if Coord(xx, yy) in done || Coord(xx, yy) in l then Disc(color) else v.board[yy][xx]
      ensures playerAction == old(playerAction) + PathLog(l)
    {
      var n := gameBoard.Length0;
      ghost var log0 := playerAction;
      for j := 0 to |l|
        invariant forall yy, xx | 0 <= yy < n && 0 <= xx < n ::
          gameBoard[yy, xx] == if Coord(xx, yy) in done || Coord(xx, yy) in l[..j] then Disc(color) else v.board[yy][xx]
        invariant playerAction == log0 + PathLog(l[..j])
      {
        var item := l[j];
        assert item in Addressable(v.board);
        SetPiece(item.x, item.y, color);
        playerAction := playerAction + [Placed(item)];
        assert l[..j + 1] == l[..j] + [item];
        assert PathLog(l[..j + 1]) == PathLog(l[..j]) + [Placed(item)];
      }
      assert l[..|l|] == l;
    }

    /** pass: hands the turn over and logs a pass line. */
    method Pass() returns (r: Result<seq<ModelEvent>, Exception>)
      requires Valid()
      modifies this
      ensures Valid() && gameBoard == old(gameBoard) && gameOn == old(gameOn)
      ensures numRows == old(numRows) && numColumns == old(numColumns) && state == old(state)
      ensures !gameOn ==> r == Failure(IllegalState) && pt == old(pt) && playerAction == old(playerAction)
      ensures gameOn ==> (r == Success([TurnEvent(pt)]) && pt == GetOpponent(old(pt))
        && playerAction == old(playerAction) + [Passed])
    {
      if !gameOn {
        return Failure(IllegalState);
      }
      TogglePlayer();
      r := Success([TurnEvent(pt)]);
      playerAction := playerAction + [Passed];
    }

    /**
     * isGameOver: decides the game by the precedence of GameOutcome and records the verdict
     * in the game state; an undecided game leaves the state as it was.
     */
    method IsGameOver() returns (r: Result<bool, Exception>)
      requires Valid()
      modifies this`state
      ensures !gameOn ==> r == Failure(IllegalState) && state == old(state)
      ensures gameOn ==> r == Success(old(GameOutcome(Snapshot(), playerAction)).Some?)
      ensures gameOn ==> state == match old(GameOutcome(Snapshot(), playerAction))
        case Some(s) => s
        case None => old(state)
    {
      if !gameOn {
        return Failure(IllegalState);
      }
      var outcome := Judge();
      if outcome.Some? {
        state := outcome.value;
        return Success(true);
      }
      return Success(false);
    }

    /**
     * The tests of isGameOver in their order (two passes in a row, no discs left for the
     * player to move, none for the other player, no legal move), and the state each one
     * sets; None when the game goes on.
     */
    method Judge() returns (outcome: Option<GameState>)
      requires Valid() && gameOn
      ensures outcome == GameOutcome(Snapshot(), playerAction)
    {
      ghost var v := Snapshot();
      var noMoves := NoMoreLegalMoves();
      assert Snapshot() == v;
      var twoPassesInARow := ConsecutivePasses(playerAction, 2);
      var current := GetScore(pt);
      assert Snapshot() == v;
      var opposite := GetScore(GetOpponent(pt));
      assert Snapshot() == v;
      ghost var verdict := Verdict(twoPassesInARow, current.value, opposite.value, noMoves, pt);
      assert GameOutcome(v, playerAction) == verdict;
      if twoPassesInARow {
        outcome := Some(STALEMATE);
      } else if current.value == 0 {
        outcome := Some(if pt == PLAYER1 then PLAYER2WIN else PLAYER1WIN);
      } else if opposite.value == 0 {
        outcome := Some(if pt == PLAYER1 then PLAYER1WIN else PLAYER2WIN);
      } else if noMoves {
        outcome := Some(STALEMATE);
      } else {
        outcome := None;
      }
      assert outcome == verdict;
    }
  }
}
