/**
 * What a move, a pass and the end-of-game test do to a board, stated on values: the
 * specification the methods of class ReversiHexModel are proved against.
 */
module GameRules {
  import opened Wrappers
  import opened MoveRules
  import opened ModelView
  import opened BoardUtils

  /** One line of the move log: "x y " for a painted coordinate, or "pass". */
  datatype Action = Placed(c: Coord) | Passed

  /** Why makeMove refuses a position. */
  datatype MoveRejection = OutOfBounds | NotFaceDown | NoCapture

  /** What the model tells its listeners. */
  datatype ModelEvent = ILLEGALMOVE(reason: MoveRejection) | PLAYER1TURN | PLAYER2TURN

  function TurnEvent(p: PlayerTurn): ModelEvent {
    if p == PLAYER1 then PLAYER1TURN else PLAYER2TURN
  }

  /** The first check of makeMove that c fails, or None for a legal move. */
  function Rejection(v: View, c: Coord): Option<MoveRejection>
    requires IsSquare(v.board)
  {
    if !CheckValidCoordinates(v.board, c) then Some(OutOfBounds)
    else if ColorAt(v.board, c) != FACEDOWN then Some(NotFaceDown)
    else if MoveAt(v, c) == [] then Some(NoCapture)
    else None
  }

  /** The Reversi rule for a legal move: a face-down cell that brackets a run in some direction. */
  ghost predicate LegalMove(v: View, c: Coord)
    requires IsSquare(v.board)
  {
    CheckValidCoordinates(v.board, c) && ColorAt(v.board, c) == FACEDOWN
    && exists d, k :: Brackets(v, c, d, k)
  }

  /** makeMove accepts exactly the legal moves. */
  lemma AcceptsLegalMoves(v: View, c: Coord)
    requires IsSquare(v.board)
    ensures Rejection(v, c) == None <==> LegalMove(v, c)
  {
    MoveAtFacts(v, c);
  }

  /** The board with every position in cells holding a disc of the given colour. */
  ghost function Painted(g: Grid, cells: set<Coord>, color: DiscColor): (r: Grid)
    requires IsSquare(g)
    ensures |r| == |g| && IsSquare(r)
  {
    seq(|g|, y requires 0 <= y < |g| =>
      seq(|g|, x requires 0 <= x < |g| => if Coord(x, y) in cells then Disc(color) else g[y][x]))
  }

  /** The board after the player to move plays c. */
  ghost function AfterMove(v: View, c: Coord): Grid
    requires IsSquare(v.board)
  {
    Painted(v.board, FlipSet(MoveAt(v, c)), OwnColor(v))
  }

  /** The log lines for one path: one coordinate line per entry, duplicates included. */
  function PathLog(p: Path): (r: seq<Action>)
    ensures |r| == |p| && forall k | 0 <= k < |p| :: r[k] == Placed(p[k])
  {
    seq(|p|, k requires 0 <= k < |p| => Placed(p[k]))
  }

  /** The log lines makeMove appends for a move. */
  function MoveLog(m: Move): seq<Action>
  {
    if m == [] then [] else MoveLog(m[..|m| - 1]) + PathLog(m[|m| - 1])
  }

  /** One more path of a move: its log lines follow, and its cells join the flipped set. */
  lemma MovePrefixStep(m: Move, i: int)
    requires 0 <= i < |m|
    ensures MoveLog(m[..i + 1]) == MoveLog(m[..i]) + PathLog(m[i])
    ensures FlipSet(m[..i + 1]) == FlipSet(m[..i]) + set q | q in m[i]
    ensures forall q | q in m[i] :: q in FlipSet(m)
  {
    assert m[..i + 1][..i] == m[..i];
    assert m[..i + 1] == m[..i] + [m[i]];
    FlipSetSnoc(m[..i], m[i]);
    forall q | q in m[i] ensures q in FlipSet(m) {
      assert m[i] in m;
    }
  }

  /** consecutivePasses(n): the log has at least n lines and the last n are all "pass". */
  function ConsecutivePasses(log: seq<Action>, n: nat): bool {
    |log| >= n && forall k | |log| - n <= k < |log| :: log[k] == Passed
  }

  function WinnerOf(p: PlayerTurn): GameState {
    if p == PLAYER1 then PLAYER1WIN else PLAYER2WIN
  }

  /** The cell at column x of row y is not face down, or brackets nothing in any direction. */
  ghost predicate NoCaptureAt(v: View, x: int, y: int)
    requires IsSquare(v.board) && 0 <= x < |v.board| && 0 <= y < |v.board|
  {
    v.board[y][x] == Disc(FACEDOWN) ==> forall d, k :: !Brackets(v, Coord(x, y), d, k)
  }

  /** No face-down cell would capture anything for the player to move. */
  ghost predicate NoLegalMoves(v: View)
    requires IsSquare(v.board)
  {
    forall x, y | 0 <= x < |v.board| && 0 <= y < |v.board| :: NoCaptureAt(v, x, y)
  }

  /**
   * The test makeMove and noMoreLegalMoves apply to what bfs finds, that every path is
   * empty, holds exactly when the position brackets nothing in any direction.
   */
  lemma AllPathsEmpty(v: View, c: Coord)
    requires IsSquare(v.board)
    ensures (forall k | 0 <= k < |MoveAt(v, c)| :: MoveAt(v, c)[k] == []) <==> MoveAt(v, c) == []
    ensures MoveAt(v, c) == [] <==> forall d, k :: !Brackets(v, c, d, k)
  {
    MoveAtFacts(v, c);
    if MoveAt(v, c) != [] {
      assert MoveAt(v, c)[0] in MoveAt(v, c);
    }
  }

  /** The cells a legal move paints all belong to the hexagon. */
  lemma LegalMoveOnBoard(v: View, c: Coord)
    requires IsSquare(v.board) && Rejection(v, c) == None
    ensures FlipSet(MoveAt(v, c)) <= Addressable(v.board)
  {
    FlipsOfLegalMove(v, c);
  }

  /**
   * The verdict of isGameOver from its four observations, in its order of precedence: two
   * passes in a row, then the player to move without discs, then the opponent without discs,
   * then no legal move.
   */
  function Verdict(twoPasses: bool, current: int, opposite: int, noMoves: bool, turn: PlayerTurn): Option<GameState> {
    if twoPasses then Some(STALEMATE)
    else if current == 0 then Some(WinnerOf(GetOpponent(turn)))
    else if opposite == 0 then Some(WinnerOf(turn))
    else if noMoves then Some(STALEMATE)
    else None
  }

  /** The verdict of isGameOver on a position and a log. */
  ghost function GameOutcome(v: View, log: seq<Action>): Option<GameState>
    requires IsSquare(v.board)
  {
    Verdict(ConsecutivePasses(log, 2), |CellsOf(v.board, OwnColor(v))|,
      |CellsOf(v.board, OpponentColor(v))|, NoLegalMoves(v), v.turn)
  }

  /** The game goes on only while both players have discs and the player to move has a legal move. */
  lemma GameGoesOn(v: View, log: seq<Action>)
    requires IsSquare(v.board)
    ensures GameOutcome(v, log) == None <==>
      && !ConsecutivePasses(log, 2)
      && CellsOf(v.board, BLACK) != {} && CellsOf(v.board, WHITE) != {}
      && exists c :: LegalMove(v, c)
  {
    if GameOutcome(v, log) == None {
      var x, y :| 0 <= x < |v.board| && 0 <= y < |v.board| && !NoCaptureAt(v, x, y);
      assert LegalMove(v, Coord(x, y));
    }
    if exists c :: LegalMove(v, c) {
      var c :| LegalMove(v, c);
      assert !NoCaptureAt(v, c.x, c.y);
    }
    if OwnColor(v) == BLACK {
      assert OpponentColor(v) == WHITE;
    }
  }

  /** When a win is declared the loser has no discs, and a winner who is the player to move has some. */
  lemma WinnerHasDiscs(v: View, log: seq<Action>)
    requires IsSquare(v.board)
    requires GameOutcome(v, log) == Some(PLAYER1WIN) || GameOutcome(v, log) == Some(PLAYER2WIN)
    ensures var winner := if GameOutcome(v, log) == Some(PLAYER1WIN) then PLAYER1 else PLAYER2;
      && CellsOf(v.board, GetPlayerColor(GetOpponent(winner))) == {}
      && (winner == v.turn ==> CellsOf(v.board, GetPlayerColor(winner)) != {})
  {
  }

  /** Painting changes only the colour of the painted cells. */
  lemma PaintedCells(g: Grid, cells: set<Coord>, color: DiscColor, other: DiscColor)
    requires IsSquare(g) && cells <= Addressable(g) && other != color
    ensures CellsOf(Painted(g, cells, color), color) == CellsOf(g, color) + cells
    ensures CellsOf(Painted(g, cells, color), other) == CellsOf(g, other) - cells
    ensures Addressable(Painted(g, cells, color)) == Addressable(g)
  {
    var r := Painted(g, cells, color);
    forall q | q in cells ensures q in CellsOf(r, color) {
      assert q in Addressable(g);
      assert r[q.y][q.x] == Disc(color);
    }
    forall q | q in CellsOf(r, other) ensures q in CellsOf(g, other) {
      assert r[q.y][q.x] == Disc(other);
    }
    forall q | q in CellsOf(g, color) ensures q in CellsOf(r, color) {
      assert g[q.y][q.x] == Disc(color);
    }
    forall q | q in CellsOf(g, other) - cells ensures q in CellsOf(r, other) {
      assert g[q.y][q.x] == Disc(other);
    }
    forall q | q in Addressable(g) ensures q in Addressable(r) {
      assert g[q.y][q.x] != Null;
    }
  }

  /** The cells a legal move paints: the chosen face-down cell and the captured opponent discs. */
  lemma FlipsOfLegalMove(v: View, c: Coord)
    requires IsSquare(v.board) && Rejection(v, c) == None
    ensures var cap := CapturedIn(v, c, Directions);
      && FlipSet(MoveAt(v, c)) == {c} + cap
      && c in CellsOf(v.board, FACEDOWN)
      && cap <= CellsOf(v.board, OpponentColor(v))
      && FlipSet(MoveAt(v, c)) <= Addressable(v.board)
  {
    var g, opp := v.board, OpponentColor(v);
    var cap := CapturedIn(v, c, Directions);
    MoveAtFacts(v, c);
    assert g[c.y][c.x] == Disc(FACEDOWN);
    forall q | q in cap ensures q in CellsOf(g, opp) {
      assert g[q.y][q.x] == Disc(opp);
    }
  }

  /** Counting after painting {c} + cap over three disjoint colour classes. */
  lemma CountsAfterPainting(own: set<Coord>, opp: set<Coord>, fd: set<Coord>, c: Coord, cap: set<Coord>)
    requires own !! opp && own !! fd && opp !! fd && c in fd && cap <= opp
    ensures |own + ({c} + cap)| == |own| + 1 + |cap|
    ensures |opp - ({c} + cap)| == |opp| - |cap|
    ensures |fd - ({c} + cap)| == |fd| - 1
  {
    assert c !in cap;
    assert own !! ({c} + cap);
    assert opp - ({c} + cap) == opp - cap;
    assert fd - ({c} + cap) == fd - {c};
  }

  /**
   * A legal move keeps the shape of the hexagon, turns the chosen cell and the k bracketed
   * opponent discs to the mover's colour: the mover gains k + 1 discs, the opponent loses k,
   * and one face-down cell fewer remains.
   */
  lemma ScoreAfterMove(v: View, c: Coord)
    requires IsSquare(v.board) && Rejection(v, c) == None
    ensures var after, cap := AfterMove(v, c), CapturedIn(v, c, Directions);
      && Addressable(after) == Addressable(v.board)
      && |CellsOf(after, OwnColor(v))| == |CellsOf(v.board, OwnColor(v))| + 1 + |cap|
      && |CellsOf(after, OpponentColor(v))| == |CellsOf(v.board, OpponentColor(v))| - |cap|
      && |CellsOf(after, FACEDOWN)| == |CellsOf(v.board, FACEDOWN)| - 1
  {
    var g, own, opp := v.board, OwnColor(v), OpponentColor(v);
    var cap := CapturedIn(v, c, Directions);
    FlipsOfLegalMove(v, c);
    ColorsPartitionBoard(g);
    var flips := FlipSet(MoveAt(v, c));
    PaintedCells(g, flips, own, opp);
    PaintedCells(g, flips, own, FACEDOWN);
    CountsAfterPainting(CellsOf(g, own), CellsOf(g, opp), CellsOf(g, FACEDOWN), c, cap);
  }

  /** The log lines of a move name exactly the positions the move paints. */
  lemma {:induction false} MoveLogNamesFlips(m: Move)
    ensures forall a | a in MoveLog(m) :: a.Placed?
    ensures (set a | a in MoveLog(m) && a.Placed? :: a.c) == FlipSet(m)
  {
    if m != [] {
      var init, last := m[..|m| - 1], m[|m| - 1];
      assert m == init + [last];
      MoveLogNamesFlips(init);
      FlipSetSnoc(init, last);
      var logged := set a | a in MoveLog(m) && a.Placed? :: a.c;
      forall q | q in FlipSet(m) ensures q in logged {
        if q in last {
          var k :| 0 <= k < |last| && last[k] == q;
          assert PathLog(last)[k] == Placed(q);
          assert Placed(q) in MoveLog(m);
        } else {
          assert q in FlipSet(init);
          var a :| a in MoveLog(init) && a.Placed? && a.c == q;
          assert a in MoveLog(m);
        }
      }
      forall q | q in logged ensures q in FlipSet(m) {
        var a :| a in MoveLog(m) && a.Placed? && a.c == q;
        if a in MoveLog(init) {
          assert q in FlipSet(init);
        } else {
          assert a in PathLog(last);
        }
      }
    }
  }

  /** A pass extends a run of passes by one. */
  lemma PassExtendsRun(log: seq<Action>, n: nat)
    ensures ConsecutivePasses(log + [Passed], n + 1) == ConsecutivePasses(log, n)
  {
    var log' := log + [Passed];
    if ConsecutivePasses(log, n) {
      forall k | |log'| - (n + 1) <= k < |log'| ensures log'[k] == Passed {
        if k < |log| {
          assert log'[k] == log[k];
        }
      }
    }
    if ConsecutivePasses(log', n + 1) {
      forall k | |log| - n <= k < |log| ensures log[k] == Passed {
        assert log'[k] == log[k];
      }
    }
  }

  /** A legal move writes at least one line, and none of them is a pass. */
  lemma MoveEndsPassRun(v: View, c: Coord, log: seq<Action>, n: nat)
    requires IsSquare(v.board) && Rejection(v, c) == None && n >= 1
    ensures !ConsecutivePasses(log + MoveLog(MoveAt(v, c)), n)
  {
    var m := MoveAt(v, c);
    MoveAtFacts(v, c);
    MoveLogNamesFlips(m);
    assert c in FlipSet(m);
    var a :| a in MoveLog(m) && a.Placed? && a.c == c;
    var full := log + MoveLog(m);
    assert full[|full| - 1] in MoveLog(m);
  }

  /** The positions of the given colour scanned before row i, column j (row by row). */
  ghost function CellsBefore(g: Grid, color: DiscColor, i: int, j: int): set<Coord>
    requires IsSquare(g)
  {
    set y, x | 0 <= y < |g| && 0 <= x < |g| && (y < i || (y == i && x < j)) && g[y][x] == Disc(color) :: Coord(x, y)
  }

  /** The running count of getScore's row-by-row scan after row i, column j. */
  ghost function ScanCount(g: Grid, color: DiscColor, i: int, j: int): nat
    requires IsSquare(g) && 0 <= i <= |g| && 0 <= j <= |g| && (i == |g| ==> j == 0)
    decreases i, j
  {
    if j > 0 then ScanCount(g, color, i, j - 1) + (if g[i][j - 1] == Disc(color) then 1 else 0)
    else if i > 0 then ScanCount(g, color, i - 1, |g|)
    else 0
  }

  /** The running count is the number of matching positions scanned so far. */
  lemma {:induction false} ScanCountsCells(g: Grid, color: DiscColor, i: int, j: int)
    requires IsSquare(g) && 0 <= i <= |g| && 0 <= j <= |g| && (i == |g| ==> j == 0)
    ensures ScanCount(g, color, i, j) == |CellsBefore(g, color, i, j)|
    decreases i, j
  {
    if j > 0 {
      ScanCountsCells(g, color, i, j - 1);
      CellsBeforeStep(g, color, i, j - 1);
    } else if i > 0 {
      ScanCountsCells(g, color, i - 1, |g|);
      CellsBeforeRow(g, color, i - 1);
    } else {
      CellsBeforeRow(g, color, 0);
    }
  }

  /** getScore's count over the whole board is the number of discs of that colour. */
  lemma ScanCountsColour(g: Grid, color: DiscColor)
    requires IsSquare(g)
    ensures ScanCount(g, color, |g|, 0) == |CellsOf(g, color)|
  {
    ScanCountsCells(g, color, |g|, 0);
    CellsBeforeRow(g, color, |g|);
  }

  lemma CellsBeforeStep(g: Grid, color: DiscColor, i: int, j: int)
    requires IsSquare(g) && 0 <= i < |g| && 0 <= j < |g|
    ensures |CellsBefore(g, color, i, j + 1)| ==
      |CellsBefore(g, color, i, j)| + if g[i][j] == Disc(color) then 1 else 0
  {
    assert Coord(j, i) !in CellsBefore(g, color, i, j);
    assert CellsBefore(g, color, i, j + 1) ==
      CellsBefore(g, color, i, j) + if g[i][j] == Disc(color) then {Coord(j, i)} else {};
  }

  lemma CellsBeforeRow(g: Grid, color: DiscColor, i: int)
    requires IsSquare(g)
    ensures CellsBefore(g, color, i, |g|) == CellsBefore(g, color, i + 1, 0)
    ensures CellsBefore(g, color, 0, 0) == {}
    ensures CellsBefore(g, color, |g|, 0) == CellsOf(g, color)
  {
  }
}
