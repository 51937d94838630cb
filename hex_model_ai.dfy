/**
 * ReversiHexModelAI: a hexagonal game in which player 2 is played by a strategy. The only
 * method it overrides is pass; a pass by player 1 hands the turn to the strategy, which
 * answers at once. The engine it extends is held as the field `model`.
 */
module HexModelAI {
  import opened Wrappers
  import opened MoveRules
  import opened ModelView
  import opened BoardUtils
  import opened GameRules
  import opened AbstractStrategy
  import opened HexModel
  import MaximizeCapture
  import Corners
  import MiniMax

  datatype StrategyType = MINIMAX | MAXIMIZE | AVOIDCORNER | GOFORCORNER

  /**
   * What the player-2 strategy's executeStrategy yields on v, given whether the game has
   * started and, for the corner strategies, the corners and the map kept from earlier runs.
   * The list of game states is never filled, so minimax always fails on its first lookup;
   * the other strategies ask getDimensions first, which throws before the game starts.
   */
  ghost function Reply(kind: StrategyType, started: bool, v: View, cs: seq<Coord>, m: map<Coord, Move>): Result<Option<Coord>, Exception>
    requires WellFormed(v)
  {
    match kind
    case MINIMAX => Failure(IndexOutOfBounds)
    case MAXIMIZE => if !started then Failure(IllegalState) else Success(Some(MaximizeCapture.MaximizeChoice(v)))
    case _ =>
      if !started then Failure(IllegalState)
      else
        var isAvoid := kind == AVOIDCORNER;
        var recorded := Corners.RecordAll(isAvoid, cs, v, m, Scan(v, FaceDownCells));
        if Corners.HasStaleKey(v, recorded) then Failure(IllegalArgument)
        else Success(Corners.Select(isAvoid, cs, Corners.Pruned(v, recorded)))
  }

  /** What moveAi does on the board v (player 2 to move): its result, and the turn, board and lines it leaves. */
  datatype Effect = Effect(r: Outcome<Exception>, turn: PlayerTurn, grid: Grid, moves: seq<Action>, log: seq<Action>)

  /**
   * moveAi given the strategy's reply: a thrown exception propagates; an empty list fails
   * on get(0); a position getDiscAt rejects makes player 2 pass (turn to player 1, one pass
   * in each list); otherwise makeMove runs, which refuses an illegal position without
   * throwing, and the position is recorded in allMoves either way.
   */
  ghost function MoveAiEffect(reply: Result<Option<Coord>, Exception>, v: View): Effect
    requires WellFormed(v)
  {
    match reply
    case Failure(e) => Effect(Fail(e), v.turn, v.board, [], [])
    case Success(None) => Effect(Fail(IndexOutOfBounds), v.turn, v.board, [], [])
    case Success(Some(c)) =>
      if !CheckValidCoordinates(v.board, c) then Effect(Done, GetOpponent(v.turn), v.board, [Passed], [Passed])
      else if Rejection(v, c).Some? then Effect(Done, v.turn, v.board, [Placed(c)], [])
      else Effect(Done, GetOpponent(v.turn), AfterMove(v, c), [Placed(c)], MoveLog(MoveAt(v, c)))
  }

  /** Two engines whose arrays hold the same discs have the same board. */
  lemma SameDiscs(a: ReversiHexModel, b: ReversiHexModel)
    requires a.gameBoard.Length0 == a.gameBoard.Length1 == b.gameBoard.Length0 == b.gameBoard.Length1
    requires forall i, j | 0 <= i < a.gameBoard.Length0 && 0 <= j < a.gameBoard.Length0 :: a.gameBoard[i, j] == b.gameBoard[i, j]
    ensures a.Grid() == b.Grid()
  {
    assert forall y | 0 <= y < a.gameBoard.Length0 :: a.Grid()[y] == b.Grid()[y];
  }

  class ReversiHexModelAI {
    /** The engine this class extends. */
    const model: ReversiHexModel
    const strategyType: StrategyType
    /** Whether player2 has been created. */
    var player2: bool
    /** The CornersStrategy object of player 2, for the two corner strategy types. */
    var corners: Corners.CornersStrategy?
    var gameStates: seq<MiniMax.GameRecord>
    var allMoves: seq<Action>
    var firstRun: bool

    ghost predicate Valid()
      reads this, model, model`gameBoard, corners
    {
      && model.Valid()
      && gameStates == []
      && (corners != null ==> corners.Valid())
      && (player2 && strategyType == AVOIDCORNER ==> corners != null && corners.isAvoidCorners)
      && (player2 && strategyType == GOFORCORNER ==> corners != null && !corners.isAvoidCorners)
    }

    /** The corners player 2 knows (none without a corner strategy). */
    ghost function CornerList(): seq<Coord>
      reads this, corners
    {
      if corners == null then [] else corners.cornerMap
    }

    /** The map player 2's corner strategy kept from its last run. */
    ghost function StoredMap(): map<Coord, Move>
      reads this, corners
    {
      if corners == null then map[] else corners.positionMoveMap
    }

    /** A game before startGame, with no player 2 yet and nothing recorded. */
    constructor (strategyType: StrategyType)
      ensures Valid() && fresh(model)
      ensures !model.gameOn && model.pt == PLAYER1 && model.playerAction == []
      ensures this.strategyType == strategyType && !player2 && corners == null
      ensures gameStates == [] && allMoves == [] && firstRun
    {
      model := new ReversiHexModel();
      this.strategyType := strategyType;
      player2 := false;
      corners := null;
      gameStates := [];
      allMoves := [];
      firstRun := true;
    }

    /**
     * The copy constructor: a fresh board holding the same discs, the other fields copied,
     * and no player 2.
     */
    constructor Copy(r: ReversiHexModelAI)
      requires r.Valid() && r.model.gameOn
      ensures Valid() && fresh(model) && fresh(model.gameBoard)
      ensures model.gameOn == r.model.gameOn && model.numRows == r.model.numRows
      ensures model.numColumns == r.model.numColumns && model.pt == r.model.pt
      ensures model.playerAction == r.model.playerAction && model.state == r.model.state
      ensures model.Grid() == r.model.Grid()
      ensures strategyType == r.strategyType && !player2 && corners == null
      ensures gameStates == r.gameStates && allMoves == r.allMoves && firstRun == r.firstRun
    {
      var m := CopyEngine(r.model);
      model := m;
      strategyType := r.strategyType;
      player2 := false;
      corners := null;
      gameStates := r.gameStates;
      allMoves := r.allMoves;
      firstRun := r.firstRun;
    }

    /** The engine part of the copy constructor: each field of src, and a new array holding its discs. */
    static method CopyEngine(src: ReversiHexModel) returns (m: ReversiHexModel)
      requires src.Valid() && src.gameOn
      ensures m.Valid() && fresh(m) && fresh(m.gameBoard)
      ensures m.gameOn == src.gameOn && m.numRows == src.numRows
      ensures m.numColumns == src.numColumns && m.pt == src.pt
      ensures m.playerAction == src.playerAction && m.state == src.state
      ensures m.Grid() == src.Grid()
    {
      m := new ReversiHexModel();
      m.gameOn := src.gameOn;
      m.numRows := src.numRows;
      m.numColumns := src.numColumns;
      m.gameBoard := IterateOverDiscArray(src.gameBoard);
      m.pt := src.pt;
      m.playerAction := src.playerAction;
      m.state := src.state;
      SameDiscs(m, src);
    }

    /** iterateOverDiscArray: a new n x n array holding the entries of the first n x n block of a, n its row count. */
    static method IterateOverDiscArray(a: array2<Slot>) returns (res: array2<Slot>)
      requires a.Length0 <= a.Length1
      ensures fresh(res) && res.Length0 == a.Length0 && res.Length1 == a.Length0
      ensures forall i, j | 0 <= i < a.Length0 && 0 <= j < a.Length0 :: res[i, j] == a[i, j]
    {
      var n := a.Length0;
      res := new Slot[n, n]((i, j) => Null);
      for i := 0 to n
        invariant forall ii, jj | 0 <= ii < i && 0 <= jj < n :: res[ii, jj] == a[ii, jj]
      {
        for j := 0 to n
          invariant forall ii, jj | 0 <= ii < i && 0 <= jj < n :: res[ii, jj] == a[ii, jj]
          invariant forall jj | 0 <= jj < j :: res[i, jj] == a[i, jj]
        {
          res[i, j] := a[i, j];
        }
      }
    }

    /**
     * createAI, with the assignment moveNonAi makes when player 2 is missing: the player-2
     * strategy of the chosen type. A corner strategy lists the corners at once, which needs
     * getDimensions, so it throws before the game starts.
     */
    method CreateAI() returns (r: Outcome<Exception>)
      requires Valid()
      modifies this`player2, this`corners
      ensures Valid()
      ensures old(player2) ==> r == Done && player2 && corners == old(corners)
      ensures !old(player2) && (strategyType == AVOIDCORNER || strategyType == GOFORCORNER) && !model.gameOn ==>
        r == Fail(IllegalState) && !player2 && corners == old(corners)
      ensures !old(player2) && (strategyType == AVOIDCORNER || strategyType == GOFORCORNER) && model.gameOn ==>
        && r == Done && player2 && corners != null && fresh(corners)
        && corners.isAvoidCorners == (strategyType == AVOIDCORNER)
        && corners.cornerMap == Scan(model.Snapshot(), CornerCells) && corners.positionMoveMap == map[]
      ensures !old(player2) && (strategyType == MINIMAX || strategyType == MAXIMIZE) ==>
        r == Done && player2 && corners == old(corners)
    {
      if player2 {
        return Done;
      }
      if strategyType == AVOIDCORNER || strategyType == GOFORCORNER {
        if !model.gameOn {
          return Fail(IllegalState);
        }
        corners := new Corners.CornersStrategy(model.Snapshot(), strategyType == AVOIDCORNER);
      }
      player2 := true;
      r := Done;
    }

    /** executeStrategy of player 2's strategy, on this game as it stands. */
    method RunStrategy() returns (r: Result<Option<Coord>, Exception>)
      requires Valid() && player2
      modifies corners
      ensures Valid()
      ensures r == Reply(strategyType, model.gameOn, model.Snapshot(), old(CornerList()), old(StoredMap()))
    {
      var v := model.Snapshot();
      match strategyType
      case MINIMAX =>
        r := MiniMax.ExecuteStrategy(gameStates, v);
      case MAXIMIZE =>
        if !model.gameOn {
          return Failure(IllegalState);
        }
        var c := MaximizeCapture.ExecuteStrategy(v);
        r := Success(Some(c));
      case _ =>
        if !model.gameOn {
          return Failure(IllegalState);
        }
        r := RunCorners(v);
    }

    /** executeStrategy of a corner strategy once the game has started. */
    method RunCorners(v: View) returns (r: Result<Option<Coord>, Exception>)
      requires Valid() && player2 && model.gameOn && v == model.Snapshot()
      requires strategyType == AVOIDCORNER || strategyType == GOFORCORNER
      modifies corners
      ensures Valid()
      ensures r == Reply(strategyType, true, v, old(CornerList()), old(StoredMap()))
    {
      r := corners.ExecuteStrategy(v);
    }

    /**
     * moveAi: runs the strategy and plays its position for player 2, or passes when getDiscAt
     * rejects the position.
     */
    method MoveAi() returns (r: Outcome<Exception>)
      requires Valid() && player2 && model.pt == PLAYER2
      modifies this`allMoves, model`pt, model`playerAction, model.gameBoard, corners
      decreases 2
      ensures Valid()
      ensures var e := MoveAiEffect(old(Reply(strategyType, model.gameOn, model.Snapshot(), CornerList(), StoredMap())),
          old(model.Snapshot()));
        && r == e.r && model.pt == e.turn && model.Grid() == e.grid
        && allMoves == old(allMoves) + e.moves && model.playerAction == old(model.playerAction) + e.log
    {
      var aiMove := RunStrategy();
      r := PlayReply(aiMove);
    }

    /** The part of moveAi after executeStrategy has answered with reply. */
    method PlayReply(reply: Result<Option<Coord>, Exception>) returns (r: Outcome<Exception>)
      requires Valid() && model.pt == PLAYER2
      requires reply.Success? && reply.value.Some? ==> model.gameOn
      modifies this`allMoves, model`pt, model`playerAction, model.gameBoard, corners
      decreases 1
      ensures Valid()
      ensures var e := MoveAiEffect(reply, old(model.Snapshot()));
        && r == e.r && model.pt == e.turn && model.Grid() == e.grid
        && allMoves == old(allMoves) + e.moves && model.playerAction == old(model.playerAction) + e.log
    {
      if reply.Failure? {
        return Fail(reply.error);
      }
      if reply.value == None {
        return Fail(IndexOutOfBounds);
      }
      var c := reply.value.value;
      var inBounds := model.GetDiscAt(c.x, c.y).Success?;
      if !inBounds {
        r := Pass();
        return;
      }
      r := PlaceAt(c);
    }

    /** The branch of moveAi for a position on the board: makeMove plays it, and allMoves records it. */
    method PlaceAt(c: Coord) returns (r: Outcome<Exception>)
      requires Valid() && model.gameOn && CheckValidCoordinates(model.Grid(), c)
      modifies this`allMoves, model`pt, model`playerAction, model.gameBoard
      ensures Valid()
      ensures var e := MoveAiEffect(Success(Some(c)), old(model.Snapshot()));
        && r == e.r && model.pt == e.turn && model.Grid() == e.grid
        && allMoves == old(allMoves) + e.moves && model.playerAction == old(model.playerAction) + e.log
    {
      var events := model.MakeMove(c.x, c.y);
      allMoves := allMoves + [Placed(c)];
      r := Done;
    }

    /**
     * pass: when player 1 passes, the turn goes to player 2 and the strategy answers (which
     * needs player 2 to exist); when player 2 passes, the turn goes back to player 1. In both
     * cases, once that is done, a pass is recorded in allMoves and in the log. The game is not
     * required to have started.
     */
    method Pass() returns (r: Outcome<Exception>)
      requires Valid()
      modifies this`allMoves, model`pt, model`playerAction, model.gameBoard, corners
      decreases if model.pt == PLAYER1 then 4 else 0
      ensures Valid()
      ensures old(model.pt) == PLAYER2 ==>
        && r == Done && model.pt == PLAYER1 && model.Grid() == old(model.Grid())
        && allMoves == old(allMoves) + [Passed] && model.playerAction == old(model.playerAction) + [Passed]
      ensures old(model.pt) == PLAYER1 && !player2 ==>
        && r == Fail(NullPointer) && model.pt == PLAYER1 && model.Grid() == old(model.Grid())
        && allMoves == old(allMoves) && model.playerAction == old(model.playerAction)
      ensures old(model.pt) == PLAYER1 && player2 ==>
        var v := View(old(model.Grid()), PLAYER2, old(model.numRows));
        var e := MoveAiEffect(old(Reply(strategyType, model.gameOn, v, CornerList(), StoredMap())), v);
        var tail := if e.r == Done then [Passed] else [];
        && r == e.r && model.pt == e.turn && model.Grid() == e.grid
        && allMoves == old(allMoves) + e.moves + tail && model.playerAction == old(model.playerAction) + e.log + tail
    {
      if model.pt == PLAYER1 {
        if !player2 {
          return Fail(NullPointer);
        }
        ghost var v := View(model.Grid(), PLAYER2, model.numRows);
        ghost var e := MoveAiEffect(Reply(strategyType, model.gameOn, v, CornerList(), StoredMap()), v);
        ghost var moves, log := allMoves, model.playerAction;
        r := HandOver();
        assert r == e.r && model.pt == e.turn && model.Grid() == e.grid;
        assert allMoves == moves + e.moves && model.playerAction == log + e.log;
        if r.Fail? {
          return;
        }
      } else {
        model.pt := PLAYER1;
        r := Done;
      }
      RecordPass();
    }

    /** A pass that went through is written to both logs; the board and the turn stay as they are. */
    method RecordPass()
      requires Valid()
      modifies this`allMoves, model`playerAction
      ensures Valid()
      ensures allMoves == old(allMoves) + [Passed] && model.playerAction == old(model.playerAction) + [Passed]
    {
      allMoves := allMoves + [Passed];
      model.playerAction := model.playerAction + [Passed];
    }

    /** The branch of pass for player 1 once player 2 exists: the turn goes to player 2, whose strategy answers. */
    method HandOver() returns (r: Outcome<Exception>)
      requires Valid() && model.pt == PLAYER1 && player2
      modifies this`allMoves, model`pt, model`playerAction, model.gameBoard, corners
      decreases 3
      ensures Valid()
      ensures var v := View(old(model.Grid()), PLAYER2, old(model.numRows));
        var e := MoveAiEffect(old(Reply(strategyType, model.gameOn, v, CornerList(), StoredMap())), v);
        && r == e.r && model.pt == e.turn && model.Grid() == e.grid
        && allMoves == old(allMoves) + e.moves && model.playerAction == old(model.playerAction) + e.log
    {
      model.pt := PLAYER2;
      r := MoveAi();
    }
  }
}
