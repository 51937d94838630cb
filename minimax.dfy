/**
 * MiniMaxStrategy: looks at the move the opponent made from the state before last, finds
 * which of the three base strategies would have made it there, and answers with that
 * strategy on the current board (maximize capture when none of them would have).
 */
module MiniMax {
  import opened Wrappers
  import opened MoveRules
  import opened ModelView
  import opened GameRules
  import opened AbstractStrategy
  import MaximizeCapture
  import Corners

  /** One entry of getGameStates(): the state's board and turn, and the moves it recorded (getMoves()). */
  datatype GameRecord = GameRecord(view: View, moves: seq<Action>)

  /** executeMaximize: a new MaximizeCaptureStrategy on v, run once. */
  method ExecuteMaximize(v: View) returns (r: Coord)
    requires WellFormed(v)
    ensures r == MaximizeCapture.MaximizeChoice(v)
  {
    r := MaximizeCapture.ExecuteStrategy(v);
  }

  /** executeAvoidCorners: a new avoiding CornersStrategy on v, run once; nothing carries over from earlier runs. */
  method ExecuteAvoidCorners(v: View) returns (r: Option<Coord>)
    requires WellFormed(v)
    ensures r == Corners.FreshChoice(v, true)
  {
    var avoidCorner := new Corners.CornersStrategy(v, true);
    Corners.FreshRunSucceeds(v, true);
    var res := avoidCorner.ExecuteStrategy(v);
    r := res.value;
  }

  /** executeGoForCorner: a new corner-seeking CornersStrategy on v, run once. */
  method ExecuteGoForCorner(v: View) returns (r: Option<Coord>)
    requires WellFormed(v)
    ensures r == Corners.FreshChoice(v, false)
  {
    var goForCorner := new Corners.CornersStrategy(v, false);
    Corners.FreshRunSucceeds(v, false);
    var res := goForCorner.ExecuteStrategy(v);
    r := res.value;
  }

  /**
   * lastMove.equals(result): a recorded placement [x, y] equals a result list holding the same
   * pair; a recorded pass [-1] equals no result, and nothing equals the empty list.
   */
  predicate Matches(a: Action, r: Option<Coord>) {
    a.Placed? && r == Some(a.c)
  }

  /**
   * The answer on v when the opponent's last move was made from the board prior: the first
   * strategy, in the order maximize, avoid, go for, that reproduces it there; maximize by default.
   */
  ghost function MiniMaxChoice(last: Action, prior: View, v: View): (r: Option<Coord>)
    requires WellFormed(prior) && WellFormed(v)
    ensures r == Some(MaximizeCapture.MaximizeChoice(v)) || r == Corners.FreshChoice(v, true)
      || r == Corners.FreshChoice(v, false)
    ensures !last.Placed? ==> r == Some(MaximizeCapture.MaximizeChoice(v))
  {
    if Matches(last, Some(MaximizeCapture.MaximizeChoice(prior))) then Some(MaximizeCapture.MaximizeChoice(v))
    else if Matches(last, Corners.FreshChoice(prior, true)) then Corners.FreshChoice(v, true)
    else if Matches(last, Corners.FreshChoice(prior, false)) then Corners.FreshChoice(v, false)
    else Some(MaximizeCapture.MaximizeChoice(v))
  }

  /**
   * executeStrategy, given getGameStates() of the model it plays on: the state before last
   * and its last recorded move must exist, or the list lookups throw IndexOutOfBoundsException.
   */
  method ExecuteStrategy(states: seq<GameRecord>, v: View) returns (r: Result<Option<Coord>, Exception>)
    requires WellFormed(v) && forall k | 0 <= k < |states| :: WellFormed(states[k].view)
    ensures r.Failure? <==> |states| < 2 || states[|states| - 2].moves == []
    ensures r.Failure? ==> r.error == IndexOutOfBounds
    ensures r.Success? ==> var prior := states[|states| - 2];
      r.value == MiniMaxChoice(prior.moves[|prior.moves| - 1], prior.view, v)
  {
    if |states| < 2 {
      return Failure(IndexOutOfBounds);
    }
    var getLastState := states[|states| - 2];
    var moves := getLastState.moves;
    if moves == [] {
      return Failure(IndexOutOfBounds);
    }
    var lastMove := moves[|moves| - 1];
    var maximizeThen := ExecuteMaximize(getLastState.view);
    if Matches(lastMove, Some(maximizeThen)) {
      var c := ExecuteMaximize(v);
      return Success(Some(c));
    }
    var avoidThen := ExecuteAvoidCorners(getLastState.view);
    if Matches(lastMove, avoidThen) {
      var c := ExecuteAvoidCorners(v);
      return Success(c);
    }
    var goForThen := ExecuteGoForCorner(getLastState.view);
    if Matches(lastMove, goForThen) {
      var c := ExecuteGoForCorner(v);
      return Success(c);
    }
    var c := ExecuteMaximize(v);
    return Success(Some(c));
  }
}
