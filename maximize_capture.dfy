/**
 * MaximizeCaptureStrategy: every face-down cell is tried with bfs, and the cell whose move
 * has the greatest raw length wins, ties going up-left.
 */
module MaximizeCapture {
  import opened Wrappers
  import opened MoveRules
  import opened ModelView
  import opened BoardUtils
  import opened AbstractStrategy
  import opened GameRules

  /** The map executeStrategy fills: each face-down cell the scan meets, to its own bfs result. */
  ghost function CaptureMap(v: View): map<Coord, Move>
    requires WellFormed(v)
  {
    map c | c in Scan(v, FaceDownCells) :: MoveAt(v, c)
  }

  /** The cell MaximizeCaptureStrategy picks on v. */
  ghost function MaximizeChoice(v: View): Coord
    requires WellFormed(v)
  {
    LongestOrSentinel(CaptureMap(v))
  }

  /**
   * executeStrategy. The scan lists each cell once, so the branch that compares a new move
   * with one already in the map is never taken: the map is filled by plain insertions.
   */
  method ExecuteStrategy(v: View) returns (r: Coord)
    requires WellFormed(v)
    ensures r == MaximizeChoice(v)
  {
    var positions := GetPositionsForBFS(v);
    ScanInRange(v, FaceDownCells);
    var positionMoveMap: map<Coord, Move> := map[];
    for i := 0 to |positions|
      invariant positionMoveMap == map c | c in positions[..i] :: MoveAt(v, c)
    {
      var position := positions[i];
      var moveFromPosition := Bfs(v, position);
      assert forall t | 0 <= t < i :: LexLess(positions[t], position);
      assert position !in positionMoveMap;
      positionMoveMap := positionMoveMap[position := moveFromPosition];
      CaptureMapSnoc(v, positions, i);
    }
    assert positions[..|positions|] == positions;
    r := GetLongestAndMostUpLeftFromMap(positionMoveMap);
  }

  /** Entering one more position into the map of the positions before it. */
  lemma CaptureMapSnoc(v: View, s: seq<Coord>, i: int)
    requires WellFormed(v) && 0 <= i < |s|
    ensures (map c | c in s[..i] :: MoveAt(v, c))[s[i] := MoveAt(v, s[i])] == map c | c in s[..i + 1] :: MoveAt(v, c)
  {
    assert s[..i + 1] == s[..i] + [s[i]];
  }

  /** With no face-down cell at all the strategy returns the out-of-bounds sentinel. */
  lemma MaximizeWithoutCandidates(v: View)
    requires WellFormed(v) && Scan(v, FaceDownCells) == []
    ensures MaximizeChoice(v) == Sentinel
  {
    assert CaptureMap(v) == map[];
  }

  /**
   * The choice is a face-down cell whose raw move length (2k + 2 per capturing direction, k
   * discs captured) is the greatest of all face-down cells, and up-left of every other cell
   * with that length.
   */
  lemma MaximizeIsLongest(v: View)
    requires WellFormed(v) && Scan(v, FaceDownCells) != []
    ensures InScan(v, MaximizeChoice(v)) && IsCandidate(v, MaximizeChoice(v))
    ensures forall c | InScan(v, c) && IsCandidate(v, c) ::
      RawWeight(v, c, Directions) < RawWeight(v, MaximizeChoice(v), Directions)
      || (RawWeight(v, c, Directions) == RawWeight(v, MaximizeChoice(v), Directions) && LexLe(MaximizeChoice(v), c))
  {
    var m := CaptureMap(v);
    ScanFacts(v, FaceDownCells);
    assert Scan(v, FaceDownCells)[0] in m;
    var r := MaximizeChoice(v);
    assert IsBest(LongestMove, m, r);
    BfsLength(v, r);
    forall c | InScan(v, c) && IsCandidate(v, c)
      ensures RawWeight(v, c, Directions) < RawWeight(v, r, Directions)
        || (RawWeight(v, c, Directions) == RawWeight(v, r, Directions) && LexLe(r, c))
    {
      assert c in m;
      BfsLength(v, c);
    }
  }

  /**
   * When face-down cells exist but none of them captures anything, every entry has length
   * zero and the first cell of the scan, the up-left-most, is returned.
   */
  lemma MaximizeWithoutCaptures(v: View)
    requires WellFormed(v) && Scan(v, FaceDownCells) != []
    requires forall c | c in Scan(v, FaceDownCells) :: MoveAt(v, c) == []
    ensures MaximizeChoice(v) == Scan(v, FaceDownCells)[0]
  {
    var m := CaptureMap(v);
    var s := Scan(v, FaceDownCells);
    ScanFacts(v, FaceDownCells);
    FirstOfEmptyMovesIsBest(m, s);
    BestIsUnique(LongestMove, m, s[0], Best(LongestMove, m).value);
  }

  /** Among keys whose moves are all empty, the first of an ascending listing of them is the best. */
  lemma FirstOfEmptyMovesIsBest(m: map<Coord, Move>, s: seq<Coord>)
    requires s != [] && Ascending(s)
    requires forall c :: c in m <==> c in s
    requires forall c | c in m :: m[c] == []
    ensures IsBest(LongestMove, m, s[0])
  {
    forall j | j in m ensures Score(LongestMove, m, s[0]) == Score(LongestMove, m, j) && LexLe(s[0], j) {
      var t :| 0 <= t < |s| && s[t] == j;
      if t > 0 {
        assert LexLess(s[0], s[t]);
      }
    }
  }

  /**
   * Whenever the player to move has a legal move on a board whose getDimensions() equals its
   * row count, the cell the strategy picks is a legal move too: a legal cell has a positive
   * length, so the longest one has as well.
   */
  lemma {:induction false} MaximizePlaysLegalMove(v: View, c: Coord)
    requires WellFormed(v) && v.dims == |v.board| && Rejection(v, c) == None
    ensures Rejection(v, MaximizeChoice(v)) == None
  {
    ScanFacts(v, FaceDownCells);
    assert c in Scan(v, FaceDownCells);
    MaximizeIsLongest(v);
    var r := MaximizeChoice(v);
    BfsLength(v, c);
    BfsLength(v, r);
    assert RawWeight(v, c, Directions) > 0;
  }
}
