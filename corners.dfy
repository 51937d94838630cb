/**
 * CornersStrategy: the corner cells of the board are listed once, when the strategy is
 * built; each run records a move per face-down cell into a map the strategy keeps between
 * runs, prunes it, and picks either the longest entry whose move stays away from the
 * corners (avoid) or the entry nearest a corner (go for).
 */
module Corners {
  import opened Wrappers
  import opened MoveRules
  import opened ModelView
  import opened BoardUtils
  import opened AbstractStrategy

  /**
   * setUpCornerMap: the cells of the first, last and middle rows with a missing left or right
   * neighbour, in scan order; the HashMap keyed 0, 1, 2, ... is the sequence itself.
   */
  method SetUpCornerMap(v: View) returns (r: seq<Coord>)
    requires WellFormed(v)
    ensures r == Scan(v, CornerCells)
    ensures forall c :: c in r <==> InScan(v, c) && IsCorner(v, c)
    ensures Ascending(r)
  {
    r := [];
    var i := 0;
    while i < v.dims
      invariant 0 <= i && (i <= v.dims || i == 0)
      invariant r == ScanRows(v, CornerCells, i)
    {
      var column := CornersOfColumn(v, i);
      r := r + column;
      i := i + 1;
    }
    ScanFacts(v, CornerCells);
  }

  /** The inner loop of setUpCornerMap, over the rows j of column i. */
  method CornersOfColumn(v: View, i: int) returns (r: seq<Coord>)
    requires WellFormed(v)
    ensures r == ScanColumn(v, CornerCells, i, v.dims)
  {
    var first := 0;
    var middle := v.dims / 2;
    var last := v.dims - 1;
    r := [];
    var j := 0;
    while j < v.dims
      invariant 0 <= j && (j <= v.dims || j == 0)
      invariant r == ScanColumn(v, CornerCells, i, j)
    {
      var isCorner := !CheckValidCoordinates(v.board, Coord(i - 1, j))
        || !CheckValidCoordinates(v.board, Coord(i + 1, j));
      if ((j == first || j == last) && isCorner) || (j == middle && isCorner) {
        if CheckValidCoordinates(v.board, Coord(i, j)) {
          r := r + [Coord(i, j)];
        }
      }
      CornerColumnStep(v, i, j);
      j := j + 1;
    }
  }

  /** One more row of column i in the corner scan, with setUpCornerMap's tests spelled out. */
  lemma CornerColumnStep(v: View, i: int, j: int)
    requires WellFormed(v) && 0 <= j
    ensures ScanColumn(v, CornerCells, i, j + 1) == ScanColumn(v, CornerCells, i, j) +
      (if (j == 0 || j == v.dims - 1 || j == v.dims / 2)
        && (!CheckValidCoordinates(v.board, Coord(i - 1, j)) || !CheckValidCoordinates(v.board, Coord(i + 1, j)))
        && CheckValidCoordinates(v.board, Coord(i, j))
       then [Coord(i, j)] else [])
  {
  }

  /**
   * One step of the recording loop of executeStrategy: avoid stores the move when none of its
   * positions is next to a corner (overwriting what was there); go for stores it when the
   * position is new, or when the move comes strictly nearer a corner than the stored one.
   */
  function Record(isAvoidCorners: bool, cs: seq<Coord>, m: map<Coord, Move>, p: Coord, mv: Move): map<Coord, Move> {
    if isAvoidCorners then
      if !MoveIsAdjacentToCorner(mv, cs) then m[p := mv] else m
    else if p !in m then m[p := mv]
    else if ClosestDistance(mv, cs) < ClosestDistance(m[p], cs) then m[p := mv]
    else m
  }

  /** The recording loop over the positions ps, starting from the map m. */
  function RecordAll(isAvoidCorners: bool, cs: seq<Coord>, v: View, m: map<Coord, Move>, ps: seq<Coord>): (r: map<Coord, Move>)
    requires IsSquare(v.board)
    ensures m.Keys <= r.Keys
    ensures forall k | k in r :: k in m || k in ps
  {
    if ps == [] then m
    else
      var last := ps[|ps| - 1];
      Record(isAvoidCorners, cs, RecordAll(isAvoidCorners, cs, v, m, ps[..|ps| - 1]), last, MoveAt(v, last))
  }

  /** The two removeIf calls: entries whose position is not face down, and entries with an empty move, go. */
  function Pruned(v: View, m: map<Coord, Move>): map<Coord, Move>
    requires IsSquare(v.board)
  {
    map k | k in m && CheckValidCoordinates(v.board, k) && ColorAt(v.board, k) == FACEDOWN && m[k] != [] :: m[k]
  }

  /** A stored key the board no longer has: removeIf's getDiscAt throws on it. */
  predicate HasStaleKey(v: View, m: map<Coord, Move>)
    requires IsSquare(v.board)
  {
    exists k | k in m :: !CheckValidCoordinates(v.board, k)
  }

  /** A map that kept, unchanged, exactly the face-down keys of m0 is the face-down filter of m0. */
  lemma FaceDownKept(v: View, m0: map<Coord, Move>, m: map<Coord, Move>)
    requires IsSquare(v.board) && m.Keys <= m0.Keys
    requires forall k | k in m :: m[k] == m0[k]
    requires forall k | k in m0 :: CheckValidCoordinates(v.board, k)
    requires forall k | k in m0 :: k in m <==> ColorAt(v.board, k) == FACEDOWN
    ensures m == map k | k in m0 && CheckValidCoordinates(v.board, k) && ColorAt(v.board, k) == FACEDOWN :: m0[k]
  {
  }

  /** What the final selector of executeStrategy returns on the pruned map. */
  ghost function Select(isAvoidCorners: bool, cs: seq<Coord>, m: map<Coord, Move>): Option<Coord> {
    if isAvoidCorners then Some(LongestOrSentinel(m)) else ClosestToCorner(m, cs)
  }

  lemma RecordAllSnoc(isAvoidCorners: bool, cs: seq<Coord>, v: View, m: map<Coord, Move>, s: seq<Coord>, i: int)
    requires IsSquare(v.board) && 0 <= i < |s|
    ensures RecordAll(isAvoidCorners, cs, v, m, s[..i + 1])
      == Record(isAvoidCorners, cs, RecordAll(isAvoidCorners, cs, v, m, s[..i]), s[i], MoveAt(v, s[i]))
  {
    assert s[..i + 1][..i] == s[..i];
  }

  /**
   * Avoiding corners, every entry is either one the map already held, untouched, or the move
   * of one of the positions tried, none of whose positions is next to a corner.
   */
  lemma {:induction false} AvoidKeepsAwayFromCorners(cs: seq<Coord>, v: View, m: map<Coord, Move>, ps: seq<Coord>)
    requires IsSquare(v.board)
    ensures var r := RecordAll(true, cs, v, m, ps);
      forall k | k in r ::
        (k in m && r[k] == m[k]) || (k in ps && r[k] == MoveAt(v, k) && !MoveIsAdjacentToCorner(r[k], cs))
  {
    if ps != [] {
      var init := ps[..|ps| - 1];
      AvoidKeepsAwayFromCorners(cs, v, m, init);
      assert forall k | k in init :: k in ps;
      assert ps[|ps| - 1] in ps;
    }
  }

  /**
   * Going for corners, an entry is only ever replaced by a move strictly nearer a corner, so
   * the stored distance of a key never grows, and is at most that of its move on any board it
   * was tried on.
   */
  lemma {:induction false} GoForNeverFarther(cs: seq<Coord>, v: View, m: map<Coord, Move>, ps: seq<Coord>)
    requires IsSquare(v.board)
    ensures var r := RecordAll(false, cs, v, m, ps);
      && (forall k | k in m :: ClosestDistance(r[k], cs) <= ClosestDistance(m[k], cs))
      && (forall k | k in ps :: k in r && ClosestDistance(r[k], cs) <= ClosestDistance(MoveAt(v, k), cs))
  {
    if ps != [] {
      var init, last := ps[..|ps| - 1], ps[|ps| - 1];
      GoForNeverFarther(cs, v, m, init);
      var prev := RecordAll(false, cs, v, m, init);
      var r := RecordAll(false, cs, v, m, ps);
      assert r == Record(false, cs, prev, last, MoveAt(v, last));
      RecordNeverFarther(cs, prev, last, MoveAt(v, last));
      forall k | k in ps
        ensures k in r && ClosestDistance(r[k], cs) <= ClosestDistance(MoveAt(v, k), cs)
      {
        if k != last {
          assert k in init;
        }
      }
    }
  }

  /** One recording step going for corners: no stored distance grows, and the tried position ends up at most as far as its move. */
  lemma RecordNeverFarther(cs: seq<Coord>, m: map<Coord, Move>, p: Coord, mv: Move)
    ensures var r := Record(false, cs, m, p, mv);
      && m.Keys <= r.Keys && p in r
      && (forall k | k in m :: ClosestDistance(r[k], cs) <= ClosestDistance(m[k], cs))
      && ClosestDistance(r[p], cs) <= ClosestDistance(mv, cs)
  {
  }

  /** The two removeIf calls in a row leave Pruned, and Pruned holds only face-down cells with a non-empty move. */
  lemma PrunedInTwoSteps(v: View, m: map<Coord, Move>)
    requires IsSquare(v.board) && !HasStaleKey(v, m)
    ensures var a := map k | k in m && CheckValidCoordinates(v.board, k) && ColorAt(v.board, k) == FACEDOWN :: m[k];
      (map k | k in a && a[k] != [] :: a[k]) == Pruned(v, m)
    ensures forall k | k in Pruned(v, m) :: k in m && IsCandidate(v, k) && Pruned(v, m)[k] != []
  {
  }

  /** What a freshly built strategy on v returns from its first run. */
  ghost function FreshChoice(v: View, isAvoidCorners: bool): Option<Coord>
    requires WellFormed(v)
  {
    var cs := Scan(v, CornerCells);
    Select(isAvoidCorners, cs, Pruned(v, RecordAll(isAvoidCorners, cs, v, map[], Scan(v, FaceDownCells))))
  }

  /** A first run starts from the empty map and stores only scanned cells, so it never throws. */
  lemma FreshRunSucceeds(v: View, isAvoidCorners: bool)
    requires WellFormed(v)
    ensures !HasStaleKey(v, RecordAll(isAvoidCorners, Scan(v, CornerCells), v, map[], Scan(v, FaceDownCells)))
  {
    ScanFacts(v, FaceDownCells);
  }

  class CornersStrategy {
    /** true for AVOIDCORNER, false for GOFORCORNER. */
    const isAvoidCorners: bool
    /** cornerMap, listed when the strategy is built. */
    const cornerMap: seq<Coord>
    /** positionMoveMap, kept from one run to the next. */
    var positionMoveMap: map<Coord, Move>

    ghost predicate Valid()
      reads this
    {
      && (forall c | c in cornerMap :: InRange(c))
      && (forall k | k in positionMoveMap :: InRange(k))
    }

    /** The constructor on a started game: the corners of its board, an empty map. */
    constructor (v: View, isAvoidCorners: bool)
      requires WellFormed(v)
      ensures Valid()
      ensures this.isAvoidCorners == isAvoidCorners && cornerMap == Scan(v, CornerCells)
      ensures positionMoveMap == map[]
    {
      this.isAvoidCorners := isAvoidCorners;
      var corners := SetUpCornerMap(v);
      cornerMap := corners;
      positionMoveMap := map[];
      new;
      ScanInRange(v, CornerCells);
    }

    /**
     * executeStrategy on the board v. The recording loop runs from the map left by the previous
     * run; the first removeIf throws IllegalArgumentException on a stored position the board
     * does not have; otherwise the map is pruned to face-down positions with a non-empty move
     * and the selector runs on it.
     */
    method ExecuteStrategy(v: View) returns (r: Result<Option<Coord>, Exception>)
      requires Valid() && WellFormed(v)
      modifies this`positionMoveMap
      ensures Valid()
      ensures var recorded := RecordAll(isAvoidCorners, cornerMap, v, old(positionMoveMap), Scan(v, FaceDownCells));
        && (r.Failure? <==> HasStaleKey(v, recorded))
        && (r.Failure? ==> r.error == IllegalArgument)
        && (r.Success? ==> positionMoveMap == Pruned(v, recorded))
      ensures r.Success? ==> r.value == Select(isAvoidCorners, cornerMap, positionMoveMap)
      ensures r.Success? ==> forall k | k in positionMoveMap :: IsCandidate(v, k) && positionMoveMap[k] != []
    {
      var positions := GetPositionsForBFS(v);
      ScanInRange(v, FaceDownCells);
      RecordMoves(v, positions);
      ghost var recorded := positionMoveMap;
      var ok := RemoveNotFaceDown(v);
      if !ok {
        return Failure(IllegalArgument);
      }
      RemoveEmptyMoves();
      PrunedInTwoSteps(v, recorded);
      if isAvoidCorners {
        var c := GetLongestAndMostUpLeftFromMap(positionMoveMap);
        r := Success(Some(c));
      } else {
        var c := GetMoveWithClosestCoordinateFromMap(positionMoveMap, cornerMap);
        r := Success(c);
      }
    }

    /** The second removeIf: entries with an empty move go. */
    method RemoveEmptyMoves()
      requires Valid()
      modifies this`positionMoveMap
      ensures Valid()
      ensures positionMoveMap == map k | k in old(positionMoveMap) && old(positionMoveMap)[k] != [] :: old(positionMoveMap)[k]
    {
      positionMoveMap := map k | k in positionMoveMap && positionMoveMap[k] != [] :: positionMoveMap[k];
    }

    /** The recording loop of executeStrategy, over the positions getPositionsForBFS listed. */
    method RecordMoves(v: View, positions: seq<Coord>)
      requires Valid() && WellFormed(v) && forall c | c in positions :: InRange(c)
      modifies this`positionMoveMap
      ensures Valid()
      ensures positionMoveMap == RecordAll(isAvoidCorners, cornerMap, v, old(positionMoveMap), positions)
    {
      ghost var m0 := positionMoveMap;
      for i := 0 to |positions|
        invariant positionMoveMap == RecordAll(isAvoidCorners, cornerMap, v, m0, positions[..i])
      {
        var position := positions[i];
        var moveFromPosition := Bfs(v, position);
        RecordAllSnoc(isAvoidCorners, cornerMap, v, m0, positions, i);
        var adjacent := MoveIsAdjacentToCorner(moveFromPosition, cornerMap);
        if !adjacent && isAvoidCorners {
          positionMoveMap := positionMoveMap[position := moveFromPosition];
        } else if !isAvoidCorners {
          if position !in positionMoveMap {
            positionMoveMap := positionMoveMap[position := moveFromPosition];
          } else {
            var mapClosest := GetClosestCoordinateToCorner(positionMoveMap[position], cornerMap);
            var currClosest := GetClosestCoordinateToCorner(moveFromPosition, cornerMap);
            if currClosest < mapClosest {
              positionMoveMap := positionMoveMap[position := moveFromPosition];
            }
          }
        }
      }
      assert positions[..|positions|] == positions;
    }

    /**
     * The first removeIf: drops, one entry at a time, the positions whose disc is not face
     * down, and stops with false at the first position getDiscAt rejects.
     */
    method RemoveNotFaceDown(v: View) returns (ok: bool)
      requires Valid() && WellFormed(v)
      modifies this`positionMoveMap
      ensures Valid() && positionMoveMap.Keys <= old(positionMoveMap).Keys
      ensures ok <==> !HasStaleKey(v, old(positionMoveMap))
      ensures ok ==> (positionMoveMap == map k | k in old(positionMoveMap) && CheckValidCoordinates(v.board, k)
        && ColorAt(v.board, k) == FACEDOWN :: old(positionMoveMap)[k])
    {
      ghost var m0 := positionMoveMap;
      var todo := positionMoveMap.Keys;
      while todo != {}
        invariant todo <= m0.Keys && positionMoveMap.Keys <= m0.Keys && Valid()
        invariant forall k | k in positionMoveMap :: positionMoveMap[k] == m0[k]
        invariant forall k | k in m0 && k !in todo :: CheckValidCoordinates(v.board, k)
        invariant forall k | k in m0 :: k in positionMoveMap <==> k in todo || ColorAt(v.board, k) == FACEDOWN
        decreases |todo|
      {
        var k :| k in todo;
        if !CheckValidCoordinates(v.board, k) {
          return false;
        }
        assert |todo - {k}| == |todo| - 1;
        todo := todo - {k};
        if ColorAt(v.board, k) != FACEDOWN {
          positionMoveMap := positionMoveMap - {k};
        }
      }
      FaceDownKept(v, m0, positionMoveMap);
      return true;
    }
  }
}
