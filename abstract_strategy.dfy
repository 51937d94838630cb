/**
 * The selection helpers the strategies share (class AbstractStrategy): which cells to try,
 * how long a move is, and the two rankings of candidate positions, by move length with an
 * up-left tie-break and by Manhattan distance to the nearest corner.
 */
module AbstractStrategy {
  import opened Wrappers
  import opened MoveRules
  import opened ModelView
  import opened BoardUtils

  /** The [MAX_VALUE, MAX_VALUE] pair a selector returns when it has nothing to choose from. */
  const Sentinel: Coord := Coord(IntMax, IntMax)

  /** a lies strictly up-left of b: a smaller x, or the same x and a smaller y. */
  predicate LexLess(a: Coord, b: Coord) {
    a.x < b.x || (a.x == b.x && a.y < b.y)
  }

  predicate LexLe(a: Coord, b: Coord) {
    a.x < b.x || (a.x == b.x && a.y <= b.y)
  }

  /** A pair of Java ints. */
  predicate IntPair(c: Coord) {
    IntMin <= c.x <= IntMax && IntMin <= c.y <= IntMax
  }

  /** A position of some board the model admits; distances between two of them stay below MAX_VALUE. */
  predicate InRange(c: Coord) {
    0 <= c.x < MaxBoardSize && 0 <= c.y < MaxBoardSize
  }

  /** Strictly up-left to down-right: the order of the scans below, hence without repeats. */
  predicate Ascending(s: seq<Coord>) {
    forall a, b | 0 <= a < b < |s| :: LexLess(s[a], s[b])
  }

  // ---------------------------------------------------------------------------------------
  // Scanning the board: x from 0 to getDimensions() - 1, and for each x, y likewise.

  /** The two filters the strategies scan the board with. */
  datatype Selection = FaceDownCells | CornerCells

  /** getDiscAt(c) succeeds and shows a face-down disc: a position a strategy may try. */
  predicate IsCandidate(v: View, c: Coord)
    requires IsSquare(v.board)
  {
    CheckValidCoordinates(v.board, c) && ColorAt(v.board, c) == FACEDOWN
  }

  /**
   * setUpCornerMap's test: a cell of the first, the last or the middle row (by getDimensions())
   * whose left or right neighbour is not a cell.
   */
  predicate IsCorner(v: View, c: Coord)
    requires IsSquare(v.board)
  {
    && CheckValidCoordinates(v.board, c)
    && (c.y == 0 || c.y == v.dims - 1 || c.y == v.dims / 2)
    && (!CheckValidCoordinates(v.board, Coord(c.x - 1, c.y))
        || !CheckValidCoordinates(v.board, Coord(c.x + 1, c.y)))
  }

  predicate Selected(v: View, s: Selection, c: Coord)
    requires IsSquare(v.board)
  {
    match s
    case FaceDownCells => IsCandidate(v, c)
    case CornerCells => IsCorner(v, c)
  }

  /** The positions the scan visits. */
  predicate InScan(v: View, c: Coord) {
    0 <= c.x < v.dims && 0 <= c.y < v.dims
  }

  /** The selected cells (i, 0) .. (i, j - 1), in order. */
  function ScanColumn(v: View, s: Selection, i: int, j: int): seq<Coord>
    requires IsSquare(v.board)
    decreases j
  {
    if j <= 0 then []
    else ScanColumn(v, s, i, j - 1) + (if Selected(v, s, Coord(i, j - 1)) then [Coord(i, j - 1)] else [])
  }

  /** The selected cells of the columns x < i, in scan order. */
  function ScanRows(v: View, s: Selection, i: int): seq<Coord>
    requires IsSquare(v.board)
    decreases i
  {
    if i <= 0 then [] else ScanRows(v, s, i - 1) + ScanColumn(v, s, i - 1, v.dims)
  }

  /** Every selected cell the scan visits, in the order it visits them. */
  function Scan(v: View, s: Selection): seq<Coord>
    requires IsSquare(v.board)
  {
    ScanRows(v, s, v.dims)
  }

  lemma {:induction false} ScanColumnFacts(v: View, s: Selection, i: int, j: int)
    requires IsSquare(v.board)
    ensures forall c :: c in ScanColumn(v, s, i, j) <==> c.x == i && 0 <= c.y < j && Selected(v, s, c)
    ensures Ascending(ScanColumn(v, s, i, j))
    decreases j
  {
    if j > 0 {
      ScanColumnFacts(v, s, i, j - 1);
      var a := ScanColumn(v, s, i, j - 1);
      assert forall c | c in a :: LexLess(c, Coord(i, j - 1));
    }
  }

  lemma AscendingConcat(a: seq<Coord>, b: seq<Coord>)
    requires Ascending(a) && Ascending(b)
    requires forall p, q | p in a && q in b :: LexLess(p, q)
    ensures Ascending(a + b)
  {
    forall k, l | 0 <= k < l < |a + b| ensures LexLess((a + b)[k], (a + b)[l]) {
      if l < |a| {
        assert (a + b)[k] == a[k] && (a + b)[l] == a[l];
      } else if k < |a| {
        assert (a + b)[k] in a && (a + b)[l] in b;
      } else {
        assert (a + b)[k] == b[k - |a|] && (a + b)[l] == b[l - |a|];
      }
    }
  }

  lemma {:induction false} ScanRowsFacts(v: View, s: Selection, i: int)
    requires IsSquare(v.board)
    ensures forall c :: c in ScanRows(v, s, i) <==> 0 <= c.x < i && 0 <= c.y < v.dims && Selected(v, s, c)
    ensures Ascending(ScanRows(v, s, i))
    decreases i
  {
    if i > 0 {
      ScanRowsFacts(v, s, i - 1);
      ScanColumnFacts(v, s, i - 1, v.dims);
      AscendingConcat(ScanRows(v, s, i - 1), ScanColumn(v, s, i - 1, v.dims));
    }
  }

  /** The scan lists exactly the selected cells it visits, each once, up-left first. */
  lemma ScanFacts(v: View, s: Selection)
    requires IsSquare(v.board)
    ensures forall c :: c in Scan(v, s) <==> InScan(v, c) && Selected(v, s, c)
    ensures Ascending(Scan(v, s))
  {
    ScanRowsFacts(v, s, v.dims);
  }

  /** A listed cell lies on the board, so every coordinate and distance fits an int. */
  lemma ScanInRange(v: View, s: Selection)
    requires WellFormed(v)
    ensures forall c | c in Scan(v, s) :: InRange(c) && IntPair(c) && CheckValidCoordinates(v.board, c)
  {
    ScanFacts(v, s);
  }

  /**
   * getPositionsForBFS: the positions whose getDiscAt shows a face-down disc, column by
   * column; positions getDiscAt rejects are skipped.
   */
  method GetPositionsForBFS(v: View) returns (r: seq<Coord>)
    requires WellFormed(v)
    ensures r == Scan(v, FaceDownCells)
    ensures Ascending(r)
    ensures forall c :: c in r <==> InScan(v, c) && IsCandidate(v, c)
  {
    r := [];
    var i := 0;
    while i < v.dims
      invariant 0 <= i && (i <= v.dims || i == 0)
      invariant r == ScanRows(v, FaceDownCells, i)
    {
      var j := 0;
      while j < v.dims
        invariant 0 <= j <= v.dims
        invariant r == ScanRows(v, FaceDownCells, i) + ScanColumn(v, FaceDownCells, i, j)
      {
        var c := Coord(i, j);
        if CheckValidCoordinates(v.board, c) && ColorAt(v.board, c) == FACEDOWN {
          r := r + [c];
        }
        j := j + 1;
      }
      i := i + 1;
    }
    ScanFacts(v, FaceDownCells);
  }

  // ---------------------------------------------------------------------------------------
  // The length of a move.

  /** The raw size of a move: the sum of its paths' lengths, repeated entries included. */
  function MoveLength(m: Move): nat {
    if m == [] then 0 else MoveLength(m[..|m| - 1]) + |m[|m| - 1]|
  }

  /** getLengthOfMove. */
  method GetLengthOfMove(m: Move) returns (r: int)
    ensures r == MoveLength(m)
  {
    r := 0;
    for i := 0 to |m|
      invariant r == MoveLength(m[..i])
    {
      assert m[..i + 1][..i] == m[..i];
      r := r + |m[i]|;
    }
    assert m[..|m|] == m;
  }

  /** A move has length zero exactly when all its paths are empty. */
  lemma {:induction false} MoveLengthZero(m: Move)
    ensures MoveLength(m) == 0 <==> forall p | p in m :: p == []
  {
    if m != [] {
      var init := m[..|m| - 1];
      MoveLengthZero(init);
      var last := m[|m| - 1];
      assert m == init + [last];
      assert last in m;
      if forall p | p in m :: p == [] {
        assert forall p | p in init :: p in m;
      } else {
        var p :| p in m && p != [];
        assert p in init || p == last;
      }
    }
  }

  /** What each direction contributes to the raw length: 2k + 2 for k captured discs, nothing otherwise. */
  function RawWeight(v: View, c: Coord, ds: seq<MoveDirection>): nat
    requires IsSquare(v.board)
  {
    if ds == [] then 0
    else
      var k := |Captured(v, c, ds[|ds| - 1])|;
      RawWeight(v, c, ds[..|ds| - 1]) + (if k == 0 then 0 else 2 * k + 2)
  }

  lemma {:induction false} CollectLength(v: View, c: Coord, ds: seq<MoveDirection>)
    requires IsSquare(v.board)
    ensures MoveLength(Collect(v, c, ds)) == RawWeight(v, c, ds)
  {
    if ds != [] {
      var init, d := ds[..|ds| - 1], ds[|ds| - 1];
      CollectLength(v, c, init);
      WalkShape(v, c, d);
      var m := Collect(v, c, init);
      if Walk(v, c, d) != [] {
        assert (m + [Walk(v, c, d)])[..|m|] == m;
      } else {
        assert m + [] == m;
      }
    }
  }

  /**
   * The length the strategies rank a bfs result by counts every captured disc twice and
   * each capturing direction twice more, and it is zero exactly when nothing is captured.
   */
  lemma BfsLength(v: View, c: Coord)
    requires IsSquare(v.board)
    ensures MoveLength(MoveAt(v, c)) == RawWeight(v, c, Directions)
    ensures MoveLength(MoveAt(v, c)) == 0 <==> MoveAt(v, c) == []
  {
    CollectLength(v, c, Directions);
    CollectPaths(v, c, Directions);
    MoveLengthZero(MoveAt(v, c));
    if MoveAt(v, c) != [] {
      assert MoveAt(v, c)[0] in MoveAt(v, c);
    }
  }

  // ---------------------------------------------------------------------------------------
  // Picking a key of a position map: the best score, ties to the up-left-most key.

  /** The two rankings: a longer move is better, or a position nearer a corner is better. */
  datatype Ranking = LongestMove | NearestCorner(corners: seq<Coord>)

  /** The score ranking rk gives key k of m; lower is better. */
  function Score(rk: Ranking, m: map<Coord, Move>, k: Coord): int
    requires k in m
  {
    match rk
    case LongestMove => -(MoveLength(m[k]) as int)
    case NearestCorner(cs) => MinDist(k, cs)
  }

  /** k is a key of m with the best score, and up-left of every other key with that score. */
  ghost predicate IsBest(rk: Ranking, m: map<Coord, Move>, k: Coord) {
    k in m && forall j | j in m ::
      Score(rk, m, k) < Score(rk, m, j) || (Score(rk, m, k) == Score(rk, m, j) && LexLe(k, j))
  }

  /** The best key is unique, whatever order the keys are visited in. */
  lemma BestIsUnique(rk: Ranking, m: map<Coord, Move>, a: Coord, b: Coord)
    requires IsBest(rk, m, a) && IsBest(rk, m, b)
    ensures a == b
  {
  }

  lemma {:induction false} BestExists(rk: Ranking, m: map<Coord, Move>)
    requires m != map[]
    ensures exists k :: IsBest(rk, m, k)
    decreases |m|
  {
    var k0 :| k0 in m;
    var rest := m - {k0};
    assert rest.Keys == m.Keys - {k0};
    if rest == map[] {
      assert rest.Keys == {};
      assert m.Keys == {k0};
      assert IsBest(rk, m, k0);
    } else {
      BestExists(rk, rest);
      var k1 :| IsBest(rk, rest, k1);
      assert forall j | j in rest :: Score(rk, rest, j) == Score(rk, m, j);
      var s0, s1 := Score(rk, m, k0), Score(rk, m, k1);
      if s0 < s1 || (s0 == s1 && LexLe(k0, k1)) {
        assert IsBest(rk, m, k0);
      } else {
        assert IsBest(rk, m, k1);
      }
    }
  }

  /** The best key of m under rk, or None for an empty map. */
  ghost function Best(rk: Ranking, m: map<Coord, Move>): (r: Option<Coord>)
    ensures r == None <==> m == map[]
    ensures r.Some? ==> IsBest(rk, m, r.value)
  {
    if m == map[] then None
    else
      BestExists(rk, m);
      var k :| IsBest(rk, m, k);
      Some(k)
  }

  /** What getLongestAndMostUpLeftFromMap returns: the longest, up-left-most key, or the sentinel. */
  ghost function LongestOrSentinel(m: map<Coord, Move>): Coord {
    match Best(LongestMove, m)
    case None => Sentinel
    case Some(k) => k
  }

  /** What getMoveWithClosestCoordinateFromMap returns: None stands for its empty list. */
  ghost function ClosestToCorner(m: map<Coord, Move>, cs: seq<Coord>): Option<Coord> {
    if cs == [] then None else Best(NearestCorner(cs), m)
  }

  /**
   * The first loop of getLongestAndMostUpLeftFromMap: the greatest move length in the map and
   * every key whose move has it.
   */
  method LongestKeys(m: map<Coord, Move>) returns (res: seq<Coord>, largest: int)
    ensures forall k | k in m :: MoveLength(m[k]) <= largest
    ensures forall k :: k in res <==> k in m && MoveLength(m[k]) == largest
    ensures m == map[] <==> res == []
  {
    res := [];
    largest := IntMin;
    var todo := m.Keys;
    while todo != {}
      invariant todo <= m.Keys
      invariant forall k | k in m && k !in todo :: MoveLength(m[k]) <= largest
      invariant forall k :: k in res <==> k in m && k !in todo && MoveLength(m[k]) == largest
      invariant res == [] ==> largest < 0
      decreases |todo|
    {
      var k :| k in todo;
      todo := todo - {k};
      var len := GetLengthOfMove(m[k]);
      if len > largest {
        largest := len;
        res := [k];
      } else if len == largest {
        res := res + [k];
      }
    }
    if res != [] {
      assert res[0] in res;
    }
  }

  /**
   * The second step of getLongestAndMostUpLeftFromMap: a single tie is returned as it is,
   * otherwise the lexicographically smallest, starting from the sentinel.
   */
  method UpLeftMost(res: seq<Coord>) returns (r: Coord)
    requires forall t | 0 <= t < |res| :: IntPair(res[t])
    ensures res == [] ==> r == Sentinel
    ensures res != [] ==> r in res && forall t | 0 <= t < |res| :: LexLe(r, res[t])
  {
    if |res| == 1 {
      r := res[0];
    } else {
      r := Sentinel;
      for i := 0 to |res|
        invariant r == Sentinel || r in res[..i]
        invariant forall t | 0 <= t < i :: LexLe(r, res[t])
      {
        if LexLess(res[i], r) {
          r := res[i];
        }
      }
      assert res[..|res|] == res;
      if res != [] {
        assert IntPair(res[0]) && LexLe(r, res[0]);
      }
    }
  }

  /**
   * What the two loops of getLongestAndMostUpLeftFromMap leave behind determines its result:
   * res holds exactly the keys of the greatest length, and r is in res and up-left of all of it.
   */
  lemma LongestFromTies(m: map<Coord, Move>, res: seq<Coord>, largest: int, r: Coord)
    requires forall k | k in m :: MoveLength(m[k]) <= largest
    requires forall k :: k in res <==> k in m && MoveLength(m[k]) == largest
    requires r in res && forall t | 0 <= t < |res| :: LexLe(r, res[t])
    ensures r == LongestOrSentinel(m)
  {
    forall j | j in m && MoveLength(m[j]) == largest ensures LexLe(r, j) {
      var t :| 0 <= t < |res| && res[t] == j;
    }
    assert IsBest(LongestMove, m, r);
    BestIsUnique(LongestMove, m, r, Best(LongestMove, m).value);
  }

  /**
   * getLongestAndMostUpLeftFromMap: the key whose move is longest, ties to the smallest x and
   * then the smallest y; for an empty map, the out-of-bounds [MAX_VALUE, MAX_VALUE].
   */
  method GetLongestAndMostUpLeftFromMap(m: map<Coord, Move>) returns (r: Coord)
    requires forall k | k in m :: IntPair(k)
    ensures m == map[] ==> r == Sentinel
    ensures r == LongestOrSentinel(m)
  {
    var res, largest := LongestKeys(m);
    assert forall t | 0 <= t < |res| :: res[t] in res;
    r := UpLeftMost(res);
    if res != [] {
      LongestFromTies(m, res, largest, r);
    }
  }

  /**
   * getUpLeftMostInMove: the up-left-most position named anywhere in the move, or the
   * sentinel when it names none.
   */
  method GetUpLeftMostInMove(m: Move) returns (r: Coord)
    requires forall p, q | p in m && q in p :: IntPair(q)
    ensures FlipSet(m) == {} ==> r == Sentinel
    ensures FlipSet(m) != {} ==> r in FlipSet(m) && forall q | q in FlipSet(m) :: LexLe(r, q)
  {
    r := Sentinel;
    for i := 0 to |m|
      invariant r == Sentinel || r in FlipSet(m[..i])
      invariant forall q | q in FlipSet(m[..i]) :: LexLe(r, q)
    {
      var inner := m[i];
      for j := 0 to |inner|
        invariant r == Sentinel || r in FlipSet(m[..i]) || r in inner[..j]
        invariant forall q | q in FlipSet(m[..i]) :: LexLe(r, q)
        invariant forall k | 0 <= k < j :: LexLe(r, inner[k])
      {
        if LexLess(inner[j], r) {
          r := inner[j];
        }
        assert inner[..j + 1] == inner[..j] + [inner[j]];
      }
      assert inner[..|inner|] == inner;
      assert m[..i + 1] == m[..i] + [inner];
      FlipSetSnoc(m[..i], inner);
      forall q | q in FlipSet(m[..i + 1])
        ensures LexLe(r, q)
      {
        if q !in FlipSet(m[..i]) {
          var k :| 0 <= k < |inner| && inner[k] == q;
        }
      }
    }
    assert m[..|m|] == m;
    if FlipSet(m) != {} {
      var q :| q in FlipSet(m);
      var p :| p in m && q in p;
      assert IntPair(q);
    }
  }

  // ---------------------------------------------------------------------------------------
  // Distances to the corners.

  /** |cx - x| + |cy - y|: how far position p is from the corner. */
  function Distance(corner: Coord, p: Coord): nat {
    Abs(corner.x - p.x) + Abs(corner.y - p.y)
  }

  function Min(a: int, b: int): int {
    if a <= b then a else b
  }

  /** Two positions of a board the model admits are less than MAX_VALUE apart. */
  lemma DistanceBelowMax(corner: Coord, p: Coord)
    requires InRange(corner) && InRange(p)
    ensures Distance(corner, p) < IntMax
  {
  }

  /** The distance from p to the nearest corner in cs, or MAX_VALUE when cs is empty. */
  function MinDist(p: Coord, cs: seq<Coord>): (r: int)
    ensures r <= IntMax
  {
    if cs == [] then IntMax else Min(MinDist(p, cs[..|cs| - 1]), Distance(cs[|cs| - 1], p))
  }

  /** No corner is nearer p than MinDist, and unless it is MAX_VALUE some corner is that near. */
  lemma {:induction false} MinDistIsNearest(p: Coord, cs: seq<Coord>)
    ensures forall c | c in cs :: MinDist(p, cs) <= Distance(c, p)
    ensures MinDist(p, cs) == IntMax || exists c :: c in cs && MinDist(p, cs) == Distance(c, p)
  {
    if cs != [] {
      var init, last := cs[..|cs| - 1], cs[|cs| - 1];
      MinDistIsNearest(p, init);
      assert forall c | c in cs :: c in init || c == last;
      if MinDist(p, init) <= Distance(last, p) {
        if MinDist(p, init) != IntMax {
          var c :| c in init && MinDist(p, init) == Distance(c, p);
          assert c in cs;
        }
      } else {
        assert last in cs;
      }
    }
  }

  /** On a board the model admits, some corner gives a real distance. */
  lemma MinDistFinite(p: Coord, cs: seq<Coord>)
    requires InRange(p) && forall c | c in cs :: InRange(c)
    ensures MinDist(p, cs) < IntMax <==> cs != []
  {
    MinDistIsNearest(p, cs);
    if cs != [] {
      DistanceBelowMax(cs[0], p);
    }
  }

  /** The least distance from a position of path p to a corner (MAX_VALUE if there is none). */
  function PathDist(p: Path, cs: seq<Coord>): (r: int)
    ensures r <= IntMax
  {
    if p == [] then IntMax else Min(PathDist(p[..|p| - 1], cs), MinDist(p[|p| - 1], cs))
  }

  lemma {:induction false} PathDistIsNearest(p: Path, cs: seq<Coord>)
    ensures forall q, c | q in p && c in cs :: PathDist(p, cs) <= Distance(c, q)
    ensures PathDist(p, cs) == IntMax || exists q, c :: q in p && c in cs && PathDist(p, cs) == Distance(c, q)
  {
    if p != [] {
      var init, last := p[..|p| - 1], p[|p| - 1];
      PathDistIsNearest(init, cs);
      MinDistIsNearest(last, cs);
      assert forall q | q in p :: q in init || q == last;
      if PathDist(init, cs) <= MinDist(last, cs) {
        if PathDist(init, cs) != IntMax {
          var q, c :| q in init && c in cs && PathDist(init, cs) == Distance(c, q);
          assert q in p;
        }
      } else {
        assert last in p;
      }
    }
  }

  /** What getClosestCoordinateToCorner returns: the least distance from any position of the move to any corner. */
  function ClosestDistance(m: Move, cs: seq<Coord>): (r: int)
    ensures r <= IntMax
  {
    if m == [] then IntMax else Min(ClosestDistance(m[..|m| - 1], cs), PathDist(m[|m| - 1], cs))
  }

  /**
   * ClosestDistance is the least distance between a position the move names and a corner:
   * no pair is closer, and unless it is MAX_VALUE some pair is that close.
   */
  lemma {:induction false} ClosestDistanceIsNearest(m: Move, cs: seq<Coord>)
    ensures forall q, c | q in FlipSet(m) && c in cs :: ClosestDistance(m, cs) <= Distance(c, q)
    ensures ClosestDistance(m, cs) == IntMax
      || exists q, c :: q in FlipSet(m) && c in cs && ClosestDistance(m, cs) == Distance(c, q)
  {
    if m != [] {
      var init, last := m[..|m| - 1], m[|m| - 1];
      ClosestDistanceIsNearest(init, cs);
      PathDistIsNearest(last, cs);
      assert m == init + [last];
      FlipSetSnoc(init, last);
      if ClosestDistance(init, cs) <= PathDist(last, cs) {
        if ClosestDistance(init, cs) != IntMax {
          var q, c :| q in FlipSet(init) && c in cs && ClosestDistance(init, cs) == Distance(c, q);
          assert q in FlipSet(m);
        }
      } else {
        var q, c :| q in last && c in cs && PathDist(last, cs) == Distance(c, q);
        assert q in FlipSet(m);
      }
    }
  }

  /** On a board the model admits, the distance is MAX_VALUE exactly when the move names no position or there is no corner. */
  lemma ClosestDistanceFinite(m: Move, cs: seq<Coord>)
    requires forall q | q in FlipSet(m) :: InRange(q)
    requires forall c | c in cs :: InRange(c)
    ensures ClosestDistance(m, cs) < IntMax <==> FlipSet(m) != {} && cs != []
  {
    ClosestDistanceIsNearest(m, cs);
    if FlipSet(m) != {} && cs != [] {
      var q :| q in FlipSet(m);
      DistanceBelowMax(cs[0], q);
    }
  }

  /** getClosestCoordinateToCorner: every position of the move against every corner, keeping the least distance. */
  method GetClosestCoordinateToCorner(m: Move, cs: seq<Coord>) returns (r: int)
    ensures r == ClosestDistance(m, cs)
  {
    r := IntMax;
    for i := 0 to |m|
      invariant r == ClosestDistance(m[..i], cs)
    {
      var inner := m[i];
      for j := 0 to |inner|
        invariant r == Min(ClosestDistance(m[..i], cs), PathDist(inner[..j], cs))
      {
        var pos := inner[j];
        for k := 0 to |cs|
          invariant r == Min(Min(ClosestDistance(m[..i], cs), PathDist(inner[..j], cs)), MinDist(pos, cs[..k]))
        {
          var d := Distance(cs[k], pos);
          if d < r {
            r := d;
          }
          assert cs[..k + 1][..k] == cs[..k];
        }
        assert cs[..|cs|] == cs;
        assert inner[..j + 1][..j] == inner[..j];
      }
      assert inner[..|inner|] == inner;
      assert m[..i + 1][..i] == m[..i];
    }
    assert m[..|m|] == m;
  }

  /**
   * The state of getMoveWithClosestCoordinateFromMap after it meets key k at distance d:
   * a strictly smaller distance takes over, an equal one takes over when k is up-left of
   * the key held so far.
   */
  function Consider(best: (int, Option<Coord>), k: Coord, d: int): (int, Option<Coord>) {
    if d < best.0 then (d, Some(k))
    else if d == best.0 && best.1.Some? && LexLess(k, best.1.value) then (best.0, Some(k))
    else best
  }

  /** Meeting one key at two distances is meeting it at the smaller one. */
  lemma ConsiderTwice(best: (int, Option<Coord>), k: Coord, a: int, e: int)
    ensures Consider(Consider(best, k, a), k, e) == Consider(best, k, Min(a, e))
  {
  }

  /**
   * The inner loop of getMoveWithClosestCoordinateFromMap: key is compared with the best so far
   * once per corner, which amounts to one comparison at its nearest corner.
   */
  method ConsiderKey(before: (int, Option<Coord>), key: Coord, cs: seq<Coord>)
    returns (closest: int, r: Option<Coord>)
    requires InRange(key) && forall c | c in cs :: InRange(c)
    requires before.0 <= IntMax && (before.1 == None <==> before.0 == IntMax)
    ensures (closest, r) == Consider(before, key, MinDist(key, cs))
  {
    closest, r := before.0, before.1;
    for t := 0 to |cs|
      invariant (closest, r) == Consider(before, key, MinDist(key, cs[..t]))
      invariant closest <= IntMax && (r == None <==> closest == IntMax)
    {
      var d := Distance(cs[t], key);
      DistanceBelowMax(cs[t], key);
      ConsiderTwice(before, key, MinDist(key, cs[..t]), d);
      if d < closest {
        closest := d;
        r := Some(key);
      } else if d == closest && r.Some? {
        if LexLess(key, r.value) {
          r := Some(key);
        }
      }
      assert cs[..t + 1][..t] == cs[..t];
    }
    assert cs[..|cs|] == cs;
  }

  /**
   * The invariant of the outer loop of getMoveWithClosestCoordinateFromMap: among the keys
   * already visited (those not in todo), r is the one nearest a corner, ties up-left-most,
   * and closest is its distance; MAX_VALUE and None before any key is met.
   */
  ghost predicate NearestSoFar(m: map<Coord, Move>, cs: seq<Coord>, todo: set<Coord>, closest: int, r: Option<Coord>) {
    && closest <= IntMax
    && (r == None <==> closest == IntMax)
    && (forall k | k in m && k !in todo :: closest <= MinDist(k, cs))
    && (r.Some? ==> r.value in m && r.value !in todo && MinDist(r.value, cs) == closest)
    && (r.Some? ==> forall k | k in m && k !in todo && MinDist(k, cs) == closest :: LexLe(r.value, k))
  }

  /** Considering one more key keeps NearestSoFar. */
  lemma NearestStep(m: map<Coord, Move>, cs: seq<Coord>, todo: set<Coord>, key: Coord, closest: int, r: Option<Coord>)
    requires key in todo && key in m && InRange(key) && forall c | c in cs :: InRange(c)
    requires NearestSoFar(m, cs, todo, closest, r)
    ensures var after := Consider((closest, r), key, MinDist(key, cs));
      NearestSoFar(m, cs, todo - {key}, after.0, after.1)
  {
    MinDistFinite(key, cs);
    var d := MinDist(key, cs);
    if d < closest {
      assert Consider((closest, r), key, d) == (d, Some(key));
    } else if d == closest && r.Some? && LexLess(key, r.value) {
      assert Consider((closest, r), key, d) == (closest, Some(key));
    } else {
      assert Consider((closest, r), key, d) == (closest, r);
    }
  }

  /** Once every key is visited, NearestSoFar pins down the nearest key. */
  lemma NearestFinal(m: map<Coord, Move>, cs: seq<Coord>, closest: int, r: Option<Coord>)
    requires forall k | k in m :: InRange(k)
    requires forall c | c in cs :: InRange(c)
    requires NearestSoFar(m, cs, {}, closest, r)
    ensures r == ClosestToCorner(m, cs)
  {
    if m != map[] && cs != [] {
      var k0 :| k0 in m;
      MinDistFinite(k0, cs);
      assert IsBest(NearestCorner(cs), m, r.value);
      BestIsUnique(NearestCorner(cs), m, r.value, Best(NearestCorner(cs), m).value);
    }
  }

  /**
   * getMoveWithClosestCoordinateFromMap: the key whose own position is nearest some corner,
   * ties to the up-left-most; None (the empty list) when there is no key or no corner.
   */
  method GetMoveWithClosestCoordinateFromMap(m: map<Coord, Move>, cs: seq<Coord>) returns (r: Option<Coord>)
    requires forall k | k in m :: InRange(k)
    requires forall c | c in cs :: InRange(c)
    ensures (m == map[] || cs == []) ==> r == None
    ensures r == ClosestToCorner(m, cs)
  {
    var closest := IntMax;
    r := None;
    var todo := m.Keys;
    while todo != {}
      invariant todo <= m.Keys
      invariant NearestSoFar(m, cs, todo, closest, r)
      decreases |todo|
    {
      var key :| key in todo;
      NearestStep(m, cs, todo, key, closest, r);
      closest, r := ConsiderKey((closest, r), key, cs);
      todo := todo - {key};
    }
    NearestFinal(m, cs, closest, r);
  }

  // ---------------------------------------------------------------------------------------
  // Adjacency to a corner.

  /** Some direction among ds leads from p to a corner. */
  function AnyNeighbourIn(p: Coord, ds: seq<MoveDirection>, cs: seq<Coord>): (r: bool)
    ensures r <==> exists d :: d in ds && ApplyShiftBasedOnDirection(p, d) in cs
  {
    if ds == [] then false
    else ApplyShiftBasedOnDirection(p, ds[0]) in cs || AnyNeighbourIn(p, ds[1..], cs)
  }

  /** adjacentPositionInMap: one step in some direction leads from p to a corner. */
  function AdjacentPositionInMap(p: Coord, cs: seq<Coord>): (r: bool)
    ensures r <==> exists d :: ApplyShiftBasedOnDirection(p, d) in cs
  {
    var ds := Directions;
    assert forall d :: d in ds by {
      forall d ensures d in ds {
        DirectionsComplete(d);
      }
    }
    AnyNeighbourIn(p, ds, cs)
  }

  /** Some position of path p is next to a corner. */
  function PathIsAdjacentToCorner(p: Path, cs: seq<Coord>): (r: bool)
    ensures r <==> exists q :: q in p && AdjacentPositionInMap(q, cs)
  {
    if p == [] then false
    else AdjacentPositionInMap(p[0], cs) || PathIsAdjacentToCorner(p[1..], cs)
  }

  /** moveIsAdjacentToCorner: some position named in the move is next to a corner. */
  function MoveIsAdjacentToCorner(m: Move, cs: seq<Coord>): (r: bool)
    ensures r <==> exists p, q :: p in m && q in p && AdjacentPositionInMap(q, cs)
  {
    if m == [] then false
    else PathIsAdjacentToCorner(m[0], cs) || MoveIsAdjacentToCorner(m[1..], cs)
  }
}
