/**
 * The capture search (class BoardUtils): from a position, walk each of the six
 * directions over a run of opponent discs that ends on a disc of the player to move.
 */
module BoardUtils {
  import opened Wrappers
  import opened MoveRules
  import opened ModelView

  /**
   * What bfsHelper returns for one direction: empty, or the start followed by the
   * captured discs p1..pk in the shape [start, p1, p1, p1, p2, p2, ..., pk, pk].
   */
  type Path = seq<Coord>

  /** What bfs returns: the non-empty paths, in the order of MoveDirection.values(). */
  type Move = seq<Path>

  /** The position k steps from c in direction d. */
  function Step(c: Coord, d: MoveDirection, k: nat): Coord
    decreases k
  {
    if k == 0 then c else Step(ApplyShiftBasedOnDirection(c, d), d, k - 1)
  }

  /** How many more steps in direction d can stay on an n x n board (the walk's termination measure). */
  function Room(n: int, c: Coord, d: MoveDirection): nat
  {
    match d
    case LEFT => if c.x >= 0 then c.x + 1 else 0
    case RIGHT => if c.x < n then n - c.x else 0
    case UPLEFT | UPRIGHT => if c.y >= 0 then c.y + 1 else 0
    case DOWNLEFT | DOWNRIGHT => if c.y < n then n - c.y else 0
  }

  lemma StepOnBoardShrinksRoom(g: Grid, c: Coord, d: MoveDirection)
    requires IsSquare(g) && CheckValidCoordinates(g, ApplyShiftBasedOnDirection(c, d))
    ensures Room(|g|, ApplyShiftBasedOnDirection(c, d), d) < Room(|g|, c, d)
  {
  }

  function OwnColor(v: View): DiscColor {
    GetPlayerColor(v.turn)
  }

  function OpponentColor(v: View): DiscColor {
    GetPlayerColor(GetOpponent(v.turn))
  }

  /** The position holds a disc of the opponent of the player to move. */
  predicate IsOpponentAt(v: View, c: Coord)
    requires IsSquare(v.board)
  {
    CheckValidCoordinates(v.board, c) && ColorAt(v.board, c) == OpponentColor(v)
  }

  /** The position holds a disc of the player to move. */
  predicate IsOwnAt(v: View, c: Coord)
    requires IsSquare(v.board)
  {
    CheckValidCoordinates(v.board, c) && ColorAt(v.board, c) == OwnColor(v)
  }

  /**
   * The opponent discs following p in direction d up to the first disc of the player
   * to move, or None when the run leaves the board or meets a face-down cell first.
   */
  function Rest(v: View, p: Coord, d: MoveDirection): Option<seq<Coord>>
    requires IsSquare(v.board)
    decreases Room(|v.board|, p, d)
  {
    var q := ApplyShiftBasedOnDirection(p, d);
    if !CheckValidCoordinates(v.board, q) then None
    else if ColorAt(v.board, q) == OwnColor(v) then Some([])
    else if ColorAt(v.board, q) == FACEDOWN then None
    else
      StepOnBoardShrinksRoom(v.board, p, d);
      match Rest(v, q, d)
      case None => None
      case Some(s) => Some([q] + s)
  }

  /** The discs a move at c captures in direction d (empty when it captures none there). */
  function Captured(v: View, c: Coord, d: MoveDirection): seq<Coord>
    requires IsSquare(v.board)
  {
    var p1 := ApplyShiftBasedOnDirection(c, d);
    if IsOpponentAt(v, p1) then
      match Rest(v, p1, d)
      case None => []
      case Some(s) => [p1] + s
    else []
  }

  /** Every element twice, in order. */
  function Doubled(s: seq<Coord>): (r: seq<Coord>)
    ensures |r| == 2 * |s|
  {
    if s == [] then [] else [s[0], s[0]] + Doubled(s[1..])
  }

  /** The list bfsHelper builds for direction d. */
  function Walk(v: View, c: Coord, d: MoveDirection): Path
    requires IsSquare(v.board)
  {
    var s := Captured(v, c, d);
    if s == [] then [] else [c, s[0]] + Doubled(s)
  }

  /** The results of the directions in ds that capture something, in order. */
  function Collect(v: View, c: Coord, ds: seq<MoveDirection>): Move
    requires IsSquare(v.board)
  {
    if ds == [] then []
    else
      var w := Walk(v, c, ds[|ds| - 1]);
      Collect(v, c, ds[..|ds| - 1]) + (if w == [] then [] else [w])
  }

  /** What bfs returns for a move at c. */
  function MoveAt(v: View, c: Coord): Move
    requires IsSquare(v.board)
  {
    Collect(v, c, Directions)
  }

  /** Every position named in a move (the cells a move at its start turns to the mover's colour). */
  ghost function FlipSet(m: Move): set<Coord> {
    set p, q | p in m && q in p :: q
  }

  /** What the walk returns once it stands on the opponent disc cur with res collected so far. */
  function Pending(v: View, res: Path, cur: Coord, d: MoveDirection): Path
    requires IsSquare(v.board)
  {
    match Rest(v, cur, d)
    case None => []
    case Some(s) => res + [cur] + Doubled(s)
  }

  /** The first step of the walk: it goes on only over an opponent disc. */
  lemma WalkStart(v: View, c: Coord, d: MoveDirection)
    requires IsSquare(v.board)
    ensures var p1 := ApplyShiftBasedOnDirection(c, d);
      Walk(v, c, d) == if IsOpponentAt(v, p1) then Pending(v, [c] + [p1, p1], p1, d) else []
  {
    var p1 := ApplyShiftBasedOnDirection(c, d);
    if IsOpponentAt(v, p1) {
      match Rest(v, p1, d)
      case None =>
      case Some(s) =>
        assert Doubled([p1] + s) == [p1, p1] + Doubled(s) by {
          assert ([p1] + s)[1..] == s;
        }
    }
  }

  /** One later step of the walk, from the opponent disc cur. */
  lemma PendingStep(v: View, res: Path, cur: Coord, d: MoveDirection)
    requires IsSquare(v.board)
    ensures var next := ApplyShiftBasedOnDirection(cur, d);
      Pending(v, res, cur, d) ==
        if !CheckValidCoordinates(v.board, next) then []
        else if ColorAt(v.board, next) == OwnColor(v) then res + [cur]
        else if ColorAt(v.board, next) == FACEDOWN then []
        else Pending(v, res + [cur] + [next], next, d)
  {
    var next := ApplyShiftBasedOnDirection(cur, d);
    if CheckValidCoordinates(v.board, next) && ColorAt(v.board, next) != OwnColor(v)
       && ColorAt(v.board, next) != FACEDOWN {
      match Rest(v, next, d)
      case None =>
      case Some(s) =>
        assert Doubled([next] + s) == [next, next] + Doubled(s) by {
          assert ([next] + s)[1..] == s;
        }
    }
  }

  /** A run of k >= 1 opponent discs from c in direction d, closed by a disc of the player to move. */
  ghost predicate Brackets(v: View, c: Coord, d: MoveDirection, k: nat)
    requires IsSquare(v.board)
  {
    && k >= 1
    && (forall i | 1 <= i <= k :: IsOpponentAt(v, Step(c, d, i)))
    && IsOwnAt(v, Step(c, d, k + 1))
  }

  /** A run the walk finds is a run of opponent discs closed by an own disc. */
  lemma {:induction false} RestSound(v: View, p: Coord, d: MoveDirection)
    requires IsSquare(v.board) && Rest(v, p, d).Some?
    ensures var s := Rest(v, p, d).value;
      && (forall i | 0 <= i < |s| :: s[i] == Step(p, d, i + 1) && IsOpponentAt(v, s[i]))
      && IsOwnAt(v, Step(p, d, |s| + 1))
    decreases Room(|v.board|, p, d)
  {
    var q := ApplyShiftBasedOnDirection(p, d);
    var s := Rest(v, p, d).value;
    if ColorAt(v.board, q) != OwnColor(v) {
      StepOnBoardShrinksRoom(v.board, p, d);
      RestSound(v, q, d);
      var t := Rest(v, q, d).value;
      assert s == [q] + t;
      forall i | 0 <= i < |s|
        ensures s[i] == Step(p, d, i + 1) && IsOpponentAt(v, s[i])
      {
        if i > 0 {
          assert s[i] == t[i - 1];
        }
      }
    }
  }

  /** Conversely, a run of m opponent discs closed by an own disc is found, with its length. */
  lemma {:induction false} RestComplete(v: View, p: Coord, d: MoveDirection, m: nat)
    requires IsSquare(v.board)
    requires forall i | 1 <= i <= m :: IsOpponentAt(v, Step(p, d, i))
    requires IsOwnAt(v, Step(p, d, m + 1))
    ensures Rest(v, p, d).Some? && |Rest(v, p, d).value| == m
    decreases m
  {
    var q := ApplyShiftBasedOnDirection(p, d);
    assert Step(p, d, 1) == Step(q, d, 0) == q;
    if m == 0 {
      assert IsOwnAt(v, q);
      assert Rest(v, p, d) == Some([]);
    } else {
      assert IsOpponentAt(v, q);
      forall i | 1 <= i <= m - 1
        ensures IsOpponentAt(v, Step(q, d, i))
      {
        assert Step(q, d, i) == Step(p, d, i + 1);
      }
      assert Step(q, d, m) == Step(p, d, m + 1);
      RestComplete(v, q, d, m - 1);
      assert Rest(v, p, d) == Some([q] + Rest(v, q, d).value);
    }
  }

  /** The discs a move captures in one direction are exactly a bracketed run, one step after another. */
  lemma CapturedIsBracketed(v: View, c: Coord, d: MoveDirection)
    requires IsSquare(v.board) && Captured(v, c, d) != []
    ensures Brackets(v, c, d, |Captured(v, c, d)|)
    ensures forall i | 0 <= i < |Captured(v, c, d)| :: Captured(v, c, d)[i] == Step(c, d, i + 1)
  {
    var p1 := ApplyShiftBasedOnDirection(c, d);
    RestSound(v, p1, d);
    var s := Rest(v, p1, d).value;
    var cap := Captured(v, c, d);
    assert cap == [p1] + s;
    forall i | 0 <= i < |cap|
      ensures cap[i] == Step(c, d, i + 1) && IsOpponentAt(v, cap[i])
    {
      if i > 0 {
        assert cap[i] == s[i - 1];
      }
    }
    forall i | 1 <= i <= |cap|
      ensures IsOpponentAt(v, Step(c, d, i))
    {
      assert cap[i - 1] == Step(c, d, i);
    }
  }

  /** Every bracketed run is captured, and it is the only one in its direction. */
  lemma BracketedIsCaptured(v: View, c: Coord, d: MoveDirection, k: nat)
    requires IsSquare(v.board) && Brackets(v, c, d, k)
    ensures |Captured(v, c, d)| == k
  {
    var p1 := ApplyShiftBasedOnDirection(c, d);
    assert IsOpponentAt(v, Step(c, d, 1));
    forall i | 1 <= i <= k - 1
      ensures IsOpponentAt(v, Step(p1, d, i))
    {
      assert Step(p1, d, i) == Step(c, d, i + 1);
    }
    assert Step(p1, d, k) == Step(c, d, k + 1);
    RestComplete(v, p1, d, k - 1);
  }

  lemma {:induction false} DoubledElements(s: seq<Coord>)
    ensures forall q :: q in Doubled(s) <==> q in s
  {
    if s != [] {
      DoubledElements(s[1..]);
      assert s == [s[0]] + s[1..];
    }
  }

  /**
   * The shape of what bfsHelper returns: empty exactly when nothing is captured, and
   * otherwise 2k + 2 entries naming the start and the k captured discs.
   */
  lemma WalkShape(v: View, c: Coord, d: MoveDirection)
    requires IsSquare(v.board)
    ensures Walk(v, c, d) == [] <==> Captured(v, c, d) == []
    ensures Walk(v, c, d) != [] ==>
      && |Walk(v, c, d)| == 2 * |Captured(v, c, d)| + 2
      && Walk(v, c, d)[0] == c
      && (forall q :: q in Walk(v, c, d) <==> q == c || q in Captured(v, c, d))
  {
    DoubledElements(Captured(v, c, d));
  }

  /** The discs captured in the directions ds. */
  ghost function CapturedIn(v: View, c: Coord, ds: seq<MoveDirection>): set<Coord>
    requires IsSquare(v.board)
  {
    set d, q | d in ds && q in Captured(v, c, d) :: q
  }

  lemma CollectSnoc(v: View, c: Coord, ds: seq<MoveDirection>, d: MoveDirection)
    requires IsSquare(v.board)
    ensures Collect(v, c, ds + [d]) == Collect(v, c, ds) + (if Walk(v, c, d) == [] then [] else [Walk(v, c, d)])
  {
    assert (ds + [d])[..|ds|] == ds;
  }

  /** bfs has at most one entry per direction, and none when no direction captures. */
  lemma {:induction false} CollectEmpty(v: View, c: Coord, ds: seq<MoveDirection>)
    requires IsSquare(v.board)
    ensures |Collect(v, c, ds)| <= |ds|
    ensures Collect(v, c, ds) == [] <==> forall d | d in ds :: Captured(v, c, d) == []
  {
    if ds != [] {
      var init, d := ds[..|ds| - 1], ds[|ds| - 1];
      assert ds == init + [d];
      CollectEmpty(v, c, init);
      CollectSnoc(v, c, init, d);
      WalkShape(v, c, d);
    }
  }

  /** Each entry of bfs is the non-empty walk of one of the directions. */
  lemma {:induction false} CollectPaths(v: View, c: Coord, ds: seq<MoveDirection>)
    requires IsSquare(v.board)
    ensures forall p | p in Collect(v, c, ds) :: p != [] && exists d | d in ds :: p == Walk(v, c, d)
  {
    if ds != [] {
      var init, d := ds[..|ds| - 1], ds[|ds| - 1];
      assert ds == init + [d];
      CollectPaths(v, c, init);
      CollectSnoc(v, c, init, d);
      forall p | p in Collect(v, c, ds)
        ensures p != [] && exists d' | d' in ds :: p == Walk(v, c, d')
      {
        if p in Collect(v, c, init) {
          var d' :| d' in init && p == Walk(v, c, d');
          assert d' in ds;
        }
      }
    }
  }

  lemma FlipSetSnoc(m: Move, w: Path)
    ensures FlipSet(m + [w]) == FlipSet(m) + set q | q in w
  {
    forall q | q in FlipSet(m + [w]) ensures q in FlipSet(m) || q in w {
      var p :| p in m + [w] && q in p;
      if p in m {
        assert q in FlipSet(m);
      }
    }
    forall q | q in FlipSet(m) ensures q in FlipSet(m + [w]) {
      var p :| p in m && q in p;
      assert p in m + [w];
    }
    forall q | q in w ensures q in FlipSet(m + [w]) {
      assert w in m + [w];
    }
  }

  /** CapturedInSnoc, read off a non-empty list of directions and its last one. */
  lemma CapturedInLast(v: View, c: Coord, ds: seq<MoveDirection>)
    requires IsSquare(v.board) && ds != []
    ensures var d := ds[|ds| - 1];
      CapturedIn(v, c, ds) == CapturedIn(v, c, ds[..|ds| - 1]) + set q | q in Captured(v, c, d)
  {
    assert ds == ds[..|ds| - 1] + [ds[|ds| - 1]];
    CapturedInSnoc(v, c, ds[..|ds| - 1], ds[|ds| - 1]);
  }

  lemma CapturedInSnoc(v: View, c: Coord, ds: seq<MoveDirection>, d: MoveDirection)
    requires IsSquare(v.board)
    ensures CapturedIn(v, c, ds + [d]) == CapturedIn(v, c, ds) + set q | q in Captured(v, c, d)
  {
    forall q | q in CapturedIn(v, c, ds + [d])
      ensures q in CapturedIn(v, c, ds) || q in Captured(v, c, d)
    {
      var d' :| d' in ds + [d] && q in Captured(v, c, d');
      if d' in ds {
        assert q in CapturedIn(v, c, ds);
      }
    }
  }

  /** The set algebra of one step of CollectFlipSet, apart from the board. */
  lemma FlipSetStep(m0: Move, w: Path, c: Coord, s0: set<Coord>, s1: set<Coord>)
    requires FlipSet(m0) == if m0 == [] then {} else {c} + s0
    requires m0 == [] ==> s0 == {}
    requires w == [] ==> s1 == {}
    requires w != [] ==> (set q | q in w) == {c} + s1
    ensures var m := m0 + (if w == [] then [] else [w]);
      FlipSet(m) == if m == [] then {} else {c} + (s0 + s1)
  {
    if w != [] {
      FlipSetSnoc(m0, w);
    } else {
      assert m0 + [] == m0;
    }
  }

  /** The positions bfs names: the start and every captured disc. */
  lemma {:induction false} CollectFlipSet(v: View, c: Coord, ds: seq<MoveDirection>)
    requires IsSquare(v.board)
    ensures FlipSet(Collect(v, c, ds)) == if Collect(v, c, ds) == [] then {} else {c} + CapturedIn(v, c, ds)
  {
    if ds != [] {
      CollectFlipSet(v, c, ds[..|ds| - 1]);
      CollectFlipSetSnoc(v, c, ds);
    }
  }

  /** The positions of a capturing walk: its start and the discs it captures. */
  lemma WalkSet(v: View, c: Coord, d: MoveDirection)
    requires IsSquare(v.board)
    ensures Walk(v, c, d) == [] ==> Captured(v, c, d) == []
    ensures Walk(v, c, d) != [] ==> (set q | q in Walk(v, c, d)) == {c} + set q | q in Captured(v, c, d)
  {
    WalkShape(v, c, d);
    var w, cap := Walk(v, c, d), set q | q in Captured(v, c, d);
    if w != [] {
      forall q ensures q in (set q | q in w) <==> q in {c} + cap {
        assert q in w <==> q == c || q in Captured(v, c, d);
      }
    }
  }

  /** One more direction keeps the positions bfs names equal to the start and the captured discs. */
  lemma CollectFlipSetSnoc(v: View, c: Coord, ds: seq<MoveDirection>)
    requires IsSquare(v.board) && ds != []
    requires FlipSet(Collect(v, c, ds[..|ds| - 1])) ==
      if Collect(v, c, ds[..|ds| - 1]) == [] then {} else {c} + CapturedIn(v, c, ds[..|ds| - 1])
    ensures FlipSet(Collect(v, c, ds)) == if Collect(v, c, ds) == [] then {} else {c} + CapturedIn(v, c, ds)
  {
    var init, d := ds[..|ds| - 1], ds[|ds| - 1];
    var m0, w := Collect(v, c, init), Walk(v, c, d);
    var cap := set q | q in Captured(v, c, d);
    assert Collect(v, c, ds) == m0 + (if w == [] then [] else [w]);
    CapturedInLast(v, c, ds);
    WalkSet(v, c, d);
    assert m0 == [] ==> CapturedIn(v, c, init) == {} by {
      CollectEmpty(v, c, init);
    }
    FlipSetStep(m0, w, c, CapturedIn(v, c, init), cap);
  }

  /**
   * The discs a move at c would turn: bfs is empty exactly when no direction brackets a
   * run, it has one entry per capturing direction (at most six), and the positions it names
   * are c itself and the captured opponent discs.
   */
  lemma MoveAtFacts(v: View, c: Coord)
    requires IsSquare(v.board)
    ensures |MoveAt(v, c)| <= 6
    ensures MoveAt(v, c) == [] <==> forall d, k :: !Brackets(v, c, d, k)
    ensures forall p | p in MoveAt(v, c) :: p != [] && exists d :: p == Walk(v, c, d)
    ensures FlipSet(MoveAt(v, c)) == if MoveAt(v, c) == [] then {} else {c} + CapturedIn(v, c, Directions)
    ensures forall q | q in CapturedIn(v, c, Directions) :: IsOpponentAt(v, q)
  {
    CollectEmpty(v, c, Directions);
    CollectPaths(v, c, Directions);
    CollectFlipSet(v, c, Directions);
    if MoveAt(v, c) == [] {
      forall d, k | Brackets(v, c, d, k) ensures false {
        DirectionsComplete(d);
        BracketedIsCaptured(v, c, d, k);
      }
    } else {
      var d :| d in Directions && Captured(v, c, d) != [];
      CapturedIsBracketed(v, c, d);
    }
    forall q | q in CapturedIn(v, c, Directions) ensures IsOpponentAt(v, q) {
      var d :| d in Directions && q in Captured(v, c, d);
      CapturedIsBracketed(v, c, d);
      var i :| 0 <= i < |Captured(v, c, d)| && Captured(v, c, d)[i] == q;
      assert q == Step(c, d, i + 1);
    }
  }

  /**
   * bfsHelper. The Java method also takes the accumulator and the first-pass flag as
   * parameters; its only caller passes an empty list and true, which are locals here.
   */
  method BfsHelper(v: View, c: Coord, d: MoveDirection) returns (r: Path)
    requires IsSquare(v.board)
    ensures r == Walk(v, c, d)
  {
    var cur := c;
    var res: seq<Coord> := [];
    var firstPass := true;
    while true
      invariant firstPass ==> cur == c && res == []
      invariant !firstPass ==> IsOpponentAt(v, cur) && Walk(v, c, d) == Pending(v, res, cur, d)
      decreases (if firstPass then 1 else 0) + Room(|v.board|, cur, d)
    {
      if !firstPass {
        PendingStep(v, res, cur, d);
      }
      res := res + [cur];
      var next := ApplyShiftBasedOnDirection(cur, d);
      if !CheckValidCoordinates(v.board, next) {
        return [];
      }
      StepOnBoardShrinksRoom(v.board, cur, d);
      var color := ColorAt(v.board, next);
      cur := next;
      if firstPass {
        if color != OpponentColor(v) {
          WalkStart(v, c, d);
          return [];
        }
        res := res + [next, next];
        assert res == [c] + [next, next];
        WalkStart(v, c, d);
        firstPass := false;
      } else if color == OwnColor(v) {
        return res;
      } else if color == FACEDOWN {
        return [];
      } else {
        res := res + [next];
      }
    }
  }

  /**
   * bfs. A direction's result is kept when some element of it is non-empty; its
   * elements are coordinate pairs, so that is exactly when the result is non-empty.
   */
  method Bfs(v: View, c: Coord) returns (res: Move)
    requires IsSquare(v.board)
    ensures res == MoveAt(v, c)
  {
    res := [];
    var ds := Directions;
    for i := 0 to |ds|
      invariant res == Collect(v, c, ds[..i])
    {
      var move := BfsHelper(v, c, ds[i]);
      assert ds[..i + 1] == ds[..i] + [ds[i]];
      CollectSnoc(v, c, ds[..i], ds[i]);
      if move != [] {
        res := res + [move];
      }
    }
    assert ds[..|ds|] == ds;
  }
}
