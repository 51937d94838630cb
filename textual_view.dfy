/**
 * ReversiTextualView: the board as text. Each addressable cell becomes X (black), O (white)
 * or - (face down), the cells of a row are separated by single spaces, and row i is centred
 * by |n / 2 - i| spaces on both sides and ends in a newline. The text is built in three
 * passes over a string buffer: the raw rows, the rows trimmed, and the rows padded.
 */
module TextualView {
  import opened Wrappers
  import opened MoveRules
  import opened ModelView
  import opened InitialBoard
  import opened HexModel

  // ---------------------------------------------------------------------------------------
  // The string operations of the Java library the view relies on.
  // ---------------------------------------------------------------------------------------

  /** The pieces of s between newlines, empty pieces included. */
  function Pieces(s: string): (r: seq<string>)
    ensures |r| >= 1
    ensures forall k | 0 <= k < |r| :: '\n' !in r[k]
    decreases |s|
  {
    if s == [] then [[]]
    else
      var rest := Pieces(s[1..]);
      if s[0] == '\n' then [[]] + rest else [[s[0]] + rest[0]] + rest[1..]
  }

  /** ls without its trailing empty strings. */
  function DropTrailingEmpty(ls: seq<string>): (r: seq<string>)
    ensures |r| <= |ls| && r == ls[..|r|]
    ensures r == [] || r[|r| - 1] != []
    ensures forall k | |r| <= k < |ls| :: ls[k] == []
  {
    if ls != [] && ls[|ls| - 1] == [] then DropTrailingEmpty(ls[..|ls| - 1]) else ls
  }

  /**
   * String.split("\n"): the string itself when it holds no newline, and otherwise its
   * pieces with the trailing empty ones removed.
   */
  function Split(s: string): (r: seq<string>)
    ensures forall k | 0 <= k < |r| :: '\n' !in r[k]
  {
    if '\n' !in s then [s] else DropTrailingEmpty(Pieces(s))
  }

  /** s without its leading characters up to ' '. */
  function TrimStart(s: string): (r: string)
    ensures r == [] || r[0] > ' '
    decreases |s|
  {
    if s != [] && s[0] <= ' ' then TrimStart(s[1..]) else s
  }

  /** s without its trailing characters up to ' '. */
  function TrimEnd(s: string): string
    decreases |s|
  {
    if s != [] && s[|s| - 1] <= ' ' then TrimEnd(s[..|s| - 1]) else s
  }

  /** String.trim: s without the characters up to ' ' at either end. */
  function Trim(s: string): (r: string)
    ensures r == [] || (r[0] > ' ' && r[|r| - 1] > ' ')
  {
    TrimEndKeepsFirst(TrimStart(s));
    TrimEnd(TrimStart(s))
  }

  lemma {:induction false} TrimEndKeepsFirst(s: string)
    requires s == [] || s[0] > ' '
    ensures var r := TrimEnd(s); r == [] || (r[0] > ' ' && r[|r| - 1] > ' ')
    decreases |s|
  {
    if s != [] && s[|s| - 1] <= ' ' {
      TrimEndKeepsFirst(s[..|s| - 1]);
    }
  }

  /** String.replace("\n", ""): s without its newlines. */
  function DeleteNewlines(s: string): (r: string)
    ensures '\n' !in r
  {
    if s == [] then []
    else (if s[0] == '\n' then [] else [s[0]]) + DeleteNewlines(s[1..])
  }

  /** Lines each followed by a newline. */
  function Terminated(ls: seq<string>): string {
    if ls == [] then [] else ls[0] + "\n" + Terminated(ls[1..])
  }

  /** Lines separated by newlines. */
  function Join(ls: seq<string>): string {
    if |ls| <= 1 then (if ls == [] then [] else ls[0])
    else ls[0] + "\n" + Join(ls[1..])
  }

  /** createNSpaces: " ".repeat(max(0, n)). */
  function CreateNSpaces(n: int): (r: string)
    ensures |r| == if n < 0 then 0 else n
    ensures forall k | 0 <= k < |r| :: r[k] == ' '
  {
    seq(if n < 0 then 0 else n, _ => ' ')
  }

  /** Java's int division by two, which truncates toward zero. */
  function Half(n: int): int {
    if n >= 0 then n / 2 else -((-n) / 2)
  }

  // ---------------------------------------------------------------------------------------
  // The three passes of updateBoard.
  // ---------------------------------------------------------------------------------------

  /** What updateBoard appends for getDiscAt(x, y): nothing when it throws. */
  function CellText(g: Grid, x: int, y: int): string
    requires IsSquare(g)
  {
    var c := Coord(x, y);
    if !CheckValidCoordinates(g, c) then []
    else
      match ColorAt(g, c)
      case BLACK => "X "
      case WHITE => "O "
      case FACEDOWN => "- "
  }

  /** The text appended for the cells (0, y) .. (j - 1, y). */
  function RowRaw(g: Grid, y: int, j: int): string
    requires IsSquare(g)
    decreases j
  {
    if j <= 0 then [] else RowRaw(g, y, j - 1) + CellText(g, j - 1, y)
  }

  /** The buffer after the first i rows of a board of getDimensions() n. */
  function RawBoard(g: Grid, n: int, i: int): string
    requires IsSquare(g)
    decreases i
  {
    if i <= 0 then [] else RawBoard(g, n, i - 1) + (if i - 1 != 0 then "\n" else "") + RowRaw(g, i - 1, n)
  }

  /** Each line trimmed. */
  function TrimAll(ls: seq<string>): seq<string> {
    seq(|ls|, k requires 0 <= k < |ls| => Trim(ls[k]))
  }

  /** What trimOriginalSpaces builds from the buffer s. */
  function TrimmedLines(s: string): string {
    Terminated(TrimAll(Split(s)))
  }

  /** Line i as addNSpacesToFrontAndBack writes it before its newline, for getDimensions() n. */
  function PadLine(l: string, i: int, n: int): string {
    var spaces := CreateNSpaces(Abs(Half(n) - i));
    DeleteNewlines(spaces + l) + spaces
  }

  /** Each line padded according to its index. */
  function PadAll(ls: seq<string>, n: int): seq<string> {
    seq(|ls|, k requires 0 <= k < |ls| => PadLine(ls[k], k, n))
  }

  /** What addNSpacesToFrontAndBack builds from the buffer s. */
  function PaddedLines(s: string, n: int): string {
    Terminated(PadAll(Split(s), n))
  }

  /** The text toString returns for a started model with board g and getDimensions() n. */
  function Render(g: Grid, n: int): string
    requires IsSquare(g)
  {
    PaddedLines(TrimmedLines(RawBoard(g, n, if n < 0 then 0 else n)), n)
  }

  // ---------------------------------------------------------------------------------------
  // The layout, defined independently of the passes.
  // ---------------------------------------------------------------------------------------

  /** The letter of a disc colour. */
  function Letter(color: DiscColor): char {
    match color
    case BLACK => 'X'
    case WHITE => 'O'
    case FACEDOWN => '-'
  }

  /** The letters of the addressable cells (0, y) .. (j - 1, y), in order. */
  function RowLetters(g: Grid, y: int, j: int): seq<char>
    requires IsSquare(g)
    decreases j
  {
    if j <= 0 then []
    else RowLetters(g, y, j - 1) + (if CheckValidCoordinates(g, Coord(j - 1, y)) then [Letter(ColorAt(g, Coord(j - 1, y)))] else [])
  }

  /** Letters separated by single spaces. */
  function Spaced(cs: seq<char>): string {
    if |cs| <= 1 then cs else Spaced(cs[..|cs| - 1]) + [' ', cs[|cs| - 1]]
  }

  /** Line i of an n-row board: the row's letters, centred by |n / 2 - i| spaces. */
  function Line(g: Grid, n: nat, i: int): string
    requires IsSquare(g)
  {
    var pad := CreateNSpaces(Abs(n / 2 - i));
    pad + Spaced(RowLetters(g, i, n)) + pad
  }

  function Lines(g: Grid, n: nat): seq<string>
    requires IsSquare(g)
  {
    seq(n, i => Line(g, n, i))
  }

  // ---------------------------------------------------------------------------------------
  // The passes produce the layout.
  // ---------------------------------------------------------------------------------------

  /** Each addressable cell contributes its letter and one space. */
  lemma {:induction false} RowRawLetters(g: Grid, y: int, j: int)
    requires IsSquare(g)
    ensures RowLetters(g, y, j) == [] ==> RowRaw(g, y, j) == []
    ensures RowLetters(g, y, j) != [] ==> RowRaw(g, y, j) == Spaced(RowLetters(g, y, j)) + " "
    decreases j
  {
    if j > 0 {
      RowRawLetters(g, y, j - 1);
      RowRawStep(g, y, j);
    }
  }

  /** The step of RowRawLetters from column j - 1 to column j. */
  lemma RowRawStep(g: Grid, y: int, j: int)
    requires IsSquare(g) && j > 0
    requires RowLetters(g, y, j - 1) == [] ==> RowRaw(g, y, j - 1) == []
    requires RowLetters(g, y, j - 1) != [] ==> RowRaw(g, y, j - 1) == Spaced(RowLetters(g, y, j - 1)) + " "
    ensures RowLetters(g, y, j) == [] ==> RowRaw(g, y, j) == []
    ensures RowLetters(g, y, j) != [] ==> RowRaw(g, y, j) == Spaced(RowLetters(g, y, j)) + " "
  {
    var c := Coord(j - 1, y);
    var ext := if CheckValidCoordinates(g, c) then [Letter(ColorAt(g, c))] else [];
    CellLetter(g, j - 1, y);
    assert RowRaw(g, y, j) == RowRaw(g, y, j - 1) + CellText(g, j - 1, y);
    assert RowLetters(g, y, j) == RowLetters(g, y, j - 1) + ext;
    RawSnoc(RowRaw(g, y, j - 1), RowLetters(g, y, j - 1), CellText(g, j - 1, y), ext);
  }

  /** An addressable cell writes its letter and a space; any other writes nothing. */
  lemma CellLetter(g: Grid, x: int, y: int)
    requires IsSquare(g)
    ensures var c := Coord(x, y);
      var ext := if CheckValidCoordinates(g, c) then [Letter(ColorAt(g, c))] else [];
      (CellText(g, x, y) == [] && ext == []) || (|ext| == 1 && CellText(g, x, y) == [ext[0], ' '])
  {
  }

  /** The step of RowRawLetters, on the text alone: a cell adds its letter and a space, or nothing. */
  lemma RawSnoc(raw: string, cs: seq<char>, cell: string, ext: seq<char>)
    requires cs == [] ==> raw == []
    requires cs != [] ==> raw == Spaced(cs) + " "
    requires (cell == [] && ext == []) || (|ext| == 1 && cell == [ext[0], ' '])
    ensures cs + ext == [] ==> raw + cell == []
    ensures cs + ext != [] ==> raw + cell == Spaced(cs + ext) + " "
  {
    if ext == [] {
      assert cs + ext == cs && raw + cell == raw;
    } else if cs == [] {
      assert cs + ext == ext && Spaced(ext) == ext;
    } else {
      SpacedSnocRaw(cs, ext[0]);
      assert ext == [ext[0]];
    }
  }

  /** One more letter after a non-empty spaced run, with the trailing space each cell writes. */
  lemma SpacedSnocRaw(cs: seq<char>, l: char)
    requires cs != []
    ensures Spaced(cs + [l]) + " " == Spaced(cs) + " " + [l, ' ']
  {
    assert (cs + [l])[..|cs|] == cs;
    assert Spaced(cs + [l]) == Spaced(cs) + [' ', l];
  }

  /** The letters X, O and - all lie above the space. */
  lemma SpacedVisible(cs: seq<char>)
    requires forall k | 0 <= k < |cs| :: cs[k] > ' '
    ensures cs == [] <==> Spaced(cs) == []
    ensures Spaced(cs) != [] ==> Spaced(cs)[0] > ' ' && Spaced(cs)[|Spaced(cs)| - 1] > ' '
    ensures '\n' !in Spaced(cs)
  {
  }

  lemma RowLettersVisible(g: Grid, y: int, j: int)
    requires IsSquare(g)
    ensures forall k | 0 <= k < |RowLetters(g, y, j)| :: RowLetters(g, y, j)[k] > ' '
  {
  }

  /** Trimming a raw row leaves exactly the spaced letters. */
  lemma TrimRow(g: Grid, y: int, j: int)
    requires IsSquare(g)
    ensures Trim(RowRaw(g, y, j)) == Spaced(RowLetters(g, y, j))
    ensures '\n' !in RowRaw(g, y, j)
  {
    RowRawLetters(g, y, j);
    RowLettersVisible(g, y, j);
    var s := Spaced(RowLetters(g, y, j));
    SpacedVisible(RowLetters(g, y, j));
    if s != [] {
      assert TrimStart(s + " ") == s + " ";
      assert (s + " ")[..|s|] == s;
      assert TrimEnd(s + " ") == TrimEnd(s);
    }
  }

  lemma {:induction false} PiecesOfPlain(a: string)
    requires '\n' !in a
    ensures Pieces(a) == [a]
    decreases |a|
  {
    if a != [] {
      PiecesOfPlain(a[1..]);
      assert [a[0]] + a[1..] == a;
    }
  }

  lemma {:induction false} PiecesCons(a: string, b: string)
    requires '\n' !in a
    ensures Pieces(a + "\n" + b) == [a] + Pieces(b)
    decreases |a|
  {
    if a == [] {
      assert a + "\n" + b == "\n" + b;
      assert ("\n" + b)[1..] == b;
    } else {
      assert (a + "\n" + b)[1..] == a[1..] + "\n" + b;
      PiecesCons(a[1..], b);
      assert [a[0]] + a[1..] == a;
    }
  }

  lemma {:induction false} PiecesOfJoin(ls: seq<string>)
    requires |ls| >= 1 && forall k | 0 <= k < |ls| :: '\n' !in ls[k]
    ensures Pieces(Join(ls)) == ls
    decreases |ls|
  {
    if |ls| == 1 {
      PiecesOfPlain(ls[0]);
    } else {
      PiecesOfJoin(ls[1..]);
      PiecesCons(ls[0], Join(ls[1..]));
      assert [ls[0]] + ls[1..] == ls;
    }
  }

  lemma {:induction false} PiecesOfTerminated(ls: seq<string>)
    requires forall k | 0 <= k < |ls| :: '\n' !in ls[k]
    ensures Pieces(Terminated(ls)) == ls + [[]]
    decreases |ls|
  {
    if ls != [] {
      PiecesOfTerminated(ls[1..]);
      PiecesCons(ls[0], Terminated(ls[1..]));
      assert [ls[0]] + ls[1..] == ls;
    }
  }

  /** Split undoes Join when the last line is not empty. */
  lemma SplitJoin(ls: seq<string>)
    requires |ls| >= 1 && ls[|ls| - 1] != [] && forall k | 0 <= k < |ls| :: '\n' !in ls[k]
    ensures Split(Join(ls)) == ls
  {
    PiecesOfJoin(ls);
    if |ls| > 1 {
      assert Join(ls)[|ls[0]|] == '\n';
    } else {
      PiecesOfPlain(ls[0]);
    }
  }

  /** Split undoes Terminated when there is a line and the last one is not empty. */
  lemma SplitTerminated(ls: seq<string>)
    requires |ls| >= 1 && ls[|ls| - 1] != [] && forall k | 0 <= k < |ls| :: '\n' !in ls[k]
    ensures Split(Terminated(ls)) == ls
  {
    PiecesOfTerminated(ls);
    assert Terminated(ls)[|ls[0]|] == '\n';
    assert (ls + [[]])[..|ls|] == ls;
  }

  lemma {:induction false} TerminatedSnoc(ls: seq<string>, l: string)
    ensures Terminated(ls + [l]) == Terminated(ls) + l + "\n"
    decreases |ls|
  {
    if ls == [] {
      assert Terminated([l]) == l + "\n" + Terminated([]);
    } else {
      assert (ls + [l])[1..] == ls[1..] + [l];
      TerminatedSnoc(ls[1..], l);
    }
  }

  lemma {:induction false} JoinSnoc(ls: seq<string>, l: string)
    requires |ls| >= 1
    ensures Join(ls + [l]) == Join(ls) + "\n" + l
    decreases |ls|
  {
    assert (ls + [l])[1..] == ls[1..] + [l];
    if |ls| > 1 {
      JoinSnoc(ls[1..], l);
    }
  }

  /** The raw rows of the first i rows. */
  function RawRows(g: Grid, n: int, i: nat): seq<string>
    requires IsSquare(g)
  {
    seq(i, k => RowRaw(g, k, n))
  }

  /** The raw buffer is the raw rows joined by newlines. */
  lemma {:induction false} RawBoardJoin(g: Grid, n: int, i: nat)
    requires IsSquare(g) && i >= 1
    ensures RawBoard(g, n, i) == Join(RawRows(g, n, i))
    decreases i
  {
    if i == 1 {
      assert RawBoard(g, n, 0) == [];
    } else {
      RawBoardJoin(g, n, i - 1);
      assert RawRows(g, n, i) == RawRows(g, n, i - 1) + [RowRaw(g, i - 1, n)];
      JoinSnoc(RawRows(g, n, i - 1), RowRaw(g, i - 1, n));
    }
  }

  /** One more line through trimOriginalSpaces. */
  lemma TrimStep(ls: seq<string>, k: int)
    requires 0 <= k < |ls|
    ensures Terminated(TrimAll(ls[..k])) + Trim(ls[k]) + "\n" == Terminated(TrimAll(ls[..k + 1]))
  {
    assert TrimAll(ls[..k + 1]) == TrimAll(ls[..k]) + [Trim(ls[k])];
    TerminatedSnoc(TrimAll(ls[..k]), Trim(ls[k]));
  }

  /** One more line through addNSpacesToFrontAndBack. */
  lemma PadStep(ls: seq<string>, k: int, n: int)
    requires 0 <= k < |ls|
    ensures Terminated(PadAll(ls[..k], n)) + PadLine(ls[k], k, n) + "\n" == Terminated(PadAll(ls[..k + 1], n))
  {
    assert PadAll(ls[..k + 1], n) == PadAll(ls[..k], n) + [PadLine(ls[k], k, n)];
    TerminatedSnoc(PadAll(ls[..k], n), PadLine(ls[k], k, n));
  }

  lemma {:induction false} DeleteNewlinesPlain(s: string)
    requires '\n' !in s
    ensures DeleteNewlines(s) == s
    decreases |s|
  {
    if s != [] {
      DeleteNewlinesPlain(s[1..]);
      assert [s[0]] + s[1..] == s;
    }
  }

  /**
   * The text of a board of n rows (getDimensions() equal to the array size), whose last row
   * holds a cell: line i is the row's letters separated by single spaces, centred by
   * |n / 2 - i| spaces on each side, and followed by a newline.
   */
  lemma RenderIsLines(g: Grid, n: nat)
    requires IsSquare(g) && n == |g| >= 1 && RowLetters(g, n - 1, n) != []
    ensures Render(g, n) == Terminated(Lines(g, n))
  {
    TrimmedRows(g, n);
    PaddedRows(g, n);
  }

  /** The rows' letters, single-spaced. */
  function SpacedRows(g: Grid, n: nat): seq<string>
    requires IsSquare(g)
  {
    seq(n, k => Spaced(RowLetters(g, k, n)))
  }

  /** trimOriginalSpaces turns the raw buffer into the spaced rows. */
  lemma TrimmedRows(g: Grid, n: nat)
    requires IsSquare(g) && n == |g| >= 1 && RowLetters(g, n - 1, n) != []
    ensures TrimmedLines(RawBoard(g, n, n)) == Terminated(SpacedRows(g, n))
  {
    SplitRawBoard(g, n);
    TrimRawRows(g, n);
  }

  /** The raw rows hold no newline and the last is not empty, so splitting the buffer gives them back. */
  lemma SplitRawBoard(g: Grid, n: nat)
    requires IsSquare(g) && n >= 1 && RowLetters(g, n - 1, n) != []
    ensures Split(RawBoard(g, n, n)) == RawRows(g, n, n)
  {
    var raws := RawRows(g, n, n);
    RawBoardJoin(g, n, n);
    forall k | 0 <= k < n ensures '\n' !in raws[k] {
      TrimRow(g, k, n);
    }
    RowRawLetters(g, n - 1, n);
    SplitJoin(raws);
  }

  /** Trimming each raw row leaves the spaced letters of that row. */
  lemma TrimRawRows(g: Grid, n: nat)
    requires IsSquare(g)
    ensures TrimAll(RawRows(g, n, n)) == SpacedRows(g, n)
  {
    var raws := RawRows(g, n, n);
    forall k | 0 <= k < n ensures TrimAll(raws)[k] == SpacedRows(g, n)[k] {
      TrimRow(g, k, n);
    }
  }

  /** addNSpacesToFrontAndBack turns the spaced rows into the centred lines. */
  lemma PaddedRows(g: Grid, n: nat)
    requires IsSquare(g) && n == |g| >= 1 && RowLetters(g, n - 1, n) != []
    ensures PaddedLines(Terminated(SpacedRows(g, n)), n) == Terminated(Lines(g, n))
  {
    SplitSpacedRows(g, n);
    PadSpacedRows(g, n);
  }

  /** The spaced rows hold no newline and the last is not empty, so splitting their text gives them back. */
  lemma SplitSpacedRows(g: Grid, n: nat)
    requires IsSquare(g) && n >= 1 && RowLetters(g, n - 1, n) != []
    ensures Split(Terminated(SpacedRows(g, n))) == SpacedRows(g, n)
  {
    var rows := SpacedRows(g, n);
    forall k | 0 <= k < n ensures '\n' !in rows[k] {
      PadRow(g, n, k);
    }
    RowLettersVisible(g, n - 1, n);
    SpacedVisible(RowLetters(g, n - 1, n));
    SplitTerminated(rows);
  }

  /** Padding the spaced rows gives the lines of the layout. */
  lemma PadSpacedRows(g: Grid, n: nat)
    requires IsSquare(g)
    ensures PadAll(SpacedRows(g, n), n) == Lines(g, n)
  {
    var rows := SpacedRows(g, n);
    forall k | 0 <= k < n ensures PadAll(rows, n)[k] == Lines(g, n)[k] {
      PadRow(g, n, k);
    }
  }

  /** Spaced row k holds no newline, and padding it gives line k. */
  lemma PadRow(g: Grid, n: nat, k: nat)
    requires IsSquare(g) && k < n
    ensures '\n' !in SpacedRows(g, n)[k]
    ensures PadLine(SpacedRows(g, n)[k], k, n) == Line(g, n, k)
  {
    RowLettersVisible(g, k, n);
    SpacedVisible(RowLetters(g, k, n));
    var spaces := CreateNSpaces(Abs(n / 2 - k));
    DeleteNewlinesPlain(spaces + SpacedRows(g, n)[k]);
  }

  /** A board whose getDimensions() is not positive (a mock board) renders as the empty string. */
  lemma RenderEmpty(g: Grid, n: int)
    requires IsSquare(g) && n <= 0
    ensures Render(g, n) == []
  {
    assert RawBoard(g, n, 0) == [];
    assert Split([]) == [[]];
    assert Trim([]) == [];
    assert TrimAll([[]]) == [[]];
    assert Terminated([[]]) == "\n";
    assert Pieces("\n") == [[], []];
    assert Split("\n") == [];
  }

  // ---------------------------------------------------------------------------------------
  // The board startGame lays out.
  // ---------------------------------------------------------------------------------------

  lemma {:induction false} SpacedLength(cs: seq<char>)
    ensures |Spaced(cs)| == if cs == [] then 0 else 2 * |cs| - 1
    decreases |cs|
  {
    if |cs| > 1 {
      SpacedLength(cs[..|cs| - 1]);
    }
  }

  /** Row y of the starting board holds a letter for each column of its interval. */
  lemma InitialRowLetters(n: int, y: int, j: int)
    requires ValidBoardSize(n) && 0 <= y < n && 0 <= j <= n
    ensures |RowLetters(InitialGrid(n), y, j)| ==
      if j <= RowStart(n, y) then 0 else if j >= RowEnd(n, y) then RowEnd(n, y) - RowStart(n, y) else j - RowStart(n, y)
  {
    RowWidth(n, y);
    forall x | 0 <= x < j
      ensures CheckValidCoordinates(InitialGrid(n), Coord(x, y)) <==> RowStart(n, y) <= x < RowEnd(n, y)
    {
      InitialCellValid(n, x, y);
    }
    IntervalLetters(InitialGrid(n), y, j, RowStart(n, y), RowEnd(n, y));
  }

  /** A row whose addressable cells are the columns s .. e - 1 has one letter per column of it. */
  lemma {:induction false} IntervalLetters(g: Grid, y: int, j: int, s: int, e: int)
    requires IsSquare(g) && 0 <= s <= e && 0 <= j
    requires forall x | 0 <= x < j :: CheckValidCoordinates(g, Coord(x, y)) <==> s <= x < e
    ensures |RowLetters(g, y, j)| == if j <= s then 0 else if j >= e then e - s else j - s
    decreases j
  {
    if j > 0 {
      IntervalLetters(g, y, j - 1, s, e);
    }
  }

  /** A cell of the starting board is addressable exactly when it lies in its row's interval. */
  lemma InitialCellValid(n: int, x: int, y: int)
    requires ValidBoardSize(n) && 0 <= x < n && 0 <= y < n
    ensures CheckValidCoordinates(InitialGrid(n), Coord(x, y)) <==> RowStart(n, y) <= x < RowEnd(n, y)
  {
    StartingDiscsInside(n, Coord(x, y));
  }

  /**
   * On the board startGame(n) lays out, every line of the text has 2n - 1 characters before
   * its newline: a row of n - |n / 2 - i| cells takes 2(n - |n / 2 - i|) - 1 characters and
   * the padding the rest.
   */
  lemma InitialLinesWidth(n: int)
    requires ValidBoardSize(n)
    ensures Render(InitialGrid(n), n) == Terminated(Lines(InitialGrid(n), n))
    ensures |Lines(InitialGrid(n), n)| == n
    ensures forall i | 0 <= i < n :: |Lines(InitialGrid(n), n)[i]| == 2 * n - 1
  {
    var g := InitialGrid(n);
    forall i | 0 <= i < n ensures |Lines(g, n)[i]| == 2 * n - 1 {
      InitialRowLetters(n, i, n);
      RowWidth(n, i);
      SpacedLength(RowLetters(g, i, n));
    }
    InitialRowLetters(n, n - 1, n);
    RowWidth(n, n - 1);
    RenderIsLines(g, n);
  }

  /** The board startGame(5) lays out, written out. */
  lemma InitialFiveGrid()
    ensures var N, F, B, W := Null, Disc(FACEDOWN), Disc(BLACK), Disc(WHITE);
      InitialGrid(5) == [[N, F, F, F, N], [F, W, B, F, N], [F, B, F, W, F], [F, W, B, F, N], [N, F, F, F, N]]
  {
    var N, F, B, W := Null, Disc(FACEDOWN), Disc(BLACK), Disc(WHITE);
    var g := InitialGrid(5);
    assert g[0] == [N, F, F, F, N];
    assert g[1] == [F, W, B, F, N];
    assert g[2] == [F, B, F, W, F];
    assert g[3] == [F, W, B, F, N];
    assert g[4] == [N, F, F, F, N];
  }

  /** The letters of the rows of the board startGame(5) lays out. */
  lemma FiveRowLetters(g: Grid)
    requires IsSquare(g)
    requires var N, F, B, W := Null, Disc(FACEDOWN), Disc(BLACK), Disc(WHITE);
      g == [[N, F, F, F, N], [F, W, B, F, N], [F, B, F, W, F], [F, W, B, F, N], [N, F, F, F, N]]
    ensures RowLetters(g, 0, 5) == "---" && RowLetters(g, 1, 5) == "-OX-" && RowLetters(g, 2, 5) == "-X-O-"
    ensures RowLetters(g, 3, 5) == "-OX-" && RowLetters(g, 4, 5) == "---"
  {
    var N, F, B, W := Null, Disc(FACEDOWN), Disc(BLACK), Disc(WHITE);
    assert g[0] == [N, F, F, F, N] && g[4] == [N, F, F, F, N];
    assert g[1] == [F, W, B, F, N] && g[3] == [F, W, B, F, N];
    assert g[2] == [F, B, F, W, F];
    EdgeRowLetters(g, 0);
    EdgeRowLetters(g, 4);
    InnerRowLetters(g, 1);
    InnerRowLetters(g, 3);
    MiddleRowLetters(g);
  }

  /** Rows 0 and 4 of the board startGame(5) lays out. */
  lemma EdgeRowLetters(g: Grid, y: int)
    requires IsSquare(g) && |g| == 5 && 0 <= y < 5
    requires g[y] == [Null, Disc(FACEDOWN), Disc(FACEDOWN), Disc(FACEDOWN), Null]
    ensures RowLetters(g, y, 5) == "---"
  {
    assert RowLetters(g, y, 1) == "";
    assert RowLetters(g, y, 2) == "-";
    assert RowLetters(g, y, 3) == "--";
    assert RowLetters(g, y, 4) == "---";
  }

  /** Rows 1 and 3 of the board startGame(5) lays out. */
  lemma InnerRowLetters(g: Grid, y: int)
    requires IsSquare(g) && |g| == 5 && 0 <= y < 5
    requires g[y] == [Disc(FACEDOWN), Disc(WHITE), Disc(BLACK), Disc(FACEDOWN), Null]
    ensures RowLetters(g, y, 5) == "-OX-"
  {
    assert RowLetters(g, y, 1) == "-";
    assert RowLetters(g, y, 2) == "-O";
    assert RowLetters(g, y, 3) == "-OX";
    assert RowLetters(g, y, 4) == "-OX-";
  }

  /** Row 2 of the board startGame(5) lays out. */
  lemma MiddleRowLetters(g: Grid)
    requires IsSquare(g) && |g| == 5
    requires g[2] == [Disc(FACEDOWN), Disc(BLACK), Disc(FACEDOWN), Disc(WHITE), Disc(FACEDOWN)]
    ensures RowLetters(g, 2, 5) == "-X-O-"
  {
    assert RowLetters(g, 2, 1) == "-";
    assert RowLetters(g, 2, 2) == "-X";
    assert RowLetters(g, 2, 3) == "-X-";
    assert RowLetters(g, 2, 4) == "-X-O";
  }

  lemma SpacedSnoc(cs: seq<char>, c: char)
    requires cs != []
    ensures Spaced(cs + [c]) == Spaced(cs) + [' ', c]
  {
    assert (cs + [c])[..|cs|] == cs;
  }

  /** The rows of the board startGame(5) lays out, spaced. */
  lemma FiveSpacedRows()
    ensures Spaced("---") == "- - -" && Spaced("-OX-") == "- O X -" && Spaced("-X-O-") == "- X - O -"
  {
    assert Spaced("-") == "-";
    SpacedSnoc("-", '-');
    assert "-" + ['-'] == "--";
    SpacedSnoc("--", '-');
    assert "--" + ['-'] == "---";
    assert Spaced("-") == "-";
    SpacedSnoc("-", 'O');
    assert "-" + ['O'] == "-O";
    SpacedSnoc("-O", 'X');
    assert "-O" + ['X'] == "-OX";
    SpacedSnoc("-OX", '-');
    assert "-OX" + ['-'] == "-OX-";
    assert Spaced("-") == "-";
    SpacedSnoc("-", 'X');
    assert "-" + ['X'] == "-X";
    SpacedSnoc("-X", '-');
    assert "-X" + ['-'] == "-X-";
    SpacedSnoc("-X-", 'O');
    assert "-X-" + ['O'] == "-X-O";
    SpacedSnoc("-X-O", '-');
    assert "-X-O" + ['-'] == "-X-O-";
  }

  /** The lines of the board startGame(5) lays out. */
  lemma FiveLines(g: Grid)
    requires IsSquare(g)
    requires var N, F, B, W := Null, Disc(FACEDOWN), Disc(BLACK), Disc(WHITE);
      g == [[N, F, F, F, N], [F, W, B, F, N], [F, B, F, W, F], [F, W, B, F, N], [N, F, F, F, N]]
    ensures Lines(g, 5) == ["  - - -  ", " - O X - ", "- X - O -", " - O X - ", "  - - -  "]
  {
    FiveRowLetters(g);
    FiveSpacedRows();
    EdgeLine(g, 0);
    InnerLine(g, 1);
    MiddleLine(g);
    InnerLine(g, 3);
    EdgeLine(g, 4);
    var ls := Lines(g, 5);
    assert ls == [ls[0], ls[1], ls[2], ls[3], ls[4]];
  }

  /** Lines 0 and 4 of a five-row board: three letters centred by two spaces. */
  lemma EdgeLine(g: Grid, i: int)
    requires IsSquare(g) && (i == 0 || i == 4)
    requires Spaced(RowLetters(g, i, 5)) == "- - -"
    ensures Line(g, 5, i) == "  - - -  "
  {
    assert CreateNSpaces(2) == "  ";
    assert "  " + "- - -" + "  " == "  - - -  ";
  }

  /** Lines 1 and 3 of a five-row board: four letters centred by one space. */
  lemma InnerLine(g: Grid, i: int)
    requires IsSquare(g) && (i == 1 || i == 3)
    requires Spaced(RowLetters(g, i, 5)) == "- O X -"
    ensures Line(g, 5, i) == " - O X - "
  {
    assert CreateNSpaces(1) == " ";
    assert " " + "- O X -" + " " == " - O X - ";
  }

  /** Line 2 of a five-row board: five letters and no padding. */
  lemma MiddleLine(g: Grid)
    requires IsSquare(g)
    requires Spaced(RowLetters(g, 2, 5)) == "- X - O -"
    ensures Line(g, 5, 2) == "- X - O -"
  {
    assert CreateNSpaces(0) == "";
    assert "" + "- X - O -" + "" == "- X - O -";
  }

  /**
   * The text of the board startGame(5) lays out: the five lines below, each followed by a
   * newline.
   */
  lemma InitialFiveBoard()
    ensures Render(InitialGrid(5), 5) == Terminated(["  - - -  ", " - O X - ", "- X - O -", " - O X - ", "  - - -  "])
  {
    InitialLinesWidth(5);
    InitialFiveGrid();
    FiveLines(InitialGrid(5));
  }

  // ---------------------------------------------------------------------------------------
  // The view object.
  // ---------------------------------------------------------------------------------------

  class ReversiTextualView {
    const reversiModel: ReversiHexModel
    /** The text of the buffer the view writes to. */
    var appendable: string

    constructor (reversiModel: ReversiHexModel, appendable: string)
      ensures this.reversiModel == reversiModel && this.appendable == appendable
    {
      this.reversiModel := reversiModel;
      this.appendable := appendable;
    }

    /**
     * toString: rebuilds the buffer from the model and returns it. The result depends on
     * the model alone, so asking twice gives the same text; before startGame getDimensions
     * throws, after the buffer has been emptied.
     */
    method ToString() returns (r: Result<string, Exception>)
      requires reversiModel.Valid()
      modifies this`appendable
      ensures !reversiModel.gameOn ==> r == Failure(IllegalState) && appendable == []
      ensures reversiModel.gameOn ==> r == Success(Render(old(reversiModel.Grid()), reversiModel.numRows)) && appendable == r.value
    {
      var u := UpdateBoard();
      if u.Fail? {
        return Failure(u.error);
      }
      r := Success(appendable);
    }

    /** updateBoard: the raw rows, then trimmed, then padded. Only the buffer changes. */
    method UpdateBoard() returns (r: Outcome<Exception>)
      requires reversiModel.Valid()
      modifies this`appendable
      ensures !reversiModel.gameOn ==> r == Fail(IllegalState) && appendable == []
      ensures reversiModel.gameOn ==> r == Done && appendable == Render(old(reversiModel.Grid()), reversiModel.numRows)
    {
      if appendable != [] {
        appendable := [];
      }
      ghost var g := reversiModel.Grid();
      var dims := reversiModel.GetDimensions();
      if dims.Failure? {
        return Fail(dims.error);
      }
      var n := dims.value;
      AppendRows(n, g);
      ghost var raw := appendable;
      var boardWithoutExtraSpace := TrimOriginalSpaces();
      appendable := boardWithoutExtraSpace;
      var boardAdjusted := AddNSpacesToFrontAndBack();
      appendable := boardAdjusted;
      r := Done;
      assert appendable == PaddedLines(TrimmedLines(raw), n);
      assert g == old(reversiModel.Grid());
    }

    /** The loops of updateBoard: rows 0 .. n - 1 of the model, separated by newlines. */
    method AppendRows(n: int, ghost g: Grid)
      requires reversiModel.Valid() && reversiModel.gameOn && appendable == [] && g == reversiModel.Grid()
      modifies this`appendable
      ensures appendable == RawBoard(g, n, if n < 0 then 0 else n)
    {
      var i := 0;
      while i < n
        invariant 0 <= i <= if n < 0 then 0 else n
        invariant reversiModel.Valid() && reversiModel.gameOn && g == reversiModel.Grid()
        invariant appendable == RawBoard(g, n, i)
      {
        AppendLine(i, n, g);
        i := i + 1;
      }
    }

    /** One pass of the outer loop: a newline before every row but the first, then the row. */
    method AppendLine(i: int, n: int, ghost g: Grid)
      requires reversiModel.Valid() && reversiModel.gameOn && g == reversiModel.Grid()
      requires 0 <= i && appendable == RawBoard(g, n, i)
      modifies this`appendable
      ensures appendable == RawBoard(g, n, i + 1)
    {
      if i != 0 {
        appendable := appendable + "\n";
      }
      AppendRow(i, n, g);
    }

    /** The inner loop of updateBoard: the cells (0, i) .. (n - 1, i), skipping those getDiscAt rejects. */
    method AppendRow(i: int, n: int, ghost g: Grid)
      requires reversiModel.Valid() && reversiModel.gameOn && g == reversiModel.Grid()
      modifies this`appendable
      ensures appendable == old(appendable) + RowRaw(g, i, n)
    {
      var j := 0;
      while j < n
        invariant 0 <= j <= if n < 0 then 0 else n
        invariant reversiModel.Valid() && reversiModel.gameOn && g == reversiModel.Grid()
        invariant appendable == old(appendable) + RowRaw(g, i, j)
      {
        AppendCell(j, i, g);
        ConcatAssoc(old(appendable), RowRaw(g, i, j), CellText(g, j, i));
        j := j + 1;
      }
      assert RowRaw(g, i, j) == RowRaw(g, i, n);
    }

    /** One step of the inner loop: the letter of cell (x, y) and a space, or nothing when getDiscAt throws. */
    method AppendCell(x: int, y: int, ghost g: Grid)
      requires reversiModel.Valid() && reversiModel.gameOn && g == reversiModel.Grid()
      modifies this`appendable
      ensures appendable == old(appendable) + CellText(g, x, y)
    {
      var disc := reversiModel.GetDiscAt(x, y);
      assert disc.Success? <==> CheckValidCoordinates(g, Coord(x, y));
      if disc.Success? {
        assert disc.value == ColorAt(g, Coord(x, y));
        if disc.value == BLACK {
          appendable := appendable + "X ";
        } else if disc.value == WHITE {
          appendable := appendable + "O ";
        } else if disc.value == FACEDOWN {
          appendable := appendable + "- ";
        }
      }
    }

    /** trimOriginalSpaces: each line of the buffer trimmed and followed by a newline. */
    method TrimOriginalSpaces() returns (res: string)
      ensures res == TrimmedLines(appendable)
    {
      var lines := Split(appendable);
      res := [];
      for k := 0 to |lines|
        invariant res == Terminated(TrimAll(lines[..k]))
      {
        TrimStep(lines, k);
        res := res + Trim(lines[k]) + "\n";
      }
      assert lines[..|lines|] == lines;
    }

    /** addNSpacesToFrontAndBack: line i of the buffer centred by |n / 2 - i| spaces on each side. */
    method AddNSpacesToFrontAndBack() returns (res: string)
      requires reversiModel.gameOn
      ensures res == PaddedLines(appendable, reversiModel.numRows)
    {
      ghost var n := reversiModel.numRows;
      var lines := Split(appendable);
      res := [];
      for i := 0 to |lines|
        invariant res == Terminated(PadAll(lines[..i], n))
      {
        var spacesToAdd := Abs(Half(reversiModel.GetDimensions().value) - i);
        assert spacesToAdd == Abs(Half(n) - i);
        var spaces := CreateNSpaces(spacesToAdd);
        var stringWithSpacesBeginning := DeleteNewlines(spaces + lines[i]);
        var stringWithSpacesAtEnd := stringWithSpacesBeginning + spaces;
        assert stringWithSpacesAtEnd == PadLine(lines[i], i, n);
        stringWithSpacesAtEnd := stringWithSpacesAtEnd + "\n";
        PadStep(lines, i, n);
        res := res + stringWithSpacesAtEnd;
      }
      assert lines[..|lines|] == lines;
    }
  }
}
