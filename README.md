# Hexagonal Reversi: engine, strategies, AI player, text view and provider board

This project models the core of a hexagonal Reversi game written in Java. The board is a
regular hexagon stored inside an n x n array whose rows are offset: odd rows sit half a cell
to the right. The model covers the following parts:

- `MoveRules` (`move_rules.dfy`): the six-direction neighbour arithmetic of the offset grid.
- `ModelView` (`model_view.dfy`): what the read-only interface of a started game shows. This is
  the grid of discs (a `Null` entry lies outside the hexagon), the player to move and the
  reported dimensions.
- `BoardUtils` (`board_utils.dfy`): `bfs`/`bfsHelper` as methods with their loops. They are
  proved equal to the recursive functions `Walk`/`MoveAt`, whose lemmas relate them to the
  Reversi bracketing rule (`Brackets`).
- `InitialBoard` (`initial_board.dfy`): the board `startGame(n)` lays out, in closed form. It has
  row intervals of face-down cells and six starting discs around the centre.
- `GameRules` (`game_rules.dfy`): the value-level specification of `makeMove`, `pass`,
  `isGameOver` and `getScore`, with the conservation and scoring lemmas.
- `HexModel` (`hex_model.dfy`): the engine `ReversiHexModel` as a class.
  - Its state is the board (`array2<Slot>`), the turn, the move log and the game state.
  - Its methods are proved against `InitialBoard` and `GameRules`.
  - Events sent to listeners become a returned list of `ModelEvent`s.
  - Java exceptions become `Result`/`Outcome` failures that name the exception kind.
- `AbstractStrategy`, `MaximizeCapture`, `Corners` and `MiniMax` (`abstract_strategy.dfy`,
  `maximize_capture.dfy`, `corners.dfy`, `minimax.dfy`): the move-selection policies.
  - They run on a `View` value.
  - A `HashMap` walked in some order becomes a loop that picks any remaining key. Each result
    is characterised so that it does not depend on that order.
  - `CornersStrategy` is a class, because its `positionMoveMap` persists between calls.
- `HexModelAI` (`hex_model_ai.dfy`): `ReversiHexModelAI`, where player 2 is played by a
  strategy.
- `TextualView` (`textual_view.dfy`): `ReversiTextualView`. Its methods build the text in loops
  and are proved against `Render`. `Render` is proved to equal the centred X/O/- diagram
  `Terminated(Lines(g, n))`.
- `ProviderCell`, `ProviderBoard` (`provider_cell.dfy`, `provider_board.dfy`): the independent
  `Cell` and `Board` classes of the provider model.

Where the Java tests (for example `test/ReversiHexModelAiTests.java`) and the interface
comments expect behaviour the code does not have, the model follows the code:

- `ReversiHexModelAI` overrides only `pass`. Player 2 therefore answers after a pass by
  player 1, not after a move.
- When player 2's position is on the board but illegal, `makeMove` refuses it without
  throwing. The turn stays with player 2 and no pass is substituted. Only a position that
  `getDiscAt` rejects makes player 2 pass.
- `pass` and the other operations throw before `startGame` (`IllegalState`, or `NullPointer`
  where the code dereferences the missing board). They do not always succeed.
- `startGame` records the requested size before validating it. A refused second start
  therefore still changes what `getDimensions` reports.
- `doesPlayerHaveLegalMove` answers whether the player to move still has a disc, not whether
  it has a legal move.
- Starting discs: when the middle index n / 2 is odd, `setStartingPieces` calls
  `setPiecesForEvenMiddle`, and the reverse when it is even. `StartingColor` follows this.

## Model

| member | source | states |
|---|---|---|
| MoveRules.ApplyShift | src/model/MoveRules.java:42-44 | the result differs from the input by exactly the given x and y shifts |
| MoveRules.ShiftGeometry | src/model/MoveRules.java:17-38 | every direction leads to a different cell at most one step away. LEFT/RIGHT keep the row. UP* go one row up and DOWN* one row down. Right diagonals move x by 0 from an even row and +1 from an odd row; left diagonals by -1 and 0 |
| MoveRules.ShiftExamples | test/ReversiHexModelAiTests.java:280-281 | (1, 2) shifted down-left is (0, 3), and (1, 1) shifted up-right is (2, 0) |
| MoveRules.StepBack | src/model/MoveRules.java:20-36 | a step in a direction followed by a step in the opposite direction returns to the start |
| MoveRules.NeighboursDistinct | src/model/MoveRules.java:17-38 | two different directions lead to two different neighbours |
| MoveRules.DirectionsComplete | src/model/MoveDirection.java:6-13 | `Directions` lists every direction exactly once |
| ModelView.GetPlayerColor | src/model/ReversiHexModel.java:452-454 | player 1 plays black and player 2 white; no player plays face down |
| ModelView.GetOpponent | src/model/ReversiHexModel.java:458-463 | the opponent is the other player, and it plays the other colour |
| ModelView.ColorsPartitionBoard | src/model/ReversiHexModel.java:467-480 | each hexagon cell is exactly one of black, white, face down; the three counts add up to the number of hexagon cells |
| BoardUtils.BfsHelper | src/model/BoardUtils.java:38-74 | the loop returns `Walk`: for one direction, the list the walk builds, or empty when the run is not bracketed |
| BoardUtils.Bfs | src/model/BoardUtils.java:24-34 | returns `MoveAt`: the non-empty walks of the six directions, in enum order |
| BoardUtils.StepOnBoardShrinksRoom | src/model/BoardUtils.java:47-54 | each step that stays on the board shrinks the room left in that direction, so the walk terminates |
| BoardUtils.WalkStart | src/model/BoardUtils.java:52-62 | the first step yields nothing when it leaves the board or meets a null cell, and nothing unless it lands on an opponent disc |
| BoardUtils.PendingStep | src/model/BoardUtils.java:64-71 | after the first opponent disc: an own disc ends the run with what was collected; a face-down cell or the edge yields nothing; an opponent disc extends the run |
| BoardUtils.RestSound | src/model/BoardUtils.java:41-74 | a run the walk finds is a run of opponent discs closed by a disc of the player to move |
| BoardUtils.RestComplete | src/model/BoardUtils.java:41-74 | conversely, every run of m opponent discs closed by an own disc is found, with length m |
| BoardUtils.CapturedIsBracketed | src/model/BoardUtils.java:41-74 | the discs captured in a direction are consecutive steps forming a bracketed run |
| BoardUtils.BracketedIsCaptured | src/model/BoardUtils.java:41-74 | every bracketed run is captured, and it is the only one in its direction |
| BoardUtils.WalkShape | src/model/BoardUtils.java:41-71 | a walk is empty exactly when nothing is captured. Otherwise it has 2k + 2 entries for k captured discs and names the start and those discs, not the closing disc |
| BoardUtils.CollectEmpty | src/model/BoardUtils.java:24-34 | bfs keeps at most one result per direction, and none exactly when no direction captures |
| BoardUtils.CollectPaths | src/model/BoardUtils.java:24-34 | each entry of bfs is the non-empty walk of one direction |
| BoardUtils.CollectFlipSet | src/model/BoardUtils.java:24-34 | the positions bfs names are the start and every captured disc |
| BoardUtils.MoveAtFacts | src/model/BoardUtils.java:24-74 | bfs has at most six entries; it is empty iff no direction brackets a run; it names the start and captured discs, all of them opponent discs |
| InitialBoard.RowWidth | src/model/ReversiHexModel.java:106-187 | each laid-out row fits the board and has n - abs(n/2 - i) cells |
| InitialBoard.RowsSymmetric | src/model/ReversiHexModel.java:106-187 | the hexagon is symmetric about its middle row |
| InitialBoard.MirrorRow | src/model/ReversiHexModel.java:106-187 | a row above the middle and the row as far below it have the same interval |
| InitialBoard.StartingDiscsInside | src/model/ReversiHexModel.java:210-235 | the six starting discs lie inside their rows' intervals of cells |
| InitialBoard.StartingDiscsRingCentre | src/model/ReversiHexModel.java:210-235 | the starting discs are exactly the six neighbours of the centre, each facing a disc of the other colour across it, and the centre stays face down |
| GameRules.AcceptsLegalMoves | src/model/ReversiHexModel.java:279-322 | makeMove's checks (valid cell, face down, some capture) accept exactly the face-down cells that bracket a run |
| GameRules.PathLog | src/model/ReversiHexModel.java:323-345 | one log line per path entry, duplicates included |
| GameRules.AllPathsEmpty | src/model/ReversiHexModel.java:427-442 | the all-paths-empty test on bfs holds exactly when the cell brackets nothing in any direction |
| GameRules.LegalMoveOnBoard | src/model/ReversiHexModel.java:323-345 | every cell a legal move paints belongs to the hexagon |
| GameRules.PaintedCells | src/model/ReversiHexModel.java:348-351 | painting a set of cells adds exactly them to the painted colour, removes them from another colour, and keeps the hexagon |
| GameRules.FlipsOfLegalMove | src/model/ReversiHexModel.java:323-345 | a legal move paints the chosen face-down cell and the captured opponent discs |
| GameRules.ScoreAfterMove | src/model/ReversiHexModel.java:279-345 | after a legal move capturing k discs, the mover has k + 1 more discs, the opponent k fewer, one fewer cell is face down, and the hexagon is the same |
| GameRules.MoveLogNamesFlips | src/model/ReversiHexModel.java:323-345 | the log lines of a move name exactly the positions it paints |
| GameRules.GameGoesOn | src/model/ReversiHexModel.java:399-423 | the game goes on exactly when the last two lines are not both passes, both players have discs, and the player to move has a legal move |
| GameRules.WinnerHasDiscs | src/model/ReversiHexModel.java:399-423 | when a win is declared the loser has no discs, and a winner who is the player to move has some |
| GameRules.PassExtendsRun | src/model/ReversiHexModel.java:353-362 | a pass extends a run of trailing passes by one |
| GameRules.MoveEndsPassRun | src/model/ReversiHexModel.java:353-362 | after a legal move the log does not end in passes |
| GameRules.ScanCountsCells | src/model/ReversiHexModel.java:467-480 | the running count of the row-by-row scan is the number of matching cells scanned so far |
| GameRules.ScanCountsColour | src/model/ReversiHexModel.java:467-480 | the count over the whole board is the number of discs of that colour |
| HexModel.OddMiddleRow | src/model/ReversiHexModel.java:106-144 | the margins the loop uses for row i are that row's interval, and its updated margins are those of row i + 1 |
| HexModel.EvenMiddleRow | src/model/ReversiHexModel.java:149-187 | in the even-middle layout, the margins for row i are that row's interval once the right margin has been bumped past the middle, and the updated margins are those of row i + 1 |
| HexModel.ReversiHexModel.constructor | src/model/ReversiHexModel.java:40-54 | a model before startGame: no board, player 1 to move, empty log, ongoing state |
| HexModel.ReversiHexModel.Mock | src/model/ReversiHexModel.java:61-75 | a started model playing on the caller's array (shared), with dimensions 0 |
| HexModel.ReversiHexModel.PlaceGameDiscs | src/model/ReversiHexModel.java:94-100 | turns face down exactly the cells of row i between the two margins; the other cells are unchanged |
| HexModel.ReversiHexModel.InitBoardWithOddMiddle | src/model/ReversiHexModel.java:106-144 | lays out exactly the row intervals of `InitialBoard` when n / 2 is odd |
| HexModel.ReversiHexModel.InitBoardWithEvenMiddle | src/model/ReversiHexModel.java:149-187 | lays out exactly the row intervals of `InitialBoard` when n / 2 is even |
| HexModel.ReversiHexModel.SetPiece | src/model/ReversiHexModel.java:204-208 | puts the disc at (x, y) and changes no other cell |
| HexModel.ReversiHexModel.SetPiecesForOddMiddle | src/model/ReversiHexModel.java:219-226 | places the six discs of `OddMiddlePieces` and changes no other cell |
| HexModel.ReversiHexModel.SetPiecesForEvenMiddle | src/model/ReversiHexModel.java:228-235 | places the six discs of `EvenMiddlePieces` and changes no other cell |
| HexModel.ReversiHexModel.SetStartingPieces | src/model/ReversiHexModel.java:210-217 | places the starting discs of `StartingColor` (swapped helper names followed) |
| HexModel.ReversiHexModel.InitBoard | src/model/ReversiHexModel.java:193-202 | the board becomes `InitialGrid(n)` |
| HexModel.ReversiHexModel.CheckStartGameConditions | src/model/ReversiHexModel.java:238-244 | a started game gives IllegalState first; otherwise a size that is not odd and above 3 gives IllegalArgument |
| HexModel.ReversiHexModel.StartGame | src/model/ReversiHexModel.java:247-255 | on success the board is `InitialGrid(n)`; a refused call keeps the board but still records the size; turn, log and state never change |
| HexModel.ReversiHexModel.GetDimensions | src/model/ReversiHexModel.java:258-261 | the recorded size once started, IllegalState before |
| HexModel.ReversiHexModel.CheckValidCoordinates | src/model/ReversiHexModel.java:271-276 | true exactly for hexagon cells; NullPointer before start |
| HexModel.ReversiHexModel.GetDiscAt | src/model/ReversiHexModel.java:496-502 | the colour of a hexagon cell; IllegalArgument off the hexagon, IllegalState before start |
| HexModel.ReversiHexModel.IsDiscFlipped | src/model/ReversiHexModel.java:505-511 | whether a hexagon cell is not face down, with the same errors as getDiscAt |
| HexModel.ReversiHexModel.CanPlayerPlay | src/model/ReversiHexModel.java:389-396 | true exactly for face-down hexagon cells; IllegalState before start |
| HexModel.ReversiHexModel.CurrentTurn | src/model/ReversiHexModel.java:445-448 | the player to move once started, IllegalState before |
| HexModel.ReversiHexModel.GetCurrentGameState | src/model/ReversiHexModel.java:366-369 | the recorded game state once started, IllegalState before |
| HexModel.ReversiHexModel.GetCurrentBoardState | src/model/ReversiHexModel.java:372-386 | a fresh array equal to the board, not shared with the model |
| HexModel.ReversiHexModel.GetScore | src/model/ReversiHexModel.java:467-480 | the number of discs of the player's colour |
| HexModel.ReversiHexModel.DoesPlayerHaveLegalMove | src/model/ReversiHexModel.java:484-488 | whether the player to move has a disc on the board |
| HexModel.ReversiHexModel.NoMoreLegalMoves | src/model/ReversiHexModel.java:427-442 | true exactly when no face-down cell brackets a run for the player to move |
| HexModel.ReversiHexModel.SearchColumn | src/model/ReversiHexModel.java:429-439 | finding a capturing cell in column i means the mover has a legal move; finding none means no cell of the column captures |
| HexModel.ReversiHexModel.CapturesAt | src/model/ReversiHexModel.java:430-435 | true exactly when cell (i, j) is face down and brackets a run for the mover |
| HexModel.ReversiHexModel.TogglePlayer | src/model/ReversiHexModel.java:542-549 | the turn passes to the opponent |
| HexModel.ReversiHexModel.MakeMove | src/model/ReversiHexModel.java:279-345 | before start NullPointer. A rejection reports why, changes nothing, and keeps the mover's turn event. A legal move makes the board `AfterMove`, logs `MoveLog` and hands over the turn |
| HexModel.ReversiHexModel.Screen | src/model/ReversiHexModel.java:283-322 | the rejection reported is `Rejection` (off the board, then not face down, then no capture), and an accepted position comes with its `MoveAt` paths |
| HexModel.ReversiHexModel.PlayLegalMove | src/model/ReversiHexModel.java:323-345 | a legal move leaves the board `AfterMove`, logs `MoveLog` of its paths and gives the turn to the opponent |
| HexModel.ReversiHexModel.PaintMove | src/model/ReversiHexModel.java:323-351 | paints every position of every path and logs one line per entry |
| HexModel.ReversiHexModel.PaintPath | src/model/ReversiHexModel.java:327-331 | the cells of one path take the colour, the rest keep theirs, and one log line per cell is appended |
| HexModel.ReversiHexModel.Pass | src/model/ReversiHexModel.java:514-529 | toggles the turn, logs a pass and reports the new turn; IllegalState before start; the board is untouched |
| HexModel.ReversiHexModel.IsGameOver | src/model/ReversiHexModel.java:399-423 | answers whether `GameOutcome` decides the game, and records the verdict; an undecided game keeps its state |
| HexModel.ReversiHexModel.Judge | src/model/ReversiHexModel.java:401-422 | the tests in their order yield exactly `GameOutcome` of the board and log |
| AbstractStrategy.ScanFacts | src/strategy/AbstractStrategy.java:51-66 | the scan lists exactly the selected cells it visits, each once, column by column |
| AbstractStrategy.ScanInRange | src/strategy/AbstractStrategy.java:51-66 | every listed cell is on the board and its coordinates fit an int |
| AbstractStrategy.GetPositionsForBFS | src/strategy/AbstractStrategy.java:51-66 | exactly the face-down hexagon cells with coordinates below getDimensions(), ordered by x then y |
| AbstractStrategy.GetLengthOfMove | src/strategy/AbstractStrategy.java:103-109 | the sum of the lengths of the move's paths |
| AbstractStrategy.MoveLengthZero | src/strategy/AbstractStrategy.java:103-109 | the length is zero exactly when every path is empty |
| AbstractStrategy.BfsLength | src/model/BoardUtils.java:41-71 | the raw length of bfs counts 2k + 2 per capturing direction, and is zero exactly when bfs is empty |
| AbstractStrategy.BestIsUnique | src/strategy/AbstractStrategy.java:111-184 | the best key (best score, ties up-left) is unique, so the selectors do not depend on map order |
| AbstractStrategy.BestExists | src/strategy/AbstractStrategy.java:111-184 | a non-empty map has a best key |
| AbstractStrategy.Best | src/strategy/AbstractStrategy.java:111-184 | None exactly for the empty map, otherwise the best key |
| AbstractStrategy.LongestKeys | src/strategy/AbstractStrategy.java:113-124 | the first loop keeps the greatest length and exactly the keys that have it |
| AbstractStrategy.UpLeftMost | src/strategy/AbstractStrategy.java:126-139 | the smallest (x, y) among the ties, or the sentinel when there are none |
| AbstractStrategy.LongestFromTies | src/strategy/AbstractStrategy.java:111-141 | the two loops determine the longest, up-left-most key |
| AbstractStrategy.GetLongestAndMostUpLeftFromMap | src/strategy/AbstractStrategy.java:111-141 | the key with the longest move, ties to the smallest x then y; the (MAX_VALUE, MAX_VALUE) sentinel for an empty map |
| AbstractStrategy.GetUpLeftMostInMove | src/strategy/AbstractStrategy.java:143-157 | the lexicographically smallest position of the move, or the sentinel when it names none |
| AbstractStrategy.DistanceBelowMax | src/strategy/AbstractStrategy.java:169-172 | Manhattan distances between board positions stay below MAX_VALUE, so the sums cannot overflow |
| AbstractStrategy.MinDist | src/strategy/AbstractStrategy.java:194-201 | the nearest-corner distance never exceeds MAX_VALUE |
| AbstractStrategy.MinDistIsNearest | src/strategy/AbstractStrategy.java:194-201 | no corner is nearer than MinDist, and some corner attains it unless it is MAX_VALUE |
| AbstractStrategy.MinDistFinite | src/strategy/AbstractStrategy.java:194-201 | the distance is below MAX_VALUE exactly when there is a corner |
| AbstractStrategy.PathDist | src/strategy/AbstractStrategy.java:191-203 | the least distance from a path's positions to a corner is at most MAX_VALUE |
| AbstractStrategy.PathDistIsNearest | src/strategy/AbstractStrategy.java:191-203 | no (position, corner) pair is closer, and some pair attains it unless it is MAX_VALUE |
| AbstractStrategy.ClosestDistance | src/strategy/AbstractStrategy.java:187-206 | the least move-to-corner distance is at most MAX_VALUE |
| AbstractStrategy.ClosestDistanceIsNearest | src/strategy/AbstractStrategy.java:187-206 | no position of the move is closer to any corner, and some pair attains it unless it is MAX_VALUE |
| AbstractStrategy.ClosestDistanceFinite | src/strategy/AbstractStrategy.java:187-206 | MAX_VALUE exactly when the move names no position or there is no corner |
| AbstractStrategy.GetClosestCoordinateToCorner | src/strategy/AbstractStrategy.java:187-206 | returns `ClosestDistance`: the minimum Manhattan distance from the move's positions to the corners |
| AbstractStrategy.ConsiderTwice | src/strategy/AbstractStrategy.java:171-180 | comparing one key at two distances is comparing it at the smaller one |
| AbstractStrategy.ConsiderKey | src/strategy/AbstractStrategy.java:166-181 | the inner loop over the corners amounts to one comparison at the key's nearest corner |
| AbstractStrategy.NearestStep | src/strategy/AbstractStrategy.java:163-182 | one more key keeps the invariant: the best so far is the nearest visited key, ties up-left |
| AbstractStrategy.NearestFinal | src/strategy/AbstractStrategy.java:163-183 | once all keys are visited, the invariant pins down the nearest key |
| AbstractStrategy.GetMoveWithClosestCoordinateFromMap | src/strategy/AbstractStrategy.java:159-184 | the key whose own position is nearest some corner, ties to the smallest (x, y); the empty list when there is no key or no corner |
| AbstractStrategy.AnyNeighbourIn | src/strategy/AbstractStrategy.java:225-231 | true iff one of the given directions leads to a corner |
| AbstractStrategy.AdjacentPositionInMap | src/strategy/AbstractStrategy.java:221-232 | true iff one step in some direction leads to a corner |
| AbstractStrategy.PathIsAdjacentToCorner | src/strategy/AbstractStrategy.java:211-215 | true iff some position of the path is next to a corner |
| AbstractStrategy.MoveIsAdjacentToCorner | src/strategy/AbstractStrategy.java:208-218 | true iff some position named by the move is next to a corner |
| MaximizeCapture.ExecuteStrategy | src/strategy/MaximizeCaptureStrategy.java:31-61 | returns `MaximizeChoice`: the longest, up-left-most entry of the map from each face-down cell to its bfs result |
| MaximizeCapture.MaximizeWithoutCandidates | src/strategy/MaximizeCaptureStrategy.java:31-61 | with no face-down cell the result is the out-of-bounds sentinel |
| MaximizeCapture.MaximizeIsLongest | src/strategy/MaximizeCaptureStrategy.java:31-61 | the result is a face-down cell whose raw move length is the greatest, and up-left of every other cell of that length |
| MaximizeCapture.MaximizeWithoutCaptures | src/strategy/MaximizeCaptureStrategy.java:31-61 | when face-down cells exist but none captures, the up-left-most face-down cell is returned |
| MaximizeCapture.MaximizePlaysLegalMove | src/strategy/MaximizeCaptureStrategy.java:31-61 | on a board whose getDimensions() equals its row count (v.dims equals the length of v.board), whenever the player to move has a legal move, the chosen cell is a legal move |
| Corners.SetUpCornerMap | src/strategy/CornersStrategy.java:40-71 | exactly the cells of the first, last and middle rows whose left or right neighbour is missing, in scan order |
| Corners.CornersOfColumn | src/strategy/CornersStrategy.java:47-68 | the inner loop lists the corners of one column |
| Corners.CornerColumnStep | src/strategy/CornersStrategy.java:48-64 | one more row of the corner scan, with its tests spelled out |
| Corners.RecordAll | src/strategy/CornersStrategy.java:76-94 | recording only adds keys, and only positions that were tried |
| Corners.AvoidKeepsAwayFromCorners | src/strategy/CornersStrategy.java:79-81 | avoiding corners, each entry is an old untouched one or a tried move none of whose positions is next to a corner |
| Corners.GoForNeverFarther | src/strategy/CornersStrategy.java:82-92 | going for corners, an entry is replaced only by a strictly nearer move, so a key's stored distance never grows |
| Corners.PrunedInTwoSteps | src/strategy/CornersStrategy.java:95-98 | the two removeIf calls keep only face-down cells with a non-empty move |
| Corners.FreshRunSucceeds | src/strategy/CornersStrategy.java:74-98 | a first run stores only scanned cells, so removeIf never throws |
| Corners.CornersStrategy.constructor | src/strategy/CornersStrategy.java:31-38 | the corners of the board and an empty map |
| Corners.CornersStrategy.ExecuteStrategy | src/strategy/CornersStrategy.java:73-102 | records onto the kept map; a stale key throws IllegalArgument; otherwise prunes and returns the longest (avoid) or nearest-corner (go for) entry, all kept entries being face-down with a move |
| Corners.CornersStrategy.RecordMoves | src/strategy/CornersStrategy.java:76-94 | the map becomes `RecordAll` of the positions |
| Corners.CornersStrategy.RemoveNotFaceDown | src/strategy/CornersStrategy.java:95-97 | succeeds iff no stored key is off the board, and then keeps exactly the face-down keys |
| Corners.CornersStrategy.RemoveEmptyMoves | src/strategy/CornersStrategy.java:98 | keeps exactly the entries with a non-empty move |
| MiniMax.ExecuteMaximize | src/strategy/MiniMaxStrategy.java:61-65 | a fresh maximize strategy's choice |
| MiniMax.ExecuteAvoidCorners | src/strategy/MiniMaxStrategy.java:55-59 | a fresh avoiding corner strategy's first-run choice, with no state carried over |
| MiniMax.ExecuteGoForCorner | src/strategy/MiniMaxStrategy.java:49-53 | a fresh corner-seeking strategy's first-run choice |
| MiniMax.MiniMaxChoice | src/strategy/MiniMaxStrategy.java:34-46 | the answer is always one of the three base strategies' choices on the current board, and the maximize choice when the last recorded move was a pass |
| MiniMax.ExecuteStrategy | src/strategy/MiniMaxStrategy.java:28-47 | IndexOutOfBounds exactly when there are fewer than two states or the prior state has no move; otherwise `MiniMaxChoice` |
| HexModelAI.ReversiHexModelAI.constructor | src/model/ReversiHexModelAI.java:37-44 | an unstarted game with no player 2 and empty lists |
| HexModelAI.ReversiHexModelAI.Copy | src/model/ReversiHexModelAI.java:51-66 | for a started game: a fresh board with the same discs and the other fields equal, and no player 2 |
| HexModelAI.ReversiHexModelAI.CopyEngine | src/model/ReversiHexModelAI.java:52-59 | for a started game: a fresh engine with every field of the original and a fresh array holding the same discs |
| HexModelAI.SameDiscs | src/model/ReversiHexModelAI.java:56 | two arrays with equal entries give the same board |
| HexModelAI.ReversiHexModelAI.IterateOverDiscArray | src/model/ReversiHexModelAI.java:68-76 | a fresh n x n array with the entries of the original |
| HexModelAI.ReversiHexModelAI.CreateAI | src/model/ReversiHexModelAI.java:78-94 | creates player 2's strategy once; a corner strategy before start throws IllegalState |
| HexModelAI.ReversiHexModelAI.RunStrategy | src/model/ReversiHexModelAI.java:110-111 | the strategy's answer is `Reply` on the current board and kept corner state |
| HexModelAI.ReversiHexModelAI.RunCorners | src/model/ReversiHexModelAI.java:110-111 | a corner strategy's answer on a started game is `Reply` with the kept corners and map |
| HexModelAI.ReversiHexModelAI.MoveAi | src/model/ReversiHexModelAI.java:109-130 | the effect is `MoveAiEffect` of the strategy's reply: failure propagates; an off-board position makes player 2 pass; otherwise makeMove runs and the position is recorded |
| HexModelAI.ReversiHexModelAI.PlayReply | src/model/ReversiHexModelAI.java:112-129 | given the reply, the board, turn and both lists change as `MoveAiEffect` says |
| HexModelAI.ReversiHexModelAI.PlaceAt | src/model/ReversiHexModelAI.java:121-125 | an on-board position goes through makeMove and is recorded in allMoves, as `MoveAiEffect` says |
| HexModelAI.ReversiHexModelAI.Pass | src/model/ReversiHexModelAI.java:133-142 | player 2's pass hands the turn back; player 1's pass hands it to player 2, whose reply runs first; then a pass is recorded in both lists |
| HexModelAI.ReversiHexModelAI.HandOver | src/model/ReversiHexModelAI.java:134-136 | player 1's pass gives the turn to player 2, and the board, turn and lists then change as `MoveAiEffect` of the strategy's reply says |
| TextualView.Pieces | src/view/ReversiTextualView.java:85 | the pieces between newlines: at least one, none holding a newline |
| TextualView.DropTrailingEmpty | src/view/ReversiTextualView.java:85 | a prefix ending in a non-empty string, with only empty strings cut |
| TextualView.Split | src/view/ReversiTextualView.java:65 | no piece of split holds a newline |
| TextualView.Trim | src/view/ReversiTextualView.java:87 | the result starts and ends with a character above a space |
| TextualView.DeleteNewlines | src/view/ReversiTextualView.java:69 | the result holds no newline |
| TextualView.CreateNSpaces | src/view/ReversiTextualView.java:78-80 | max(0, n) spaces |
| TextualView.RowRawLetters | src/view/ReversiTextualView.java:40-53 | a row's raw text is its letters separated by spaces plus one trailing space, or empty |
| TextualView.SpacedVisible | src/view/ReversiTextualView.java:43-48 | spaced letters are empty iff there are no letters, begin and end with a letter, hold no newline |
| TextualView.TrimRow | src/view/ReversiTextualView.java:83-90 | trimming a raw row leaves exactly the spaced letters |
| TextualView.SplitJoin | src/view/ReversiTextualView.java:85 | split undoes joining by newlines when the last line is not empty |
| TextualView.SplitTerminated | src/view/ReversiTextualView.java:65 | split undoes newline-terminating the lines when the last line is not empty |
| TextualView.RawBoardJoin | src/view/ReversiTextualView.java:36-54 | the raw buffer is the raw rows joined by newlines |
| TextualView.TrimStep | src/view/ReversiTextualView.java:86-88 | one more line through trimOriginalSpaces |
| TextualView.PadStep | src/view/ReversiTextualView.java:66-73 | one more line through addNSpacesToFrontAndBack |
| TextualView.RenderIsLines | src/view/ReversiTextualView.java:31-75 | the text is line i = the row's letters single-spaced, centred by abs(n/2 - i) spaces each side, each line ended by a newline |
| TextualView.TrimmedRows | src/view/ReversiTextualView.java:83-90 | trimming the raw board gives each row's letters single-spaced, one per line |
| TextualView.PaddedRows | src/view/ReversiTextualView.java:63-75 | padding those lines gives exactly the centred lines of `Lines` |
| TextualView.RenderEmpty | src/view/ReversiTextualView.java:36-40 | a board with non-positive dimensions renders as the empty string |
| TextualView.SpacedLength | src/view/ReversiTextualView.java:43-48 | k letters spaced take 2k - 1 characters |
| TextualView.InitialRowLetters | src/model/ReversiHexModel.java:106-187 | row y of the starting board shows one letter per cell of its interval |
| TextualView.InitialLinesWidth | test/ReversiTextualViewTests.java:26-61 | on the starting board every line has 2n - 1 characters before its newline |
| TextualView.FiveRowLetters | test/ReversiTextualViewTests.java:117-125 | the letters of the rows of the starting 5-board |
| TextualView.FiveLines | test/ReversiTextualViewTests.java:117-125 | the five centred lines of the starting 5-board |
| TextualView.InitialFiveBoard | test/ReversiTextualViewTests.java:117-125 | the starting 5-board renders exactly as the asserted diagram |
| TextualView.ReversiTextualView.constructor | src/view/ReversiTextualView.java:18-21 | keeps the model and the buffer |
| TextualView.ReversiTextualView.ToString | src/view/ReversiTextualView.java:25-28 | returns `Render` of the model's board, which depends on the model alone (so a second call gives the same text); IllegalState before start |
| TextualView.ReversiTextualView.UpdateBoard | src/view/ReversiTextualView.java:31-59 | the buffer becomes `Render` of the board; only the buffer changes |
| TextualView.ReversiTextualView.AppendRows | src/view/ReversiTextualView.java:36-54 | the nested loops build the raw buffer `RawBoard` |
| TextualView.ReversiTextualView.AppendRow | src/view/ReversiTextualView.java:40-53 | one row's cells appended, skipping those getDiscAt rejects |
| TextualView.ReversiTextualView.TrimOriginalSpaces | src/view/ReversiTextualView.java:83-90 | each line trimmed and followed by a newline |
| TextualView.ReversiTextualView.AddNSpacesToFrontAndBack | src/view/ReversiTextualView.java:63-75 | line i padded by abs(n/2 - i) spaces on each side and followed by a newline |
| ProviderCell.FillThenColor | src/provider/model/Cell.java:104-111 | filling an empty cell with black or white makes it report that colour |
| ProviderCell.FillOnce | src/provider/model/Cell.java:115-117 | a filled cell cannot be filled again |
| ProviderCell.FlipInvolution | src/provider/model/Cell.java:125-134 | flipping is defined exactly on filled cells, changes the colour, and twice is the identity |
| ProviderCell.Cell.constructor | src/provider/model/Cell.java:31-35 | the given state and coordinate |
| ProviderCell.Cell.Empty | src/provider/model/Cell.java:42-45 | an empty cell at the given coordinate |
| ProviderCell.Cell.GetColor | src/provider/model/Cell.java:52-64 | black iff black-filled, white iff white-filled; IllegalArgument iff empty |
| ProviderCell.Cell.GetCellsCoordinate | src/provider/model/Cell.java:71-89 | the coordinate agrees with getQCoord and getRCoord |
| ProviderCell.Cell.GetStateOfCell | src/provider/model/Cell.java:95-98 | the state determines what getColor reports |
| ProviderCell.Cell.FillMyCell | src/provider/model/Cell.java:104-118 | empty + black/white fills it; other colours IllegalArgument, filled cell IllegalState, state unchanged on error |
| ProviderCell.Cell.FlipMyColor | src/provider/model/Cell.java:125-135 | swaps black and white, changing the colour; an empty cell gives IllegalState and stays empty |
| ProviderBoard.LineWidth | src/provider/model/Board.java:73-104 | the kept entries of line j form one run of d - abs(d/2 - j) cells |
| ProviderBoard.MiddleLineKept | src/provider/model/Board.java:73-104 | the middle line is never nulled |
| ProviderBoard.Board.Default | src/provider/model/Board.java:17-26 | the hexagon of size 7 with fresh empty cells |
| ProviderBoard.Board.constructor | src/provider/model/Board.java:36-47 | a d x d array: exactly the hexagon entries hold fresh empty cells with coordinate (i, j), the rest are null |
| ProviderBoard.Board.Copy | src/provider/model/Board.java:52-66 | same size and null pattern as the other board, but every cell is new and empty |
| ProviderBoard.Board.FilledCells | src/provider/model/Board.java:39-45 | every entry a fresh empty cell carrying its own indices |
| ProviderBoard.Board.FillRow | src/provider/model/Board.java:40-44 | one row of fresh empty cells, other rows unchanged |
| ProviderBoard.Board.NullifyTopHalfMakeHexShape | src/provider/model/Board.java:73-87 | nulls exactly indices 0 .. d/2 - 1 - j of each line j < d/2 |
| ProviderBoard.Board.NullTopLine | src/provider/model/Board.java:77-85 | one line of the top wedge nulled, the rest unchanged |
| ProviderBoard.Board.NullifyBottomToMakeHexShape | src/provider/model/Board.java:92-104 | nulls exactly indices d/2 + t + 1 .. d - 1 of line d - 1 - t |
| ProviderBoard.Board.NullBottomLine | src/provider/model/Board.java:96-102 | one line of the bottom wedge nulled, the rest unchanged |

## Left out

- Listeners, `notifyListeners` and the event objects: `makeMove` and `pass` return the list
  of event kinds they would send instead. Console output (`System.out.println`) is dropped.
- The Swing views, controllers, `Main`, the player classes and the `chooseMove` adapters
  to the provider `Coordinate`: user interface and wiring outside the core.
- `getOppositeColor` and `getAllAdjacent` in `AbstractStrategy`, `moveNonAi` and
  `createCopyOfModel` in `ReversiHexModelAI`, and the `getGameStates`/`getMoves` getters:
  they are never called, or only return a field or null.
- The test mocks `CornerStrategyMock` and `MaximizeCaptureStrategyMock`: they duplicate the
  production strategies with extra string output.
- Concrete test scenarios (particular moves on a 7-board and the strategy picks asserted
  there): the lemmas state the general rules those examples follow, and only the starting
  5-board diagram is worked out.
- HexModelAI.ReversiHexModelAI.CreateAI: `player2` is created by `CreateAI` itself. The code
  only creates it inside `moveNonAi`, which nothing calls, so the real code's AI has no
  player 2 and a pass by player 1 throws `NullPointerException`. `Pass` models that case too.
- HexModelAI.ReversiHexModelAI.Copy: the copy constructor shares the move lists and the log
  builder with the original. The model copies them as values, so later aliasing between the
  two objects is not captured. Copying a game that has not started throws
  `NullPointerException` in Java (its board is still null when `iterateOverDiscArray` reads
  its length); `Copy` requires a started game and does not model that throw.
- HexModelAI.ReversiHexModelAI.CopyEngine: requires a started game, for the same reason as
  `Copy`; the Java lines it models throw `NullPointerException` on an unstarted game.
- HexModelAI.ReversiHexModelAI.RunStrategy: `gameStates` is never filled, so a minimax player
  2 always fails with `IndexOutOfBoundsException`. `MiniMax.ExecuteStrategy` is modelled on
  a list of game records passed in.
- MiniMax.ExecuteStrategy: the recorded moves of an earlier state are modelled as log
  actions of a started game; the `ReadOnlyReversiModel` copies in the list are not modelled.
- Corners.CornersStrategy.ExecuteStrategy: after `removeIf` throws on a stale key, the
  contents of the map are not specified beyond that keys only disappear.
- TextualView.ReversiTextualView.ToString: the model's text buffer is a string value. The
  Java buffer is the caller's `Appendable` until the first rebuild, and anything written to
  it through other references is not modelled. The view is modelled only over
  `ReversiHexModel`.
- ProviderBoard.Board.constructor: requires a non-negative dimension; Java throws
  `NegativeArraySizeException` for a negative one.
- ProviderCell.Color: `java.awt.Color` is reduced to black, white and any other colour.
- The move log assumes the line separator is a newline, and each "x y" line is kept as a
  coordinate rather than as text.
- Integer overflow: the board size is bounded by `MaxBoardSize` (2^30), so every
  coordinate, distance and count fits a Java `int`; larger boards are not modelled.
