# Hexagonal Reversi engine in Dafny

This project models the engine of a Reversi game played on a hexagonal
board of axial coordinates (q, r). It covers four parts of the Java
program and proves the rules the program and its tests rely on:

- **The board** (`Board`): the size check, the stored key set `initBoard`
  builds, and the walk `findPossibleMoves` takes along each of the six hex
  directions. It also covers the capture test (`checkAllSame`), the capture
  count, the in-place move (`makeMove`, `checkAllColors`, `flipColors`),
  the "any move left" scan, the scores and the independent copy.
- **The game** (`ReversiModelStandard`): the turn state machine built from
  a "gone this round" flag and a "passed last" flag per colour, the player
  to move, and the end of the game after two passes in a row.
- **The strategies**: the capture-maximising scan with its row-then-column
  tie-break (`CapturePieceStrategy`), the six-corner scan with its fallback
  (`CheckCornersStrategy`), and the first-answer combinator
  (`MultipleStrategies`).
- **The text view** (`ReversiTextView.toString`): the board drawn as a
  centred hexagon of `X`, `O` and `_`.

Layout, one module per file:

- `wrappers.dfy` (Wrappers): `Option`, `Result` and `Outcome`. An
  `Outcome` is `Pass` or `Fail(e)`, for a `void` method that may throw.
- `colors.dfy` (Colors): `PlayerColor`, `GameState`, the two exception
  kinds, and `Opposite`.
- `hex_coordinates.dfy` (HexCoords): the coordinate value type.
- `board_rules.dfy` (BoardRules): the board as a value. It holds the key
  set, the walk, the capture rule, the counts, the effect of a move, the
  scores, and the lemmas about them.
- `board.dfy` (BoardImpl): `class Board`, whose map field its methods update
  in place. Each method is proved equal to the BoardRules function it
  implements, and `makeMove` keeps the class invariant.
- `game_model.dfy` (GameModel): `class ReversiModelStandard`, with its flags
  and state as fields.
- `strategies.dfy` (Strategies): the strategies.
  - They run over a `ModelView`: the four read-only queries they make, as
    total functions. This lets the real board and the test mocks both be
    expressed.
  - Each strategy also returns the list of cells it asked
    `numTilesCaptured` about, in order, as the test transcripts record it.
- `text_view.dfy` (TextView): `class ReversiTextView` and the functions
  that say what the text is.

`ReversiModelStandard.pass` is the method `PassTurn`.

Java `int` is modelled as an unbounded `int`. Java's `/` and
`Math.floorDiv` are only applied to non-negative sizes here, so Dafny's
`/` agrees with both.

## Model

| member | source | states |
|---|---|---|
| BoardRules.CheckBoardSize | src/cs3500/reversi/model/Board.java:45-51 | a size is accepted exactly when it is odd and greater than 3, and is then returned unchanged; any other size is an IllegalArgument |
| BoardRules.CheckBoardSizeExamples | test/TestReversi.java:261-270 | sizes 0, 3, 6 and -5 are rejected; 5, 7 and 11 are accepted |
| BoardRules.OnBoardByDistance | src/cs3500/reversi/model/Board.java:144-150 | for an odd size the distance bound alone decides isValidCoordinates (the per-axis bounds follow from it), and every playable cell is a key initBoard stores |
| BoardRules.InitialRingAlternates | src/cs3500/reversi/model/Board.java:62-83 | the starting colours sit exactly on the six cells around the centre, alternating BLACK and WHITE as the toggling `prev` places them |
| BoardRules.InitialColorSets | src/cs3500/reversi/model/Board.java:60-86 | a fresh board holds BLACK at (-1,0), (0,1), (1,-1) and WHITE at (-1,1), (0,-1), (1,0), and nothing else of either colour |
| BoardRules.InitialScores | src/cs3500/reversi/model/Board.java:60-86 | a fresh board scores 3 for each player and satisfies the board invariant |
| BoardRules.InitialWellFormed | src/cs3500/reversi/model/Board.java:60-86 | a fresh board stores exactly initBoard's key set and is EMPTY outside the hexagon |
| BoardRules.DirectionsEnumerateAll | src/cs3500/reversi/model/Board.java:164-174 | findAllMoves' two loops visit each of the six hex directions exactly once |
| BoardRules.AheadShrinks | src/cs3500/reversi/model/Board.java:251-262 | each step of the walk onto a stored key leaves fewer stored keys ahead, so the walk ends |
| BoardRules.WalkShape | src/cs3500/reversi/model/Board.java:245-264 | the walk stops at the first cell of the mover's colour, having collected only cells of other colours, or runs off the stored keys |
| BoardRules.RunShape | src/cs3500/reversi/model/Board.java:245-264 | the i-th collected cell is i+1 steps out and not of the mover's colour; a non-empty list is closed by a mover's cell one step further |
| BoardRules.CaptureIsSandwich | src/cs3500/reversi/model/Board.java:307-321 | a direction captures exactly when k-1 >= 1 opponent cells are followed by a mover's cell (the Othello sandwich), in both directions of the equivalence |
| BoardRules.RaysMeetOnlyOnOneRay | src/cs3500/reversi/model/Board.java:164-174 | two directions' rays never share a cell, so the six lists are apart |
| BoardRules.AllMovesApart | src/cs3500/reversi/model/Board.java:164-174 | findAllMoves' lists never hold the target, never repeat a cell and share no cell with one another |
| BoardRules.CountUpToPositive | src/cs3500/reversi/model/Board.java:358-368 | the running capture count is positive exactly when some list so far captures |
| BoardRules.CapturedPositiveIffValid | src/cs3500/reversi/model/Board.java:358-386 | on an EMPTY target numTilesCaptured is positive exactly when isValidMove holds |
| BoardRules.Recolor | src/cs3500/reversi/model/Board.java:223-227 | replacing colours keeps the key set, recolours the stored keys of the set and leaves every other cell alone |
| BoardRules.FlippedCount | src/cs3500/reversi/model/Board.java:184-227 | a move flips exactly as many distinct cells as numTilesCaptured reports |
| BoardRules.FlippedCells | src/cs3500/reversi/model/Board.java:184-196 | every flipped cell was an opponent cell and is not the target |
| BoardRules.MoverCells | src/cs3500/reversi/model/Board.java:109-135 | after a move the mover owns its old cells, the flipped cells and the target, three disjoint sets |
| BoardRules.OpponentCells | src/cs3500/reversi/model/Board.java:109-135 | after a move the opponent owns its old cells minus the flipped ones |
| BoardRules.MoveScores | src/cs3500/reversi/model/Board.java:109-135 | a move raises the mover's score by n+1, lowers the opponent's by n and removes one EMPTY cell, where n is numTilesCaptured before the move |
| BoardRules.MovePreservesWellFormed | src/cs3500/reversi/model/Board.java:109-135 | a move on the hexagon keeps the key set and keeps cells outside the hexagon EMPTY |
| BoardRules.MovePreservesRing | src/cs3500/reversi/model/Board.java:109-135 | the six centre cells, occupied from the start, stay occupied after any move |
| BoardRules.RingNeverPlayable | src/cs3500/reversi/model/Board.java:116-122 | on a reachable board, whose centre ring stays occupied, a ring cell is never a valid move. makeMove exempts ring cells from its validity guard and refuses them with a guard of their own, so the two guards together refuse exactly the cells that are not valid moves |
| BoardImpl.Board.Create | src/cs3500/reversi/model/Board.java:31-51 | new Board(size) checks the size first: an even size or one of 3 or less is an IllegalArgument; any other gives a fresh initial board of that size |
| BoardImpl.Board.constructor | src/cs3500/reversi/model/Board.java:31-35 | a new board of an accepted size is initBoard's board and satisfies the class invariant |
| BoardImpl.Board.InitBoard | src/cs3500/reversi/model/Board.java:60-86 | the two loops with the toggling `prev` store every key of the region, the alternating centre ring and EMPTY elsewhere |
| BoardImpl.Board.GetBoard | src/cs3500/reversi/model/Board.java:93-95 | the copy holds the same cells; a map is a value, so nothing done to it reaches the board |
| BoardImpl.Board.SetBoard | src/cs3500/reversi/model/Board.java:422-424 | the board's map becomes the given one |
| BoardImpl.Board.GetSize | src/cs3500/reversi/model/Board.java:328-330 | the size the board was built with |
| BoardImpl.Board.GetCopy | src/cs3500/reversi/model/Board.java:412-416 | a fresh board of the same size with the same cells, satisfying the invariant |
| BoardImpl.Board.FindPossibleMoves | src/cs3500/reversi/model/Board.java:245-264 | the while loop returns the walk's collected cells when it meets the mover's colour and an empty list when it falls off the keys |
| BoardImpl.Board.FindAllMoves | src/cs3500/reversi/model/Board.java:164-174 | the six lists, one per direction, in the order of the two loops |
| BoardImpl.Board.CheckAllSame | src/cs3500/reversi/model/Board.java:208-215 | true exactly when every listed cell is stored with the given colour; a missing key reads as null and fails |
| BoardImpl.Board.CheckNumSame | src/cs3500/reversi/model/Board.java:380-386 | the list's length when it is all of the colour, else 0 |
| BoardImpl.Board.FlipColors | src/cs3500/reversi/model/Board.java:223-227 | the stored listed cells take the colour, missing keys are not added, and nothing else changes |
| BoardImpl.Board.CheckAllColors | src/cs3500/reversi/model/Board.java:184-196 | when the list is all opponent cells, it and the target take the mover's colour and true is returned; otherwise nothing changes and false is returned |
| BoardImpl.Board.IsValidMove | src/cs3500/reversi/model/Board.java:307-321 | true exactly when the target is stored EMPTY and some non-empty list is all of the opposite colour |
| BoardImpl.Board.NumTilesCaptured | src/cs3500/reversi/model/Board.java:358-368 | the total length of the capturing lists, with the board unchanged |
| BoardImpl.Board.MakeMove | src/cs3500/reversi/model/Board.java:109-135 | an EMPTY colour or an off-hexagon target is an IllegalArgument; an occupied, ring or non-capturing target is an IllegalState; a failure changes nothing; a success gives the board after the move and keeps the invariant |
| BoardImpl.Board.FlipCaptured | src/cs3500/reversi/model/Board.java:123-130 | the loop applies checkAllColors to every non-empty list in turn and reports whether any captured |
| BoardImpl.Board.HasValidMove | src/cs3500/reversi/model/Board.java:273-286 | EMPTY is an IllegalArgument; otherwise true exactly when some cell of the hexagon is a valid move |
| BoardImpl.Board.GetColorAt | src/cs3500/reversi/model/Board.java:339-347 | the stored colour, or an IllegalArgument for a key the map does not hold, that is, outside initBoard's key set |
| BoardImpl.Board.GetScore | src/cs3500/reversi/model/Board.java:396-405 | EMPTY is an IllegalArgument; otherwise the number of cells of the colour |
| GameModel.GameResult | src/cs3500/reversi/model/ReversiModelStandard.java:327-337 | the final state is never PLAYING: W_WON exactly when white has more tiles, TIE exactly on equal scores, B_WON exactly when black has more |
| GameModel.ReversiModelStandard.Create | src/cs3500/reversi/model/ReversiModelStandard.java:40-48 | an even size or one of 3 or less is an IllegalArgument; any other gives a fresh model, PLAYING, on a fresh initial board of that size |
| GameModel.ReversiModelStandard.constructor | src/cs3500/reversi/model/ReversiModelStandard.java:40-48 | a fresh board of the size, PLAYING, every flag 0 |
| GameModel.ReversiModelStandard.CheckNumTimesGoneInRow | src/cs3500/reversi/model/ReversiModelStandard.java:220-224 | a colour already gone this round gets an IllegalState |
| GameModel.ReversiModelStandard.ResetPlayer | src/cs3500/reversi/model/ReversiModelStandard.java:206-210 | a set "gone" flag is cleared and nothing else changes |
| GameModel.ReversiModelStandard.PlaceTimesReset | src/cs3500/reversi/model/ReversiModelStandard.java:121-128 | the other colour's "gone" flag becomes 0 |
| GameModel.ReversiModelStandard.UpdateGameStateIfGameOver | src/cs3500/reversi/model/ReversiModelStandard.java:327-337 | the state becomes the result of comparing the two scores |
| GameModel.ReversiModelStandard.CheckNumTimesPassed | src/cs3500/reversi/model/ReversiModelStandard.java:194-199 | the game is settled exactly when both colours passed last, and the state is kept otherwise |
| GameModel.ReversiModelStandard.PlaceTile | src/cs3500/reversi/model/ReversiModelStandard.java:99-111 | EMPTY is an IllegalArgument; a finished game or a colour already gone is an IllegalState; otherwise the board's makeMove errors pass through. A failure changes nothing. A success applies the move, sets the mover's "gone" flag, clears the other's and the mover's pass flag, and hands the turn over. The invariant is kept, so both "gone" flags are never 1 |
| GameModel.ReversiModelStandard.PassTurn | src/cs3500/reversi/model/ReversiModelStandard.java:155-172 | the same errors as placeTile and no change on failure; a success never touches the board, sets the pass and "gone" flags, hands the turn over, and ends the game exactly when the other colour had passed too |
| GameModel.ReversiModelStandard.HasValidMove | src/cs3500/reversi/model/ReversiModelStandard.java:183-187 | EMPTY is an IllegalArgument; otherwise true exactly when some cell of the hexagon is a valid move |
| GameModel.ReversiModelStandard.CurPlayer | src/cs3500/reversi/model/ReversiModelStandard.java:357-363 | BLACK exactly when black has not gone this round, else WHITE, never EMPTY |
| GameModel.ReversiModelStandard.GetStatus | src/cs3500/reversi/model/ReversiModelStandard.java:232-234 | the current state |
| GameModel.ReversiModelStandard.IsGameOver | src/cs3500/reversi/model/ReversiModelStandard.java:302-305 | true exactly when the state is not PLAYING |
| GameModel.ReversiModelStandard.GetBoard | src/cs3500/reversi/model/ReversiModelStandard.java:250-252 | a fresh board object, sharing nothing with the model's own, with the model's size and cells: a move made on it cannot reach the model |
| GameModel.ReversiModelStandard.DefaultBoard | src/cs3500/reversi/model/ReversiModelStandard.java:260-262 | an accepted size gives a fresh initial board of that size; any other size is an IllegalArgument |
| GameModel.ReversiModelStandard.GetSizeOfBoard | src/cs3500/reversi/model/ReversiModelStandard.java:269-271 | the board's size |
| GameModel.ReversiModelStandard.GetContentsOfCell | src/cs3500/reversi/model/ReversiModelStandard.java:280-282 | the stored colour for a key of initBoard's region, an IllegalArgument outside it |
| GameModel.ReversiModelStandard.GetScore | src/cs3500/reversi/model/ReversiModelStandard.java:291-293 | EMPTY is an IllegalArgument, else the colour's score |
| GameModel.ReversiModelStandard.IsValidMove | src/cs3500/reversi/model/ReversiModelStandard.java:317-319 | the board's isValidMove |
| GameModel.ReversiModelStandard.IsValidCoordinate | src/cs3500/reversi/model/ReversiModelStandard.java:347-349 | the board's isValidCoordinates |
| GameModel.ReversiModelStandard.NumTilesCaptured | src/cs3500/reversi/model/ReversiModelStandard.java:376-378 | the board's capture count |
| HexCoords.GettersReturnComponents | src/cs3500/reversi/model/HexCoordinates.java:17-20 | getQ and getR give back the constructor's arguments |
| HexCoords.EqualsIsValueEquality | src/cs3500/reversi/model/HexCoordinates.java:29-39 | equals holds exactly for equal q and equal r; it is reflexive and symmetric |
| HexCoords.EqualCoordinatesHashAlike | src/cs3500/reversi/model/HexCoordinates.java:45-51 | equal coordinates have equal hash codes |
| HexCoords.HashCodeExamples | test/TestReversi.java:279-283 | (2,3) hashes to 89 and (69,420) to 9717 |
| HexCoords.HashCodeCollides | src/cs3500/reversi/model/HexCoordinates.java:45-51 | two different coordinates can share a hash code, so the hash never decides equality |
| Colors.Opposite | src/cs3500/reversi/model/Board.java:186 | the colour captured is never EMPTY and differs from the mover's |
| Colors.OppositeInvolutive | src/cs3500/reversi/model/Board.java:186 | for a player's colour, the opposite of the opposite is the colour itself |
| Strategies.CandidatesMembers | src/cs3500/reversi/player/CapturePieceStrategy.java:36-41 | numTilesCaptured is asked about exactly the stored cells that are on the hexagon, EMPTY and valid moves |
| Strategies.CandidatesOrdered | src/cs3500/reversi/player/CapturePieceStrategy.java:36-37 | the cells are asked about in strict column-then-row order, each once |
| Strategies.BestOfDominates | src/cs3500/reversi/player/CapturePieceStrategy.java:44-49 | after the scan the pick captures at least as much as every cell seen, and beats every equal one in the tie-break |
| Strategies.BestIsMaximal | src/cs3500/reversi/player/CapturePieceStrategy.java:44-49 | a chosen cell is a candidate, no candidate captures more, and among equal ones it has the smallest r, then the smallest q |
| Strategies.BestNoneIff | src/cs3500/reversi/player/CapturePieceStrategy.java:33-34 | with counts that are never negative, there is a pick exactly when there is a candidate, even if every candidate captures nothing |
| Strategies.CapturePieceChooseMove | src/cs3500/reversi/player/CapturePieceStrategy.java:31-57 | EMPTY is an IllegalArgument with no query made; otherwise the nested scan answers the best candidate and asks exactly the candidates, in scan order |
| Strategies.ScanColumn | src/cs3500/reversi/player/CapturePieceStrategy.java:37-51 | one column of the scan extends the queries by that column's candidates and keeps the pick the best of all queries so far |
| Strategies.ProbeStep | src/cs3500/reversi/player/CapturePieceStrategy.java:38-49 | one cell of the scan: a candidate is queried, and replacing the pick when it improves keeps the pick the best so far |
| Strategies.CornersList | src/cs3500/reversi/player/CheckCornersStrategy.java:49-54 | the pairs of distinct entries of (-h, 0, h) are the six corners (-h,0), (-h,h), (0,-h), (0,h), (h,-h), (h,0), in that order |
| Strategies.ValidOnlyMembers | src/cs3500/reversi/player/CheckCornersStrategy.java:56-58 | the corners kept are exactly those the model calls valid moves |
| Strategies.CorrectedIsBestOfValid | src/cs3500/reversi/player/CheckCornersStrategy.java:56-61 | with the validity test applied to both branches, the corner scan is the capture scan's ranking over the valid corners |
| Strategies.GuardsAgreeWhenValid | src/cs3500/reversi/player/CheckCornersStrategy.java:56-61 | when every corner is a valid move, the test as written and the corrected test pick the same corner |
| Strategies.ScanCorners | src/cs3500/reversi/player/CheckCornersStrategy.java:47-64 | the nested loop asks about the six corners in order, whether or not they are valid, and keeps the pick its replacement test chooses |
| Strategies.CheckCornersChooseMove | src/cs3500/reversi/player/CheckCornersStrategy.java:45-70 | EMPTY is an IllegalArgument with no query; otherwise the best corner, or the capture strategy's answer and queries when no corner is picked |
| Strategies.CorrectedCornerIsValid | src/cs3500/reversi/player/CheckCornersStrategy.java:56-68 | corrected, a picked corner is a valid move and the best valid corner; with no valid corner the capture strategy decides |
| Strategies.AsWrittenPicksInvalidCorner | src/cs3500/reversi/player/CheckCornersStrategy.java:56-58 | as written, on a size-5 view where corner (-2,0) is taken by WHITE, so isValidMove rejects it, yet numTilesCaptured reports one capture for it, the strategy proposes (-2,0) |
| Strategies.CorrectedRefusesTakenCorner | src/cs3500/reversi/player/CheckCornersStrategy.java:56-68 | corrected, the same board gets no move |
| Strategies.ChooseMove | src/cs3500/reversi/player/Strategy.java:1-22 | Strategy.chooseMove dispatched to the capture strategy, or to the corner strategy with its replacement test either as written or corrected |
| Strategies.MultipleChooseMove | src/cs3500/reversi/player/MultipleStrategies.java:34-43 | EMPTY is an IllegalArgument before any strategy is asked; otherwise the loop answers the first present answer and asks the strategies up to that one only |
| Strategies.FirstFinderFrom | src/cs3500/reversi/player/MultipleStrategies.java:36-41 | the loop stops at the first answer holding a move, and no earlier answer holds one |
| Strategies.MultipleIsFirstFound | src/cs3500/reversi/player/MultipleStrategies.java:34-43 | the answer comes from the first strategy that proposes a move, and it is empty exactly when every strategy's answer is, including for an empty list |
| Strategies.FirstStrategyDecides | src/cs3500/reversi/player/MultipleStrategies.java:36-40 | when the first strategy proposes a move, that is the answer and no later strategy is asked |
| Strategies.BoardViewCandidates | src/cs3500/reversi/player/CapturePieceStrategy.java:38-40 | on a real board the scan's candidates are exactly the valid moves on the hexagon |
| Strategies.CaptureOnBoardNone | src/cs3500/reversi/player/CapturePieceStrategy.java:53-56 | on a real board the capture strategy proposes nothing exactly when hasValidMove is false |
| Strategies.CaptureOnBoardLegal | src/cs3500/reversi/player/CapturePieceStrategy.java:31-57 | what the capture strategy proposes on a real board, makeMove accepts |
| Strategies.CapturedAtMostOpponents | src/cs3500/reversi/model/Board.java:358-368 | a move never captures more than the opponent has on the board |
| Strategies.LyingViewPicksLie | test/TestStrategy.java:454-461 | on a fresh board where (-2,1) claims ten captures, both players are offered (-2,1) |
| Strategies.RefusingViewFindsNothing | test/TestStrategy.java:578-582 | when no move is valid, the capture strategy proposes nothing and makes no query |
| Strategies.EagerViewCorners | test/TestStrategy.java:463-484 | with every move valid and no captures on a size-7 board, the corner scan asks the six corners in order and picks (0,-3) |
| Strategies.EagerViewCaptureFinds | test/TestStrategy.java:494-529 | the capture strategy proposes a move on that mock over a fresh board |
| Strategies.EagerViewMultiple | test/TestStrategy.java:494-529 | a capture strategy followed by the corner strategy as written answers as the capture strategy does, and only the capture strategy's queries are made |
| TextView.Symbol | src/cs3500/reversi/view/ReversiTextView.java:79-87 | each colour is one character, never a blank or a newline |
| TextView.SymbolRoundTrip | src/cs3500/reversi/view/ReversiTextView.java:79-87 | every colour has its own symbol, which gives the colour back |
| TextView.Spaces | src/cs3500/reversi/view/ReversiTextView.java:69-71 | max(0, n) characters |
| TextView.SpacesAreBlank | src/cs3500/reversi/view/ReversiTextView.java:69-71 | all of them blanks |
| TextView.RowCoverage | src/cs3500/reversi/view/ReversiTextView.java:40-56 | the cells colB .. colU drawn in row r are exactly the valid coordinates of that row |
| TextView.RowOnBoard | src/cs3500/reversi/view/ReversiTextView.java:45-46 | every drawn cell is a stored key, so getContentsOfCell never throws |
| TextView.RowCellsLayout | src/cs3500/reversi/view/ReversiTextView.java:45-50 | a row's cells are symbols at even positions with single blanks between them |
| TextView.LineLayout | src/cs3500/reversi/view/ReversiTextView.java:43-51 | every line is 2·size+3 wide: padding, then the k-th cell's symbol at pad+2k, blanks everywhere else |
| TextView.LineWidth | src/cs3500/reversi/view/ReversiTextView.java:43-51 | the padding is at least one blank and the three parts of a line add up to 2·size+3 |
| TextView.LineCharAt | src/cs3500/reversi/view/ReversiTextView.java:43-51 | one character of a line, by position |
| TextView.RowCellsText | src/cs3500/reversi/view/ReversiTextView.java:45-50 | a row is its cells' symbols joined by single blanks |
| TextView.LineText | src/cs3500/reversi/view/ReversiTextView.java:43-51 | a line is its padding, the row's symbols joined by blanks, and the padding again |
| TextView.LinesShape | src/cs3500/reversi/view/ReversiTextView.java:39-42 | an odd-sized board draws size lines, each 2·size+3 wide and free of newlines |
| TextView.SplitJoin | src/cs3500/reversi/view/ReversiTextView.java:57-59 | cutting the newline-joined lines at their newlines gives the lines back |
| TextView.SplitRender | src/cs3500/reversi/view/ReversiTextView.java:35-62 | the text cut at its newlines is exactly the size lines of the board |
| TextView.RenderEndsInBlank | src/cs3500/reversi/view/ReversiTextView.java:57-59 | no newline follows the last line: the text ends in the last line's padding |
| TextView.JoinedUpToJoin | src/cs3500/reversi/view/ReversiTextView.java:57-59 | the first k lines as appended are the first k lines joined, with a newline after them unless they are all of them |
| TextView.JoinedUpToAll | src/cs3500/reversi/view/ReversiTextView.java:57-59 | all the lines as appended are the lines joined by newlines |
| TextView.PadMatches | src/cs3500/reversi/view/ReversiTextView.java:43 | the padding formula is size - (colU - colB) + 1 |
| TextView.ColumnsStep | src/cs3500/reversi/view/ReversiTextView.java:52-56 | colB steps left until it reaches -h and colU steps left after that, as the row bounds say |
| TextView.ReversiTextView.constructor | src/cs3500/reversi/view/ReversiTextView.java:22-24 | the view keeps the model it is given |
| TextView.ReversiTextView.ToString | src/cs3500/reversi/view/ReversiTextView.java:35-62 | the StringBuilder loop produces exactly the rendered text of the model's board |
| TextView.ReversiTextView.DrawRow | src/cs3500/reversi/view/ReversiTextView.java:43-59 | one pass of the row loop appends row r and its newline and moves colB and colU on to row r+1 |
| TextView.ReversiTextView.AppendRow | src/cs3500/reversi/view/ReversiTextView.java:43-51 | the padding, the row's symbols with blanks between them and the padding are appended |
| TextView.InitialContents | src/cs3500/reversi/model/Board.java:60-86 | on a fresh board every cell the view asks about holds its starting colour |
| TextView.FreshFiveColors | test/ExampleReversi.java:51-55 | the colours of the five rows of a fresh size-5 board |
| TextView.FreshFiveLinesAre | test/ExampleReversi.java:51-55 | a fresh size-5 board draws the five golden lines |
| TextView.FreshFiveRender | test/ExampleReversi.java:51-55 | a fresh size-5 board, or one where a player has only passed, renders exactly as the golden text |

## Left out

- The Swing view (panel, frame, key component, board view), because it is
  pixel geometry in floating point, mouse handling and dialogs.
- The listener calls in `placeTile` and `pass` (ReversiModelStandard.java
  lines 110, 160, 170-171), `addFeatures`, `startGame` and `checkGame`.
  They call opaque callbacks that re-enter the model. The controllers,
  players, features handlers and the program entry point are also left
  out.
- `Board.equals` and `Board.hashCode`, which are Java identity plumbing.
  `HexCoordinates.equals` against an object of another class is not
  modelled either: Dafny's types rule that comparison out.
- `HexCoords.HashCodeCollides` and `HexCoords.HashCodeExamples`: the hash
  uses unbounded integers, so Java `int` wrap-around is not modelled. No
  example here comes near it.
- The iteration order of Java's `HashMap` is not modelled. `getScore`
  counts a set, which does not depend on it.
- `TextView.InitialContents`: the view reads cells through `ContentsOf`,
  which answers EMPTY for a key the map does not hold, where
  `getContentsOfCell` would throw. `TextView.RowOnBoard` proves that every
  cell the view draws is a stored key, so the case never arises.
- `Strategies.MultipleChooseMove`: a MultipleStrategies may hold only the
  capture and corner strategies. Nesting one MultipleStrategies inside
  another is not modelled.
- `Strategies.BestNoneIff` assumes counts that are never negative. A view
  reporting a negative count can leave a candidate unpicked, in the model as
  in the source, because both start the maximum at 0.
- The probe lists the strategies return are the cells they asked
  `numTilesCaptured` about. That is what the mocks' transcripts record; the
  other queries are not recorded.
- `BoardImpl.Board.MakeMove`, `Strategies.CapturePieceChooseMove` and
  `TextView.ReversiTextView.ToString` each have a loop moved into a helper
  method of its own: `FlipCaptured`, `ScanColumn` and `DrawRow`
  respectively, and `ScanCorners` and `AppendRow` too. The statements are
  unchanged; only where they sit differs.
- Some test examples are not proved as literal values. These are the text
  after BLACK plays (-1,-1) (ExampleReversi.java:33-37), the size-7 and
  size-11 texts (TestReversi.java:89-160), the capture count 1 at (-1,-1)
  on a fresh size-7 board (TestReversi.java:569-576), and (1,-2) as both
  players' pick on fresh size-7 and size-11 boards
  (TestStrategy.java:567-576). The general lemmas above prove the rules
  these examples illustrate (`TextView.LineLayout`,
  `TextView.SplitRender`, `BoardRules.MoveScores`,
  `Strategies.BestIsMaximal`). Evaluating those boards cell by cell is
  beyond what the solver does within its limits here.

## Findings

| source | as written | input that shows it | evidently intended | confidence | as-written member | corrected member |
|---|---|---|---|---|---|---|
| src/cs3500/reversi/player/CheckCornersStrategy.java:56-58 | `numCaptured > maxCaptured \|\| (numCaptured == maxCaptured && (…)) && model.isValidMove(q, r, color)`: `&&` binds tighter than `\|\|`, so a corner capturing more than the current best is taken without the validity test | a size-5 model where corner (-2,0) is already taken by WHITE, so it is not a valid move, yet numTilesCaptured, which never looks at the target, reports 1 for it, and every other count is 0: the strategy proposes (-2,0) | `(numCaptured > maxCaptured \|\| (numCaptured == maxCaptured && (…))) && model.isValidMove(q, r, color)`: only valid corners are picked | not executed | Strategies.AsWrittenPicksInvalidCorner | Strategies.CorrectedCornerIsValid |
