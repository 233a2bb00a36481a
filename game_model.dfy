// The standard two-player game: a board plus the per-colour "gone this
// round" and "passed last" flags, and the game state that a double pass
// settles by comparing scores.

module GameModel {
  import opened Wrappers
  import opened Colors
  import opened HexCoords
  import opened BoardRules
  import opened BoardImpl

  /** The state updateGameStateIfGameOver settles on: white wins with more
      tiles, equal scores tie, black wins otherwise. */
  function GameResult(scoreWhite: int, scoreBlack: int): (g: GameState)
    ensures g != PLAYING
    ensures g == W_WON <==> scoreWhite > scoreBlack
    ensures g == TIE <==> scoreWhite == scoreBlack
    ensures g == B_WON <==> scoreWhite < scoreBlack
  {
    if scoreWhite > scoreBlack then W_WON
    else if scoreWhite == scoreBlack then TIE
    else B_WON
  }

  /** A per-colour counter map as initHM builds it: exactly the keys BLACK
      and WHITE, each holding 0 or 1. */
  predicate Flags(m: map<PlayerColor, int>) {
    && m.Keys == {BLACK, WHITE}
    && (m[BLACK] == 0 || m[BLACK] == 1)
    && (m[WHITE] == 0 || m[WHITE] == 1)
  }

  class ReversiModelStandard {
    const board: Board
    var numTimesPassedInRow: map<PlayerColor, int>
    var numTimesGone: map<PlayerColor, int>
    var state: GameState

    /** The class invariant: a valid board, 0/1 flags for both colours,
        never both colours marked as gone, and the game over exactly when
        both colours passed last. */
    ghost predicate Valid()
      reads this, board
    {
      && board.Valid()
      && Flags(numTimesGone)
      && Flags(numTimesPassedInRow)
      && !(numTimesGone[BLACK] == 1 && numTimesGone[WHITE] == 1)
      && (state != PLAYING <==> numTimesPassedInRow[BLACK] == 1 && numTimesPassedInRow[WHITE] == 1)
    }

    /** new ReversiModelStandard(size) for a size the board accepts: a
        fresh board, PLAYING, every flag 0. */
    constructor(size: int)
      requires ValidSize(size)
      ensures Valid() && fresh(board)
      ensures board.size == size && IsInitial(size, board.cells)
      ensures state == PLAYING
      ensures numTimesGone == map[BLACK := 0, WHITE := 0]
      ensures numTimesPassedInRow == map[BLACK := 0, WHITE := 0]
    {
      board := new Board(size);
      state := PLAYING;
      numTimesPassedInRow := map[BLACK := 0, WHITE := 0];
      numTimesGone := map[BLACK := 0, WHITE := 0];
    }

    /** new ReversiModelStandard(size): the board's size check raises an
        illegal argument for an even size or one of three or less. */
    static method Create(size: int) returns (res: Result<ReversiModelStandard, ReversiError>)
      ensures res.Failure? <==> !ValidSize(size)
      ensures res.Failure? ==> res.error == IllegalArgument
      ensures res.Success? ==> fresh(res.value) && fresh(res.value.board) && res.value.Valid()
      ensures res.Success? ==> res.value.state == PLAYING && res.value.board.size == size
      ensures res.Success? ==> IsInitial(size, res.value.board.cells)
    {
      match CheckBoardSize(size)
      case Failure(e) =>
        res := Failure(e);
      case Success(s) =>
        var m := new ReversiModelStandard(s);
        res := Success(m);
    }

    /** checkNumTimesGoneInRow: a colour already gone this round may not
        move again. */
    method CheckNumTimesGoneInRow(color: PlayerColor) returns (o: Outcome<ReversiError>)
      requires color in numTimesGone
      ensures o == (if numTimesGone[color] >= 1 then Fail(IllegalState) else Pass)
    {
      if numTimesGone[color] >= 1 {
        return Fail(IllegalState);
      }
      return Pass;
    }

    /** resetPlayer: clears the colour's "gone" flag when it is set. */
    method ResetPlayer(color: PlayerColor)
      requires color in numTimesGone
      modifies this
      ensures numTimesGone == if old(numTimesGone[color]) == 1 then old(numTimesGone)[color := 0] else old(numTimesGone)
      ensures numTimesPassedInRow == old(numTimesPassedInRow) && state == old(state)
    {
      if numTimesGone[color] == 1 {
        numTimesGone := numTimesGone[color := 0];
      }
    }

    /** placeTimesReset: clears the other colour's "gone" flag. */
    method PlaceTimesReset(color: PlayerColor)
      requires color != EMPTY && Flags(numTimesGone)
      modifies this
      ensures numTimesGone == old(numTimesGone)[Opposite(color) := 0]
      ensures numTimesPassedInRow == old(numTimesPassedInRow) && state == old(state)
    {
      if color == WHITE {
        ResetPlayer(BLACK);
      } else {
        ResetPlayer(WHITE);
      }
    }

    /** updateGameStateIfGameOver: settles the state from the two scores. */
    method UpdateGameStateIfGameOver()
      modifies this
      ensures state == GameResult(Score(board.cells, WHITE), Score(board.cells, BLACK))
      ensures numTimesGone == old(numTimesGone) && numTimesPassedInRow == old(numTimesPassedInRow)
    {
      var scoreWhite := board.GetScore(WHITE);
      var scoreBlack := board.GetScore(BLACK);
      if scoreWhite.value > scoreBlack.value {
        state := W_WON;
      } else if scoreWhite.value == scoreBlack.value {
        state := TIE;
      } else {
        state := B_WON;
      }
    }

    /** checkNumTimesPassed: the game ends once both colours passed last. */
    method CheckNumTimesPassed()
      requires Flags(numTimesPassedInRow)
      modifies this
      ensures numTimesGone == old(numTimesGone) && numTimesPassedInRow == old(numTimesPassedInRow)
      ensures state == if numTimesPassedInRow[BLACK] == 1 && numTimesPassedInRow[WHITE] == 1
                       then GameResult(Score(board.cells, WHITE), Score(board.cells, BLACK))
                       else old(state)
    {
      if numTimesPassedInRow[BLACK] == 1 && numTimesPassedInRow[WHITE] == 1 {
        UpdateGameStateIfGameOver();
      }
    }

    /** placeTile: an EMPTY colour is an illegal argument; a finished game,
        a colour that already went this round, and every error of makeMove
        raise before any change. A placed tile marks the colour as gone,
        clears the other colour's mark and the colour's pass flag. */
    method PlaceTile(color: PlayerColor, q: int, r: int) returns (o: Outcome<ReversiError>)
      requires Valid()
      modifies this, board
      ensures Valid()
      ensures o.Pass? <==> && color != EMPTY && old(state) == PLAYING && old(numTimesGone)[color] == 0
                           && IsLegalMove(board.size, old(board.cells), HexCoordinates(q, r), color)
      ensures color == EMPTY ==> o == Fail(IllegalArgument)
      ensures color != EMPTY && (old(state) != PLAYING || old(numTimesGone)[color] != 0) ==> o == Fail(IllegalState)
      ensures (color != EMPTY && old(state) == PLAYING && old(numTimesGone)[color] == 0 && !IsValidCoordinates(board.size, q, r))
              ==> o == Fail(IllegalArgument)
      ensures color != EMPTY && IsValidCoordinates(board.size, q, r) ==> o.Fail? ==> o == Fail(IllegalState)
      ensures o.Fail? ==> && board.cells == old(board.cells) && state == old(state)
                          && numTimesGone == old(numTimesGone) && numTimesPassedInRow == old(numTimesPassedInRow)
      ensures o.Pass? ==> && board.cells == AfterMove(old(board.cells), HexCoordinates(q, r), color)
                          && numTimesGone == old(numTimesGone)[Opposite(color) := 0][color := 1]
                          && numTimesPassedInRow == old(numTimesPassedInRow)[color := 0]
                          && state == PLAYING
                          && CurPlayer() == Opposite(color)
    {
      if color == EMPTY {
        return Fail(IllegalArgument);
      }
      if state != PLAYING {
        return Fail(IllegalState);
      }
      o := CheckNumTimesGoneInRow(color);
      if o.Fail? {
        return o;
      }
      o := board.MakeMove(q, r, color);
      if o.Fail? {
        return o;
      }
      PlaceTimesReset(color);
      numTimesGone := numTimesGone[color := 1];
      numTimesPassedInRow := numTimesPassedInRow[color := 0];
    }

    /** pass: an EMPTY colour is an illegal argument; a finished game or a
        colour that already went this round is an illegal state. Otherwise
        the colour is marked as gone and as having passed, the other
        colour's mark is cleared, and a second consecutive pass ends the
        game. The board never changes. */
    method PassTurn(color: PlayerColor) returns (o: Outcome<ReversiError>)
      requires Valid()
      modifies this
      ensures Valid()
      ensures o.Pass? <==> color != EMPTY && old(state) == PLAYING && old(numTimesGone)[color] == 0
      ensures color == EMPTY ==> o == Fail(IllegalArgument)
      ensures color != EMPTY && o.Fail? ==> o == Fail(IllegalState)
      ensures o.Fail? ==> && state == old(state)
                          && numTimesGone == old(numTimesGone) && numTimesPassedInRow == old(numTimesPassedInRow)
      ensures o.Pass? ==> && numTimesGone == old(numTimesGone)[Opposite(color) := 0][color := 1]
                          && numTimesPassedInRow == old(numTimesPassedInRow)[color := 1]
                          && CurPlayer() == Opposite(color)
      ensures o.Pass? ==> state == if numTimesPassedInRow[Opposite(color)] == 1
                                   then GameResult(Score(board.cells, WHITE), Score(board.cells, BLACK))
                                   else PLAYING
    {
      if color == EMPTY {
        return Fail(IllegalArgument);
      }
      if state != PLAYING {
        return Fail(IllegalState);
      }
      o := CheckNumTimesGoneInRow(color);
      if o.Fail? {
        return o;
      }
      PlaceTimesReset(color);
      numTimesPassedInRow := numTimesPassedInRow[color := 1];
      numTimesGone := numTimesGone[color := 1];
      CheckNumTimesPassed();
    }

    /** hasValidMove: an illegal argument for EMPTY, else whether some cell
        on the hexagon is a valid move for the colour. */
    method HasValidMove(color: PlayerColor) returns (res: Result<bool, ReversiError>)
      requires Valid()
      ensures color == EMPTY <==> res == Failure(IllegalArgument)
      ensures res.Success? ==> (res.value <==> exists h: HexCoordinates :: IsValidCoordinates(board.size, h.q, h.r) && IsValidMoveAt(board.cells, h, color))
    {
      if color == EMPTY {
        return Failure(IllegalArgument);
      }
      res := board.HasValidMove(color);
    }

    /** curPlayer: BLACK while black has not gone this round, else WHITE. */
    function CurPlayer(): (c: PlayerColor)
      requires Flags(numTimesGone)
      reads this
      ensures c != EMPTY
      ensures c == BLACK <==> numTimesGone[BLACK] == 0
    {
      if numTimesGone[BLACK] == 0 then BLACK else WHITE
    }

    function GetStatus(): (g: GameState)
      reads this
      ensures g == state
    {
      state
    }

    /** isGameOver: the state is one of the three final ones. */
    function IsGameOver(): (over: bool)
      reads this
      ensures over <==> state != PLAYING
    {
      state == TIE || state == W_WON || state == B_WON
    }

    /** getBoard: a copy of the board, a fresh object sharing nothing with
        the model's own. */
    method GetBoard() returns (b: Board)
      requires Valid()
      ensures fresh(b) && b.Valid()
      ensures b.size == board.size && b.cells == board.cells
    {
      b := board.GetCopy();
    }

    /** defaultBoard: a new board of the given size. */
    method DefaultBoard(size: int) returns (res: Result<Board, ReversiError>)
      ensures res.Failure? <==> !ValidSize(size)
      ensures res.Failure? ==> res.error == IllegalArgument
      ensures res.Success? ==> fresh(res.value) && res.value.size == size && res.value.Valid()
      ensures res.Success? ==> IsInitial(size, res.value.cells)
    {
      res := Board.Create(size);
    }

    method GetSizeOfBoard() returns (s: int)
      ensures s == board.size
    {
      s := board.GetSize();
    }

    method GetContentsOfCell(q: int, r: int) returns (res: Result<PlayerColor, ReversiError>)
      requires Valid()
      ensures res.Success? <==> InKeys(board.size, HexCoordinates(q, r))
      ensures res.Success? ==> res.value == board.cells[HexCoordinates(q, r)]
      ensures res.Failure? ==> res.error == IllegalArgument
    {
      res := board.GetColorAt(q, r);
    }

    method GetScore(color: PlayerColor) returns (res: Result<int, ReversiError>)
      ensures color == EMPTY ==> res == Failure(IllegalArgument)
      ensures color != EMPTY ==> res == Success(Score(board.cells, color))
    {
      res := board.GetScore(color);
    }

    method IsValidMove(q: int, r: int, color: PlayerColor) returns (valid: bool)
      ensures valid == IsValidMoveAt(board.cells, HexCoordinates(q, r), color)
    {
      valid := board.IsValidMove(q, r, color);
    }

    method IsValidCoordinate(q: int, r: int) returns (valid: bool)
      ensures valid == IsValidCoordinates(board.size, q, r)
    {
      valid := IsValidCoordinates(board.size, q, r);
    }

    method NumTilesCaptured(q: int, r: int, color: PlayerColor) returns (num: int)
      ensures num == NumCaptured(board.cells, HexCoordinates(q, r), color)
    {
      num := board.NumTilesCaptured(q, r, color);
    }
  }
}
