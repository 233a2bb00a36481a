/** The enumerations shared by the model, the players and the view
    (PlayerColor.java, GameState.java), and the two exception kinds the
    engine throws. */
module Colors {

  /** The colour of a tile: a player's colour, or EMPTY for a free cell. */
  datatype PlayerColor = WHITE | BLACK | EMPTY

  /** The status of a game. */
  datatype GameState = PLAYING | B_WON | W_WON | TIE

  /** The two exception kinds: IllegalArgumentException and IllegalStateException. */
  datatype ReversiError = IllegalArgument | IllegalState

  /** The colour whose tiles a move by `c` captures. Written as the source's
      ternary `(c == BLACK) ? WHITE : BLACK`, so EMPTY maps to BLACK. */
  function Opposite(c: PlayerColor): (o: PlayerColor)
    ensures o != EMPTY
    ensures c != EMPTY ==> o != c
  {
    if c == BLACK then WHITE else BLACK
  }

  /** For a player's colour, the opposite of the opposite is the colour itself. */
  lemma OppositeInvolutive(c: PlayerColor)
    requires c != EMPTY
    ensures Opposite(Opposite(c)) == c
  {
  }
}
