/** The text view of a game (ReversiTextView): the hexagon drawn row by row,
    one text line per r, with X for BLACK, O for WHITE and _ for EMPTY. The
    method walks the rows as toString does; the functions below say what
    the text is, and the lemmas what it looks like. The half-width
    h = Math.floorDiv(size, 2) is passed along beside the size. */
module TextView {
  import opened Wrappers
  import opened Colors
  import opened HexCoords
  import opened BoardRules
  import opened GameModel

  // ---------------------------------------------------------------------
  // Symbols and padding
  // ---------------------------------------------------------------------

  /** getSymbol: one character per colour. */
  function Symbol(c: PlayerColor): (s: string)
    ensures |s| == 1 && s[0] != ' ' && s[0] != '\n'
  {
    if c == BLACK then "X" else if c == WHITE then "O" else "_"
  }

  /** Reading a cell of the text back: the colour a symbol stands for. */
  function ColorOfSymbol(ch: char): (c: Option<PlayerColor>) {
    if ch == 'X' then Some(BLACK)
    else if ch == 'O' then Some(WHITE)
    else if ch == '_' then Some(EMPTY)
    else None
  }

  /** Every colour has its own symbol, and the symbol gives the colour back. */
  lemma SymbolRoundTrip(c: PlayerColor)
    ensures ColorOfSymbol(Symbol(c)[0]) == Some(c)
  {
  }

  /** getNumSpaces: Math.max(0, n) characters (SpacesAreBlank says which). */
  function Spaces(n: int): (s: string)
    ensures |s| == if n < 0 then 0 else n
    decreases n
  {
    if n <= 0 then "" else Spaces(n - 1) + " "
  }

  /** getNumSpaces gives blanks and nothing else. */
  lemma {:induction false} SpacesAreBlank(n: int)
    ensures forall i | 0 <= i < |Spaces(n)| :: Spaces(n)[i] == ' '
    decreases n
  {
    if n > 0 {
      SpacesAreBlank(n - 1);
      assert Spaces(n) == Spaces(n - 1) + " ";
    }
  }

  // ---------------------------------------------------------------------
  // Rows
  // ---------------------------------------------------------------------

  /** The first q drawn in row r: colB starts at 0 on the top row and steps
      left until it reaches -h. */
  function ColB(h: int, r: int): int {
    if r < 0 then -h - r else -h
  }

  /** The last q drawn in row r: colU stays at h down to the middle row and
      steps left after it. */
  function ColU(h: int, r: int): int {
    if r < 0 then h else h - r
  }

  /** The symbols of the cells colB .. q - 1 of row r, each followed by a
      blank unless it is the cell colU. */
  function RowCells(cells: Cells, r: int, colB: int, q: int, colU: int): string
    decreases q - colB
  {
    if q <= colB then ""
    else
      var sep := if q - 1 != colU then " " else "";
      RowCells(cells, r, colB, q - 1, colU) + Symbol(ContentsOf(cells, q - 1, r)) + sep
  }

  /** The blanks on each side of row r: size - (colU - colB) + 1. */
  function Pad(size: int, h: int, r: int): int {
    size - (ColU(h, r) - ColB(h, r)) + 1
  }

  /** One line of the text: padding, the row's cells, padding. */
  function Line(size: int, h: int, cells: Cells, r: int): string {
    Spaces(Pad(size, h, r)) + RowCells(cells, r, ColB(h, r), ColU(h, r) + 1, ColU(h, r)) + Spaces(Pad(size, h, r))
  }

  /** The number of rows, r = -h .. h. */
  function Rows(h: int): nat {
    if h >= 0 then 2 * h + 1 else 0
  }

  /** The lines, top to bottom. */
  function Lines(size: int, cells: Cells): (ls: seq<string>) {
    var h := size / 2;
    seq(Rows(h), i => Line(size, h, cells, i - h))
  }

  // ---------------------------------------------------------------------
  // Joining and splitting lines
  // ---------------------------------------------------------------------

  /** The lines separated by newlines, with none after the last. */
  function Join(ls: seq<string>): string {
    if |ls| == 0 then ""
    else if |ls| == 1 then ls[0]
    else Join(ls[..|ls| - 1]) + "\n" + ls[|ls| - 1]
  }

  /** The text toString builds: every line, a newline after each but the
      last. */
  function Render(size: int, cells: Cells): string {
    Join(Lines(size, cells))
  }

  /** The first k lines as a StringBuilder holds them while they are
      appended: each followed by a newline unless it is the last of all. */
  function JoinedUpTo(ls: seq<string>, k: nat): string
    requires k <= |ls|
  {
    if k == 0 then ""
    else JoinedUpTo(ls, k - 1) + ls[k - 1] + (if k < |ls| then "\n" else "")
  }

  /** The index of the last newline before position k of s, or -1. */
  function LastNewline(s: string, k: nat): (i: int)
    requires k <= |s|
    ensures -1 <= i < k
    ensures i >= 0 ==> s[i] == '\n'
    ensures forall j | i < j < k :: s[j] != '\n'
  {
    if k == 0 then -1 else if s[k - 1] == '\n' then k - 1 else LastNewline(s, k - 1)
  }

  /** A text cut at its newlines. */
  function Split(s: string): (parts: seq<string>)
    decreases |s|
  {
    var i := LastNewline(s, |s|);
    if i < 0 then [s] else Split(s[..i]) + [s[i + 1..]]
  }

  predicate NoNewline(ls: seq<string>) {
    forall i, j | 0 <= i < |ls| && 0 <= j < |ls[i]| :: ls[i][j] != '\n'
  }

  /** The first k lines appended one by one are the first k lines joined,
      with a newline after them unless they are all of them. */
  lemma {:induction false} JoinedUpToJoin(ls: seq<string>, k: nat)
    requires 0 < k <= |ls|
    ensures JoinedUpTo(ls, k) == Join(ls[..k]) + (if k < |ls| then "\n" else "")
  {
    if k > 1 {
      JoinedUpToJoin(ls, k - 1);
      assert ls[..k][..k - 1] == ls[..k - 1];
    }
  }

  /** All the lines appended one by one are the lines joined. */
  lemma JoinedUpToAll(ls: seq<string>)
    ensures JoinedUpTo(ls, |ls|) == Join(ls)
  {
    if |ls| > 0 {
      JoinedUpToJoin(ls, |ls|);
      assert ls[..|ls|] == ls;
    }
  }

  /** Splitting the joined lines at the newlines gives the lines back. */
  lemma {:induction false} SplitJoin(ls: seq<string>)
    requires |ls| > 0 && NoNewline(ls)
    ensures Split(Join(ls)) == ls
  {
    var s := Join(ls);
    var i := LastNewline(s, |s|);
    if |ls| > 1 {
      var init, last := ls[..|ls| - 1], ls[|ls| - 1];
      var t := Join(init);
      assert s == t + "\n" + last;
      assert s[|t|] == '\n';
      assert i == |t|;
      assert s[..i] == t;
      assert s[i + 1..] == last;
      assert NoNewline(init) by {
        forall a, b | 0 <= a < |init| && 0 <= b < |init[a]|
          ensures init[a][b] != '\n'
        {
          assert init[a] == ls[a];
        }
      }
      SplitJoin(init);
      assert init + [last] == ls;
    }
  }

  // ---------------------------------------------------------------------
  // What the text looks like
  // ---------------------------------------------------------------------

  /** For an odd size the rows drawn are exactly the board's hexagon: the
      cells colB .. colU of row r are the valid coordinates in that row. */
  lemma RowCoverage(size: int, q: int, r: int)
    requires ValidSize(size) && -(size / 2) <= r <= size / 2
    ensures ColB(size / 2, r) <= q <= ColU(size / 2, r) <==> IsValidCoordinates(size, q, r)
  {
    OnBoardByDistance(size, q, r);
  }

  /** A drawn cell is one the model stores, so getContentsOfCell answers. */
  lemma RowOnBoard(size: int, h: int, q: int, r: int)
    requires ValidSize(size) && h == size / 2 && -h <= r <= h
    requires ColB(h, r) <= q <= ColU(h, r)
    ensures InKeys(size, HexCoordinates(q, r))
  {
    RowCoverage(size, q, r);
    OnBoardByDistance(size, q, r);
  }

  /** The cells of a row: an even position 2k holds the symbol of cell
      colB + k, an odd position a blank, and there is no blank after the
      last cell. */
  lemma {:induction false} RowCellsLayout(cells: Cells, r: int, colB: int, q: int, colU: int)
    requires colB <= colU && colB <= q <= colU + 1
    ensures |RowCells(cells, r, colB, q, colU)| == 2 * (q - colB) - (if q == colU + 1 then 1 else 0)
    ensures forall j | 0 <= j < |RowCells(cells, r, colB, q, colU)| ::
      RowCells(cells, r, colB, q, colU)[j] ==
        (if j % 2 == 0 then Symbol(ContentsOf(cells, colB + j / 2, r))[0] else ' ')
    decreases q - colB
  {
    if q > colB {
      RowCellsLayout(cells, r, colB, q - 1, colU);
      var prev := RowCells(cells, r, colB, q - 1, colU);
      var sym := Symbol(ContentsOf(cells, q - 1, r));
      var s := RowCells(cells, r, colB, q, colU);
      assert |prev| == 2 * (q - 1 - colB);
      forall j | 0 <= j < |s|
        ensures s[j] == (if j % 2 == 0 then Symbol(ContentsOf(cells, colB + j / 2, r))[0] else ' ')
      {
        if j < |prev| {
          assert s[j] == prev[j];
        } else if j == |prev| {
          assert j / 2 == q - 1 - colB;
          assert s[j] == sym[0];
        } else {
          assert j == |prev| + 1 && j % 2 == 1;
        }
      }
    }
  }

  /** Every line is 2 * size + 3 characters wide: padding of
      size - (colU - colB) + 1 blanks on each side of the row's cells, the
      k-th cell's symbol at position pad + 2k, blanks everywhere else. */
  lemma LineLayout(size: int, h: int, cells: Cells, r: int)
    requires size >= 0 && h == size / 2 && -h <= r <= h
    ensures |Line(size, h, cells, r)| == 2 * size + 3
    ensures forall j | 0 <= j < |Line(size, h, cells, r)| ::
      Line(size, h, cells, r)[j] ==
        (if Pad(size, h, r) <= j < 2 * size + 3 - Pad(size, h, r) && (j - Pad(size, h, r)) % 2 == 0
         then Symbol(ContentsOf(cells, ColB(h, r) + (j - Pad(size, h, r)) / 2, r))[0]
         else ' ')
  {
    LineWidth(size, h, cells, r);
    forall j | 0 <= j < 2 * size + 3
      ensures Line(size, h, cells, r)[j] ==
        (if Pad(size, h, r) <= j < 2 * size + 3 - Pad(size, h, r) && (j - Pad(size, h, r)) % 2 == 0
         then Symbol(ContentsOf(cells, ColB(h, r) + (j - Pad(size, h, r)) / 2, r))[0]
         else ' ')
    {
      LineCharAt(size, h, cells, r, j);
    }
  }

  /** The three parts of a line and their widths. */
  lemma LineWidth(size: int, h: int, cells: Cells, r: int)
    requires size >= 0 && h == size / 2 && -h <= r <= h
    ensures Pad(size, h, r) >= 1
    ensures |RowCells(cells, r, ColB(h, r), ColU(h, r) + 1, ColU(h, r))| == 2 * (ColU(h, r) - ColB(h, r)) + 1
    ensures |Line(size, h, cells, r)| == 2 * size + 3
  {
    RowCellsLayout(cells, r, ColB(h, r), ColU(h, r) + 1, ColU(h, r));
  }

  /** One character of a line. */
  lemma LineCharAt(size: int, h: int, cells: Cells, r: int, j: int)
    requires size >= 0 && h == size / 2 && -h <= r <= h
    requires 0 <= j < 2 * size + 3
    ensures |Line(size, h, cells, r)| == 2 * size + 3
    ensures Line(size, h, cells, r)[j] ==
      (if Pad(size, h, r) <= j < 2 * size + 3 - Pad(size, h, r) && (j - Pad(size, h, r)) % 2 == 0
       then Symbol(ContentsOf(cells, ColB(h, r) + (j - Pad(size, h, r)) / 2, r))[0]
       else ' ')
  {
    var b, u, p := ColB(h, r), ColU(h, r), Pad(size, h, r);
    LineWidth(size, h, cells, r);
    var pad := Spaces(p);
    var mid := RowCells(cells, r, b, u + 1, u);
    var line := Line(size, h, cells, r);
    assert line == pad + mid + pad;
    if j < p {
      SpacesAreBlank(p);
      assert line[j] == pad[j];
    } else if j < p + |mid| {
      RowCellsLayout(cells, r, b, u + 1, u);
      assert line[j] == mid[j - p];
    } else {
      SpacesAreBlank(p);
      assert line[j] == pad[j - p - |mid|];
    }
  }

  /** The symbols of some colours with one blank between neighbours. */
  function ColorsText(cs: seq<PlayerColor>): string {
    if |cs| == 0 then ""
    else if |cs| == 1 then Symbol(cs[0])
    else ColorsText(cs[..|cs| - 1]) + " " + Symbol(cs[|cs| - 1])
  }

  /** The colours of n cells of row r, from q = colB rightwards. */
  function RowColors(cells: Cells, r: int, colB: int, n: nat): (cs: seq<PlayerColor>)
    ensures |cs| == n
  {
    seq(n, k => ContentsOf(cells, colB + k, r))
  }

  /** The cells colB .. q - 1 of a row are their colours' symbols joined by
      blanks, with a trailing blank while q has not passed colU. */
  lemma {:induction false} RowCellsText(cells: Cells, r: int, colB: int, q: int, colU: int)
    requires colB < q <= colU + 1
    ensures RowCells(cells, r, colB, q, colU)
      == ColorsText(RowColors(cells, r, colB, q - colB)) + (if q <= colU then " " else "")
    decreases q - colB
  {
    var cs := RowColors(cells, r, colB, q - colB);
    if q > colB + 1 {
      RowCellsText(cells, r, colB, q - 1, colU);
      var prev := RowColors(cells, r, colB, q - 1 - colB);
      assert cs[..|cs| - 1] == prev;
      assert ColorsText(cs) == ColorsText(prev) + " " + Symbol(ContentsOf(cells, q - 1, r));
    }
  }

  /** A line is its padding, its row's colours as symbols joined by blanks,
      and its padding again. */
  lemma LineText(size: int, h: int, cells: Cells, r: int)
    requires h >= 0 && -h <= r <= h
    ensures Line(size, h, cells, r) == Spaces(Pad(size, h, r))
      + ColorsText(RowColors(cells, r, ColB(h, r), ColU(h, r) - ColB(h, r) + 1)) + Spaces(Pad(size, h, r))
  {
    RowCellsText(cells, r, ColB(h, r), ColU(h, r) + 1, ColU(h, r));
  }

  /** For an odd size there are size lines, each 2 * size + 3 wide and free
      of newlines. */
  lemma LinesShape(size: int, cells: Cells)
    requires ValidSize(size)
    ensures |Lines(size, cells)| == size
    ensures forall i | 0 <= i < size :: |Lines(size, cells)[i]| == 2 * size + 3
    ensures NoNewline(Lines(size, cells))
  {
    var h := size / 2;
    var ls := Lines(size, cells);
    assert size == 2 * h + 1;
    forall i | 0 <= i < size
      ensures |ls[i]| == 2 * size + 3
      ensures forall j | 0 <= j < |ls[i]| :: ls[i][j] != '\n'
    {
      LineLayout(size, h, cells, i - h);
    }
  }

  /** Cutting the text at its newlines recovers the size lines. */
  lemma SplitRender(size: int, cells: Cells)
    requires ValidSize(size)
    ensures Split(Render(size, cells)) == Lines(size, cells)
    ensures |Split(Render(size, cells))| == size
  {
    LinesShape(size, cells);
    SplitJoin(Lines(size, cells));
  }

  /** The text does not end with a newline: its last character is the last
      line's padding. */
  lemma RenderEndsInBlank(size: int, cells: Cells)
    requires ValidSize(size)
    ensures |Render(size, cells)| > 0 && Render(size, cells)[|Render(size, cells)| - 1] == ' '
  {
    var h := size / 2;
    var ls := Lines(size, cells);
    assert size == 2 * h + 1;
    var s := Render(size, cells);
    var last := ls[size - 1];
    assert last == Line(size, h, cells, h);
    LineCharAt(size, h, cells, h, 2 * size + 2);
    assert s == Join(ls[..size - 1]) + "\n" + last;
    assert s[|s| - 1] == last[|last| - 1];
  }

  // ---------------------------------------------------------------------
  // Steps of toString
  // ---------------------------------------------------------------------

  /** The padding toString computes, (2 * size - (colU - colB) * 2) / 2 + 1,
      is size - (colU - colB) + 1. */
  lemma PadMatches(size: int, w: int)
    ensures (2 * size - w * 2) / 2 + 1 == size - w + 1
  {
  }

  /** Appending cell q's symbol, and its blank unless q is colU, extends the
      row by one cell. */
  lemma CellStep(cells: Cells, r: int, colB: int, q: int, colU: int, start: string, before: string, after: string)
    requires colB <= q <= colU
    requires before == start + RowCells(cells, r, colB, q, colU)
    requires after == before + Symbol(ContentsOf(cells, q, r)) + (if q != colU then " " else "")
    ensures after == start + RowCells(cells, r, colB, q + 1, colU)
  {
  }

  /** The second padding completes the line. */
  lemma LineStep(size: int, h: int, cells: Cells, r: int, start: string, line: string, after: string)
    requires line == start + Spaces(Pad(size, h, r)) + RowCells(cells, r, ColB(h, r), ColU(h, r) + 1, ColU(h, r))
    requires after == line + Spaces(Pad(size, h, r))
    ensures after == start + Line(size, h, cells, r)
  {
  }

  /** Row r finished, and a newline unless r is the last row, extends the
      text by one row. */
  lemma RowStep(size: int, h: int, cells: Cells, r: int, drawn: string, after: string)
    requires h == size / 2 && -h <= r <= h
    requires drawn == JoinedUpTo(Lines(size, cells), r + h) + Line(size, h, cells, r)
    requires after == drawn + (if r != h then "\n" else "")
    ensures after == JoinedUpTo(Lines(size, cells), r + h + 1)
  {
    assert Lines(size, cells)[r + h] == Line(size, h, cells, r);
  }

  /** How toString moves the row bounds after row r: while colB has not
      reached -h it steps left, and from then on colU steps left. */
  lemma ColumnsStep(h: int, r: int)
    requires -h <= r <= h
    ensures ColB(h, r) == -h ==> ColB(h, r + 1) == -h && ColU(h, r + 1) == ColU(h, r) - 1
    ensures ColB(h, r) != -h ==> -h <= ColB(h, r) <= 0
    ensures ColB(h, r) != -h ==> ColB(h, r + 1) == ColB(h, r) - 1 && ColU(h, r + 1) == ColU(h, r)
  {
  }

  // ---------------------------------------------------------------------
  // The view object
  // ---------------------------------------------------------------------

  /** ReversiTextView: a view over a model it only reads. */
  class ReversiTextView {
    const model: ReversiModelStandard

    constructor(model: ReversiModelStandard)
      ensures this.model == model
    {
      this.model := model;
    }

    /** toString: walks r from -h to h, drawing the cells colB .. colU of
        each row between two paddings, then moves colB left until it
        reaches -h and colU left after that. */
    method ToString() returns (s: string)
      requires model.Valid()
      ensures s == Render(model.board.size, model.board.cells)
    {
      var board := model.GetBoard();
      var size := board.GetSize();
      ghost var cells := model.board.cells;
      ghost var ls := Lines(size, cells);
      assert ValidSize(size) && |ls| == Rows(size / 2);
      var b := "";
      var row := size / 2;
      var colB := 0;
      var colU := row;
      var r := -row;
      while r <= row
        invariant -row <= r <= row + 1
        invariant colB == ColB(row, r) && colU == ColU(row, r)
        invariant b == JoinedUpTo(ls, r + row)
      {
        b, colB, colU := DrawRow(b, size, row, cells, r, colB, colU);
        r := r + 1;
      }
      JoinedUpToAll(ls);
      s := b;
    }

    /** One pass of toString's row loop: row r and its newline appended,
        colB and colU moved on to row r + 1. */
    method DrawRow(b: string, size: int, row: int, ghost cells: Cells, r: int, colB: int, colU: int)
      returns (b': string, colB': int, colU': int)
      requires model.Valid() && size == model.board.size && cells == model.board.cells
      requires row == size / 2 && -row <= r <= row
      requires colB == ColB(row, r) && colU == ColU(row, r)
      requires b == JoinedUpTo(Lines(size, cells), r + row)
      ensures b' == JoinedUpTo(Lines(size, cells), r + row + 1)
      ensures colB' == ColB(row, r + 1) && colU' == ColU(row, r + 1)
    {
      var numSpaces := (2 * size - (colU - colB) * 2) / 2 + 1;
      PadMatches(size, colU - colB);
      b' := AppendRow(b, size, row, cells, r, colB, colU, numSpaces);
      ColumnsStep(row, r);
      colB', colU' := colB, colU;
      if colB' == -row {
        colU' := colU' - 1;
      } else if colB' <= 0 && colB' >= -row {
        colB' := colB' - 1;
      }
      ghost var drawn := b';
      if r != row {
        b' := b' + "\n";
      }
      RowStep(size, row, cells, r, drawn, b');
    }

    /** The body of toString's row loop: the padding, the symbols of the
        cells colB .. colU of row r with a blank between neighbours, the
        padding again, appended to the builder b. */
    method AppendRow(b: string, size: int, h: int, ghost cells: Cells, r: int, colB: int, colU: int, numSpaces: int)
      returns (b': string)
      requires model.Valid() && size == model.board.size && cells == model.board.cells
      requires h == size / 2 && -h <= r <= h
      requires colB == ColB(h, r) && colU == ColU(h, r) && numSpaces == Pad(size, h, r)
      ensures b' == b + Line(size, h, cells, r)
    {
      b' := b + Spaces(numSpaces);
      var q := colB;
      while q <= colU
        invariant colB <= q <= colU + 1
        invariant b' == b + Spaces(numSpaces) + RowCells(cells, r, colB, q, colU)
      {
        RowOnBoard(size, h, q, r);
        var c := model.GetContentsOfCell(q, r);
        ghost var before := b';
        b' := b' + Symbol(c.value);
        if q != colU {
          b' := b' + " ";
        }
        CellStep(cells, r, colB, q, colU, b + Spaces(numSpaces), before, b');
        q := q + 1;
      }
      ghost var line := b';
      b' := b' + Spaces(numSpaces);
      LineStep(size, h, cells, r, b, line, b');
    }
  }

  // ---------------------------------------------------------------------
  // The fresh board
  // ---------------------------------------------------------------------

  /** On a fresh board every cell the view asks about holds its starting
      colour: the ring around the centre alternates, all else is EMPTY. */
  lemma InitialContents(size: int, cells: Cells, q: int, r: int)
    requires ValidSize(size) && IsInitial(size, cells)
    ensures ContentsOf(cells, q, r) == InitialColor(HexCoordinates(q, r))
  {
    var c := HexCoordinates(q, r);
    if c !in cells {
      OnBoardByDistance(size, q, r);
      InitialRingAlternates(c);
    }
  }

  /** A fresh size-5 board as the text view draws it, line by line. */
  const FreshFiveLines: seq<string> := [
    "    _ _ _    ",
    "   _ O X _   ",
    "  _ X _ O _  ",
    "   _ O X _   ",
    "    _ _ _    "]

  /** The colours of row r of a fresh size-5 board, q = colB .. colU. */
  lemma FreshFiveRowColors(cells: Cells, r: int, colB: int, cs: seq<PlayerColor>)
    requires IsInitial(5, cells)
    requires forall k | 0 <= k < |cs| :: cs[k] == InitialColor(HexCoordinates(colB + k, r))
    ensures RowColors(cells, r, colB, |cs|) == cs
  {
    forall k | 0 <= k < |cs|
      ensures RowColors(cells, r, colB, |cs|)[k] == cs[k]
    {
      InitialContents(5, cells, colB + k, r);
    }
  }

  /** The colours of the five rows of a fresh size-5 board. */
  lemma FreshFiveColors(cells: Cells)
    requires IsInitial(5, cells)
    ensures RowColors(cells, -2, 0, 3) == [EMPTY, EMPTY, EMPTY]
    ensures RowColors(cells, -1, -1, 4) == [EMPTY, WHITE, BLACK, EMPTY]
    ensures RowColors(cells, 0, -2, 5) == [EMPTY, BLACK, EMPTY, WHITE, EMPTY]
    ensures RowColors(cells, 1, -2, 4) == [EMPTY, WHITE, BLACK, EMPTY]
    ensures RowColors(cells, 2, -2, 3) == [EMPTY, EMPTY, EMPTY]
  {
    FreshFiveRowColors(cells, -2, 0, [EMPTY, EMPTY, EMPTY]);
    FreshFiveRowColors(cells, -1, -1, [EMPTY, WHITE, BLACK, EMPTY]);
    FreshFiveRowColors(cells, 0, -2, [EMPTY, BLACK, EMPTY, WHITE, EMPTY]);
    FreshFiveRowColors(cells, 1, -2, [EMPTY, WHITE, BLACK, EMPTY]);
    FreshFiveRowColors(cells, 2, -2, [EMPTY, EMPTY, EMPTY]);
  }

  /** The symbols of the first and last rows. */
  lemma FreshFiveEdgeSymbols()
    ensures ColorsText([EMPTY, EMPTY, EMPTY]) == "_ _ _"
  {
    assert [EMPTY, EMPTY, EMPTY][..2] == [EMPTY, EMPTY];
    assert [EMPTY, EMPTY][..1] == [EMPTY];
  }

  /** The symbols of the rows next to the middle. */
  lemma FreshFiveNearSymbols()
    ensures ColorsText([EMPTY, WHITE, BLACK, EMPTY]) == "_ O X _"
  {
    assert [EMPTY, WHITE, BLACK, EMPTY][..3] == [EMPTY, WHITE, BLACK];
    assert [EMPTY, WHITE, BLACK][..2] == [EMPTY, WHITE];
    assert [EMPTY, WHITE][..1] == [EMPTY];
  }

  /** The symbols of the middle row. */
  lemma FreshFiveMiddleSymbols()
    ensures ColorsText([EMPTY, BLACK, EMPTY, WHITE, EMPTY]) == "_ X _ O _"
  {
    assert [EMPTY, BLACK, EMPTY, WHITE, EMPTY][..4] == [EMPTY, BLACK, EMPTY, WHITE];
    assert [EMPTY, BLACK, EMPTY, WHITE][..3] == [EMPTY, BLACK, EMPTY];
    assert [EMPTY, BLACK, EMPTY][..2] == [EMPTY, BLACK];
    assert [EMPTY, BLACK][..1] == [EMPTY];
  }

  /** The first and last rows drawn between their paddings. */
  lemma FreshFiveEdgeText()
    ensures Spaces(4) + ColorsText([EMPTY, EMPTY, EMPTY]) + Spaces(4) == FreshFiveLines[0]
    ensures FreshFiveLines[4] == FreshFiveLines[0]
  {
    FreshFiveEdgeSymbols();
  }

  /** The rows next to the middle drawn between their paddings. */
  lemma FreshFiveNearText()
    ensures Spaces(3) + ColorsText([EMPTY, WHITE, BLACK, EMPTY]) + Spaces(3) == FreshFiveLines[1]
    ensures FreshFiveLines[3] == FreshFiveLines[1]
  {
    FreshFiveNearSymbols();
  }

  /** The middle row drawn between its paddings. */
  lemma FreshFiveMiddleText()
    ensures Spaces(2) + ColorsText([EMPTY, BLACK, EMPTY, WHITE, EMPTY]) + Spaces(2) == FreshFiveLines[2]
  {
    FreshFiveMiddleSymbols();
  }

  /** Row -2 of a fresh size-5 board. */
  lemma FreshFiveTop(cells: Cells)
    requires IsInitial(5, cells)
    ensures Line(5, 2, cells, -2) == FreshFiveLines[0]
  {
    FreshFiveColors(cells);
    LineText(5, 2, cells, -2);
    FreshFiveEdgeText();
  }

  /** Row -1 of a fresh size-5 board. */
  lemma FreshFiveUpper(cells: Cells)
    requires IsInitial(5, cells)
    ensures Line(5, 2, cells, -1) == FreshFiveLines[1]
  {
    FreshFiveColors(cells);
    LineText(5, 2, cells, -1);
    FreshFiveNearText();
  }

  /** Row 0 of a fresh size-5 board. */
  lemma FreshFiveMiddle(cells: Cells)
    requires IsInitial(5, cells)
    ensures Line(5, 2, cells, 0) == FreshFiveLines[2]
  {
    FreshFiveColors(cells);
    LineText(5, 2, cells, 0);
    FreshFiveMiddleText();
  }

  /** Row 1 of a fresh size-5 board. */
  lemma FreshFiveLower(cells: Cells)
    requires IsInitial(5, cells)
    ensures Line(5, 2, cells, 1) == FreshFiveLines[3]
  {
    FreshFiveColors(cells);
    LineText(5, 2, cells, 1);
    FreshFiveNearText();
  }

  /** Row 2 of a fresh size-5 board. */
  lemma FreshFiveBottom(cells: Cells)
    requires IsInitial(5, cells)
    ensures Line(5, 2, cells, 2) == FreshFiveLines[4]
  {
    FreshFiveColors(cells);
    LineText(5, 2, cells, 2);
    FreshFiveEdgeText();
  }

  /** A size-5 board has the five lines r = -2 .. 2. */
  lemma FiveLines(cells: Cells)
    ensures Lines(5, cells) == [Line(5, 2, cells, -2), Line(5, 2, cells, -1), Line(5, 2, cells, 0),
      Line(5, 2, cells, 1), Line(5, 2, cells, 2)]
  {
    var ls := Lines(5, cells);
    assert |ls| == 5;
    assert ls == [ls[0], ls[1], ls[2], ls[3], ls[4]];
    assert ls[0] == Line(5, 2, cells, -2) && ls[1] == Line(5, 2, cells, -1);
    assert ls[2] == Line(5, 2, cells, 0);
    assert ls[3] == Line(5, 2, cells, 1) && ls[4] == Line(5, 2, cells, 2);
  }

  /** The five lines of a fresh size-5 board. */
  lemma FreshFiveLinesAre(cells: Cells)
    requires IsInitial(5, cells)
    ensures Lines(5, cells) == FreshFiveLines
  {
    FiveLines(cells);
    FreshFiveTop(cells);
    FreshFiveUpper(cells);
    FreshFiveMiddle(cells);
    FreshFiveLower(cells);
    FreshFiveBottom(cells);
  }

  /** A fresh (or freshly passed) size-5 game renders as the five lines
      above, joined by newlines. */
  lemma FreshFiveRender(cells: Cells)
    requires IsInitial(5, cells)
    ensures Render(5, cells) == Join(FreshFiveLines)
  {
    FreshFiveLinesAre(cells);
  }
}
