// The Board class: a hexagonal map from axial coordinates to colours that
// makeMove updates in place. Every method is proved against the
// specification functions of BoardRules.

module BoardImpl {
  import opened Wrappers
  import opened Colors
  import opened HexCoords
  import opened BoardRules

  /** Prepends the cells already walked over to what the rest of a walk
      yields. */
  function Prepend(pc: seq<HexCoordinates>, w: Option<seq<HexCoordinates>>): Option<seq<HexCoordinates>> {
    match w
    case None => None
    case Some(rest) => Some(pc + rest)
  }

  /** One step of findPossibleMoves from `cur`: off the keys the walk
      fails, on a cell of `color` it ends, and on any other cell it goes on
      from there with that cell collected and fewer cells ahead. */
  lemma WalkStep(cells: Cells, cur: HexCoordinates, color: PlayerColor, dq: int, dr: int, pc: seq<HexCoordinates>)
    requires IsDirection(dq, dr)
    ensures Ray(cur, dq, dr, 1) !in cells ==> Walk(cells, cur, color, dq, dr) == None
    ensures Ray(cur, dq, dr, 1) in cells && cells[Ray(cur, dq, dr, 1)] == color ==>
              Prepend(pc, Walk(cells, cur, color, dq, dr)) == Some(pc)
    ensures Ray(cur, dq, dr, 1) in cells && cells[Ray(cur, dq, dr, 1)] != color ==>
              && Prepend(pc, Walk(cells, cur, color, dq, dr)) == Prepend(pc + [Ray(cur, dq, dr, 1)], Walk(cells, Ray(cur, dq, dr, 1), color, dq, dr))
              && Ahead(cells, Ray(cur, dq, dr, 1), dq, dr) < Ahead(cells, cur, dq, dr)
  {
    var next := Ray(cur, dq, dr, 1);
    if next in cells && cells[next] != color {
      AheadShrinks(cells, cur, dq, dr);
      match Walk(cells, next, color, dq, dr) {
        case None =>
        case Some(rest) => assert pc + ([next] + rest) == (pc + [next]) + rest;
      }
    } else if next in cells {
      assert pc + [] == pc;
    }
  }

  /** How many of the ring cells at which initBoard toggles its colour
      (every ring cell except those with r == 1) come before (q, r) in the
      order of its two loops. */
  function Toggles(q: int, r: int): nat {
    (if -1 < q || (q == -1 && 0 < r) then 1 else 0)
    + (if 0 < q || (q == 0 && -1 < r) then 1 else 0)
    + (if 1 < q || (q == 1 && -1 < r) then 1 else 0)
    + (if 1 < q || (q == 1 && 0 < r) then 1 else 0)
  }

  /** The colour initBoard's `prev` holds when it reaches (q, r). */
  function PrevAt(q: int, r: int): PlayerColor {
    if Toggles(q, r) % 2 == 0 then BLACK else WHITE
  }

  /** One step of initBoard's inner loop: a ring cell gets `prev`, which is
      its initial colour, and `prev` toggles after it unless r == 1; any
      other cell is EMPTY initially and leaves `prev` alone. */
  lemma PrevStep(q: int, r: int)
    ensures Distance(q, r) == 2 ==> PrevAt(q, r) == InitialColor(HexCoordinates(q, r))
    ensures Distance(q, r) != 2 ==> InitialColor(HexCoordinates(q, r)) == EMPTY
    ensures Distance(q, r) == 2 && r != 1 ==> PrevAt(q, r + 1) == Opposite(PrevAt(q, r))
    ensures Distance(q, r) != 2 || r == 1 ==> PrevAt(q, r + 1) == PrevAt(q, r)
  {
    RingCells(q, r);
    InitialRingAlternates(HexCoordinates(q, r));
    if Distance(q, r) == 2 {
      assert Toggles(q, r + 1) == Toggles(q, r) + (if r != 1 then 1 else 0);
    } else {
      assert Toggles(q, r + 1) == Toggles(q, r);
    }
  }

  /** No toggle cell lies between the end of one column and the start of
      the next. */
  lemma PrevNextColumn(size: int, q: int)
    requires ValidSize(size) && -size < q < size - 1
    ensures PrevAt(q + 1, RowStart(size, q + 1)) == PrevAt(q, RowEnd(size, q) + 1)
  {
  }

  /** What initBoard has stored on reaching (q, r): exactly the keys its
      loops visited before, each with its initial colour. */
  ghost predicate FilledBefore(size: int, cells: Cells, q: int, r: int) {
    && (forall h :: h in cells <==> InKeys(size, h) && (h.q < q || (h.q == q && h.r < r)))
    && (forall h | h in cells :: cells[h] == InitialColor(h))
  }

  lemma FillCell(size: int, cells: Cells, q: int, r: int)
    requires FilledBefore(size, cells, q, r) && -size < q < size && RowStart(size, q) <= r <= RowEnd(size, q)
    ensures FilledBefore(size, cells[HexCoordinates(q, r) := InitialColor(HexCoordinates(q, r))], q, r + 1)
  {
  }

  lemma FillColumn(size: int, cells: Cells, q: int)
    requires FilledBefore(size, cells, q, RowEnd(size, q) + 1)
    ensures FilledBefore(size, cells, q + 1, RowStart(size, q + 1))
  {
  }

  lemma FillDone(size: int, cells: Cells)
    requires FilledBefore(size, cells, size, RowStart(size, size))
    ensures IsInitial(size, cells)
  {
  }

  /** The number of directions (qc, b) with b < rc that findAllMoves visits
      in row qc (it skips b == qc). */
  function DirsBefore(qc: int, rc: int): nat {
    (if -1 < rc && qc != -1 then 1 else 0)
    + (if 0 < rc && qc != 0 then 1 else 0)
    + (if 1 < rc && qc != 1 then 1 else 0)
  }

  /** The board makeMove has produced after checking the first i lists:
      the capturing ones among them and, once one captured, the target
      recoloured. */
  function Replayed(c0: Cells, moves: seq<seq<HexCoordinates>>, h: HexCoordinates, color: PlayerColor, i: int, any: bool): Cells
    requires 0 <= i <= |moves|
  {
    Recolor(c0, FlippedUpTo(c0, moves, color, i) + (if any then {h} else {}), color)
  }

  /** The cells recoloured before list i lie off that list, so
      checkAllColors reads it as the original board has it. */
  lemma StepReads(c0: Cells, moves: seq<seq<HexCoordinates>>, h: HexCoordinates, color: PlayerColor, i: int, any: bool)
    requires ListsApart(moves, h) && 0 <= i < |moves|
    ensures AllOfColor(Replayed(c0, moves, h, color, i, any), moves[i], Opposite(color)) == AllOfColor(c0, moves[i], Opposite(color))
  {
    FlippedBeforeDisjoint(c0, moves, h, color, i, i);
    RecolorAway(c0, FlippedUpTo(c0, moves, color, i) + (if any then {h} else {}), color, moves[i], Opposite(color));
  }

  /** Recolouring a capturing list i (with the target) extends the
      recoloured set to the first i + 1 lists; a list that does not
      capture leaves it as it was. */
  lemma StepWrites(c0: Cells, moves: seq<seq<HexCoordinates>>, h: HexCoordinates, color: PlayerColor, i: int, any: bool)
    requires 0 <= i < |moves|
    ensures ListCaptures(c0, moves[i], color) ==>
              Recolor(Replayed(c0, moves, h, color, i, any), Elems(moves[i]) + {h}, color) == Replayed(c0, moves, h, color, i + 1, true)
    ensures !ListCaptures(c0, moves[i], color) ==> Replayed(c0, moves, h, color, i + 1, any) == Replayed(c0, moves, h, color, i, any)
  {
    var before := FlippedUpTo(c0, moves, color, i) + (if any then {h} else {});
    if ListCaptures(c0, moves[i], color) {
      RecolorTwice(c0, before, Elems(moves[i]) + {h}, color);
      assert before + (Elems(moves[i]) + {h}) == FlippedUpTo(c0, moves, color, i + 1) + {h};
    }
  }

  /** One pass of makeMove's loop over the six lists: from the board
      `pre` left by the first i lists, checkAllColors on list i (skipped
      when it is empty) leaves the board the first i + 1 lists give, and
      the flag records whether any of them captured. */
  lemma LoopStep(c0: Cells, moves: seq<seq<HexCoordinates>>, h: HexCoordinates, color: PlayerColor, i: int,
                 any: bool, pre: Cells, post: Cells, flipped: bool, anyAfter: bool)
    requires ListsApart(moves, h) && 0 <= i < |moves|
    requires pre == Replayed(c0, moves, h, color, i, any)
    requires any <==> CountUpTo(c0, moves, color, i) > 0
    requires flipped == (|moves[i]| > 0 && AllOfColor(pre, moves[i], Opposite(color)))
    requires post == if flipped then Recolor(pre, Elems(moves[i]) + {h}, color) else pre
    requires anyAfter == (any || flipped)
    ensures post == Replayed(c0, moves, h, color, i + 1, anyAfter)
    ensures anyAfter <==> CountUpTo(c0, moves, color, i + 1) > 0
  {
    StepReads(c0, moves, h, color, i, any);
    StepWrites(c0, moves, h, color, i, any);
  }

  class Board {
    const size: int
    var cells: Cells

    /** The class invariant: the key set, colours and size initBoard
        establishes and every move keeps. */
    ghost predicate Valid()
      reads this
    {
      WellFormed(size, cells) && RingOccupied(cells)
    }

    /** new Board(size) for a size checkBoardSize accepts. */
    constructor(size: int)
      requires ValidSize(size)
      ensures this.size == size
      ensures IsInitial(size, cells)
      ensures Valid()
    {
      this.size := size;
      cells := map[];
      new;
      InitBoard();
      InitialScores(size, cells);
      InitialRingOccupied(size, cells);
    }

    /** new Board(size): checkBoardSize first, so an even size or one of
        three or less is an illegal argument. */
    static method Create(size: int) returns (res: Result<Board, ReversiError>)
      ensures res.Failure? <==> !ValidSize(size)
      ensures res.Failure? ==> res.error == IllegalArgument
      ensures res.Success? ==> fresh(res.value) && res.value.size == size && res.value.Valid()
      ensures res.Success? ==> IsInitial(size, res.value.cells)
    {
      match CheckBoardSize(size)
      case Failure(e) =>
        res := Failure(e);
      case Success(s) =>
        var b := new Board(s);
        res := Success(b);
    }

    /** initBoard: every key of the two loops is stored, the ring cells
        get alternating colours and every other cell is EMPTY. */
    method InitBoard()
      requires ValidSize(size) && cells == map[]
      modifies this
      ensures IsInitial(size, cells)
    {
      var prev := BLACK;
      var q := -size + 1;
      while q < size
        invariant -size + 1 <= q <= size
        invariant FilledBefore(size, cells, q, RowStart(size, q))
        invariant q < size ==> prev == PrevAt(q, RowStart(size, q))
      {
        var r1 := RowStart(size, q);
        var r2 := RowEnd(size, q);
        var r := r1;
        while r <= r2
          invariant r1 <= r <= r2 + 1
          invariant FilledBefore(size, cells, q, r)
          invariant prev == PrevAt(q, r)
        {
          var axialCoords := HexCoordinates(q, r);
          var s := -(q + r);
          PrevStep(q, r);
          FillCell(size, cells, q, r);
          if Abs(q) + Abs(s) + Abs(r) == 2 {
            cells := cells[axialCoords := prev];
            if r != 1 {
              if prev == BLACK {
                prev := WHITE;
              } else {
                prev := BLACK;
              }
            }
          } else {
            cells := cells[axialCoords := EMPTY];
          }
          r := r + 1;
        }
        FillColumn(size, cells, q);
        if q < size - 1 {
          PrevNextColumn(size, q);
        }
        q := q + 1;
      }
      FillDone(size, cells);
    }

    /** getBoard: a copy of the map; a map is a value, so nothing done to
        the copy reaches this board. */
    method GetBoard() returns (m: Cells)
      ensures m == cells
    {
      m := cells;
    }

    /** setBoard: replaces the map. */
    method SetBoard(m: Cells)
      modifies this
      ensures cells == m
    {
      cells := m;
    }

    method GetSize() returns (s: int)
      ensures s == size
    {
      s := size;
    }

    /** getCopy: a fresh board of the same size holding the same map. */
    method GetCopy() returns (b: Board)
      requires Valid()
      ensures fresh(b)
      ensures b.size == size && b.cells == cells && b.Valid()
    {
      b := new Board(size);
      var m := GetBoard();
      b.SetBoard(m);
    }

    /** findPossibleMoves: walks from (q, r) in direction (qInc, rInc)
        collecting cells until it meets one of `color` (the collected cells
        are returned) or falls off the stored keys (an empty list is). */
    method FindPossibleMoves(q: int, r: int, color: PlayerColor, qInc: int, rInc: int)
      returns (pc: seq<HexCoordinates>)
      requires IsDirection(qInc, rInc)
      ensures pc == BoardRules.FindPossibleMoves(cells, HexCoordinates(q, r), color, qInc, rInc)
    {
      ghost var from := HexCoordinates(q, r);
      pc := [];
      var contains := true;
      var cq, cr := q, r;
      assert Prepend([], Walk(cells, from, color, qInc, rInc)) == Walk(cells, from, color, qInc, rInc) by {
        match Walk(cells, from, color, qInc, rInc) {
          case None =>
          case Some(rest) => assert [] + rest == rest;
        }
      }
      while contains
        invariant contains ==> Walk(cells, from, color, qInc, rInc) == Prepend(pc, Walk(cells, HexCoordinates(cq, cr), color, qInc, rInc))
        invariant !contains ==> Walk(cells, from, color, qInc, rInc) == None
        decreases contains, Ahead(cells, HexCoordinates(cq, cr), qInc, rInc)
      {
        ghost var cur := HexCoordinates(cq, cr);
        WalkStep(cells, cur, color, qInc, rInc, pc);
        cq := cq + qInc;
        cr := cr + rInc;
        var next := HexCoordinates(cq, cr);
        assert next == Ray(cur, qInc, rInc, 1);
        if next !in cells {
          contains := false;
        } else if cells[next] == color {
          return pc;
        } else {
          pc := pc + [next];
        }
      }
      pc := [];
    }

    /** findAllMoves: the lists of the six directions, in the order of its
        two loops. */
    method FindAllMoves(q: int, r: int, color: PlayerColor) returns (moves: seq<seq<HexCoordinates>>)
      ensures moves == AllMoves(cells, HexCoordinates(q, r), color)
    {
      ghost var all := AllMoves(cells, HexCoordinates(q, r), color);
      moves := [];
      var qCoord := -1;
      while qCoord <= 1
        invariant -1 <= qCoord <= 2
        invariant |moves| == 2 * (qCoord + 1)
        invariant forall i | 0 <= i < |moves| :: moves[i] == all[i]
      {
        var rCoord := -1;
        while rCoord <= 1
          invariant -1 <= rCoord <= 2
          invariant |moves| == 2 * (qCoord + 1) + DirsBefore(qCoord, rCoord)
          invariant forall i | 0 <= i < |moves| :: moves[i] == all[i]
        {
          if qCoord != rCoord {
            assert Directions[|moves|] == (qCoord, rCoord);
            var m := FindPossibleMoves(q, r, color, qCoord, rCoord);
            moves := moves + [m];
          }
          rCoord := rCoord + 1;
        }
        qCoord := qCoord + 1;
      }
    }

    /** checkAllSame: every listed cell is stored with colour `color`. */
    method CheckAllSame(hex: seq<HexCoordinates>, color: PlayerColor) returns (same: bool)
      ensures same == AllOfColor(cells, hex, color)
    {
      var i := 0;
      while i < |hex|
        invariant 0 <= i <= |hex|
        invariant forall j | 0 <= j < i :: hex[j] in cells && cells[hex[j]] == color
      {
        if hex[i] !in cells || cells[hex[i]] != color {
          return false;
        }
        i := i + 1;
      }
      return true;
    }

    /** checkNumSame: the list's length when it is all `color`, else 0. */
    method CheckNumSame(hex: seq<HexCoordinates>, color: PlayerColor) returns (n: int)
      ensures n == if AllOfColor(cells, hex, color) then |hex| else 0
    {
      var same := CheckAllSame(hex, color);
      if same {
        n := |hex|;
      } else {
        n := 0;
      }
    }

    /** flipColors: HashMap.replace(h, color) for every listed cell. */
    method FlipColors(hex: seq<HexCoordinates>, color: PlayerColor)
      modifies this
      ensures cells == Recolor(old(cells), Elems(hex), color)
    {
      var i := 0;
      while i < |hex|
        invariant 0 <= i <= |hex|
        invariant cells == Recolor(old(cells), Elems(hex[..i]), color)
      {
        assert Elems(hex[..i + 1]) == Elems(hex[..i]) + {hex[i]} by {
          assert hex[..i + 1] == hex[..i] + [hex[i]];
        }
        RecolorAdd(old(cells), Elems(hex[..i]), hex[i], color);
        if hex[i] in cells {
          cells := cells[hex[i] := color];
        }
        i := i + 1;
      }
      assert hex[..|hex|] == hex;
    }

    /** checkAllColors: when the list is all of the opposite colour, flips it
        and the target (q, r) to `color` and reports true; otherwise changes
        nothing and reports false. */
    method CheckAllColors(hex: seq<HexCoordinates>, color: PlayerColor, q: int, r: int) returns (flipped: bool)
      modifies this
      ensures flipped == AllOfColor(old(cells), hex, Opposite(color))
      ensures cells == if flipped then Recolor(old(cells), Elems(hex) + {HexCoordinates(q, r)}, color) else old(cells)
    {
      var colorToCheck := if color == BLACK then WHITE else BLACK;
      var same := CheckAllSame(hex, colorToCheck);
      if same {
        FlipColors(hex, color);
        var h := HexCoordinates(q, r);
        RecolorAdd(old(cells), Elems(hex), h, color);
        if h in cells {
          cells := cells[h := color];
        }
        return true;
      }
      return false;
    }

    /** isValidMove: the target is an EMPTY stored cell and some non-empty
        list is all of the opposite colour. */
    method IsValidMove(q: int, r: int, color: PlayerColor) returns (valid: bool)
      ensures valid == IsValidMoveAt(cells, HexCoordinates(q, r), color)
    {
      var h := HexCoordinates(q, r);
      if h in cells && cells[h] == EMPTY {
        var hc := FindAllMoves(q, r, color);
        var i := 0;
        while i < |hc|
          invariant 0 <= i <= |hc|
          invariant forall j | 0 <= j < i :: !ListCaptures(cells, hc[j], color)
        {
          var colSwitch := if color == BLACK then WHITE else BLACK;
          if |hc[i]| > 0 {
            var same := CheckAllSame(hc[i], colSwitch);
            if same {
              return true;
            }
          }
          i := i + 1;
        }
      }
      return false;
    }

    /** numTilesCaptured: the total length of the capturing lists. */
    method NumTilesCaptured(q: int, r: int, color: PlayerColor) returns (num: int)
      ensures num == NumCaptured(cells, HexCoordinates(q, r), color)
    {
      num := 0;
      var moves := FindAllMoves(q, r, color);
      var colorToCheck := if color == BLACK then WHITE else BLACK;
      var i := 0;
      while i < |moves|
        invariant 0 <= i <= |moves|
        invariant num == CountUpTo(cells, moves, color, i)
      {
        if |moves[i]| > 0 {
          var n := CheckNumSame(moves[i], colorToCheck);
          num := num + n;
        }
        i := i + 1;
      }
    }

    /** makeMove: checks the colour, then the coordinates, then the move;
        a legal move colours the target and every capturing list, anything
        else raises and leaves the board as it was. */
    method MakeMove(q: int, r: int, color: PlayerColor) returns (o: Outcome<ReversiError>)
      requires Valid()
      modifies this
      ensures Valid()
      ensures o.Pass? <==> IsLegalMove(size, old(cells), HexCoordinates(q, r), color)
      ensures color == EMPTY || !IsValidCoordinates(size, q, r) ==> o == Fail(IllegalArgument)
      ensures color != EMPTY && IsValidCoordinates(size, q, r) && o.Fail? ==> o == Fail(IllegalState)
      ensures cells == if o.Pass? then AfterMove(old(cells), HexCoordinates(q, r), color) else old(cells)
    {
      if color == EMPTY {
        return Fail(IllegalArgument);
      }
      var anyFlipped := false;
      if !IsValidCoordinates(size, q, r) {
        return Fail(IllegalArgument);
      }
      var isNotOriginal := Abs(q) + Abs(r) + Abs(-q - r) != 2;
      var valid := IsValidMove(q, r, color);
      if !valid && isNotOriginal {
        return Fail(IllegalState);
      }
      if !isNotOriginal {
        return Fail(IllegalState);
      }
      ghost var h := HexCoordinates(q, r);
      ghost var c0 := cells;
      var moves := FindAllMoves(q, r, color);
      AllMovesApart(c0, h, color);
      anyFlipped := FlipCaptured(moves, color, q, r);
      // The source raises here when nothing was flipped; a valid move
      // always flips something, so that branch is never taken.
      CapturedPositiveIffValid(c0, h, color);
      assert anyFlipped;
      assert cells == AfterMove(c0, h, color);
      MovePreservesWellFormed(size, c0, h, color);
      MovePreservesRing(c0, h, color);
      return Pass;
    }

    /** The loop of makeMove: checkAllColors on every non-empty list of
        `moves`, noting whether any of them flipped. */
    method FlipCaptured(moves: seq<seq<HexCoordinates>>, color: PlayerColor, q: int, r: int) returns (anyFlipped: bool)
      requires ListsApart(moves, HexCoordinates(q, r))
      modifies this
      ensures cells == Replayed(old(cells), moves, HexCoordinates(q, r), color, |moves|, anyFlipped)
      ensures anyFlipped <==> CountUpTo(old(cells), moves, color, |moves|) > 0
    {
      ghost var h := HexCoordinates(q, r);
      ghost var c0 := cells;
      anyFlipped := false;
      var i := 0;
      while i < |moves|
        invariant 0 <= i <= |moves|
        invariant cells == Replayed(c0, moves, h, color, i, anyFlipped)
        invariant anyFlipped <==> CountUpTo(c0, moves, color, i) > 0
      {
        ghost var pre, anyBefore := cells, anyFlipped;
        var move := moves[i];
        var flipped := false;
        if |move| > 0 {
          flipped := CheckAllColors(move, color, q, r);
          if flipped {
            anyFlipped := true;
          }
        }
        LoopStep(c0, moves, h, color, i, anyBefore, pre, cells, flipped, anyFlipped);
        i := i + 1;
      }
    }

    /** hasValidMove: scans the stored keys column by column and reports
        whether some cell on the hexagon is a valid move for `color`. */
    method HasValidMove(color: PlayerColor) returns (res: Result<bool, ReversiError>)
      requires Valid()
      ensures color == EMPTY <==> res == Failure(IllegalArgument)
      ensures res.Success? ==> (res.value <==> exists h: HexCoordinates :: IsValidCoordinates(size, h.q, h.r) && IsValidMoveAt(cells, h, color))
    {
      if color == EMPTY {
        return Failure(IllegalArgument);
      }
      var q := -size + 1;
      while q < size
        invariant -size + 1 <= q <= size
        invariant forall h: HexCoordinates | h.q < q && InKeys(size, h) && Distance(h.q, h.r) <= size - 1 :: !IsValidMoveAt(cells, h, color)
      {
        var r1 := RowStart(size, q);
        var r2 := RowEnd(size, q);
        var r := r1;
        while r <= r2
          invariant r1 <= r <= r2 + 1
          invariant forall h: HexCoordinates | (h.q < q || (h.q == q && h.r < r)) && InKeys(size, h) && Distance(h.q, h.r) <= size - 1
            :: !IsValidMoveAt(cells, h, color)
        {
          if Abs(q) + Abs(r) + Abs(-q - r) <= size - 1 {
            var valid := IsValidMove(q, r, color);
            if valid {
              OnBoardByDistance(size, q, r);
              return Success(true);
            }
          }
          r := r + 1;
        }
        q := q + 1;
      }
      forall h: HexCoordinates | IsValidCoordinates(size, h.q, h.r)
        ensures !IsValidMoveAt(cells, h, color)
      {
        OnBoardByDistance(size, h.q, h.r);
      }
      return Success(false);
    }

    /** getColorAt: the stored colour, or an illegal argument for a key the
        map does not hold. */
    method GetColorAt(q: int, r: int) returns (res: Result<PlayerColor, ReversiError>)
      ensures HexCoordinates(q, r) in cells ==> res == Success(cells[HexCoordinates(q, r)])
      ensures HexCoordinates(q, r) !in cells ==> res == Failure(IllegalArgument)
      ensures Valid() ==> (res.Success? <==> InKeys(size, HexCoordinates(q, r)))
    {
      var h := HexCoordinates(q, r);
      if h !in cells {
        return Failure(IllegalArgument);
      }
      return Success(cells[h]);
    }

    /** getScore: counts the stored cells of colour `color`. */
    method GetScore(color: PlayerColor) returns (res: Result<int, ReversiError>)
      ensures color == EMPTY ==> res == Failure(IllegalArgument)
      ensures color != EMPTY ==> res == Success(Score(cells, color))
    {
      var score := 0;
      if color == EMPTY {
        return Failure(IllegalArgument);
      }
      var keys := cells.Keys;
      while keys != {}
        invariant keys <= cells.Keys
        invariant score + |set h | h in keys && cells[h] == color| == Score(cells, color)
        decreases keys
      {
        var hex :| hex in keys;
        var rest := keys - {hex};
        if cells[hex] == color {
          assert (set h | h in keys && cells[h] == color) == (set h | h in rest && cells[h] == color) + {hex};
          score := score + 1;
        } else {
          assert (set h | h in keys && cells[h] == color) == (set h | h in rest && cells[h] == color);
        }
        keys := rest;
      }
      return Success(score);
    }
  }
}
