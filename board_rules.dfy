/** The rules of the hexagonal board (Board.java) as pure definitions: the
    size check, the stored key set and the playable hexagon, the capture walk
    in the six hex directions, the capture count, the effect of a move and
    the score. The class in board.dfy is proved against these definitions;
    the lemmas here state what the rules promise. */
module BoardRules {
  import opened Wrappers
  import opened Colors
  import opened HexCoords

  /** The board's HashMap from coordinates to colours. */
  type Cells = map<HexCoordinates, PlayerColor>

  // ---------------------------------------------------------------------
  // Size and geometry
  // ---------------------------------------------------------------------

  /** checkBoardSize: a size is accepted iff it is odd and greater than three. */
  function CheckBoardSize(size: int): (r: Result<int, ReversiError>)
    ensures r.Success? <==> size > 3 && size % 2 == 1
    ensures r.Success? ==> r.value == size
    ensures r.Failure? ==> r.error == IllegalArgument
  {
    if size % 2 == 0 || size <= 3 then Failure(IllegalArgument) else Success(size)
  }

  predicate ValidSize(size: int) {
    CheckBoardSize(size).Success?
  }

  /** The sizes the source's tests reject, and the two they use. */
  lemma CheckBoardSizeExamples()
    ensures CheckBoardSize(0).Failure? && CheckBoardSize(3).Failure?
    ensures CheckBoardSize(6).Failure? && CheckBoardSize(-5).Failure?
    ensures ValidSize(5) && ValidSize(7) && ValidSize(11)
  {
  }

  function Abs(x: int): nat {
    if x < 0 then -x else x
  }

  /** |q| + |r| + |s| with s = -q - r: twice the cube distance to the centre. */
  function Distance(q: int, r: int): nat {
    Abs(q) + Abs(r) + Abs(-q - r)
  }

  /** isValidCoordinates: the playable hexagon. */
  predicate IsValidCoordinates(size: int, q: int, r: int) {
    && q >= -(size / 2) && q <= size / 2
    && r >= -(size / 2) && r <= size / 2
    && Distance(q, r) <= size - 1
  }

  /** First r of column q in the scans of initBoard, hasValidMove and the
      capture strategy: max(-size + 1, -size - q). */
  function RowStart(size: int, q: int): int {
    if -size + 1 >= -size - q then -size + 1 else -size - q
  }

  /** Last r of column q in those scans: min(size - 1, size - q - 1). */
  function RowEnd(size: int, q: int): int {
    if size - 1 <= size - q - 1 then size - 1 else size - q - 1
  }

  /** The key set initBoard stores: every (q, r) its two loops visit. It is
      larger than the hexagon and not symmetric in q + r. */
  predicate InKeys(size: int, h: HexCoordinates) {
    -size < h.q < size && RowStart(size, h.q) <= h.r <= RowEnd(size, h.q)
  }

  /** For an odd size the distance bound alone decides membership of the
      hexagon, and every hexagon cell is a stored key. */
  lemma OnBoardByDistance(size: int, q: int, r: int)
    requires ValidSize(size)
    ensures IsValidCoordinates(size, q, r) <==> Distance(q, r) <= size - 1
    ensures IsValidCoordinates(size, q, r) ==> InKeys(size, HexCoordinates(q, r))
  {
    assert size == 2 * (size / 2) + 1;
  }

  // ---------------------------------------------------------------------
  // Board contents
  // ---------------------------------------------------------------------

  /** Stored cells outside the hexagon are EMPTY. */
  predicate OutsideEmpty(size: int, cells: Cells) {
    forall h | h in cells && !IsValidCoordinates(size, h.q, h.r) :: cells[h] == EMPTY
  }

  /** The board invariant: a valid size, exactly initBoard's key set, and
      nothing but EMPTY outside the hexagon. */
  ghost predicate WellFormed(size: int, cells: Cells) {
    && ValidSize(size)
    && (forall h {:trigger InKeys(size, h)} :: h in cells <==> InKeys(size, h))
    && OutsideEmpty(size, cells)
  }

  /** getContentsOfCell: the colour stored at (q, r). The real model raises
      for a cell that is not stored; the strategies and the text view never
      ask for one, so EMPTY stands in for that case. */
  function ContentsOf(cells: Cells, q: int, r: int): PlayerColor {
    if HexCoordinates(q, r) in cells then cells[HexCoordinates(q, r)] else EMPTY
  }

  /** The colour initBoard gives a cell: the six cells around the centre
      alternate BLACK and WHITE, every other cell is EMPTY. */
  function InitialColor(h: HexCoordinates): PlayerColor {
    if h == HexCoordinates(-1, 0) || h == HexCoordinates(0, 1) || h == HexCoordinates(1, -1) then BLACK
    else if h == HexCoordinates(-1, 1) || h == HexCoordinates(0, -1) || h == HexCoordinates(1, 0) then WHITE
    else EMPTY
  }

  /** A freshly initialised board. */
  ghost predicate IsInitial(size: int, cells: Cells) {
    && (forall h :: h in cells <==> InKeys(size, h))
    && (forall h | h in cells :: cells[h] == InitialColor(h))
  }

  /** The six cells at distance two: the ring around the centre. */
  lemma RingCells(q: int, r: int)
    ensures Distance(q, r) == 2 <==>
      (q, r) in {(-1, 0), (-1, 1), (0, -1), (0, 1), (1, -1), (1, 0)}
  {
    if Distance(q, r) == 2 {
      assert -1 <= q <= 1 && -1 <= r <= 1;
    }
  }

  /** The initial colours sit exactly on the ring at distance one, and going
      round that ring they alternate. */
  lemma InitialRingAlternates(h: HexCoordinates)
    ensures InitialColor(h) != EMPTY <==> Distance(h.q, h.r) == 2
    ensures InitialColor(HexCoordinates(1, -1)) == BLACK && InitialColor(HexCoordinates(1, 0)) == WHITE
    ensures InitialColor(HexCoordinates(0, 1)) == BLACK && InitialColor(HexCoordinates(-1, 1)) == WHITE
    ensures InitialColor(HexCoordinates(-1, 0)) == BLACK && InitialColor(HexCoordinates(0, -1)) == WHITE
  {
  }

  /** The cells holding colour c. */
  function ColorSet(cells: Cells, c: PlayerColor): set<HexCoordinates> {
    set h | h in cells && cells[h] == c
  }

  /** getScore: the number of cells holding colour c. */
  function Score(cells: Cells, c: PlayerColor): nat {
    |ColorSet(cells, c)|
  }

  /** A fresh board scores three for each player. */
  lemma InitialScores(size: int, cells: Cells)
    requires ValidSize(size) && IsInitial(size, cells)
    ensures Score(cells, BLACK) == 3 && Score(cells, WHITE) == 3
    ensures WellFormed(size, cells)
  {
    InitialColorSets(size, cells);
    InitialWellFormed(size, cells);
  }

  /** The three BLACK and the three WHITE cells of a fresh board. */
  lemma InitialColorSets(size: int, cells: Cells)
    requires ValidSize(size) && IsInitial(size, cells)
    ensures ColorSet(cells, BLACK) == {HexCoordinates(-1, 0), HexCoordinates(0, 1), HexCoordinates(1, -1)}
    ensures ColorSet(cells, WHITE) == {HexCoordinates(-1, 1), HexCoordinates(0, -1), HexCoordinates(1, 0)}
  {
    var b1, b2, b3 := HexCoordinates(-1, 0), HexCoordinates(0, 1), HexCoordinates(1, -1);
    var w1, w2, w3 := HexCoordinates(-1, 1), HexCoordinates(0, -1), HexCoordinates(1, 0);
    assert InKeys(size, b1) && InKeys(size, b2) && InKeys(size, b3);
    assert InKeys(size, w1) && InKeys(size, w2) && InKeys(size, w3);
  }

  /** A fresh board satisfies the board invariant. */
  lemma InitialWellFormed(size: int, cells: Cells)
    requires ValidSize(size) && IsInitial(size, cells)
    ensures WellFormed(size, cells)
  {
    forall h | h in cells && !IsValidCoordinates(size, h.q, h.r)
      ensures cells[h] == EMPTY
    {
      OnBoardByDistance(size, h.q, h.r);
    }
  }

  // ---------------------------------------------------------------------
  // The capture walk
  // ---------------------------------------------------------------------

  /** One of the six hex directions: (dq, dr) in {-1, 0, 1}^2 with dq != dr. */
  predicate IsDirection(dq: int, dr: int) {
    -1 <= dq <= 1 && -1 <= dr <= 1 && dq != dr
  }

  /** The directions in the order findAllMoves enumerates them. */
  const Directions: seq<(int, int)> := [(-1, 0), (-1, 1), (0, -1), (0, 1), (1, -1), (1, 0)]

  /** Directions lists each hex direction exactly once. */
  lemma DirectionsEnumerateAll()
    ensures forall i | 0 <= i < |Directions| :: IsDirection(Directions[i].0, Directions[i].1)
    ensures forall dq, dr | IsDirection(dq, dr) :: (dq, dr) in Directions
    ensures forall i, j | 0 <= i < j < |Directions| :: Directions[i] != Directions[j]
  {
  }

  /** The cell k steps from `from` in direction (dq, dr). */
  function Ray(from: HexCoordinates, dq: int, dr: int, k: int): HexCoordinates {
    HexCoordinates(from.q + k * dq, from.r + k * dr)
  }

  /** The stored keys strictly ahead of `from` on its ray. The map is
      finite, so this set bounds the walk. */
  ghost function Ahead(cells: Cells, from: HexCoordinates, dq: int, dr: int): set<HexCoordinates> {
    set h | h in cells && exists k | k >= 1 :: h == Ray(from, dq, dr, k)
  }

  /** Stepping onto a stored neighbour leaves fewer keys ahead. */
  lemma AheadShrinks(cells: Cells, from: HexCoordinates, dq: int, dr: int)
    requires IsDirection(dq, dr) && Ray(from, dq, dr, 1) in cells
    ensures Ahead(cells, Ray(from, dq, dr, 1), dq, dr) < Ahead(cells, from, dq, dr)
  {
    var next := Ray(from, dq, dr, 1);
    forall h | h in Ahead(cells, next, dq, dr)
      ensures h in Ahead(cells, from, dq, dr)
    {
      var k :| k >= 1 && h == Ray(next, dq, dr, k);
      RayShift(from, dq, dr, k);
    }
    assert next in Ahead(cells, from, dq, dr);
    if next in Ahead(cells, next, dq, dr) {
      var k :| k >= 1 && next == Ray(next, dq, dr, k);
      RayLeavesOrigin(next, dq, dr, k);
    }
  }

  /** `run` is the list of cells strictly between `from` and the first cell
      of colour `color` on the ray, none of which has that colour. */
  ghost predicate IsRun(cells: Cells, from: HexCoordinates, color: PlayerColor, dq: int, dr: int, run: seq<HexCoordinates>) {
    && (forall i | 0 <= i < |run| ::
          run[i] == Ray(from, dq, dr, i + 1) && run[i] in cells && cells[run[i]] != color)
    && Ray(from, dq, dr, |run| + 1) in cells
    && cells[Ray(from, dq, dr, |run| + 1)] == color
  }

  /** The ray leaves the stored keys before it meets a cell of colour `color`. */
  ghost predicate RunsOff(cells: Cells, from: HexCoordinates, color: PlayerColor, dq: int, dr: int) {
    exists k | k >= 1 ::
      && Ray(from, dq, dr, k) !in cells
      && forall j | 1 <= j < k :: Ray(from, dq, dr, j) in cells && cells[Ray(from, dq, dr, j)] != color
  }

  /** The walk of findPossibleMoves: step from `from` until a missing key
      (None) or a cell of colour `color` (Some of the cells passed on the
      way). Cells of any other colour, EMPTY included, are collected. */
  function Walk(cells: Cells, from: HexCoordinates, color: PlayerColor, dq: int, dr: int)
    : Option<seq<HexCoordinates>>
    requires IsDirection(dq, dr)
    decreases Ahead(cells, from, dq, dr)
  {
    var next := Ray(from, dq, dr, 1);
    if next !in cells then None
    else if cells[next] == color then Some([])
    else
      AheadShrinks(cells, from, dq, dr);
      match Walk(cells, next, color, dq, dr)
      case None => None
      case Some(rest) => Some([next] + rest)
  }

  /** The walk stops at the first cell of colour `color` (Some) or at the
      first missing key (None), having passed only cells of other colours. */
  lemma {:induction false} WalkShape(cells: Cells, from: HexCoordinates, color: PlayerColor, dq: int, dr: int)
    requires IsDirection(dq, dr)
    ensures Walk(cells, from, color, dq, dr).Some? ==>
              IsRun(cells, from, color, dq, dr, Walk(cells, from, color, dq, dr).value)
    ensures Walk(cells, from, color, dq, dr).None? ==> RunsOff(cells, from, color, dq, dr)
    decreases Ahead(cells, from, dq, dr)
  {
    var next := Ray(from, dq, dr, 1);
    if next !in cells {
      assert Ray(from, dq, dr, 1) !in cells;
    } else if cells[next] != color {
      AheadShrinks(cells, from, dq, dr);
      WalkShape(cells, next, color, dq, dr);
      match Walk(cells, next, color, dq, dr)
      case None =>
        WalkOffStep(cells, from, color, dq, dr);
      case Some(rest) =>
        WalkRunStep(cells, from, color, dq, dr, rest);
    }
  }

  /** Stepping along a ray: k + 1 steps from `from` is k steps from its neighbour. */
  lemma RayShift(from: HexCoordinates, dq: int, dr: int, k: int)
    ensures Ray(Ray(from, dq, dr, 1), dq, dr, k) == Ray(from, dq, dr, k + 1)
  {
  }

  lemma WalkOffStep(cells: Cells, from: HexCoordinates, color: PlayerColor, dq: int, dr: int)
    requires Ray(from, dq, dr, 1) in cells && cells[Ray(from, dq, dr, 1)] != color
    requires RunsOff(cells, Ray(from, dq, dr, 1), color, dq, dr)
    ensures RunsOff(cells, from, color, dq, dr)
  {
    var next := Ray(from, dq, dr, 1);
    var k :| k >= 1 && Ray(next, dq, dr, k) !in cells
      && forall j | 1 <= j < k :: Ray(next, dq, dr, j) in cells && cells[Ray(next, dq, dr, j)] != color;
    RayShift(from, dq, dr, k);
    forall j | 1 <= j < k + 1
      ensures Ray(from, dq, dr, j) in cells && cells[Ray(from, dq, dr, j)] != color
    {
      if j > 1 {
        RayShift(from, dq, dr, j - 1);
      }
    }
  }

  lemma WalkRunStep(cells: Cells, from: HexCoordinates, color: PlayerColor, dq: int, dr: int, rest: seq<HexCoordinates>)
    requires Ray(from, dq, dr, 1) in cells && cells[Ray(from, dq, dr, 1)] != color
    requires IsRun(cells, Ray(from, dq, dr, 1), color, dq, dr, rest)
    ensures IsRun(cells, from, color, dq, dr, [Ray(from, dq, dr, 1)] + rest)
  {
    var next := Ray(from, dq, dr, 1);
    var run := [next] + rest;
    RayShift(from, dq, dr, |rest| + 1);
    forall i | 0 <= i < |run|
      ensures run[i] == Ray(from, dq, dr, i + 1) && run[i] in cells && cells[run[i]] != color
    {
      if i > 0 {
        RayShift(from, dq, dr, i);
      }
    }
  }

  /** The cell one step further along a ray, or the origin itself, are never
      reached twice: two rays from one origin meet only if they are the same
      ray at the same distance. */
  lemma {:induction false} RaysMeetOnlyOnOneRay(from: HexCoordinates, dq1: int, dr1: int, k1: int, dq2: int, dr2: int, k2: int)
    requires IsDirection(dq1, dr1) && IsDirection(dq2, dr2) && k1 >= 1 && k2 >= 1
    requires Ray(from, dq1, dr1, k1) == Ray(from, dq2, dr2, k2)
    ensures dq1 == dq2 && dr1 == dr2 && k1 == k2
  {
    assert k1 * dq1 == k2 * dq2 && k1 * dr1 == k2 * dr2;
    if dq1 == 0 {
      assert dr1 != 0;
    } else if dr1 == 0 {
      assert dq1 != 0;
    } else {
      assert dr1 == -dq1;
    }
  }

  /** A ray never comes back to its origin. */
  lemma RayLeavesOrigin(from: HexCoordinates, dq: int, dr: int, k: int)
    requires IsDirection(dq, dr) && k >= 1
    ensures Ray(from, dq, dr, k) != from
  {
    if dq == 0 {
      assert k * dr != 0;
    } else {
      assert k * dq != 0;
    }
  }

  /** findPossibleMoves: the cells passed before the first cell of colour
      `color` on the ray, or the empty list when the ray leaves the stored
      keys first. */
  function FindPossibleMoves(cells: Cells, from: HexCoordinates, color: PlayerColor, dq: int, dr: int)
    : seq<HexCoordinates>
    requires IsDirection(dq, dr)
  {
    match Walk(cells, from, color, dq, dr)
    case None => []
    case Some(run) => run
  }

  /** The i-th listed cell is i + 1 steps out and not of colour `color`; a
      non-empty list is closed by a cell of colour `color` one step further. */
  lemma RunShape(cells: Cells, from: HexCoordinates, color: PlayerColor, dq: int, dr: int)
    requires IsDirection(dq, dr)
    ensures var run := FindPossibleMoves(cells, from, color, dq, dr);
      && (forall i | 0 <= i < |run| ::
            run[i] == Ray(from, dq, dr, i + 1) && run[i] in cells && cells[run[i]] != color)
      && (|run| > 0 ==> Ray(from, dq, dr, |run| + 1) in cells && cells[Ray(from, dq, dr, |run| + 1)] == color)
  {
    WalkShape(cells, from, color, dq, dr);
  }

  /** checkAllSame: every listed coordinate is a stored key holding colour c
      (a missing key reads as null, which is never c). */
  predicate AllOfColor(cells: Cells, hs: seq<HexCoordinates>, c: PlayerColor) {
    forall i | 0 <= i < |hs| :: hs[i] in cells && cells[hs[i]] == c
  }

  /** The test findAllMoves' callers apply to each list: it is non-empty
      and entirely of the opposite colour. */
  predicate ListCaptures(cells: Cells, list: seq<HexCoordinates>, color: PlayerColor) {
    |list| > 0 && AllOfColor(cells, list, Opposite(color))
  }

  /** The direction (dq, dr) captures. */
  predicate Captures(cells: Cells, from: HexCoordinates, color: PlayerColor, dq: int, dr: int)
    requires IsDirection(dq, dr)
  {
    ListCaptures(cells, FindPossibleMoves(cells, from, color, dq, dr), color)
  }

  /** findAllMoves: one list per direction, in the order of Directions. */
  function AllMoves(cells: Cells, from: HexCoordinates, color: PlayerColor): (lists: seq<seq<HexCoordinates>>)
    ensures |lists| == 6
  {
    seq(6, i requires 0 <= i < 6 => FindPossibleMoves(cells, from, color, Directions[i].0, Directions[i].1))
  }

  /** isValidMove: the target holds EMPTY (a missing key reads as null) and
      some list captures. */
  predicate IsValidMoveAt(cells: Cells, h: HexCoordinates, color: PlayerColor) {
    && h in cells && cells[h] == EMPTY
    && exists i | 0 <= i < 6 :: ListCaptures(cells, AllMoves(cells, h, color)[i], color)
  }

  /** The Othello sandwich, stated without the walk: k - 1 >= 1 cells of the
      opposite colour, then a cell of colour `color`, all stored keys. */
  ghost predicate Sandwich(cells: Cells, from: HexCoordinates, color: PlayerColor, dq: int, dr: int, k: int) {
    && k >= 2
    && (forall j | 1 <= j < k :: Ray(from, dq, dr, j) in cells && cells[Ray(from, dq, dr, j)] == Opposite(color))
    && Ray(from, dq, dr, k) in cells && cells[Ray(from, dq, dr, k)] == color
  }

  /** The walk-based rule agrees with the sandwich: a direction captures iff
      it holds a sandwich, and then its list has exactly the k - 1 cells
      between the target and the closing cell. */
  lemma {:induction false} CaptureIsSandwich(cells: Cells, from: HexCoordinates, color: PlayerColor, dq: int, dr: int)
    requires IsDirection(dq, dr)
    ensures Captures(cells, from, color, dq, dr) ==>
              Sandwich(cells, from, color, dq, dr, |FindPossibleMoves(cells, from, color, dq, dr)| + 1)
    ensures forall k :: Sandwich(cells, from, color, dq, dr, k) ==>
              Captures(cells, from, color, dq, dr) && |FindPossibleMoves(cells, from, color, dq, dr)| == k - 1
  {
    var run := FindPossibleMoves(cells, from, color, dq, dr);
    RunShape(cells, from, color, dq, dr);
    if Captures(cells, from, color, dq, dr) {
      forall j | 1 <= j < |run| + 1
        ensures Ray(from, dq, dr, j) in cells && cells[Ray(from, dq, dr, j)] == Opposite(color)
      {
        assert run[j - 1] == Ray(from, dq, dr, j);
      }
    }
    forall k | Sandwich(cells, from, color, dq, dr, k)
      ensures Captures(cells, from, color, dq, dr) && |run| == k - 1
    {
      SandwichFixesWalk(cells, from, color, dq, dr, k);
    }
  }

  lemma SandwichFixesWalk(cells: Cells, from: HexCoordinates, color: PlayerColor, dq: int, dr: int, k: int)
    requires IsDirection(dq, dr)
    requires Sandwich(cells, from, color, dq, dr, k)
    ensures Captures(cells, from, color, dq, dr)
    ensures |FindPossibleMoves(cells, from, color, dq, dr)| == k - 1
  {
    var w := Walk(cells, from, color, dq, dr);
    WalkShape(cells, from, color, dq, dr);
    if w.None? {
      assert false;
    }
    var run := w.value;
    if |run| + 1 < k {
      assert false;
    } else if |run| + 1 > k {
      RunCell(cells, from, color, dq, dr, k - 1);
      assert false;
    }
    forall i | 0 <= i < |run|
      ensures run[i] in cells && cells[run[i]] == Opposite(color)
    {
      assert run[i] == Ray(from, dq, dr, i + 1);
    }
  }

  /** The i-th cell of a list is i + 1 steps out and is not of the walker's colour. */
  lemma RunCell(cells: Cells, from: HexCoordinates, color: PlayerColor, dq: int, dr: int, i: int)
    requires IsDirection(dq, dr)
    requires 0 <= i < |FindPossibleMoves(cells, from, color, dq, dr)|
    ensures Ray(from, dq, dr, i + 1) in cells && cells[Ray(from, dq, dr, i + 1)] != color
  {
    RunShape(cells, from, color, dq, dr);
    assert FindPossibleMoves(cells, from, color, dq, dr)[i] == Ray(from, dq, dr, i + 1);
  }

  // ---------------------------------------------------------------------
  // The six lists of a target
  // ---------------------------------------------------------------------

  lemma DirectionAt(i: int)
    requires 0 <= i < 6
    ensures IsDirection(Directions[i].0, Directions[i].1)
  {
  }

  lemma DirectionsDistinct(i: int, j: int)
    requires 0 <= i < 6 && 0 <= j < 6 && i != j
    ensures Directions[i] != Directions[j]
  {
  }

  /** Distinct steps along one ray reach distinct cells. */
  lemma RayInjective(from: HexCoordinates, dq: int, dr: int, k1: int, k2: int)
    requires IsDirection(dq, dr) && k1 != k2
    ensures Ray(from, dq, dr, k1) != Ray(from, dq, dr, k2)
  {
    if dq == 0 {
      assert (k1 - k2) * dr != 0;
    } else {
      assert (k1 - k2) * dq != 0;
    }
  }

  /** No list holds the target, no list repeats a cell, and two lists share
      no cell. */
  predicate ListsApart(lists: seq<seq<HexCoordinates>>, from: HexCoordinates) {
    && (forall i | 0 <= i < |lists| :: from !in lists[i] && NoRepeats(lists[i]))
    && (forall i, j | 0 <= i < j < |lists| :: Elems(lists[i]) !! Elems(lists[j]))
  }

  predicate NoRepeats(s: seq<HexCoordinates>) {
    forall a, b | 0 <= a < b < |s| :: s[a] != s[b]
  }

  /** The i-th list lies on the i-th ray and never returns to the target. */
  lemma ListOnRay(cells: Cells, from: HexCoordinates, color: PlayerColor, i: int)
    requires 0 <= i < 6
    ensures var list := AllMoves(cells, from, color)[i];
      forall a | 0 <= a < |list| :: list[a] == Ray(from, Directions[i].0, Directions[i].1, a + 1) && list[a] != from
  {
    var d := Directions[i];
    DirectionAt(i);
    RunShape(cells, from, color, d.0, d.1);
    var list := AllMoves(cells, from, color)[i];
    forall a | 0 <= a < |list|
      ensures list[a] != from
    {
      RayLeavesOrigin(from, d.0, d.1, a + 1);
    }
  }

  /** A list never repeats a cell. */
  lemma ListDistinct(cells: Cells, from: HexCoordinates, color: PlayerColor, i: int)
    requires 0 <= i < 6
    ensures NoRepeats(AllMoves(cells, from, color)[i])
  {
    var d := Directions[i];
    var list := AllMoves(cells, from, color)[i];
    DirectionAt(i);
    ListOnRay(cells, from, color, i);
    forall a, b | 0 <= a < b < |list|
      ensures list[a] != list[b]
    {
      RayInjective(from, d.0, d.1, a + 1, b + 1);
    }
  }

  /** Lists of different directions share no cell. */
  lemma ListsDisjoint(cells: Cells, from: HexCoordinates, color: PlayerColor, i: int, j: int)
    requires 0 <= i < j < 6
    ensures Elems(AllMoves(cells, from, color)[i]) !! Elems(AllMoves(cells, from, color)[j])
  {
    var lists := AllMoves(cells, from, color);
    DirectionAt(i);
    DirectionAt(j);
    DirectionsDistinct(i, j);
    ListOnRay(cells, from, color, i);
    ListOnRay(cells, from, color, j);
    forall x | x in Elems(lists[i]) && x in Elems(lists[j])
      ensures false
    {
      var a :| 0 <= a < |lists[i]| && lists[i][a] == x;
      var b :| 0 <= b < |lists[j]| && lists[j][b] == x;
      RaysMeetOnlyOnOneRay(from, Directions[i].0, Directions[i].1, a + 1, Directions[j].0, Directions[j].1, b + 1);
    }
  }

  /** findAllMoves' lists are apart. */
  lemma AllMovesApart(cells: Cells, from: HexCoordinates, color: PlayerColor)
    ensures ListsApart(AllMoves(cells, from, color), from)
  {
    var lists := AllMoves(cells, from, color);
    forall i | 0 <= i < 6
      ensures from !in lists[i] && NoRepeats(lists[i])
    {
      ListOnRay(cells, from, color, i);
      ListDistinct(cells, from, color, i);
    }
    forall i, j | 0 <= i < j < 6
      ensures Elems(lists[i]) !! Elems(lists[j])
    {
      ListsDisjoint(cells, from, color, i, j);
    }
  }

  // ---------------------------------------------------------------------
  // Capture count
  // ---------------------------------------------------------------------

  /** checkNumSame guarded by the emptiness test: a capturing list's length, else 0. */
  function ListCount(cells: Cells, list: seq<HexCoordinates>, color: PlayerColor): nat {
    if ListCaptures(cells, list, color) then |list| else 0
  }

  /** The running sum numTilesCaptured keeps over the first k lists. */
  function CountUpTo(cells: Cells, lists: seq<seq<HexCoordinates>>, color: PlayerColor, k: int): nat
    requires 0 <= k <= |lists|
  {
    if k == 0 then 0 else CountUpTo(cells, lists, color, k - 1) + ListCount(cells, lists[k - 1], color)
  }

  /** numTilesCaptured: the total length of the capturing lists. */
  function NumCaptured(cells: Cells, from: HexCoordinates, color: PlayerColor): nat {
    CountUpTo(cells, AllMoves(cells, from, color), color, 6)
  }

  /** The sum is positive exactly when one of the lists captures. */
  lemma {:induction false} CountUpToPositive(cells: Cells, lists: seq<seq<HexCoordinates>>, color: PlayerColor, k: int)
    requires 0 <= k <= |lists|
    ensures CountUpTo(cells, lists, color, k) > 0 <==> exists i | 0 <= i < k :: ListCaptures(cells, lists[i], color)
  {
    if k > 0 {
      CountUpToPositive(cells, lists, color, k - 1);
      if !ListCaptures(cells, lists[k - 1], color) {
        if exists i | 0 <= i < k :: ListCaptures(cells, lists[i], color) {
          var i :| 0 <= i < k && ListCaptures(cells, lists[i], color);
          assert i < k - 1;
        }
      }
    }
  }

  /** On an EMPTY stored target the count is positive exactly when the move
      is valid; the count never looks at the target itself. */
  lemma CapturedPositiveIffValid(cells: Cells, h: HexCoordinates, color: PlayerColor)
    requires h in cells && cells[h] == EMPTY
    ensures NumCaptured(cells, h, color) > 0 <==> IsValidMoveAt(cells, h, color)
  {
    CountUpToPositive(cells, AllMoves(cells, h, color), color, 6);
  }

  // ---------------------------------------------------------------------
  // The effect of a move
  // ---------------------------------------------------------------------

  function Elems(s: seq<HexCoordinates>): set<HexCoordinates> {
    set x | x in s
  }

  /** A list without repeated elements has as many elements as its set. */
  lemma {:induction false} DistinctCard(s: seq<HexCoordinates>)
    requires NoRepeats(s)
    ensures |Elems(s)| == |s|
  {
    if s != [] {
      var t := s[1..];
      DistinctCard(t);
      assert Elems(s) == {s[0]} + Elems(t);
      assert s[0] !in Elems(t);
    }
  }

  /** The cells one list flips: all of it when it captures (checkAllColors). */
  function FlippedBy(cells: Cells, list: seq<HexCoordinates>, color: PlayerColor): set<HexCoordinates> {
    if ListCaptures(cells, list, color) then Elems(list) else {}
  }

  /** The cells flipped by the first k lists. */
  function FlippedUpTo(cells: Cells, lists: seq<seq<HexCoordinates>>, color: PlayerColor, k: int): set<HexCoordinates>
    requires 0 <= k <= |lists|
  {
    if k == 0 then {} else FlippedUpTo(cells, lists, color, k - 1) + FlippedBy(cells, lists[k - 1], color)
  }

  /** Every cell a move at `from` flips. */
  function Flipped(cells: Cells, from: HexCoordinates, color: PlayerColor): set<HexCoordinates> {
    FlippedUpTo(cells, AllMoves(cells, from, color), color, 6)
  }

  /** Sets the stored keys in `s` to colour c (HashMap.replace on each). */
  function Recolor(cells: Cells, s: set<HexCoordinates>, c: PlayerColor): (m: Cells)
    ensures m.Keys == cells.Keys
    ensures forall h | h in m :: m[h] == if h in s then c else cells[h]
  {
    map h | h in cells :: if h in s then c else cells[h]
  }

  /** Recolouring one more stored key is one HashMap.replace; recolouring a
      missing key changes nothing. */
  lemma RecolorAdd(cells: Cells, s: set<HexCoordinates>, x: HexCoordinates, c: PlayerColor)
    ensures x in cells ==> Recolor(cells, s + {x}, c) == Recolor(cells, s, c)[x := c]
    ensures x !in cells ==> Recolor(cells, s + {x}, c) == Recolor(cells, s, c)
  {
  }

  /** Two recolourings with the same colour are one over the union. */
  lemma RecolorTwice(cells: Cells, s: set<HexCoordinates>, t: set<HexCoordinates>, c: PlayerColor)
    ensures Recolor(Recolor(cells, s, c), t, c) == Recolor(cells, s + t, c)
  {
  }

  /** A list outside the recoloured set reads the same before and after. */
  lemma RecolorAway(cells: Cells, s: set<HexCoordinates>, c: PlayerColor, list: seq<HexCoordinates>, d: PlayerColor)
    requires Elems(list) !! s
    ensures AllOfColor(Recolor(cells, s, c), list, d) == AllOfColor(cells, list, d)
  {
    assert forall i | 0 <= i < |list| :: list[i] in Elems(list);
  }

  /** The board after a successful makeMove: the target and every capturing
      list take colour c. */
  function AfterMove(cells: Cells, h: HexCoordinates, color: PlayerColor): Cells {
    Recolor(cells, Flipped(cells, h, color) + {h}, color)
  }

  /** The cells flipped by the first k lists lie outside every later list. */
  lemma {:induction false} FlippedBeforeDisjoint(cells: Cells, lists: seq<seq<HexCoordinates>>, from: HexCoordinates,
                                                 color: PlayerColor, k: int, i: int)
    requires ListsApart(lists, from) && 0 <= k <= i < |lists|
    ensures FlippedUpTo(cells, lists, color, k) !! Elems(lists[i])
  {
    if k > 0 {
      FlippedBeforeDisjoint(cells, lists, from, color, k - 1, i);
      var before := FlippedUpTo(cells, lists, color, k - 1);
      UnionDisjoint(before, FlippedBy(cells, lists[k - 1], color), Elems(lists[i]));
    }
  }

  lemma UnionDisjoint(a: set<HexCoordinates>, b: set<HexCoordinates>, c: set<HexCoordinates>)
    requires a !! c && b !! c
    ensures (a + b) !! c
  {
  }

  lemma DisjointUnionCard(a: set<HexCoordinates>, b: set<HexCoordinates>)
    requires a !! b
    ensures |a + b| == |a| + |b|
  {
  }

  /** A capturing list without repeats flips as many cells as checkNumSame counts. */
  lemma FlippedByCard(cells: Cells, list: seq<HexCoordinates>, color: PlayerColor)
    requires NoRepeats(list)
    ensures |FlippedBy(cells, list, color)| == ListCount(cells, list, color)
  {
    DistinctCard(list);
  }

  /** The k-th list adds its flipped cells to those of the earlier lists without overlap. */
  lemma FlippedStepCard(cells: Cells, lists: seq<seq<HexCoordinates>>, from: HexCoordinates, color: PlayerColor, k: int)
    requires ListsApart(lists, from) && 0 < k <= |lists|
    ensures |FlippedUpTo(cells, lists, color, k)|
            == |FlippedUpTo(cells, lists, color, k - 1)| + ListCount(cells, lists[k - 1], color)
  {
    FlippedBeforeDisjoint(cells, lists, from, color, k - 1, k - 1);
    FlippedByCard(cells, lists[k - 1], color);
    DisjointUnionCard(FlippedUpTo(cells, lists, color, k - 1), FlippedBy(cells, lists[k - 1], color));
  }

  /** The first k lists flip exactly as many cells as they count. */
  lemma {:induction false} FlippedUpToCard(cells: Cells, lists: seq<seq<HexCoordinates>>, from: HexCoordinates,
                                           color: PlayerColor, k: int)
    requires ListsApart(lists, from) && 0 <= k <= |lists|
    ensures |FlippedUpTo(cells, lists, color, k)| == CountUpTo(cells, lists, color, k)
  {
    if k > 0 {
      FlippedUpToCard(cells, lists, from, color, k - 1);
      FlippedStepCard(cells, lists, from, color, k);
    }
  }

  /** The first k lists flip only opponent cells, never the target. */
  lemma {:induction false} FlippedUpToColors(cells: Cells, lists: seq<seq<HexCoordinates>>, from: HexCoordinates,
                                             color: PlayerColor, k: int)
    requires ListsApart(lists, from) && 0 <= k <= |lists|
    ensures forall x | x in FlippedUpTo(cells, lists, color, k) ::
              x in cells && cells[x] == Opposite(color) && x != from
  {
    if k > 0 {
      FlippedUpToColors(cells, lists, from, color, k - 1);
      var list := lists[k - 1];
      forall x | x in FlippedBy(cells, list, color)
        ensures x in cells && cells[x] == Opposite(color) && x != from
      {
        var a :| 0 <= a < |list| && list[a] == x;
      }
    }
  }

  /** Every flipped cell is an opponent cell other than the target. */
  lemma FlippedCells(cells: Cells, h: HexCoordinates, color: PlayerColor)
    ensures forall x | x in Flipped(cells, h, color) :: x in cells && cells[x] == Opposite(color) && x != h
  {
    AllMovesApart(cells, h, color);
    FlippedUpToColors(cells, AllMoves(cells, h, color), h, color, 6);
  }

  /** A move flips exactly as many cells as numTilesCaptured reports. */
  lemma FlippedCount(cells: Cells, h: HexCoordinates, color: PlayerColor)
    ensures |Flipped(cells, h, color)| == NumCaptured(cells, h, color)
  {
    AllMovesApart(cells, h, color);
    FlippedUpToCard(cells, AllMoves(cells, h, color), h, color, 6);
  }

  /** After a successful move the mover's cells are its old cells, the
      flipped cells and the target, and these three are apart. */
  lemma MoverCells(cells: Cells, h: HexCoordinates, color: PlayerColor)
    requires color != EMPTY && IsValidMoveAt(cells, h, color)
    ensures ColorSet(AfterMove(cells, h, color), color) == ColorSet(cells, color) + Flipped(cells, h, color) + {h}
    ensures ColorSet(cells, color) !! Flipped(cells, h, color)
    ensures h !in ColorSet(cells, color) + Flipped(cells, h, color)
  {
    FlippedCells(cells, h, color);
  }

  /** After a successful move the opponent keeps its cells minus the flipped ones. */
  lemma OpponentCells(cells: Cells, h: HexCoordinates, color: PlayerColor)
    requires color != EMPTY && IsValidMoveAt(cells, h, color)
    ensures ColorSet(AfterMove(cells, h, color), Opposite(color)) == ColorSet(cells, Opposite(color)) - Flipped(cells, h, color)
    ensures Flipped(cells, h, color) <= ColorSet(cells, Opposite(color))
  {
    FlippedCells(cells, h, color);
  }

  lemma DisjointAddCard(a: set<HexCoordinates>, f: set<HexCoordinates>, h: HexCoordinates)
    requires a !! f && h !in a + f
    ensures |a + f + {h}| == |a| + |f| + 1
  {
  }

  lemma SubsetRemoveCard(t: set<HexCoordinates>, f: set<HexCoordinates>)
    requires f <= t
    ensures |t - f| == |t| - |f|
  {
    assert t == (t - f) + f;
  }

  /** A successful move: the mover gains the target plus every captured
      tile, the opponent loses exactly the captured tiles, and one EMPTY
      cell fewer remains. */
  lemma MoveScores(cells: Cells, h: HexCoordinates, color: PlayerColor)
    requires color != EMPTY && IsValidMoveAt(cells, h, color)
    ensures Score(AfterMove(cells, h, color), color) == Score(cells, color) + NumCaptured(cells, h, color) + 1
    ensures Score(AfterMove(cells, h, color), Opposite(color)) == Score(cells, Opposite(color)) - NumCaptured(cells, h, color)
    ensures Score(AfterMove(cells, h, color), EMPTY) == Score(cells, EMPTY) - 1
  {
    var f := Flipped(cells, h, color);
    FlippedCount(cells, h, color);
    MoverCells(cells, h, color);
    DisjointAddCard(ColorSet(cells, color), f, h);
    OpponentCells(cells, h, color);
    SubsetRemoveCard(ColorSet(cells, Opposite(color)), f);
    assert ColorSet(AfterMove(cells, h, color), EMPTY) == ColorSet(cells, EMPTY) - {h};
  }

  /** A move on the hexagon keeps the board invariant: it changes no key and
      colours only the target and opponent cells, which lie on the hexagon. */
  lemma MovePreservesWellFormed(size: int, cells: Cells, h: HexCoordinates, color: PlayerColor)
    requires WellFormed(size, cells) && color != EMPTY && IsValidCoordinates(size, h.q, h.r)
    ensures WellFormed(size, AfterMove(cells, h, color))
  {
    var after := AfterMove(cells, h, color);
    FlippedCells(cells, h, color);
    forall x | x in after && !IsValidCoordinates(size, x.q, x.r)
      ensures after[x] == EMPTY
    {
      assert x !in Flipped(cells, h, color);
    }
  }

  /** The six cells around the centre are never EMPTY: initBoard colours
      them and a move only ever recolours to BLACK or WHITE. */
  ghost predicate RingOccupied(cells: Cells) {
    forall h | h in cells && Distance(h.q, h.r) == 2 :: cells[h] != EMPTY
  }

  lemma InitialRingOccupied(size: int, cells: Cells)
    requires IsInitial(size, cells)
    ensures RingOccupied(cells)
  {
    forall h | h in cells && Distance(h.q, h.r) == 2
      ensures cells[h] != EMPTY
    {
      InitialRingAlternates(h);
    }
  }

  lemma MovePreservesRing(cells: Cells, h: HexCoordinates, color: PlayerColor)
    requires RingOccupied(cells) && color != EMPTY
    ensures RingOccupied(AfterMove(cells, h, color))
  {
  }

  /** On such a board a ring cell is never a valid move. makeMove exempts
      ring cells from its validity guard and refuses them by a guard of
      their own, so the two guards together refuse exactly the cells that
      are not valid moves. */
  lemma RingNeverPlayable(cells: Cells, h: HexCoordinates, color: PlayerColor)
    requires RingOccupied(cells) && Distance(h.q, h.r) == 2
    ensures !IsValidMoveAt(cells, h, color)
  {
  }

  /** The moves makeMove accepts: a player colour, a target on the hexagon
      and off the centre ring, that captures at least one list. */
  predicate IsLegalMove(size: int, cells: Cells, h: HexCoordinates, color: PlayerColor) {
    && color != EMPTY
    && IsValidCoordinates(size, h.q, h.r)
    && Distance(h.q, h.r) != 2
    && IsValidMoveAt(cells, h, color)
  }
}
