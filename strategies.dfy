/** The computer player's strategies: CapturePieceStrategy, CheckCornersStrategy
    and MultipleStrategies. A strategy only asks questions of a read-only
    model, so the model appears here as a value holding its size and the
    answers to the three queries the strategies make. */
module Strategies {
  import opened Wrappers
  import opened Colors
  import opened HexCoords
  import opened BoardRules

  // ---------------------------------------------------------------------
  // The read-only model a strategy queries
  // ---------------------------------------------------------------------

  /** getSizeOfBoard, getContentsOfCell, isValidMove and numTilesCaptured of a
      ReadonlyReversiModel. Any model can stand behind it, the test mocks as
      well as the real one. */
  datatype ModelView = ModelView(
    size: int,
    contents: (int, int) -> PlayerColor,
    isValidMove: (int, int, PlayerColor) -> bool,
    numTilesCaptured: (int, int, PlayerColor) -> int)

  /** ReversiModelStandard seen through its read-only queries. */
  function BoardView(size: int, cells: Cells): ModelView {
    ModelView(size,
      (q: int, r: int) => ContentsOf(cells, q, r),
      (q: int, r: int, c: PlayerColor) => IsValidMoveAt(cells, HexCoordinates(q, r), c),
      (q: int, r: int, c: PlayerColor) => NumCaptured(cells, HexCoordinates(q, r), c))
  }

  /** The count a view reports for the cell h. */
  function Count(v: ModelView, color: PlayerColor, h: HexCoordinates): int {
    v.numTilesCaptured(h.q, h.r, color)
  }

  // ---------------------------------------------------------------------
  // CapturePieceStrategy: the candidates, in scan order
  // ---------------------------------------------------------------------

  /** The filter of the scan: inside the hexagon, empty, and a valid move. */
  predicate IsCandidate(v: ModelView, color: PlayerColor, q: int, r: int) {
    Abs(q) + Abs(r) + Abs(-q - r) <= v.size - 1
    && v.contents(q, r) == EMPTY
    && v.isValidMove(q, r, color)
  }

  /** Scan order: by column q, then by row r within a column. */
  predicate ScannedBefore(h: HexCoordinates, q: int, r: int) {
    h.q < q || (h.q == q && h.r < r)
  }

  /** The candidates the scan meets before it reaches (q, r): every earlier
      column, then the rows of column q above r. */
  function CandidatesBefore(v: ModelView, color: PlayerColor, q: int, r: int): seq<HexCoordinates>
    decreases q + v.size, r - RowStart(v.size, q)
  {
    if q < -v.size + 1 then []
    else if r <= RowStart(v.size, q) then
      if q == -v.size + 1 then [] else CandidatesBefore(v, color, q - 1, RowEnd(v.size, q - 1) + 1)
    else
      CandidatesBefore(v, color, q, r - 1)
        + (if IsCandidate(v, color, q, r - 1) then [HexCoordinates(q, r - 1)] else [])
  }

  /** Every candidate of the whole scan, in the order the scan meets them:
      the cells numTilesCaptured is asked about. */
  function Candidates(v: ModelView, color: PlayerColor): seq<HexCoordinates> {
    CandidatesBefore(v, color, v.size, RowStart(v.size, v.size))
  }

  lemma {:induction false} CandidatesBeforeMembers(v: ModelView, color: PlayerColor, q: int, r: int)
    requires -v.size < q < v.size && RowStart(v.size, q) <= r <= RowEnd(v.size, q) + 1
    ensures forall h :: h in CandidatesBefore(v, color, q, r) <==>
      InKeys(v.size, h) && IsCandidate(v, color, h.q, h.r) && ScannedBefore(h, q, r)
    decreases q + v.size, r - RowStart(v.size, q)
  {
    if r <= RowStart(v.size, q) {
      if q != -v.size + 1 {
        CandidatesBeforeMembers(v, color, q - 1, RowEnd(v.size, q - 1) + 1);
      }
    } else {
      CandidatesBeforeMembers(v, color, q, r - 1);
    }
  }

  lemma HeadIsMember(s: seq<HexCoordinates>)
    requires |s| > 0
    ensures s[0] in s
  {
  }

  /** The scan asks about exactly the stored cells that pass its filter. */
  lemma CandidatesMembers(v: ModelView, color: PlayerColor)
    ensures forall h :: h in Candidates(v, color) <==> InKeys(v.size, h) && IsCandidate(v, color, h.q, h.r)
  {
    if v.size >= 1 {
      assert Candidates(v, color) == CandidatesBefore(v, color, v.size - 1, RowEnd(v.size, v.size - 1) + 1);
      CandidatesBeforeMembers(v, color, v.size - 1, RowEnd(v.size, v.size - 1) + 1);
    }
  }

  /** Each cell of cs comes strictly before the next in scan order. */
  predicate InScanOrder(cs: seq<HexCoordinates>) {
    forall i, j | 0 <= i < j < |cs| :: ScannedBefore(cs[i], cs[j].q, cs[j].r)
  }

  lemma {:induction false} CandidatesBeforeOrdered(v: ModelView, color: PlayerColor, q: int, r: int)
    requires -v.size < q < v.size && RowStart(v.size, q) <= r <= RowEnd(v.size, q) + 1
    ensures InScanOrder(CandidatesBefore(v, color, q, r))
    decreases q + v.size, r - RowStart(v.size, q)
  {
    if r <= RowStart(v.size, q) {
      if q != -v.size + 1 {
        CandidatesBeforeOrdered(v, color, q - 1, RowEnd(v.size, q - 1) + 1);
        assert CandidatesBefore(v, color, q, r) == CandidatesBefore(v, color, q - 1, RowEnd(v.size, q - 1) + 1);
      }
    } else {
      CandidatesBeforeOrdered(v, color, q, r - 1);
      CandidatesBeforeMembers(v, color, q, r - 1);
      var prev := CandidatesBefore(v, color, q, r - 1);
      var cs := CandidatesBefore(v, color, q, r);
      assert cs == prev + (if IsCandidate(v, color, q, r - 1) then [HexCoordinates(q, r - 1)] else []);
      forall i, j | 0 <= i < j < |cs| ensures ScannedBefore(cs[i], cs[j].q, cs[j].r) {
        assert cs[i] == prev[i] && prev[i] in prev;
        if j < |prev| {
          assert cs[j] == prev[j];
        } else {
          assert cs[j] == HexCoordinates(q, r - 1);
          assert ScannedBefore(prev[i], q, r - 1);
        }
      }
    }
  }

  /** The candidates come in strict scan order, so none is asked twice. */
  lemma CandidatesOrdered(v: ModelView, color: PlayerColor)
    ensures InScanOrder(Candidates(v, color))
  {
    if v.size >= 1 {
      assert Candidates(v, color) == CandidatesBefore(v, color, v.size - 1, RowEnd(v.size, v.size - 1) + 1);
      CandidatesBeforeOrdered(v, color, v.size - 1, RowEnd(v.size, v.size - 1) + 1);
    }
  }

  // ---------------------------------------------------------------------
  // CapturePieceStrategy: the running best
  // ---------------------------------------------------------------------

  /** bestMove and maxCaptured of a scan. */
  datatype Pick = Pick(best: Option<HexCoordinates>, max: int)

  /** The tie-break: (q, r) is on an earlier row than the current best, or on
      its row and further left. */
  predicate Earlier(q: int, r: int, best: Option<HexCoordinates>) {
    best.None? || r < best.value.r || (r == best.value.r && q < best.value.q)
  }

  /** The replacement test of the capture scan. */
  predicate Improves(n: int, q: int, r: int, p: Pick) {
    n > p.max || (n == p.max && Earlier(q, r, p.best))
  }

  /** The pick after the scan has considered the cells of cs, in order. */
  function BestOf(v: ModelView, color: PlayerColor, cs: seq<HexCoordinates>): Pick
    decreases |cs|
  {
    if |cs| == 0 then Pick(None, 0)
    else
      var p := BestOf(v, color, cs[..|cs| - 1]);
      var c := cs[|cs| - 1];
      if Improves(Count(v, color, c), c.q, c.r, p) then Pick(Some(c), Count(v, color, c)) else p
  }

  /** b comes no later than c in the tie-break order: row first, then column. */
  predicate RowFirst(b: HexCoordinates, c: HexCoordinates) {
    b.r < c.r || (b.r == c.r && b.q <= c.q)
  }

  /** p is the best of cs: a cell of cs whose count is max, no cell of cs
      counts more, and every cell that counts as much comes no earlier. With
      no pick, max is still 0 and every cell counts less. */
  ghost predicate Dominates(v: ModelView, color: PlayerColor, cs: seq<HexCoordinates>, p: Pick) {
    && (p.best.Some? ==> p.best.value in cs && p.max == Count(v, color, p.best.value))
    && (p.best.None? ==> p.max == 0)
    && forall i | 0 <= i < |cs| ::
         Count(v, color, cs[i]) <= p.max
         && (Count(v, color, cs[i]) == p.max ==> p.best.Some? && RowFirst(p.best.value, cs[i]))
  }

  lemma {:induction false} BestOfDominates(v: ModelView, color: PlayerColor, cs: seq<HexCoordinates>)
    ensures Dominates(v, color, cs, BestOf(v, color, cs))
    decreases |cs|
  {
    if |cs| > 0 {
      var init := cs[..|cs| - 1];
      BestOfDominates(v, color, init);
      assert cs == init + [cs[|cs| - 1]];
      forall i | 0 <= i < |init| ensures cs[i] == init[i] { }
    }
  }

  /** A chosen cell is a candidate, no candidate captures more, and among
      those that capture as much it is the uppermost, then leftmost. */
  lemma BestIsMaximal(v: ModelView, color: PlayerColor, b: HexCoordinates)
    requires BestOf(v, color, Candidates(v, color)).best == Some(b)
    ensures b in Candidates(v, color) && InKeys(v.size, b) && IsCandidate(v, color, b.q, b.r)
    ensures forall c | c in Candidates(v, color) ::
      Count(v, color, c) <= Count(v, color, b)
      && (Count(v, color, c) == Count(v, color, b) ==> RowFirst(b, c))
  {
    BestOfDominates(v, color, Candidates(v, color));
    CandidatesMembers(v, color);
  }

  /** With counts that are never negative, there is a pick exactly when
      there is a candidate, even if every candidate captures nothing. */
  lemma BestNoneIff(v: ModelView, color: PlayerColor)
    requires forall c | c in Candidates(v, color) :: Count(v, color, c) >= 0
    ensures BestOf(v, color, Candidates(v, color)).best.None? <==> |Candidates(v, color)| == 0
  {
    var cs := Candidates(v, color);
    BestOfDominates(v, color, cs);
    if |cs| > 0 {
      assert Count(v, color, cs[0]) >= 0;
    }
  }

  // ---------------------------------------------------------------------
  // CapturePieceStrategy.chooseMove
  // ---------------------------------------------------------------------

  /** What chooseMove answers: an IllegalArgument for EMPTY, otherwise the
      best candidate or nothing. */
  function CaptureAnswer(v: ModelView, color: PlayerColor): Result<Option<HexCoordinates>, ReversiError> {
    if color == EMPTY then Failure(IllegalArgument) else Success(BestOf(v, color, Candidates(v, color)).best)
  }

  /** The cells numTilesCaptured is asked about, in order. */
  function CaptureProbes(v: ModelView, color: PlayerColor): seq<HexCoordinates> {
    if color == EMPTY then [] else Candidates(v, color)
  }

  /** The capture strategy's scan. probes records each numTilesCaptured
      query, as the first mock's transcript does. */
  method CapturePieceChooseMove(v: ModelView, color: PlayerColor)
    returns (res: Result<Option<HexCoordinates>, ReversiError>, probes: seq<HexCoordinates>)
    ensures res == CaptureAnswer(v, color)
    ensures probes == CaptureProbes(v, color)
    ensures color == EMPTY <==> res == Failure(IllegalArgument)
    ensures color == EMPTY ==> probes == []
  {
    if color == EMPTY {
      return Failure(IllegalArgument), [];
    }
    var bestMove: Option<HexCoordinates> := None;
    var maxCaptured := 0;
    var size := v.size;
    probes := [];
    var q := -size + 1;
    while q < size
      invariant -size + 1 <= q && (q <= size || q == -size + 1)
      invariant probes == CandidatesBefore(v, color, q, RowStart(size, q))
      invariant Pick(bestMove, maxCaptured) == BestOf(v, color, probes)
    {
      probes, bestMove, maxCaptured := ScanColumn(v, color, q, probes, bestMove, maxCaptured);
      q := q + 1;
    }
    res := Success(bestMove);
  }

  /** The inner loop of the capture scan: column q from RowStart to RowEnd. */
  method ScanColumn(v: ModelView, color: PlayerColor, q: int, probes: seq<HexCoordinates>,
                    bestMove: Option<HexCoordinates>, maxCaptured: int)
    returns (probes': seq<HexCoordinates>, bestMove': Option<HexCoordinates>, maxCaptured': int)
    requires -v.size + 1 <= q < v.size
    requires probes == CandidatesBefore(v, color, q, RowStart(v.size, q))
    requires Pick(bestMove, maxCaptured) == BestOf(v, color, probes)
    ensures probes' == CandidatesBefore(v, color, q, RowEnd(v.size, q) + 1)
    ensures Pick(bestMove', maxCaptured') == BestOf(v, color, probes')
  {
    probes', bestMove', maxCaptured' := probes, bestMove, maxCaptured;
    var r := if -v.size + 1 >= -v.size - q then -v.size + 1 else -v.size - q;
    while r <= (if v.size - 1 <= v.size - q - 1 then v.size - 1 else v.size - q - 1)
      invariant RowStart(v.size, q) <= r <= RowEnd(v.size, q) + 1
      invariant probes' == CandidatesBefore(v, color, q, r)
      invariant Pick(bestMove', maxCaptured') == BestOf(v, color, probes')
    {
      ghost var before, pick := probes', Pick(bestMove', maxCaptured');
      if Abs(q) + Abs(r) + Abs(-q - r) <= v.size - 1 && v.contents(q, r) == EMPTY && v.isValidMove(q, r, color) {
        var numCaptured := v.numTilesCaptured(q, r, color);
        probes' := probes' + [HexCoordinates(q, r)];
        if numCaptured > maxCaptured'
          || (numCaptured == maxCaptured' && (bestMove'.None? || (r < bestMove'.value.r || (r == bestMove'.value.r && q < bestMove'.value.q))))
        {
          maxCaptured' := numCaptured;
          bestMove' := Some(HexCoordinates(q, r));
        }
      }
      ProbeStep(v, color, q, r, before, pick, Pick(bestMove', maxCaptured'));
      r := r + 1;
    }
  }

  /** One cell of the capture scan: the cell joins the probes when it is a
      candidate, and takes over the pick when it captures more, or as many
      and comes earlier. */
  lemma ProbeStep(v: ModelView, color: PlayerColor, q: int, r: int, probes: seq<HexCoordinates>, p: Pick, p': Pick)
    requires -v.size + 1 <= q && RowStart(v.size, q) <= r
    requires probes == CandidatesBefore(v, color, q, r) && p == BestOf(v, color, probes)
    requires p' == if IsCandidate(v, color, q, r) && Improves(Count(v, color, HexCoordinates(q, r)), q, r, p)
      then Pick(Some(HexCoordinates(q, r)), Count(v, color, HexCoordinates(q, r))) else p
    ensures CandidatesBefore(v, color, q, r + 1)
      == probes + (if IsCandidate(v, color, q, r) then [HexCoordinates(q, r)] else [])
    ensures p' == BestOf(v, color, CandidatesBefore(v, color, q, r + 1))
  {
    if IsCandidate(v, color, q, r) {
      var after := probes + [HexCoordinates(q, r)];
      assert after[..|after| - 1] == probes;
      assert BestOf(v, color, after) == p';
    } else {
      assert probes + [] == probes;
    }
  }

  // ---------------------------------------------------------------------
  // CheckCornersStrategy
  // ---------------------------------------------------------------------

  /** The pairs the corner scan visits before it reaches (coords[i], coords[j]):
      every earlier row i, then the earlier entries of row i, skipping the
      pairs whose two entries are equal. */
  function PairsBefore(coords: seq<int>, i: nat, j: nat): seq<HexCoordinates>
    requires |coords| == 3 && i <= 3 && j <= 3 && (i == 3 ==> j == 0)
    decreases i, j
  {
    if j == 0 then
      if i == 0 then [] else PairsBefore(coords, i - 1, 3)
    else
      PairsBefore(coords, i, j - 1)
        + (if coords[i] != coords[j - 1] then [HexCoordinates(coords[i], coords[j - 1])] else [])
  }

  /** coordsToCheck: the coordinates the corner scan combines. */
  function CornerCoords(h: int): seq<int> {
    [-h, 0, h]
  }

  /** The corners tried for a board of size 2h or 2h + 1. */
  function Corners(h: int): seq<HexCoordinates> {
    PairsBefore(CornerCoords(h), 3, 0)
  }

  /** The six corners of the hexagon, in the order they are tried; none
      when the board is too small to have corners apart from the centre. */
  lemma CornersList(h: int)
    ensures h != 0 ==> Corners(h) == [HexCoordinates(-h, 0), HexCoordinates(-h, h), HexCoordinates(0, -h),
                                      HexCoordinates(0, h), HexCoordinates(h, -h), HexCoordinates(h, 0)]
    ensures h == 0 ==> Corners(h) == []
  {
    var cs := CornerCoords(h);
    assert PairsBefore(cs, 0, 1) == [];
    assert PairsBefore(cs, 0, 2) == if h != 0 then [HexCoordinates(-h, 0)] else [];
    assert PairsBefore(cs, 1, 0) == if h != 0 then [HexCoordinates(-h, 0), HexCoordinates(-h, h)] else [];
    assert PairsBefore(cs, 1, 1) == PairsBefore(cs, 1, 0) + (if h != 0 then [HexCoordinates(0, -h)] else []);
    assert PairsBefore(cs, 1, 2) == PairsBefore(cs, 1, 1);
    assert PairsBefore(cs, 2, 0) == PairsBefore(cs, 1, 2) + (if h != 0 then [HexCoordinates(0, h)] else []);
    assert PairsBefore(cs, 2, 1) == PairsBefore(cs, 2, 0) + (if h != 0 then [HexCoordinates(h, -h)] else []);
    assert PairsBefore(cs, 2, 2) == PairsBefore(cs, 2, 1) + (if h != 0 then [HexCoordinates(h, 0)] else []);
    assert PairsBefore(cs, 3, 0) == PairsBefore(cs, 2, 2);
  }

  /** Which replacement test the corner scan applies. */
  datatype CornerGuard =
    | AsWritten   // the source's `more || (tie && valid)`
    | Corrected   // `(more || tie) && valid`

  /** The corner scan's replacement test. As written, a corner that captures
      more than the current best is taken without asking isValidMove. */
  predicate CornerImproves(g: CornerGuard, n: int, q: int, r: int, p: Pick, valid: bool) {
    match g
    case AsWritten => n > p.max || ((n == p.max && Earlier(q, r, p.best)) && valid)
    case Corrected => Improves(n, q, r, p) && valid
  }

  /** The pick after the corner scan has considered the cells of cs. */
  function CornerPick(v: ModelView, color: PlayerColor, cs: seq<HexCoordinates>, g: CornerGuard): Pick
    decreases |cs|
  {
    if |cs| == 0 then Pick(None, 0)
    else
      var p := CornerPick(v, color, cs[..|cs| - 1], g);
      var c := cs[|cs| - 1];
      if CornerImproves(g, Count(v, color, c), c.q, c.r, p, v.isValidMove(c.q, c.r, color))
      then Pick(Some(c), Count(v, color, c)) else p
  }

  lemma CornerPickStep(v: ModelView, color: PlayerColor, cs: seq<HexCoordinates>, c: HexCoordinates, g: CornerGuard)
    ensures var p := CornerPick(v, color, cs, g);
      CornerPick(v, color, cs + [c], g)
        == if CornerImproves(g, Count(v, color, c), c.q, c.r, p, v.isValidMove(c.q, c.r, color))
           then Pick(Some(c), Count(v, color, c)) else p
  {
    assert (cs + [c])[..|cs|] == cs;
  }

  /** The cells of cs that the view calls valid moves, in order. */
  function ValidOnly(v: ModelView, color: PlayerColor, cs: seq<HexCoordinates>): seq<HexCoordinates>
    decreases |cs|
  {
    if |cs| == 0 then []
    else
      var c := cs[|cs| - 1];
      ValidOnly(v, color, cs[..|cs| - 1]) + (if v.isValidMove(c.q, c.r, color) then [c] else [])
  }

  lemma {:induction false} ValidOnlyMembers(v: ModelView, color: PlayerColor, cs: seq<HexCoordinates>)
    ensures forall c :: c in ValidOnly(v, color, cs) <==> c in cs && v.isValidMove(c.q, c.r, color)
    decreases |cs|
  {
    if |cs| > 0 {
      ValidOnlyMembers(v, color, cs[..|cs| - 1]);
      assert cs == cs[..|cs| - 1] + [cs[|cs| - 1]];
    }
  }

  /** The corrected corner scan is the capture scan's ranking applied to the
      corners that are valid moves. */
  lemma {:induction false} CorrectedIsBestOfValid(v: ModelView, color: PlayerColor, cs: seq<HexCoordinates>)
    ensures CornerPick(v, color, cs, Corrected) == BestOf(v, color, ValidOnly(v, color, cs))
    decreases |cs|
  {
    if |cs| > 0 {
      var init := cs[..|cs| - 1];
      var c := cs[|cs| - 1];
      CorrectedIsBestOfValid(v, color, init);
      var p := CornerPick(v, color, init, Corrected);
      if v.isValidMove(c.q, c.r, color) {
        var vs := ValidOnly(v, color, init) + [c];
        assert ValidOnly(v, color, cs) == vs;
        assert vs[..|vs| - 1] == ValidOnly(v, color, init);
        assert CornerPick(v, color, cs, Corrected)
          == if Improves(Count(v, color, c), c.q, c.r, p) then Pick(Some(c), Count(v, color, c)) else p;
      } else {
        assert ValidOnly(v, color, cs) == ValidOnly(v, color, init);
        assert CornerPick(v, color, cs, Corrected) == p;
      }
    }
  }

  /** When every corner is a valid move, both tests agree with the capture
      scan's ranking. */
  lemma {:induction false} GuardsAgreeWhenValid(v: ModelView, color: PlayerColor, cs: seq<HexCoordinates>, g: CornerGuard)
    requires forall i | 0 <= i < |cs| :: v.isValidMove(cs[i].q, cs[i].r, color)
    ensures CornerPick(v, color, cs, g) == BestOf(v, color, cs)
    decreases |cs|
  {
    if |cs| > 0 {
      GuardsAgreeWhenValid(v, color, cs[..|cs| - 1], g);
    }
  }

  /** What CheckCornersStrategy.chooseMove answers: the best corner, or else
      whatever the capture strategy answers. */
  function CornersAnswer(v: ModelView, color: PlayerColor, g: CornerGuard): Result<Option<HexCoordinates>, ReversiError> {
    if color == EMPTY then Failure(IllegalArgument)
    else
      var p := CornerPick(v, color, Corners(v.size / 2), g);
      if p.best.Some? then Success(p.best) else CaptureAnswer(v, color)
  }

  /** The corners, in order, then the capture scan's cells if it falls back. */
  function CornersProbes(v: ModelView, color: PlayerColor, g: CornerGuard): seq<HexCoordinates> {
    if color == EMPTY then []
    else
      var p := CornerPick(v, color, Corners(v.size / 2), g);
      Corners(v.size / 2) + (if p.best.Some? then [] else Candidates(v, color))
  }

  /** The corner strategy's nested loops over the corners, under guard g.
      Dafny's `/` by 2 floors, as Math.floorDiv does. */
  method ScanCorners(v: ModelView, color: PlayerColor, g: CornerGuard)
    returns (bestMove: Option<HexCoordinates>, maxCaptured: int, probes: seq<HexCoordinates>)
    ensures probes == Corners(v.size / 2)
    ensures Pick(bestMove, maxCaptured) == CornerPick(v, color, probes, g)
  {
    bestMove, maxCaptured := None, 0;
    var size := v.size / 2;
    var coordsToCheck := CornerCoords(size);
    probes := [];
    for i := 0 to |coordsToCheck|
      invariant probes == PairsBefore(coordsToCheck, i, 0)
      invariant Pick(bestMove, maxCaptured) == CornerPick(v, color, probes, g)
    {
      var q := coordsToCheck[i];
      for j := 0 to |coordsToCheck|
        invariant probes == PairsBefore(coordsToCheck, i, j)
        invariant Pick(bestMove, maxCaptured) == CornerPick(v, color, probes, g)
      {
        var r := coordsToCheck[j];
        if q != r {
          var numCaptured := v.numTilesCaptured(q, r, color);
          CornerPickStep(v, color, probes, HexCoordinates(q, r), g);
          probes := probes + [HexCoordinates(q, r)];
          var more := numCaptured > maxCaptured;
          var tie := numCaptured == maxCaptured
            && (bestMove.None? || (r < bestMove.value.r || (r == bestMove.value.r && q < bestMove.value.q)));
          var take := match g
            case AsWritten => more || (tie && v.isValidMove(q, r, color))
            case Corrected => (more || tie) && v.isValidMove(q, r, color);
          if take {
            maxCaptured := numCaptured;
            bestMove := Some(HexCoordinates(q, r));
          }
        }
      }
    }
  }

  /** CheckCornersStrategy.chooseMove under guard g: the best corner, or the
      capture strategy's answer when no corner is taken. */
  method CheckCornersChooseMove(v: ModelView, color: PlayerColor, g: CornerGuard)
    returns (res: Result<Option<HexCoordinates>, ReversiError>, probes: seq<HexCoordinates>)
    ensures res == CornersAnswer(v, color, g)
    ensures probes == CornersProbes(v, color, g)
    ensures color == EMPTY <==> res == Failure(IllegalArgument)
    ensures color == EMPTY ==> probes == []
  {
    if color == EMPTY {
      return Failure(IllegalArgument), [];
    }
    var bestMove, maxCaptured;
    bestMove, maxCaptured, probes := ScanCorners(v, color, g);
    if bestMove.None? {
      var fallback;
      res, fallback := CapturePieceChooseMove(v, color);
      probes := probes + fallback;
    } else {
      res := Success(bestMove);
    }
  }

  /** Corrected, a chosen corner is always a valid move and the best valid
      corner; with no valid corner the capture strategy decides. */
  lemma CorrectedCornerIsValid(v: ModelView, color: PlayerColor)
    requires color != EMPTY
    ensures var p := CornerPick(v, color, Corners(v.size / 2), Corrected);
      p.best.Some? ==>
        && v.isValidMove(p.best.value.q, p.best.value.r, color)
        && p.best.value in Corners(v.size / 2)
        && forall c | c in Corners(v.size / 2) && v.isValidMove(c.q, c.r, color) ::
             Count(v, color, c) <= p.max && (Count(v, color, c) == p.max ==> RowFirst(p.best.value, c))
    ensures var p := CornerPick(v, color, Corners(v.size / 2), Corrected);
      (forall c | c in Corners(v.size / 2) :: !v.isValidMove(c.q, c.r, color)) ==>
        CornersAnswer(v, color, Corrected) == CaptureAnswer(v, color)
  {
    var cs := Corners(v.size / 2);
    var vs := ValidOnly(v, color, cs);
    CorrectedIsBestOfValid(v, color, cs);
    BestOfDominates(v, color, vs);
    ValidOnlyMembers(v, color, cs);
    if forall c | c in cs :: !v.isValidMove(c.q, c.r, color) {
      assert |vs| == 0;
    }
  }

  /** A size-5 view in which the corner (-2, 0) is already taken by WHITE,
      so it is not a valid move, yet numTilesCaptured, which never looks at
      its target, reports one capture for it. */
  function TakenCornerView(): ModelView {
    ModelView(5,
      (q: int, r: int) => if q == -2 && r == 0 then WHITE else EMPTY,
      (q: int, r: int, c: PlayerColor) => false,
      (q: int, r: int, c: PlayerColor) => if q == -2 && r == 0 then 1 else 0)
  }

  /** As written, the corner strategy proposes (-2, 0) there although
      isValidMove rejects it. */
  lemma AsWrittenPicksInvalidCorner(color: PlayerColor)
    requires color != EMPTY
    ensures CornersAnswer(TakenCornerView(), color, AsWritten) == Success(Some(HexCoordinates(-2, 0)))
    ensures !TakenCornerView().isValidMove(-2, 0, color)
    ensures TakenCornerView().contents(-2, 0) != EMPTY
  {
    var v := TakenCornerView();
    var taken := Pick(Some(HexCoordinates(-2, 0)), 1);
    CornersList(2);
    var s0: seq<HexCoordinates> := [];
    CornerPickStep(v, color, s0, HexCoordinates(-2, 0), AsWritten);
    var s1 := s0 + [HexCoordinates(-2, 0)];
    assert CornerPick(v, color, s1, AsWritten) == taken;
    CornerPickStep(v, color, s1, HexCoordinates(-2, 2), AsWritten);
    var s2 := s1 + [HexCoordinates(-2, 2)];
    CornerPickStep(v, color, s2, HexCoordinates(0, -2), AsWritten);
    var s3 := s2 + [HexCoordinates(0, -2)];
    CornerPickStep(v, color, s3, HexCoordinates(0, 2), AsWritten);
    var s4 := s3 + [HexCoordinates(0, 2)];
    CornerPickStep(v, color, s4, HexCoordinates(2, -2), AsWritten);
    var s5 := s4 + [HexCoordinates(2, -2)];
    CornerPickStep(v, color, s5, HexCoordinates(2, 0), AsWritten);
    var s6 := s5 + [HexCoordinates(2, 0)];
    assert CornerPick(v, color, s6, AsWritten) == taken;
    assert s6 == Corners(v.size / 2);
  }

  /** Corrected, the corner strategy proposes nothing there: no corner is a
      valid move, and neither is any other cell. */
  lemma CorrectedRefusesTakenCorner(color: PlayerColor)
    requires color != EMPTY
    ensures CornersAnswer(TakenCornerView(), color, Corrected) == Success(None)
  {
    var v := TakenCornerView();
    CorrectedCornerIsValid(v, color);
    CandidatesMembers(v, color);
    if |Candidates(v, color)| > 0 {
      HeadIsMember(Candidates(v, color));
      assert false;
    }
  }

  // ---------------------------------------------------------------------
  // MultipleStrategies
  // ---------------------------------------------------------------------

  /** The strategies a MultipleStrategies can hold. CheckCorners(AsWritten)
      is CheckCornersStrategy as the source has it; CheckCorners(Corrected)
      is its intended form. */
  datatype StrategyKind = CapturePiece | CheckCorners(g: CornerGuard)

  /** What one strategy answers. */
  function Answer(k: StrategyKind, v: ModelView, color: PlayerColor): Result<Option<HexCoordinates>, ReversiError> {
    match k
    case CapturePiece => CaptureAnswer(v, color)
    case CheckCorners(g) => CornersAnswer(v, color, g)
  }

  function Probes(k: StrategyKind, v: ModelView, color: PlayerColor): seq<HexCoordinates> {
    match k
    case CapturePiece => CaptureProbes(v, color)
    case CheckCorners(g) => CornersProbes(v, color, g)
  }

  /** Strategy.chooseMove, dispatched on the kind of strategy. */
  method ChooseMove(k: StrategyKind, v: ModelView, color: PlayerColor)
    returns (res: Result<Option<HexCoordinates>, ReversiError>, probes: seq<HexCoordinates>)
    ensures res == Answer(k, v, color) && probes == Probes(k, v, color)
  {
    match k {
      case CapturePiece => res, probes := CapturePieceChooseMove(v, color);
      case CheckCorners(g) => res, probes := CheckCornersChooseMove(v, color, g);
    }
  }

  /** The answer holds a move. */
  predicate Found(a: Result<Option<HexCoordinates>, ReversiError>) {
    a.Success? && a.value.Some?
  }

  /** The answers every strategy of subs would give. */
  function Answers(subs: seq<StrategyKind>, v: ModelView, color: PlayerColor): seq<Result<Option<HexCoordinates>, ReversiError>> {
    seq(|subs|, j requires 0 <= j < |subs| => Answer(subs[j], v, color))
  }

  /** The queries every strategy of subs would make. */
  function ProbeLists(subs: seq<StrategyKind>, v: ModelView, color: PlayerColor): seq<seq<HexCoordinates>> {
    seq(|subs|, j requires 0 <= j < |subs| => Probes(subs[j], v, color))
  }

  /** The index of the first answer from i on that holds a move, or |answers|
      when none does. */
  function FirstFinder(answers: seq<Result<Option<HexCoordinates>, ReversiError>>, i: nat): nat
    decreases |answers| - i
  {
    if i >= |answers| then |answers|
    else if Found(answers[i]) then i
    else FirstFinder(answers, i + 1)
  }

  /** The first k lists of queries, one after the other. */
  function ProbesBefore(lists: seq<seq<HexCoordinates>>, k: nat): seq<HexCoordinates>
    requires k <= |lists|
  {
    if k == 0 then [] else ProbesBefore(lists, k - 1) + lists[k - 1]
  }

  /** What MultipleStrategies.chooseMove answers: the answer of the first
      strategy that proposes a move, or no move. */
  function MultipleAnswer(subs: seq<StrategyKind>, v: ModelView, color: PlayerColor): Result<Option<HexCoordinates>, ReversiError> {
    if color == EMPTY then Failure(IllegalArgument)
    else
      var answers := Answers(subs, v, color);
      var k := FirstFinder(answers, 0);
      if k < |subs| then answers[k] else Success(None)
  }

  /** The queries made: those of every strategy tried, up to and including
      the first that proposes a move. */
  function MultipleProbes(subs: seq<StrategyKind>, v: ModelView, color: PlayerColor): seq<HexCoordinates> {
    if color == EMPTY then []
    else
      var k := FirstFinder(Answers(subs, v, color), 0);
      ProbesBefore(ProbeLists(subs, v, color), if k < |subs| then k + 1 else |subs|)
  }

  /** MultipleStrategies.chooseMove: the first strategy that proposes a move
      wins, and the later ones are not asked. */
  method MultipleChooseMove(subs: seq<StrategyKind>, v: ModelView, color: PlayerColor)
    returns (res: Result<Option<HexCoordinates>, ReversiError>, probes: seq<HexCoordinates>)
    ensures res == MultipleAnswer(subs, v, color)
    ensures probes == MultipleProbes(subs, v, color)
    ensures color == EMPTY <==> res == Failure(IllegalArgument)
    ensures color == EMPTY ==> probes == []
  {
    if color == EMPTY {
      return Failure(IllegalArgument), [];
    }
    ghost var answers, lists := Answers(subs, v, color), ProbeLists(subs, v, color);
    probes := [];
    var i := 0;
    while i < |subs|
      invariant 0 <= i <= |subs|
      invariant FirstFinder(answers, i) == FirstFinder(answers, 0)
      invariant probes == ProbesBefore(lists, i)
    {
      var hc, p := ChooseMove(subs[i], v, color);
      assert hc == answers[i] && p == lists[i];
      probes := probes + p;
      if hc.Success? && hc.value.Some? {
        return hc, probes;
      }
      i := i + 1;
    }
    res := Success(None);
  }

  lemma {:induction false} FirstFinderFrom(answers: seq<Result<Option<HexCoordinates>, ReversiError>>, i: nat)
    requires i <= |answers|
    ensures var k := FirstFinder(answers, i);
      && i <= k <= |answers|
      && (k < |answers| ==> Found(answers[k]))
      && forall j | i <= j < k :: !Found(answers[j])
    decreases |answers| - i
  {
    if i < |answers| && !Found(answers[i]) {
      FirstFinderFrom(answers, i + 1);
    }
  }

  /** MultipleStrategies proposes the move of a strategy that proposes one,
      and every strategy before it proposes nothing; it proposes nothing
      exactly when no strategy proposes anything. */
  lemma MultipleIsFirstFound(subs: seq<StrategyKind>, v: ModelView, color: PlayerColor)
    requires color != EMPTY
    ensures MultipleAnswer(subs, v, color).Success?
    ensures Found(MultipleAnswer(subs, v, color)) ==>
      exists k | 0 <= k < |subs| ::
        && Answer(subs[k], v, color) == MultipleAnswer(subs, v, color)
        && forall j | 0 <= j < k :: !Found(Answer(subs[j], v, color))
    ensures !Found(MultipleAnswer(subs, v, color)) <==> forall j | 0 <= j < |subs| :: !Found(Answer(subs[j], v, color))
  {
    var answers := Answers(subs, v, color);
    FirstFinderFrom(answers, 0);
    var k := FirstFinder(answers, 0);
    if k < |subs| {
      assert answers[k] == Answer(subs[k], v, color);
    }
    assert forall j | 0 <= j < |subs| :: answers[j] == Answer(subs[j], v, color);
  }

  // ---------------------------------------------------------------------
  // The real model and the test mocks
  // ---------------------------------------------------------------------

  /** On a well-formed board the capture scan's candidates are exactly the
      valid moves inside the hexagon. */
  lemma BoardViewCandidates(size: int, cells: Cells, color: PlayerColor)
    requires WellFormed(size, cells)
    ensures forall h :: h in Candidates(BoardView(size, cells), color) <==>
      IsValidCoordinates(size, h.q, h.r) && IsValidMoveAt(cells, h, color)
  {
    var v := BoardView(size, cells);
    CandidatesMembers(v, color);
    forall h: HexCoordinates
      ensures InKeys(size, h) && IsCandidate(v, color, h.q, h.r) <==>
        IsValidCoordinates(size, h.q, h.r) && IsValidMoveAt(cells, h, color)
    {
      OnBoardByDistance(size, h.q, h.r);
    }
  }

  /** On the real model the capture strategy proposes nothing exactly when
      the player has no move (hasValidMove is false). */
  lemma CaptureOnBoardNone(size: int, cells: Cells, color: PlayerColor)
    requires WellFormed(size, cells) && color != EMPTY
    ensures CaptureAnswer(BoardView(size, cells), color) == Success(None)
      <==> !exists h: HexCoordinates :: IsValidCoordinates(size, h.q, h.r) && IsValidMoveAt(cells, h, color)
  {
    var v := BoardView(size, cells);
    var cs := Candidates(v, color);
    BoardViewCandidates(size, cells, color);
    BestNoneIff(v, color);
    if |cs| > 0 {
      HeadIsMember(cs);
    } else {
      forall h: HexCoordinates | IsValidCoordinates(size, h.q, h.r)
        ensures !IsValidMoveAt(cells, h, color)
      {
        if IsValidMoveAt(cells, h, color) {
          assert false;
        }
      }
    }
  }

  /** What the capture strategy proposes on the real model, makeMove
      accepts. */
  lemma CaptureOnBoardLegal(size: int, cells: Cells, color: PlayerColor, b: HexCoordinates)
    requires WellFormed(size, cells) && RingOccupied(cells) && color != EMPTY
    requires CaptureAnswer(BoardView(size, cells), color) == Success(Some(b))
    ensures IsLegalMove(size, cells, b, color)
  {
    var v := BoardView(size, cells);
    BestIsMaximal(v, color, b);
    BoardViewCandidates(size, cells, color);
    assert IsValidCoordinates(size, b.q, b.r) && IsValidMoveAt(cells, b, color);
    if Distance(b.q, b.r) == 2 {
      RingNeverPlayable(cells, b, color);
    }
  }

  /** A real board never captures more than the opponent has on it. */
  lemma CapturedAtMostOpponents(cells: Cells, h: HexCoordinates, color: PlayerColor)
    ensures NumCaptured(cells, h, color) <= Score(cells, Opposite(color))
  {
    FlippedCount(cells, h, color);
    FlippedCells(cells, h, color);
    SubsetRemoveCard(ColorSet(cells, Opposite(color)), Flipped(cells, h, color));
  }

  /** The first mock: every move is valid and nothing is captured. */
  function EagerView(size: int, cells: Cells): ModelView {
    ModelView(size,
      (q: int, r: int) => ContentsOf(cells, q, r),
      (q: int, r: int, c: PlayerColor) => true,
      (q: int, r: int, c: PlayerColor) => 0)
  }

  /** The second mock: every move is valid, and (-2, 1) claims ten captures
      while every other cell reports the real count. */
  function LyingView(size: int, cells: Cells): ModelView {
    ModelView(size,
      (q: int, r: int) => ContentsOf(cells, q, r),
      (q: int, r: int, c: PlayerColor) => true,
      (q: int, r: int, c: PlayerColor) => if q == -2 && r == 1 then 10 else NumCaptured(cells, HexCoordinates(q, r), c))
  }

  /** The third mock: no move is valid. */
  function RefusingView(size: int, cells: Cells): ModelView {
    ModelView(size,
      (q: int, r: int) => ContentsOf(cells, q, r),
      (q: int, r: int, c: PlayerColor) => false,
      (q: int, r: int, c: PlayerColor) => 0)
  }

  /** On a fresh board the capture strategy believes the lying count and
      proposes (-2, 1), for either player. */
  lemma LyingViewPicksLie(size: int, cells: Cells, color: PlayerColor)
    requires ValidSize(size) && IsInitial(size, cells) && color != EMPTY
    ensures CaptureAnswer(LyingView(size, cells), color) == Success(Some(HexCoordinates(-2, 1)))
  {
    var v := LyingView(size, cells);
    var lie := HexCoordinates(-2, 1);
    InitialScores(size, cells);
    OnBoardByDistance(size, -2, 1);
    CandidatesMembers(v, color);
    assert lie in Candidates(v, color);
    forall c | c in Candidates(v, color) ensures Count(v, color, c) >= 0 { }
    BestNoneIff(v, color);
    var b := BestOf(v, color, Candidates(v, color)).best.value;
    BestIsMaximal(v, color, b);
    if b != lie {
      CapturedAtMostOpponents(cells, b, color);
      assert false;
    }
  }

  /** When no move is valid the capture strategy proposes nothing and asks
      nothing. */
  lemma RefusingViewFindsNothing(size: int, cells: Cells, color: PlayerColor)
    requires color != EMPTY
    ensures CaptureAnswer(RefusingView(size, cells), color) == Success(None)
    ensures CaptureProbes(RefusingView(size, cells), color) == []
  {
    var v := RefusingView(size, cells);
    CandidatesMembers(v, color);
    if |Candidates(v, color)| > 0 {
      HeadIsMember(Candidates(v, color));
      assert false;
    }
  }

  /** On the first mock over a fresh board of size 7 the corner strategy, as
      written, asks about the six corners only; every corner ties at zero, so
      the uppermost, then leftmost, corner (0, -3) wins. */
  lemma EagerViewCorners(cells: Cells, color: PlayerColor)
    requires color != EMPTY
    ensures CornersProbes(EagerView(7, cells), color, AsWritten) == [HexCoordinates(-3, 0), HexCoordinates(-3, 3),
      HexCoordinates(0, -3), HexCoordinates(0, 3), HexCoordinates(3, -3), HexCoordinates(3, 0)]
    ensures CornersAnswer(EagerView(7, cells), color, AsWritten) == Success(Some(HexCoordinates(0, -3)))
  {
    var v := EagerView(7, cells);
    CornersList(3);
    var cs := Corners(3);
    GuardsAgreeWhenValid(v, color, cs, AsWritten);
    BestOfDominates(v, color, cs);
    assert cs[2] == HexCoordinates(0, -3);
  }

  /** On the first mock over a fresh board the capture strategy proposes a
      move. */
  lemma EagerViewCaptureFinds(size: int, cells: Cells, color: PlayerColor)
    requires ValidSize(size) && IsInitial(size, cells) && color != EMPTY
    ensures Found(CaptureAnswer(EagerView(size, cells), color))
  {
    var v := EagerView(size, cells);
    InitialScores(size, cells);
    OnBoardByDistance(size, -2, 1);
    CandidatesMembers(v, color);
    assert HexCoordinates(-2, 1) in Candidates(v, color);
    BestNoneIff(v, color);
  }

  /** When the first strategy proposes a move, MultipleStrategies answers
      with it and asks no other strategy anything. */
  lemma FirstStrategyDecides(subs: seq<StrategyKind>, v: ModelView, color: PlayerColor)
    requires |subs| > 0 && color != EMPTY && Found(Answer(subs[0], v, color))
    ensures MultipleAnswer(subs, v, color) == Answer(subs[0], v, color)
    ensures MultipleProbes(subs, v, color) == Probes(subs[0], v, color)
  {
    var lists := ProbeLists(subs, v, color);
    assert Answers(subs, v, color)[0] == Answer(subs[0], v, color);
    assert ProbesBefore(lists, 1) == [] + lists[0];
  }

  /** On the first mock over a fresh board, MultipleStrategies of the capture
      strategy then the corner strategy answers what the capture strategy
      answers, and the corner strategy is never asked. */
  lemma EagerViewMultiple(size: int, cells: Cells, color: PlayerColor)
    requires ValidSize(size) && IsInitial(size, cells) && color != EMPTY
    ensures MultipleAnswer([CapturePiece, CheckCorners(AsWritten)], EagerView(size, cells), color)
      == CaptureAnswer(EagerView(size, cells), color)
    ensures MultipleProbes([CapturePiece, CheckCorners(AsWritten)], EagerView(size, cells), color)
      == CaptureProbes(EagerView(size, cells), color)
  {
    EagerViewCaptureFinds(size, cells, color);
    FirstStrategyDecides([CapturePiece, CheckCorners(AsWritten)], EagerView(size, cells), color);
  }
}
