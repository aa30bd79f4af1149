/**
 * The heuristics of the Monte Carlo player (mcts.py): the line table of
 * `_evaluate_line`, the move score `_evaluate_move` with its distance
 * penalty `_get_min_distance_to_pieces`, the prioritised move list
 * `_get_sorted_moves` of a new tree node, and the rollout policy: the quick
 * score `_quick_evaluate_move` and the choice among the first six empty cells.
 */
module MctsEval {
  import opened Wrappers
  import opened Board
  import opened Lines
  import opened Sorting
  import MinimaxEval

  // ---------------------------------------------------------------------------
  // _evaluate_line
  // ---------------------------------------------------------------------------

  const LineFive: int := 100000
  const LineAlive4: int := 50000
  const LineRush4: int := 10000
  const LineAlive3: int := 8000
  const LineSleep3: int := 3000
  const LineAlive2: int := 1000
  const LineSleep2: int := 300
  const LineBase: int := 100

  /**
   * The table at the end of `_evaluate_line`: five or more, open and
   * one-side-blocked fours, threes and twos score by category; everything
   * else gets the base score, so no line scores 0.
   */
  function LineScore(pt: Pattern): (v: int)
    ensures LineBase <= v <= LineFive
    ensures v == LineFive <==> pt.consecutive >= 5
    ensures v == LineBase <==> pt.consecutive < 2 || (pt.consecutive < 5 && pt.blocked >= 2)
  {
    var c, b := pt.consecutive, pt.blocked;
    if c >= 5 then LineFive
    else if c == 4 && b == 0 then LineAlive4
    else if c == 4 && b == 1 then LineRush4
    else if c == 3 && b == 0 then LineAlive3
    else if c == 3 && b == 1 then LineSleep3
    else if c == 2 && b == 0 then LineAlive2
    else if c == 2 && b == 1 then LineSleep2
    else LineBase
  }

  /**
   * The table's order: at equal length an open run beats a run blocked at
   * one end; a run blocked at one end beats the open run one shorter; a
   * blocked four beats an open three.
   */
  lemma LineOrder(c: nat, s: nat, s': nat)
    ensures 2 <= c <= 4 ==> LineScore(Pattern(c, 0, s)) > LineScore(Pattern(c, 1, s'))
    ensures 2 <= c <= 4 ==> LineScore(Pattern(c, 1, s)) > LineScore(Pattern(c - 1, 0, s'))
    ensures LineScore(Pattern(4, 1, s)) > LineScore(Pattern(3, 0, s'))
  {
  }

  /** `_evaluate_line`: the two scan sides, backward then forward, then the table. */
  method EvaluateLine(g: Grid, i: int, j: int, di: int, dj: int, p: int) returns (v: int)
    requires IsSquare(g) && IsStep(di, dj)
    ensures v == LineScore(PatternAt(g, i, j, di, dj, p))
  {
    var before := Walk(g, i - di, j - dj, -di, -dj, p, 0);
    var after := Walk(g, i + di, j + dj, di, dj, p, 0);
    var pt := Pattern(1 + before.stones + after.stones, before.blocked + after.blocked, before.space + after.space);
    v := LineScore(pt);
  }

  /** The line scores of the first `k` axes through `(i, j)`, added up. */
  function LineSum(g: Grid, i: int, j: int, p: int, k: int): (v: int)
    requires IsSquare(g) && 0 <= k <= 4
    ensures k * LineBase <= v <= k * LineFive
  {
    if k == 0 then 0 else LineSum(g, i, j, p, k - 1) + LineScore(MinimaxEval.AxisPattern(g, i, j, k - 1, p))
  }

  /** The line sum does not depend on what the anchor cell holds. */
  lemma {:induction false} LineSumIgnoresAnchor(g: Grid, m: Move, p: int, v: int, k: int)
    requires IsSquare(g) && InBounds(g, m.row, m.col) && 0 <= k <= 4
    ensures LineSum(Place(g, m, v), m.row, m.col, p, k) == LineSum(g, m.row, m.col, p, k)
  {
    if k > 0 {
      LineSumIgnoresAnchor(g, m, p, v, k - 1);
      DirectionSteps(k - 1);
      MinimaxEval.PatternIgnoresAnchor(g, m, Directions[k - 1].0, Directions[k - 1].1, p, v);
    }
  }

  /** One axis contributes its whole line score to the sum. */
  lemma {:induction false} LineSumCovers(g: Grid, i: int, j: int, p: int, k: int, k': int)
    requires IsSquare(g) && 0 <= k' < k <= 4
    ensures LineSum(g, i, j, p, k) >= LineScore(MinimaxEval.AxisPattern(g, i, j, k', p)) + (k - 1) * LineBase
  {
    if k' < k - 1 {
      LineSumCovers(g, i, j, p, k - 1, k');
    }
  }

  // ---------------------------------------------------------------------------
  // _get_min_distance_to_pieces
  // ---------------------------------------------------------------------------

  /** `(x, y)` lies in the 5x5 window centred on `m`, clipped to an `n`-board. */
  predicate InWindow(n: int, m: Move, x: int, y: int) {
    0 <= x < n && 0 <= y < n && m.row - 2 <= x <= m.row + 2 && m.col - 2 <= y <= m.col + 2
  }

  /** A stone in the window around `m`. */
  predicate StoneIn(g: Grid, m: Move, x: int, y: int)
    requires IsSquare(g)
  {
    InWindow(|g|, m, x, y) && g[x][y] != 0
  }

  function Manhattan(m: Move, x: int, y: int): nat {
    MinimaxEval.Abs(x - m.row) + MinimaxEval.Abs(y - m.col)
  }

  /** Row-major order: `(x, y)` comes before `(x0, y0)`. */
  predicate Before(x: int, y: int, x0: int, y0: int) {
    x < x0 || (x == x0 && y < y0)
  }

  /** What the scan has found once it reaches `(x0, y0)`: nothing, or the least distance of a stone seen. */
  ghost predicate MinSoFar(g: Grid, m: Move, x0: int, y0: int, d: Option<nat>)
    requires IsSquare(g)
  {
    && (d.None? <==> forall x, y :: StoneIn(g, m, x, y) && Before(x, y, x0, y0) ==> false)
    && (d.Some? ==> exists x, y :: StoneIn(g, m, x, y) && Before(x, y, x0, y0) && Manhattan(m, x, y) == d.value)
    && (d.Some? ==> forall x, y :: StoneIn(g, m, x, y) && Before(x, y, x0, y0) ==> d.value <= Manhattan(m, x, y))
  }

  /** `min(min_distance, distance)` with `None` for infinity. */
  function MinWith(d: Option<nat>, distance: nat): (r: Option<nat>)
    ensures r.Some? && r.value <= distance && (d.Some? ==> r.value <= d.value)
    ensures r.value == distance || r == d
  {
    if d.None? || distance < d.value then Some(distance) else d
  }

  /** Looking at one more cell of the window keeps the scan's record right. */
  lemma ScanCell(g: Grid, m: Move, x: int, y: int, d: Option<nat>)
    requires IsSquare(g) && InWindow(|g|, m, x, y) && MinSoFar(g, m, x, y, d)
    ensures MinSoFar(g, m, x, y + 1, if g[x][y] != 0 then MinWith(d, Manhattan(m, x, y)) else d)
  {
    if g[x][y] != 0 {
      assert StoneIn(g, m, x, y) && Before(x, y, x, y + 1);
    }
  }

  /** Cells outside the window add nothing to the record. */
  lemma SkipCells(g: Grid, m: Move, x: int, y: int, y': int, d: Option<nat>)
    requires IsSquare(g) && y <= y' && MinSoFar(g, m, x, y, d)
    requires forall v :: y <= v < y' ==> !InWindow(|g|, m, x, v)
    ensures MinSoFar(g, m, x, y', d)
  {
  }

  /** A row whose window cells are all seen hands the record on to the next row. */
  lemma NextRow(g: Grid, m: Move, x: int, y: int, d: Option<nat>)
    requires IsSquare(g) && MinSoFar(g, m, x, y, d)
    requires forall v :: y <= v ==> !InWindow(|g|, m, x, v)
    ensures MinSoFar(g, m, x + 1, 0, d)
  {
  }

  /** Rows outside the window add nothing to the record. */
  lemma SkipRows(g: Grid, m: Move, x: int, x': int, d: Option<nat>)
    requires IsSquare(g) && x <= x' && MinSoFar(g, m, x, 0, d)
    requires forall u, v :: x <= u < x' ==> !InWindow(|g|, m, u, v)
    ensures MinSoFar(g, m, x', 0, d)
  {
  }

  /**
   * `_get_min_distance_to_pieces`: the least Manhattan distance from `m` to a
   * stone of either colour in the clipped 5x5 window, or `None` (the
   * source's infinity) when the window holds no stone.
   */
  method GetMinDistance(g: Grid, m: Move) returns (d: Option<nat>)
    requires IsSquare(g) && InBounds(g, m.row, m.col)
    ensures d.None? <==> forall x, y :: StoneIn(g, m, x, y) ==> false
    ensures d.Some? ==> d.value <= 4
    ensures d.Some? ==> exists x, y :: StoneIn(g, m, x, y) && Manhattan(m, x, y) == d.value
    ensures d.Some? ==> forall x, y :: StoneIn(g, m, x, y) ==> d.value <= Manhattan(m, x, y)
  {
    var n := |g|;
    var (i, j) := (m.row, m.col);
    d := None;
    var x0, x1 := if i - 2 > 0 then i - 2 else 0, if n < i + 3 then n else i + 3;
    var y0, y1 := if j - 2 > 0 then j - 2 else 0, if n < j + 3 then n else j + 3;
    SkipRows(g, m, i - 2, x0, d);
    for x := x0 to x1
      invariant MinSoFar(g, m, x, 0, d)
      invariant d.Some? ==> d.value <= 4
    {
      SkipCells(g, m, x, 0, y0, d);
      for y := y0 to y1
        invariant MinSoFar(g, m, x, y, d)
        invariant d.Some? ==> d.value <= 4
      {
        ScanCell(g, m, x, y, d);
        if g[x][y] != 0 {
          var distance := Manhattan(m, x, y);
          d := MinWith(d, distance);
        }
      }
      NextRow(g, m, x, y1, d);
    }
    SkipRows(g, m, x1, x1 + n + 5, d);
  }

  /** The window holds no stone within distance 2 of `m`: the source's `min_distance > 2`. */
  predicate Isolated(g: Grid, m: Move)
    requires IsSquare(g)
  {
    forall x, y | 0 <= x < |g| && 0 <= y < |g| :: StoneIn(g, m, x, y) ==> Manhattan(m, x, y) > 2
  }

  /** `min_distance > 2`, infinity included, is exactly isolation. */
  lemma FarIffIsolated(g: Grid, m: Move, d: Option<nat>)
    requires IsSquare(g)
    requires d.None? <==> forall x, y :: StoneIn(g, m, x, y) ==> false
    requires d.Some? ==> exists x, y :: StoneIn(g, m, x, y) && Manhattan(m, x, y) == d.value
    requires d.Some? ==> forall x, y :: StoneIn(g, m, x, y) ==> d.value <= Manhattan(m, x, y)
    ensures (d.None? || d.value > 2) <==> Isolated(g, m)
  {
  }

  // ---------------------------------------------------------------------------
  // _evaluate_move
  // ---------------------------------------------------------------------------

  /** The move score before the distance penalty. */
  function RawScore(g: Grid, m: Move, player: int): real
    requires IsSquare(g) && InBounds(g, m.row, m.col)
  {
    var attack := LineSum(Place(g, m, player), m.row, m.col, player, 4);
    var defense := LineSum(g, m.row, m.col, Opponent(player), 4);
    attack as real + defense as real * 1.1 - MinimaxEval.CenterDistance(|g|, m) as real * 10.0
  }

  /**
   * What `_evaluate_move` computes for the player to move on `m`: the
   * attack lines with the player's stone on `m`, 1.1 times the defence
   * lines of the unchanged board, ten off per step from the centre, and all
   * of it cut to a tenth when no stone lies within distance 2.
   */
  function MoveScore(g: Grid, m: Move, player: int): real
    requires IsSquare(g) && InBounds(g, m.row, m.col)
  {
    var s := RawScore(g, m, player);
    if Isolated(g, m) then s * 0.1 else s
  }

  /** `_evaluate_move`. */
  method EvaluateMove(st: State, m: Move) returns (score: real)
    requires IsSquare(st.grid) && InBounds(st.grid, m.row, m.col)
    ensures score == MoveScore(st.grid, m, st.current)
  {
    var g := st.grid;
    var player := st.current;
    var opponent := Opponent(player);
    var t := Place(g, m, player);
    score := 0.0;
    for k := 0 to 4
      invariant score == LineSum(t, m.row, m.col, player, k) as real + LineSum(g, m.row, m.col, opponent, k) as real * 1.1
    {
      var (di, dj) := Directions[k];
      DirectionSteps(k);
      var attack := EvaluateLine(t, m.row, m.col, di, dj, player);
      score := score + attack as real;
      var defense := EvaluateLine(g, m.row, m.col, di, dj, opponent);
      score := score + defense as real * 1.1;
    }
    var distance := MinimaxEval.CenterDistance(|g|, m);
    score := score - distance as real * 10.0;
    var minDistance := GetMinDistance(g, m);
    FarIffIsolated(g, m, minDistance);
    if minDistance.None? || minDistance.value > 2 {
      score := score * 0.1;
    }
  }

  /**
   * The attack lines read the board as it is: the simulated stone on `m`
   * changes nothing, so the score is the two players' lines through the
   * still empty cell.
   */
  lemma RawScoreIgnoresStone(g: Grid, m: Move, player: int)
    requires IsSquare(g) && InBounds(g, m.row, m.col)
    ensures RawScore(g, m, player) ==
            LineSum(g, m.row, m.col, player, 4) as real + LineSum(g, m.row, m.col, Opponent(player), 4) as real * 1.1
            - MinimaxEval.CenterDistance(|g|, m) as real * 10.0
  {
    LineSumIgnoresAnchor(g, m, player, player, 4);
  }

  /** Both line sums lie in `[400, 400000]`, so the score lies in a fixed band around the distance penalty. */
  lemma MoveScoreBounds(g: Grid, m: Move, player: int)
    requires IsSquare(g) && InBounds(g, m.row, m.col)
    ensures var pen := MinimaxEval.CenterDistance(|g|, m) as real * 10.0;
            && (!Isolated(g, m) ==> 840.0 - pen <= MoveScore(g, m, player) <= 840000.0 - pen)
            && (Isolated(g, m) ==> (840.0 - pen) * 0.1 <= MoveScore(g, m, player) <= (840000.0 - pen) * 0.1)
  {
  }

  /** A neighbouring stone on any axis puts `m` within distance 2 of a stone. */
  lemma NeighbourNotIsolated(g: Grid, m: Move, di: int, dj: int, p: int)
    requires IsSquare(g) && IsStep(di, dj) && InBounds(g, m.row, m.col) && p != 0
    requires RunLen(g, m.row + di, m.col + dj, di, dj, p) >= 1 || RunLen(g, m.row - di, m.col - dj, -di, -dj, p) >= 1
    ensures !Isolated(g, m)
  {
    if RunLen(g, m.row + di, m.col + dj, di, dj, p) >= 1 {
      assert StoneIn(g, m, m.row + di, m.col + dj);
    } else {
      assert StoneIn(g, m, m.row - di, m.col - dj);
    }
  }

  /** Size 15 keeps the distance penalty at most 140. */
  lemma PenaltyBound(g: Grid, m: Move)
    requires |g| == DefaultSize && InBounds(g, m.row, m.col)
    ensures MinimaxEval.CenterDistance(|g|, m) <= 14
  {
  }

  /**
   * The threshold of `_get_sorted_moves` does what its comment says: on a
   * 15-board a move that makes an open three or better for the mover on
   * some axis scores at least 5000.
   */
  lemma ThreeOrBetterIsHigh(g: Grid, m: Move, player: int, k: int)
    requires ValidState(State(g, player)) && |g| == DefaultSize && InBounds(g, m.row, m.col) && 0 <= k < 4
    requires var pt := MinimaxEval.AxisPattern(Place(g, m, player), m.row, m.col, k, player);
             pt.consecutive >= 5 || (pt.consecutive == 4 && pt.blocked <= 1) || (pt.consecutive == 3 && pt.blocked == 0)
    ensures MoveScore(g, m, player) >= 5000.0
  {
    var t := Place(g, m, player);
    var (di, dj) := Directions[k];
    DirectionSteps(k);
    LineSumCovers(t, m.row, m.col, player, 4, k);
    PatternBounds(t, m.row, m.col, di, dj, player);
    MinimaxEval.PatternIgnoresAnchor(g, m, di, dj, player, player);
    PatternBounds(g, m.row, m.col, di, dj, player);
    NeighbourNotIsolated(g, m, di, dj, player);
    PenaltyBound(g, m);
  }

  // ---------------------------------------------------------------------------
  // _quick_evaluate_move
  // ---------------------------------------------------------------------------

  const QuickFive: int := 100000
  const QuickAlive4: int := 50000
  const QuickRush4: int := 10000
  const QuickAlive3: int := 5000
  const QuickSleep3: int := 1000
  const QuickAlive2: int := 500
  const QuickSleep2: int := 100

  /**
   * One axis of `_quick_evaluate_move`: the forward side first, then the
   * backward side, with one empty-cell counter carried from the first side
   * into the second.
   */
  function QuickAxis(g: Grid, i: int, j: int, di: int, dj: int, p: int): Pattern
    requires IsSquare(g) && IsStep(di, dj)
  {
    var fwd := Ray(g, i + di, j + dj, di, dj, p, 0);
    var bwd := Ray(g, i - di, j - dj, -di, -dj, p, fwd.space);
    Pattern(1 + fwd.stones + bwd.stones, fwd.blocked + bwd.blocked, bwd.space)
  }

  /** The quick table: like the line table with lower threes and twos, and 0 for everything else. */
  function QuickScore(pt: Pattern): (v: int)
    ensures 0 <= v <= QuickFive
    ensures v == QuickFive <==> pt.consecutive >= 5
    ensures v > 0 <==> pt.consecutive >= 5 || (pt.consecutive >= 2 && pt.blocked <= 1)
  {
    var c, b := pt.consecutive, pt.blocked;
    if c >= 5 then QuickFive
    else if c == 4 && b == 0 then QuickAlive4
    else if c == 4 && b == 1 then QuickRush4
    else if c == 3 && b == 0 then QuickAlive3
    else if c == 3 && b == 1 then QuickSleep3
    else if c == 2 && b == 0 then QuickAlive2
    else if c == 2 && b == 1 then QuickSleep2
    else 0
  }

  /** The quick axis scores of the first `k` axes, added up. */
  function QuickSum(g: Grid, i: int, j: int, p: int, k: int): (v: int)
    requires IsSquare(g) && 0 <= k <= 4
    ensures 0 <= v <= k * QuickFive
  {
    if k == 0 then 0
    else
      DirectionSteps(k - 1);
      QuickSum(g, i, j, p, k - 1) + QuickScore(QuickAxis(g, i, j, Directions[k - 1].0, Directions[k - 1].1, p))
  }

  /**
   * `_quick_evaluate_move` for the player to move: per axis, the two sides
   * in the order `direction = 1, -1` sharing one `space` counter, then the table.
   * The source tests for the player's stone before the empty cell; for a
   * player who is 1 or -1 the order does not matter.
   */
  method QuickEvaluate(g: Grid, m: Move, p: int) returns (score: int)
    requires IsSquare(g) && p != 0
    ensures score == QuickSum(g, m.row, m.col, p, 4)
    ensures 0 <= score <= 4 * QuickFive
  {
    score := 0;
    for k := 0 to 4
      invariant score == QuickSum(g, m.row, m.col, p, k)
    {
      var (di, dj) := Directions[k];
      DirectionSteps(k);
      var axis := QuickEvaluateAxis(g, m, di, dj, p);
      score := score + axis;
    }
  }

  /** One axis of `_quick_evaluate_move`: the forward walk, then the backward walk with the counter it left. */
  method QuickEvaluateAxis(g: Grid, m: Move, di: int, dj: int, p: int) returns (v: int)
    requires IsSquare(g) && IsStep(di, dj) && p != 0
    ensures v == QuickScore(QuickAxis(g, m.row, m.col, di, dj, p))
    ensures 0 <= v <= QuickFive
  {
    var consecutive, blocked, space := 1, 0, 0;
    var fwd := Walk(g, m.row + di, m.col + dj, di, dj, p, space);
    consecutive, blocked, space := consecutive + fwd.stones, blocked + fwd.blocked, fwd.space;
    var bwd := Walk(g, m.row - di, m.col - dj, -di, -dj, p, space);
    consecutive, blocked, space := consecutive + bwd.stones, blocked + bwd.blocked, bwd.space;
    v := QuickScore(Pattern(consecutive, blocked, space));
  }

  /**
   * What the shared counter means: the forward side counts the run of `p`
   * stones after `m`; the backward side counts its run only when the
   * forward side stopped without meeting an empty cell. After a gap on
   * either side no further stone is counted.
   */
  lemma {:induction false} QuickAxisCount(g: Grid, i: int, j: int, di: int, dj: int, p: int)
    requires IsSquare(g) && IsStep(di, dj) && p != 0
    ensures var a := RunLen(g, i + di, j + dj, di, dj, p);
            var gap := LookAt(g, i + di, j + dj, di, dj, a) == Cell(0);
            QuickAxis(g, i, j, di, dj, p).consecutive ==
              1 + a + (if gap then 0 else RunLen(g, i - di, j - dj, -di, -dj, p))
  {
    var fwd := Ray(g, i + di, j + dj, di, dj, p, 0);
    RayFromStart(g, i + di, j + dj, di, dj, p);
    if fwd.space == 0 {
      RayFromStart(g, i - di, j - dj, -di, -dj, p);
    } else {
      RayAfterGap(g, i - di, j - dj, -di, -dj, p, fwd.space);
    }
  }

  /** The quick count never exceeds the full pattern's, and matches it when no gap follows the forward run. */
  lemma QuickVsPattern(g: Grid, i: int, j: int, di: int, dj: int, p: int)
    requires IsSquare(g) && IsStep(di, dj) && p != 0
    ensures QuickAxis(g, i, j, di, dj, p).consecutive <= PatternAt(g, i, j, di, dj, p).consecutive
    ensures LookAt(g, i + di, j + dj, di, dj, RunLen(g, i + di, j + dj, di, dj, p)) != Cell(0) ==>
            QuickAxis(g, i, j, di, dj, p).consecutive == PatternAt(g, i, j, di, dj, p).consecutive
  {
    QuickAxisCount(g, i, j, di, dj, p);
    PatternBounds(g, i, j, di, dj, p);
  }

  // ---------------------------------------------------------------------------
  // _get_sorted_moves
  // ---------------------------------------------------------------------------

  /** The score from which a move goes into the high-priority group. */
  const HighPriority: real := 5000.0

  /** How many moves the ranked list keeps. */
  const MaxSorted: nat := 10

  predicate OnBoard(g: Grid, ms: seq<Move>) {
    forall m :: m in ms ==> InBounds(g, m.row, m.col)
  }

  /** The moves of `ms` that complete five for `q`, in their order. */
  function Blockers(g: Grid, ms: seq<Move>, q: int): (r: seq<Move>)
    requires IsSquare(g) && OnBoard(g, ms)
    ensures |r| <= |ms|
  {
    if ms == [] then []
    else
      var init, m := ms[.. |ms| - 1], ms[|ms| - 1];
      assert ms == init + [m];
      Blockers(g, init, q) + (if IsWin(g, m, q) then [m] else [])
  }

  /** The blockers are exactly the moves of `ms` that complete five for `q`. */
  lemma {:induction false} BlockersMembers(g: Grid, ms: seq<Move>, q: int, m: Move)
    requires IsSquare(g) && OnBoard(g, ms)
    ensures m in Blockers(g, ms, q) <==> m in ms && IsWin(g, m, q)
  {
    if ms != [] {
      var init, last := ms[.. |ms| - 1], ms[|ms| - 1];
      assert ms == init + [last];
      BlockersMembers(g, init, q, m);
    }
  }

  /** The first blocker is the first move of `ms` that completes five for `q`. */
  lemma {:induction false} BlockersFirst(g: Grid, ms: seq<Move>, q: int)
    requires IsSquare(g) && OnBoard(g, ms)
    ensures Blockers(g, ms, q) == [] ==> FirstWin(g, ms, q).None?
    ensures Blockers(g, ms, q) != [] ==> FirstWin(g, ms, q) == Some(Blockers(g, ms, q)[0])
  {
    if ms != [] {
      var init, m := ms[.. |ms| - 1], ms[|ms| - 1];
      assert ms == init + [m];
      BlockersFirst(g, init, q);
      FirstWinAppend(g, init, [m], q);
      assert [m][1 ..] == [];
    }
  }

  /** The scored move as the ranking sees it. */
  function ScoredMove(st: State, m: Move): Scored
    requires IsSquare(st.grid) && InBounds(st.grid, m.row, m.col)
  {
    Scored(MoveScore(st.grid, m, st.current), m)
  }

  /** A move that blocks no win of the opponent's and lands in the `high` group. */
  predicate InGroup(st: State, m: Move, high: bool)
    requires IsSquare(st.grid) && InBounds(st.grid, m.row, m.col)
  {
    !IsWin(st.grid, m, Opponent(st.current)) && (MoveScore(st.grid, m, st.current) >= HighPriority) == high
  }

  /** The scored moves of `ms` in one group, in their order. */
  function Ranked(st: State, ms: seq<Move>, high: bool): (r: seq<Scored>)
    requires IsSquare(st.grid) && OnBoard(st.grid, ms)
    ensures |r| <= |ms|
  {
    if ms == [] then []
    else
      var init, m := ms[.. |ms| - 1], ms[|ms| - 1];
      assert ms == init + [m];
      Ranked(st, init, high) + (if InGroup(st, m, high) then [ScoredMove(st, m)] else [])
  }

  /** A group holds exactly the scored moves of `ms` that belong to it. */
  lemma {:induction false} RankedMembers(st: State, ms: seq<Move>, high: bool, x: Scored)
    requires IsSquare(st.grid) && OnBoard(st.grid, ms)
    ensures x in Ranked(st, ms, high) <==> x.move in ms && InGroup(st, x.move, high) && x == ScoredMove(st, x.move)
  {
    if ms != [] {
      var init, last := ms[.. |ms| - 1], ms[|ms| - 1];
      assert ms == init + [last];
      RankedMembers(st, init, high, x);
    }
  }

  /** A move is a blocker or in exactly one group. */
  lemma Classify(st: State, m: Move)
    requires IsSquare(st.grid) && InBounds(st.grid, m.row, m.col)
    ensures (if IsWin(st.grid, m, Opponent(st.current)) then 1 else 0) + (if InGroup(st, m, true) then 1 else 0)
            + (if InGroup(st, m, false) then 1 else 0) == 1
  {
  }

  /** Every move of `ms` is a blocker or in exactly one group. */
  lemma {:induction false} RankedCount(st: State, ms: seq<Move>)
    requires IsSquare(st.grid) && OnBoard(st.grid, ms)
    ensures |Blockers(st.grid, ms, Opponent(st.current))| + |Ranked(st, ms, true)| + |Ranked(st, ms, false)| == |ms|
  {
    if ms != [] {
      var g, q := st.grid, Opponent(st.current);
      var init, m := ms[.. |ms| - 1], ms[|ms| - 1];
      RankedCount(st, init);
      assert |Blockers(g, ms, q)| == |Blockers(g, init, q)| + (if IsWin(g, m, q) then 1 else 0);
      assert |Ranked(st, ms, true)| == |Ranked(st, init, true)| + (if InGroup(st, m, true) then 1 else 0);
      assert |Ranked(st, ms, false)| == |Ranked(st, init, false)| + (if InGroup(st, m, false) then 1 else 0);
      Classify(st, m);
    }
  }

  /** The valid moves that complete five for the opponent, in board order. */
  function Critical(st: State): seq<Move>
    requires ValidState(st)
  {
    EmptyCellsAreEmpty(st.grid);
    Blockers(st.grid, EmptyCells(st.grid), Opponent(st.current))
  }

  /** One group of the valid moves, sorted in descending `(score, move)` order. */
  function Group(st: State, high: bool): seq<Scored>
    requires ValidState(st)
  {
    EmptyCellsAreEmpty(st.grid);
    SortDesc(Ranked(st, EmptyCells(st.grid), high))
  }

  /** The two groups, high before normal. */
  function Joined(st: State): seq<Scored>
    requires ValidState(st)
  {
    Group(st, true) + Group(st, false)
  }

  /**
   * What `_get_sorted_moves` returns for a node's board: nothing without
   * valid moves; the centre on an empty board; the first move that wins
   * for the player to move; otherwise every move that stops the opponent's
   * five, in board order; otherwise the ranked groups cut to ten moves.
   */
  function SortedMoves(st: State): seq<Move>
    requires ValidState(st)
  {
    var g := st.grid;
    var n := |g|;
    EmptyCellsAreEmpty(g);
    var valid := EmptyCells(g);
    if valid == [] then []
    else if |valid| == n * n then [MinimaxEval.CenterMove(n)]
    else
      match FirstWin(g, valid, st.current)
      case Some(m) => [m]
      case None =>
        var critical := Critical(st);
        if critical != [] then critical else Take(Moves(Joined(st)), MaxSorted)
  }

  /** Scanning one more move extends the blockers by it when it blocks. */
  lemma BlockersSnoc(g: Grid, ms: seq<Move>, m: Move, q: int)
    requires IsSquare(g) && OnBoard(g, ms) && InBounds(g, m.row, m.col)
    ensures OnBoard(g, ms + [m])
    ensures Blockers(g, ms + [m], q) == Blockers(g, ms, q) + (if IsWin(g, m, q) then [m] else [])
  {
    assert (ms + [m])[.. |ms|] == ms;
  }

  /** Scanning one more move extends its group by it. */
  lemma RankedSnoc(st: State, ms: seq<Move>, m: Move, high: bool)
    requires IsSquare(st.grid) && OnBoard(st.grid, ms) && InBounds(st.grid, m.row, m.col)
    ensures OnBoard(st.grid, ms + [m])
    ensures Ranked(st, ms + [m], high) == Ranked(st, ms, high) + (if InGroup(st, m, high) then [ScoredMove(st, m)] else [])
  {
    assert (ms + [m])[.. |ms|] == ms;
  }

  /** A prefix or a suffix of moves on the board is on the board. */
  lemma SliceOnBoard(g: Grid, ms: seq<Move>, k: int)
    requires OnBoard(g, ms) && 0 <= k <= |ms|
    ensures OnBoard(g, ms[.. k]) && OnBoard(g, ms[k ..])
  {
    forall m | m in ms[.. k] ensures InBounds(g, m.row, m.col) {
      var i :| 0 <= i < k && ms[.. k][i] == m;
      assert ms[i] == m;
    }
    forall m | m in ms[k ..] ensures InBounds(g, m.row, m.col) {
      var i :| 0 <= i < |ms| - k && ms[k ..][i] == m;
      assert ms[k + i] == m;
    }
  }

  /**
   * One pass of the loop of `_get_sorted_moves` over `move`, after the moves
   * `done`: a win for the player to move stops the loop; otherwise the move
   * goes into the blockers or into one of the two scored groups.
   */
  method ScanMove(st: State, done: seq<Move>, move: Move, critical: seq<Move>, high: seq<Scored>, normal: seq<Scored>)
    returns (win: bool, critical': seq<Move>, high': seq<Scored>, normal': seq<Scored>)
    requires IsSquare(st.grid) && OnBoard(st.grid, done) && InBounds(st.grid, move.row, move.col)
    requires critical == Blockers(st.grid, done, Opponent(st.current))
    requires high == Ranked(st, done, true) && normal == Ranked(st, done, false)
    ensures OnBoard(st.grid, done + [move])
    ensures win == IsWin(st.grid, move, st.current)
    ensures !win ==> critical' == Blockers(st.grid, done + [move], Opponent(st.current))
    ensures !win ==> high' == Ranked(st, done + [move], true) && normal' == Ranked(st, done + [move], false)
  {
    var g, player, opponent := st.grid, st.current, Opponent(st.current);
    BlockersSnoc(g, done, move, opponent);
    RankedSnoc(st, done, move, true);
    RankedSnoc(st, done, move, false);
    critical', high', normal' := critical, high, normal;
    win := IsWinningMove(g, move, player);
    if win {
      return;
    }
    var block := IsWinningMove(g, move, opponent);
    if block {
      critical' := critical + [move];
      return;
    }
    var score := EvaluateMove(st, move);
    if score >= HighPriority {
      high' := high + [Scored(score, move)];
    } else {
      normal' := normal + [Scored(score, move)];
    }
  }

  /**
   * The loop of `_get_sorted_moves`: it stops at the first move that wins for
   * the player to move; until then it sorts every move into the blockers or
   * one of the two scored groups.
   */
  method ScanMoves(st: State, valid: seq<Move>) returns (win: Option<Move>, critical: seq<Move>,
                                                         high: seq<Scored>, normal: seq<Scored>)
    requires IsSquare(st.grid) && OnBoard(st.grid, valid)
    ensures win == FirstWin(st.grid, valid, st.current)
    ensures win.None? ==> critical == Blockers(st.grid, valid, Opponent(st.current))
    ensures win.None? ==> high == Ranked(st, valid, true) && normal == Ranked(st, valid, false)
  {
    var g := st.grid;
    critical, high, normal := [], [], [];
    assert valid[0 ..] == valid;
    for k := 0 to |valid|
      invariant OnBoard(g, valid[k ..]) && OnBoard(g, valid[.. k])
      invariant FirstWin(g, valid, st.current) == FirstWin(g, valid[k ..], st.current)
      invariant critical == Blockers(g, valid[.. k], Opponent(st.current))
      invariant high == Ranked(st, valid[.. k], true) && normal == Ranked(st, valid[.. k], false)
    {
      var move := valid[k];
      SliceOnBoard(g, valid, k + 1);
      assert valid[.. k + 1] == valid[.. k] + [move];
      assert valid[k ..][1 ..] == valid[k + 1 ..];
      var w;
      w, critical, high, normal := ScanMove(st, valid[.. k], move, critical, high, normal);
      if w {
        return Some(move), critical, high, normal;
      }
    }
    assert valid[.. |valid|] == valid;
    assert valid[|valid| ..] == [];
    win := None;
  }

  /** `_get_sorted_moves`: the scan, then the two sorts and the cut. */
  method GetSortedMoves(st: State) returns (r: seq<Move>)
    requires ValidState(st)
    ensures r == SortedMoves(st)
  {
    var g := st.grid;
    var n := |g|;
    var valid := EmptyCells(g);
    EmptyCellsAreEmpty(g);
    if valid == [] {
      return [];
    }
    if |valid| == n * n {
      return [MinimaxEval.CenterMove(n)];
    }
    var win, critical, high, normal := ScanMoves(st, valid);
    if win.Some? {
      return [win.value];
    }
    if critical != [] {
      return critical;
    }
    high := SortDesc(high);
    normal := SortDesc(normal);
    var sorted := Moves(high) + Moves(normal);
    return Take(sorted, MaxSorted);
  }

  /** A scored move of the high-priority group. */
  predicate High(x: Scored) {
    x.score >= HighPriority
  }

  /** Two sorted runs, all high then all normal: high comes first and each group is sorted. */
  lemma ConcatOrder(hs: seq<Scored>, ls: seq<Scored>)
    requires SortedDesc(hs) && SortedDesc(ls)
    requires (forall x :: x in hs ==> High(x)) && (forall x :: x in ls ==> !High(x))
    ensures var j := hs + ls;
      && (forall a, b :: 0 <= a < b < |j| && High(j[b]) ==> High(j[a]))
      && (forall a, b :: 0 <= a < b < |j| && High(j[a]) == High(j[b]) ==> !Above(j[b], j[a]))
  {
    var j := hs + ls;
    forall a, b | 0 <= a < b < |j| && High(j[b]) ensures High(j[a]) {
      if a < |hs| {
        assert j[a] in hs;
      }
    }
    forall a, b | 0 <= a < b < |j| && High(j[a]) == High(j[b]) ensures !Above(j[b], j[a]) {
      if b < |hs| {
        assert j[a] == hs[a] && j[b] == hs[b];
      } else if a >= |hs| {
        assert j[a] == ls[a - |hs|] && j[b] == ls[b - |hs|];
      }
    }
  }

  /** Sorting a group keeps exactly its members. */
  lemma SortedGroupMembers(st: State, high: bool, x: Scored)
    requires ValidState(st)
    ensures x in Group(st, high) <==>
            IsEmptyCell(st.grid, x.move) && InGroup(st, x.move, high) && x == ScoredMove(st, x.move)
  {
    EmptyCellsAreEmpty(st.grid);
    EmptyCellsMembers(st.grid, x.move);
    var h := Ranked(st, EmptyCells(st.grid), high);
    SortDescCorrect(h);
    assert x in SortDesc(h) <==> x in multiset(SortDesc(h));
    RankedMembers(st, EmptyCells(st.grid), high, x);
  }

  /** The joined list holds the scored moves of every valid move that blocks nothing. */
  lemma JoinedMembers(st: State, x: Scored)
    requires ValidState(st)
    ensures x in Joined(st) <==>
            IsEmptyCell(st.grid, x.move) && !IsWin(st.grid, x.move, Opponent(st.current)) && x == ScoredMove(st, x.move)
  {
    EmptyCellsMembers(st.grid, x.move);
    SortedGroupMembers(st, true, x);
    SortedGroupMembers(st, false, x);
  }

  /** High before normal in the joined list, and each group in descending `(score, move)` order. */
  lemma JoinedOrder(st: State)
    requires ValidState(st)
    ensures var j := Joined(st);
      && (forall a, b :: 0 <= a < b < |j| && High(j[b]) ==> High(j[a]))
      && (forall a, b :: 0 <= a < b < |j| && High(j[a]) == High(j[b]) ==> !Above(j[b], j[a]))
  {
    EmptyCellsAreEmpty(st.grid);
    var valid := EmptyCells(st.grid);
    var hs, ls := SortDesc(Ranked(st, valid, true)), SortDesc(Ranked(st, valid, false));
    SortDescCorrect(Ranked(st, valid, true));
    SortDescCorrect(Ranked(st, valid, false));
    forall x | x in hs ensures High(x) { SortedGroupMembers(st, true, x); }
    forall x | x in ls ensures !High(x) { SortedGroupMembers(st, false, x); }
    ConcatOrder(hs, ls);
  }

  /** Every valid move is a blocker or somewhere in the joined list. */
  lemma JoinedCount(st: State)
    requires ValidState(st)
    ensures |Joined(st)| + |Critical(st)| == |EmptyCells(st.grid)|
  {
    EmptyCellsAreEmpty(st.grid);
    RankedCount(st, EmptyCells(st.grid));
  }

  /** On an empty board the only move offered is the centre. */
  lemma SortedMovesEmptyBoard(st: State)
    requires ValidState(st) && AllEmpty(st.grid)
    ensures SortedMoves(st) == [MinimaxEval.CenterMove(|st.grid|)]
  {
    EmptyCellsCount(st.grid);
  }

  /** `_get_sorted_moves` comes back empty exactly when there is no valid move. */
  lemma SortedMovesEmpty(st: State)
    requires ValidState(st)
    ensures SortedMoves(st) == [] <==> EmptyCells(st.grid) == []
  {
    var g := st.grid;
    EmptyCellsAreEmpty(g);
    var valid := EmptyCells(g);
    if valid != [] && |valid| != |g| * |g| && FirstWin(g, valid, st.current).None? &&
       Critical(st) == [] {
      JoinedCount(st);
      assert |Moves(Joined(st))| > 0;
    }
  }

  /** Every move of the list is a valid move. */
  lemma SortedMovesValid(st: State)
    requires ValidState(st)
    ensures forall m :: m in SortedMoves(st) ==> IsEmptyCell(st.grid, m)
  {
    var g := st.grid;
    EmptyCellsAreEmpty(g);
    EmptyCellsCount(g);
    var valid := EmptyCells(g);
    forall m | m in SortedMoves(st) ensures IsEmptyCell(g, m) {
      if valid != [] && |valid| == |g| * |g| {
        assert m == MinimaxEval.CenterMove(|g|);
      } else if valid != [] && FirstWin(g, valid, st.current).None? {
        var critical := Critical(st);
        if critical != [] {
          BlockersMembers(g, valid, Opponent(st.current), m);
        } else {
          var j := Joined(st);
          MovesMembers(j, m);
          var x :| x in j && x.move == m;
          JoinedMembers(st, x);
        }
      }
    }
  }

  /**
   * Off the empty board, a move that wins for the player to move is the whole
   * list: the first such move in board order.
   */
  lemma SortedMovesWin(st: State, m: Move)
    requires ValidState(st) && !AllEmpty(st.grid) && IsEmptyCell(st.grid, m) && IsWin(st.grid, m, st.current)
    ensures var valid := EmptyCells(st.grid);
      && |SortedMoves(st)| == 1
      && exists i :: 0 <= i < |valid| && SortedMoves(st)[0] == valid[i]
                     && IsEmptyCell(st.grid, valid[i]) && IsWin(st.grid, valid[i], st.current)
                     && forall k :: 0 <= k < i ==> IsEmptyCell(st.grid, valid[k]) && !IsWin(st.grid, valid[k], st.current)
  {
    var g := st.grid;
    EmptyCellsAreEmpty(g);
    EmptyCellsCount(g);
    EmptyCellsMembers(g, m);
    var valid := EmptyCells(g);
    FirstWinSpec(g, valid, st.current);
    var i :| 0 <= i < |valid| && valid[i] == m;
  }

  /**
   * Off the empty board, with no win for the player to move but a win for
   * the opponent somewhere, the list is every blocking move and nothing
   * else, however many there are.
   */
  lemma SortedMovesCritical(st: State)
    requires ValidState(st) && !AllEmpty(st.grid)
    requires forall m :: IsEmptyCell(st.grid, m) ==> !IsWin(st.grid, m, st.current)
    requires exists m :: IsEmptyCell(st.grid, m) && IsWin(st.grid, m, Opponent(st.current))
    ensures forall m :: m in SortedMoves(st) <==> IsEmptyCell(st.grid, m) && IsWin(st.grid, m, Opponent(st.current))
  {
    var g, q := st.grid, Opponent(st.current);
    EmptyCellsAreEmpty(g);
    EmptyCellsCount(g);
    var valid := EmptyCells(g);
    FirstWinSpec(g, valid, st.current);
    var b :| IsEmptyCell(g, b) && IsWin(g, b, q);
    EmptyCellsMembers(g, b);
    BlockersMembers(g, valid, q, b);
    forall m ensures m in SortedMoves(st) <==> IsEmptyCell(g, m) && IsWin(g, m, q) {
      EmptyCellsMembers(g, m);
      BlockersMembers(g, valid, q, m);
    }
  }

  /**
   * Off the empty board, with no win and nothing to block, the list is the
   * moves of the first ten entries of the joined groups: at most ten; every
   * move scoring at least 5000 before every other; within each group the
   * `(score, move)` pairs do not increase; every valid move kept when there
   * are at most ten; and a valid move left out means the list is full of
   * moves at least as good within its group, and high ones when it is high.
   */
  lemma SortedMovesRanked(st: State)
    requires ValidState(st) && !AllEmpty(st.grid)
    requires forall m :: IsEmptyCell(st.grid, m) ==>
                !IsWin(st.grid, m, st.current) && !IsWin(st.grid, m, Opponent(st.current))
    ensures var r, t := SortedMoves(st), Take(Joined(st), MaxSorted);
      && r == Moves(t)
      && |t| <= MaxSorted
      && (forall x :: x in t ==> IsEmptyCell(st.grid, x.move) && x == ScoredMove(st, x.move))
      && (forall a, b :: 0 <= a < b < |t| && High(t[b]) ==> High(t[a]))
      && (forall a, b :: 0 <= a < b < |t| && High(t[a]) == High(t[b]) ==> !Above(t[b], t[a]))
      && (|EmptyCells(st.grid)| <= MaxSorted ==> forall m :: IsEmptyCell(st.grid, m) ==> m in r)
      && (forall m :: IsEmptyCell(st.grid, m) && m !in r ==>
            && |t| == MaxSorted
            && forall a :: 0 <= a < |t| ==>
                 && (High(ScoredMove(st, m)) ==> High(t[a]))
                 && (High(ScoredMove(st, m)) == High(t[a]) ==> !Above(ScoredMove(st, m), t[a])))
  {
    RankedCase(st);
    var g, j := st.grid, Joined(st);
    var t := Take(j, MaxSorted);
    TakeMoves(j, MaxSorted);
    JoinedOrder(st);
    JoinedCount(st);
    forall x | x in t ensures IsEmptyCell(g, x.move) && x == ScoredMove(st, x.move) {
      JoinedMembers(st, x);
    }
    forall m | IsEmptyCell(g, m) && m !in Moves(t)
      ensures |t| == MaxSorted
      ensures forall a :: 0 <= a < |t| ==>
                 && (High(ScoredMove(st, m)) ==> High(t[a]))
                 && (High(ScoredMove(st, m)) == High(t[a]) ==> !Above(ScoredMove(st, m), t[a]))
    {
      LeftOut(st, m);
    }
    if |EmptyCells(g)| <= MaxSorted {
      forall m | IsEmptyCell(g, m) ensures m in Moves(t) {
        JoinedMembers(st, ScoredMove(st, m));
        MovesMembers(t, m);
      }
    }
  }

  /** With no win and nothing to block, the list is the cut joined groups. */
  lemma RankedCase(st: State)
    requires ValidState(st) && !AllEmpty(st.grid)
    requires forall m :: IsEmptyCell(st.grid, m) ==>
                !IsWin(st.grid, m, st.current) && !IsWin(st.grid, m, Opponent(st.current))
    ensures Critical(st) == [] && SortedMoves(st) == Take(Moves(Joined(st)), MaxSorted)
  {
    var g, q := st.grid, Opponent(st.current);
    EmptyCellsAreEmpty(g);
    EmptyCellsCount(g);
    var valid := EmptyCells(g);
    FirstWinSpec(g, valid, st.current);
    var c := Critical(st);
    if c != [] {
      BlockersMembers(g, valid, q, c[0]);
      EmptyCellsMembers(g, c[0]);
    }
  }

  /** A valid move outside the cut of the joined list, with nothing to block. */
  lemma LeftOut(st: State, m: Move)
    requires ValidState(st) && IsEmptyCell(st.grid, m) && !IsWin(st.grid, m, Opponent(st.current))
    requires m !in Moves(Take(Joined(st), MaxSorted))
    ensures var t := Take(Joined(st), MaxSorted);
      && |t| == MaxSorted
      && forall a :: 0 <= a < |t| ==>
           && (High(ScoredMove(st, m)) ==> High(t[a]))
           && (High(ScoredMove(st, m)) == High(t[a]) ==> !Above(ScoredMove(st, m), t[a]))
  {
    var j := Joined(st);
    var t := Take(j, MaxSorted);
    JoinedOrder(st);
    var x := ScoredMove(st, m);
    JoinedMembers(st, x);
    MovesMembers(t, m);
    var i :| 0 <= i < |j| && j[i] == x;
    OutsidePrefix(j, MaxSorted, i);
  }

  // ---------------------------------------------------------------------------
  // The rollout policy of get_move
  // ---------------------------------------------------------------------------

  /** How many of the valid moves a rollout step looks at. */
  const RolloutWidth: nat := 6

  /** `moves[:min(6, len(moves))]`: the first six valid moves in board order. */
  function RolloutPool(st: State): (top: seq<Move>)
    requires ValidState(st)
    ensures |top| <= RolloutWidth && |top| <= |EmptyCells(st.grid)|
    ensures top == EmptyCells(st.grid)[.. |top|]
    ensures |EmptyCells(st.grid)| > 0 ==> |top| > 0
    ensures forall m :: m in top ==> IsEmptyCell(st.grid, m)
    ensures forall i :: 0 <= i < |top| ==> IsEmptyCell(st.grid, top[i])
    ensures OnBoard(st.grid, top)
  {
    EmptyCellsAreEmpty(st.grid);
    Take(EmptyCells(st.grid), RolloutWidth)
  }

  /** The last of `ms` that completes five for `q`. */
  function LastWin(g: Grid, ms: seq<Move>, q: int): (r: Option<Move>)
    requires IsSquare(g) && OnBoard(g, ms)
    ensures r.Some? ==> r.value in ms
  {
    if ms == [] then None
    else
      var init, m := ms[.. |ms| - 1], ms[|ms| - 1];
      assert ms == init + [m];
      if IsWin(g, m, q) then Some(m) else LastWin(g, init, q)
  }

  /** `LastWin` finds nothing exactly when no move wins, and otherwise the winning move of greatest index. */
  lemma {:induction false} LastWinSpec(g: Grid, ms: seq<Move>, q: int)
    requires IsSquare(g) && OnBoard(g, ms)
    ensures LastWin(g, ms, q).None? <==> forall i :: 0 <= i < |ms| ==> !IsWin(g, ms[i], q)
    ensures LastWin(g, ms, q).Some? ==>
              exists i :: 0 <= i < |ms| && ms[i] == LastWin(g, ms, q).value && IsWin(g, ms[i], q) &&
                          forall k :: i < k < |ms| ==> !IsWin(g, ms[k], q)
  {
    if ms != [] {
      var init, m := ms[.. |ms| - 1], ms[|ms| - 1];
      assert ms == init + [m];
      if IsWin(g, m, q) {
        assert LastWin(g, ms, q) == Some(m);
        assert ms[|ms| - 1] == m;
      } else {
        assert LastWin(g, ms, q) == LastWin(g, init, q);
        LastWinSpec(g, init, q);
        assert forall i :: 0 <= i < |init| ==> ms[i] == init[i];
      }
    }
  }

  /** The `(score, move)` pair the rollout sorts. */
  function QuickScored(g: Grid, m: Move, p: int): Scored
    requires IsSquare(g)
  {
    Scored(QuickSum(g, m.row, m.col, p, 4) as real, m)
  }

  function QuickScores(g: Grid, ms: seq<Move>, p: int): (r: seq<Scored>)
    requires IsSquare(g)
    ensures |r| == |ms| && forall i :: 0 <= i < |ms| ==> r[i] == QuickScored(g, ms[i], p)
  {
    if ms == [] then [] else [QuickScored(g, ms[0], p)] + QuickScores(g, ms[1 ..], p)
  }

  /** The head of the sorted list is one of the entries. */
  lemma SortHead(s: seq<Scored>)
    requires s != []
    ensures SortDesc(s)[0] in s
  {
    SortDescCorrect(s);
    assert SortDesc(s)[0] in multiset(s);
  }

  /**
   * The move one rollout step plays: among the first six valid moves, the
   * first that wins for the player to move; otherwise the last that stops
   * a five of the opponent's; otherwise the top of the quick scores sorted
   * in descending `(score, move)` order.
   */
  function RolloutMove(st: State): (m: Move)
    requires ValidState(st) && EmptyCells(st.grid) != []
    ensures m in RolloutPool(st) && IsEmptyCell(st.grid, m)
  {
    var g, top := st.grid, RolloutPool(st);
    match FirstWin(g, top, st.current)
    case Some(w) => w
    case None =>
      match LastWin(g, top, Opponent(st.current))
      case Some(b) => b
      case None =>
        var scored := QuickScores(g, top, st.current);
        SortHead(scored);
        var i :| 0 <= i < |scored| && scored[i] == SortDesc(scored)[0];
        SortDesc(scored)[0].move
  }

  /** A win among the first six is taken, the first one. */
  lemma RolloutTakesWin(st: State, i: nat)
    requires ValidState(st) && i < |RolloutPool(st)| && IsWin(st.grid, RolloutPool(st)[i], st.current)
    ensures var top := RolloutPool(st);
      && IsWin(st.grid, RolloutMove(st), st.current)
      && exists k :: 0 <= k <= i && top[k] == RolloutMove(st) && forall j :: 0 <= j < k ==> !IsWin(st.grid, top[j], st.current)
  {
    FirstWinSpec(st.grid, RolloutPool(st), st.current);
  }

  /** With no win among the first six, the last blocker among them is played. */
  lemma RolloutTakesBlock(st: State, i: nat)
    requires ValidState(st) && i < |RolloutPool(st)|
    requires forall k :: 0 <= k < |RolloutPool(st)| ==> !IsWin(st.grid, RolloutPool(st)[k], st.current)
    requires IsWin(st.grid, RolloutPool(st)[i], Opponent(st.current))
    ensures var top := RolloutPool(st);
      && IsWin(st.grid, RolloutMove(st), Opponent(st.current))
      && exists k :: i <= k < |top| && top[k] == RolloutMove(st) &&
                     forall j :: k < j < |top| ==> !IsWin(st.grid, top[j], Opponent(st.current))
  {
    var g, top, q := st.grid, RolloutPool(st), Opponent(st.current);
    FirstWinSpec(g, top, st.current);
    LastWinSpec(g, top, q);
    var b := LastWin(g, top, q).value;
    assert RolloutMove(st) == b;
  }

  /** With nothing to win or block among the first six, no one of them has a better quick score. */
  lemma RolloutTakesBest(st: State)
    requires ValidState(st) && EmptyCells(st.grid) != []
    requires forall k :: 0 <= k < |RolloutPool(st)| ==>
               !IsWin(st.grid, RolloutPool(st)[k], st.current) && !IsWin(st.grid, RolloutPool(st)[k], Opponent(st.current))
    ensures forall m :: m in RolloutPool(st) ==>
              !Above(QuickScored(st.grid, m, st.current), QuickScored(st.grid, RolloutMove(st), st.current))
  {
    var g, top, q := st.grid, RolloutPool(st), Opponent(st.current);
    FirstWinSpec(g, top, st.current);
    LastWinSpec(g, top, q);
    var scored := QuickScores(g, top, st.current);
    var sorted := SortDesc(scored);
    SortDescCorrect(scored);
    var x := sorted[0];
    assert x in multiset(scored);
    var i :| 0 <= i < |scored| && scored[i] == x;
    assert x == QuickScored(g, RolloutMove(st), st.current);
    forall m | m in top ensures !Above(QuickScored(g, m, st.current), x) {
      var k :| 0 <= k < |top| && top[k] == m;
      assert scored[k] in multiset(sorted);
      var j :| 0 <= j < |sorted| && sorted[j] == scored[k];
      if j > 0 {
        assert !Above(sorted[j], sorted[0]);
      }
    }
  }

  /** The scan of the first six: stop at a win, remember the last blocker. */
  method ScanPool(g: Grid, top: seq<Move>, player: int, opponent: int) returns (win: Option<Move>, blocking: Option<Move>)
    requires IsSquare(g) && OnBoard(g, top)
    ensures win == FirstWin(g, top, player)
    ensures win.None? ==> blocking == LastWin(g, top, opponent)
  {
    blocking := None;
    assert top[0 ..] == top;
    for i := 0 to |top|
      invariant OnBoard(g, top[i ..]) && OnBoard(g, top[.. i])
      invariant FirstWin(g, top, player) == FirstWin(g, top[i ..], player)
      invariant blocking == LastWin(g, top[.. i], opponent)
    {
      SliceOnBoard(g, top, i + 1);
      assert top[i ..][1 ..] == top[i + 1 ..];
      assert top[.. i + 1] == top[.. i] + [top[i]] && top[.. i + 1][.. i] == top[.. i];
      var w := IsWinningMove(g, top[i], player);
      if w {
        return Some(top[i]), blocking;
      }
      var block := IsWinningMove(g, top[i], opponent);
      if block {
        blocking := Some(top[i]);
      }
    }
    assert top[.. |top|] == top;
    win := None;
  }

  /** `[(self._quick_evaluate_move(board_state, move), move) for move in ...]`. */
  method QuickScoreAll(g: Grid, top: seq<Move>, player: int) returns (scored: seq<Scored>)
    requires IsSquare(g) && player != 0
    ensures scored == QuickScores(g, top, player)
  {
    scored := [];
    for i := 0 to |top|
      invariant |scored| == i && forall k :: 0 <= k < i ==> scored[k] == QuickScored(g, top[k], player)
    {
      var score := QuickEvaluate(g, top[i], player);
      scored := scored + [Scored(score as real, top[i])];
    }
  }

  /** The rollout step of `get_move`: scan the first six, then sort their quick scores. */
  method ChooseRolloutMove(st: State) returns (m: Move)
    requires ValidState(st) && EmptyCells(st.grid) != []
    ensures m == RolloutMove(st)
  {
    var top := RolloutPool(st);
    var win, blocking := ScanPool(st.grid, top, st.current, Opponent(st.current));
    if win.Some? {
      return win.value;
    }
    if blocking.Some? {
      return blocking.value;
    }
    var scored := QuickScoreAll(st.grid, top, st.current);
    m := SortDesc(scored)[0].move;
  }
}
