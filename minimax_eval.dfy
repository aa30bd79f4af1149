/**
 * The static evaluation of the minimax player (minimax.py): the pattern
 * table, the four-axis move score, the whole-board score used at the leaves
 * of the search, the neighbour test and the top-15 candidate list.
 */
module MinimaxEval {
  import opened Board
  import opened Lines
  import opened Sorting

  // ---------------------------------------------------------------------------
  // The pattern table
  // ---------------------------------------------------------------------------

  const Win5: int := 100000
  const Alive4: int := 10000
  const Rush4: int := 5000
  const Alive3: int := 1000
  const Sleep3: int := 500
  const Alive2: int := 100
  const Sleep2: int := 50
  const Alive1: int := 10

  /**
   * `_get_pattern_score`: five or more wins outright; shorter runs score by
   * length when no end is blocked ("alive") and less when one end is
   * ("sleeping"); a run of one scores only when open; anything else is 0.
   */
  function PatternScore(pt: Pattern): (v: int)
    ensures 0 <= v <= Win5
    ensures v == Win5 <==> pt.consecutive >= 5
    ensures v > 0 <==> pt.consecutive >= 5 || (pt.consecutive >= 2 && pt.blocked <= 1) ||
                       (pt.consecutive == 1 && pt.blocked == 0)
  {
    var c, b := pt.consecutive, pt.blocked;
    if c >= 5 then Win5
    else if c == 4 && b == 0 then Alive4
    else if c == 4 && b == 1 then Rush4
    else if c == 3 && b == 0 then Alive3
    else if c == 3 && b == 1 then Sleep3
    else if c == 2 && b == 0 then Alive2
    else if c == 2 && b == 1 then Sleep2
    else if c == 1 && b == 0 then Alive1
    else 0
  }

  /**
   * The table's order: at equal length an open run beats a run blocked at
   * one end, a run blocked at one end beats the open run one shorter, and a
   * blocked four (5000) beats an open three (1000).
   */
  lemma PatternOrder(c: nat, s: nat, s': nat)
    ensures 1 <= c <= 4 ==> PatternScore(Pattern(c, 0, s)) > PatternScore(Pattern(c, 1, s'))
    ensures 2 <= c <= 4 ==> PatternScore(Pattern(c, 1, s)) > PatternScore(Pattern(c - 1, 0, s'))
    ensures PatternScore(Pattern(4, 1, s)) > PatternScore(Pattern(3, 0, s'))
    ensures PatternScore(Pattern(c, 2, s)) == (if c >= 5 then Win5 else 0)
  {
  }

  /** `_get_pattern`: the two scan sides, backward then forward, from the anchor. */
  method GetPattern(g: Grid, i: int, j: int, di: int, dj: int, p: int) returns (pt: Pattern)
    requires IsSquare(g) && IsStep(di, dj)
    ensures pt == PatternAt(g, i, j, di, dj, p)
    ensures pt.consecutive >= 1 && pt.blocked <= 2 && pt.space <= 4
    ensures p != 0 ==> pt.consecutive == LineCount(g, i, j, di, dj, p)
  {
    var before := Walk(g, i - di, j - dj, -di, -dj, p, 0);
    var after := Walk(g, i + di, j + dj, di, dj, p, 0);
    pt := Pattern(1 + before.stones + after.stones, before.blocked + after.blocked, before.space + after.space);
    if p != 0 {
      PatternBounds(g, i, j, di, dj, p);
    } else {
      SideBounds(g, i - di, j - dj, -di, -dj, p, 0);
      SideBounds(g, i + di, j + dj, di, dj, p, 0);
    }
  }

  /** Any side, whatever the player, ends with at most two empty cells counted and at most one block. */
  lemma {:induction false} SideBounds(g: Grid, r: int, c: int, dr: int, dc: int, p: int, space: nat)
    requires IsSquare(g) && IsStep(dr, dc) && space <= 1
    ensures Ray(g, r, c, dr, dc, p, space).blocked <= 1
    ensures Ray(g, r, c, dr, dc, p, space).space <= 2
    decreases Dist(|g|, r, c, dr, dc)
  {
    if InBounds(g, r, c) && ((g[r][c] == 0 && space + 1 < 2) || (g[r][c] != 0 && g[r][c] == p && space == 0)) {
      SideBounds(g, r + dr, c + dc, dr, dc, p, if g[r][c] == 0 then space + 1 else space);
    }
  }

  // ---------------------------------------------------------------------------
  // The four-axis score of a cell
  // ---------------------------------------------------------------------------

  /** The pattern through `(i, j)` along the `k`-th axis. */
  function AxisPattern(g: Grid, i: int, j: int, k: int, p: int): Pattern
    requires IsSquare(g) && 0 <= k < 4
  {
    DirectionSteps(k);
    PatternAt(g, i, j, Directions[k].0, Directions[k].1, p)
  }

  /** The pattern scores of the first `k` axes, added up. */
  function AxisSum(g: Grid, i: int, j: int, p: int, k: int): (v: int)
    requires IsSquare(g) && 0 <= k <= 4
    ensures 0 <= v <= k * Win5
  {
    if k == 0 then 0 else AxisSum(g, i, j, p, k - 1) + PatternScore(AxisPattern(g, i, j, k - 1, p))
  }

  /** One axis contributes its whole score to the sum. */
  lemma {:induction false} AxisSumCovers(g: Grid, i: int, j: int, p: int, k: int, k': int)
    requires IsSquare(g) && 0 <= k' < k <= 4
    ensures AxisSum(g, i, j, p, k) >= PatternScore(AxisPattern(g, i, j, k', p))
  {
    if k' < k - 1 {
      AxisSumCovers(g, i, j, p, k - 1, k');
    }
  }

  /** `_evaluate_direction_all`: the loop over the four axes. */
  method DirectionAll(g: Grid, i: int, j: int, p: int) returns (score: int)
    requires IsSquare(g)
    ensures score == AxisSum(g, i, j, p, 4)
    ensures 0 <= score <= 4 * Win5
  {
    score := 0;
    for k := 0 to 4
      invariant score == AxisSum(g, i, j, p, k)
    {
      var (di, dj) := Directions[k];
      DirectionSteps(k);
      var pt := GetPattern(g, i, j, di, dj, p);
      score := score + PatternScore(pt);
    }
  }

  /** A cell that completes five for `p` along some axis scores at least the five bonus. */
  lemma FiveScoresWin(g: Grid, m: Move, p: int)
    requires IsSquare(g) && InBounds(g, m.row, m.col) && p != 0 && IsWin(g, m, p)
    ensures AxisSum(Place(g, m, p), m.row, m.col, p, 4) >= Win5
  {
    var t := Place(g, m, p);
    var k :| 0 <= k < 4 && LineCount(t, m.row, m.col, Directions[k].0, Directions[k].1, p) >= 5;
    DirectionSteps(k);
    PatternBounds(t, m.row, m.col, Directions[k].0, Directions[k].1, p);
    AxisSumCovers(t, m.row, m.col, p, 4, k);
  }

  // ---------------------------------------------------------------------------
  // The scans never read the anchor cell
  // ---------------------------------------------------------------------------

  /** A side that starts strictly after `m` on its axis never reads `m`. */
  lemma {:induction false} RayOffPath(g: Grid, r: int, c: int, dr: int, dc: int, p: int, space: nat,
                                      m: Move, v: int, u: int)
    requires IsSquare(g) && IsStep(dr, dc) && InBounds(g, m.row, m.col) && u >= 1
    requires m.row == Pos(r, dr, -u) && m.col == Pos(c, dc, -u)
    ensures Ray(Place(g, m, v), r, c, dr, dc, p, space) == Ray(g, r, c, dr, dc, p, space)
    decreases Dist(|g|, r, c, dr, dc)
  {
    var t := Place(g, m, v);
    assert r != m.row || c != m.col;
    if InBounds(g, r, c) {
      assert t[r][c] == g[r][c];
      RayOffPath(g, r + dr, c + dc, dr, dc, p, space, m, v, u + 1);
      RayOffPath(g, r + dr, c + dc, dr, dc, p, space + 1, m, v, u + 1);
    }
  }

  /** The pattern through a cell does not depend on what the cell holds. */
  lemma PatternIgnoresAnchor(g: Grid, m: Move, di: int, dj: int, p: int, v: int)
    requires IsSquare(g) && IsStep(di, dj) && InBounds(g, m.row, m.col)
    ensures PatternAt(Place(g, m, v), m.row, m.col, di, dj, p) == PatternAt(g, m.row, m.col, di, dj, p)
  {
    RayOffPath(g, m.row - di, m.col - dj, -di, -dj, p, 0, m, v, 1);
    RayOffPath(g, m.row + di, m.col + dj, di, dj, p, 0, m, v, 1);
  }

  lemma {:induction false} AxisSumIgnoresAnchor(g: Grid, m: Move, p: int, v: int, k: int)
    requires IsSquare(g) && InBounds(g, m.row, m.col) && 0 <= k <= 4
    ensures AxisSum(Place(g, m, v), m.row, m.col, p, k) == AxisSum(g, m.row, m.col, p, k)
  {
    if k > 0 {
      AxisSumIgnoresAnchor(g, m, p, v, k - 1);
      DirectionSteps(k - 1);
      PatternIgnoresAnchor(g, m, Directions[k - 1].0, Directions[k - 1].1, p, v);
    }
  }

  // ---------------------------------------------------------------------------
  // _evaluate_move
  // ---------------------------------------------------------------------------

  function Abs(x: int): nat { if x < 0 then -x else x }

  /** `size // 2`. */
  function Center(n: nat): nat { n / 2 }

  /** The Manhattan distance from `m` to the centre cell. */
  function CenterDistance(n: nat, m: Move): nat {
    Abs(m.row - Center(n)) + Abs(m.col - Center(n))
  }

  /**
   * What `_evaluate_move` computes for `player` on `m`: the attack score
   * with the player's stone on `m`, plus 1.1 times the defence score with the
   * opponent's stone there, minus ten per step from the centre.
   */
  function MoveScore(g: Grid, m: Move, player: int): real
    requires IsSquare(g) && InBounds(g, m.row, m.col)
  {
    var attack := AxisSum(Place(g, m, player), m.row, m.col, player, 4);
    var defense := AxisSum(Place(g, m, -player), m.row, m.col, -player, 4);
    attack as real + 1.1 * defense as real - 10.0 * CenterDistance(|g|, m) as real
  }

  /**
   * The simulated stones change nothing: the move score is the two
   * players' patterns through the still empty cell.
   */
  lemma MoveScoreIgnoresStone(g: Grid, m: Move, player: int)
    requires IsSquare(g) && InBounds(g, m.row, m.col)
    ensures MoveScore(g, m, player) ==
            AxisSum(g, m.row, m.col, player, 4) as real
            + 1.1 * AxisSum(g, m.row, m.col, -player, 4) as real
            - 10.0 * CenterDistance(|g|, m) as real
  {
    AxisSumIgnoresAnchor(g, m, player, player, 4);
    AxisSumIgnoresAnchor(g, m, -player, -player, 4);
  }

  /** The move score lies in the table's range, less the distance penalty. */
  lemma MoveScoreBounds(g: Grid, m: Move, player: int)
    requires IsSquare(g) && InBounds(g, m.row, m.col)
    ensures -10.0 * CenterDistance(|g|, m) as real <= MoveScore(g, m, player)
    ensures MoveScore(g, m, player) <= 840000.0 - 10.0 * CenterDistance(|g|, m) as real
  {
    var attack := AxisSum(Place(g, m, player), m.row, m.col, player, 4);
    var defense := AxisSum(Place(g, m, -player), m.row, m.col, -player, 4);
    assert 0 <= attack <= 400000 && 0 <= defense <= 400000;
  }

  /** A move that wins for the mover scores at least the five bonus, less its distance. */
  lemma WinningMoveScore(g: Grid, m: Move, player: int)
    requires IsSquare(g) && InBounds(g, m.row, m.col) && player != 0 && IsWin(g, m, player)
    ensures MoveScore(g, m, player) >= (Win5 - 10 * CenterDistance(|g|, m)) as real
  {
    FiveScoresWin(g, m, player);
  }

  /** `_evaluate_move`, on a copy of the grid whose cell `m` it overwrites twice. */
  method EvaluateMove(g: Grid, m: Move, player: int) returns (score: real)
    requires IsSquare(g) && InBounds(g, m.row, m.col)
    ensures score == MoveScore(g, m, player)
  {
    var t := Place(g, m, player);
    var attack := DirectionAll(t, m.row, m.col, player);
    score := attack as real;
    t := Place(t, m, -player);
    PlaceTwice(g, m, player, -player);
    var defense := DirectionAll(t, m.row, m.col, -player);
    score := score + defense as real * 1.1;
    var distance := CenterDistance(|g|, m);
    score := score - distance as real * 10.0;
  }

  // ---------------------------------------------------------------------------
  // _has_neighbor
  // ---------------------------------------------------------------------------

  predicate Near(x: int, i: int) { i - 1 <= x <= i + 1 }

  /** Some cell of the 3x3 block around `(i, j)`, other than `(i, j)` and on the board, holds a stone. */
  predicate NeighborStone(g: Grid, i: int, j: int)
    requires IsSquare(g)
  {
    exists x, y | 0 <= x < |g| && 0 <= y < |g| && Near(x, i) && Near(y, j) && (x != i || y != j) :: g[x][y] != 0
  }

  /** `_has_neighbor`: the two loops over the offsets -1, 0, 1, returning at the first stone. */
  method HasNeighbor(g: Grid, i: int, j: int) returns (found: bool)
    requires IsSquare(g)
    ensures found == NeighborStone(g, i, j)
  {
    var n := |g|;
    var offsets := [-1, 0, 1];
    for a := 0 to 3
      invariant forall x, y | 0 <= x < n && 0 <= y < n && i - 1 <= x < i - 1 + a && Near(y, j) && (x != i || y != j) ::
                  g[x][y] == 0
    {
      var di := offsets[a];
      var row := i + di;
      for b := 0 to 3
        invariant forall x, y | 0 <= x < n && 0 <= y < n && i - 1 <= x < i - 1 + a && Near(y, j) && (x != i || y != j) ::
                    g[x][y] == 0
        invariant forall y | 0 <= y < n && j - 1 <= y < j - 1 + b && (di != 0 || y != j) && 0 <= row < n ::
                    g[row][y] == 0
      {
        var dj := offsets[b];
        if di == 0 && dj == 0 {
          continue;
        }
        var ni, nj := i + di, j + dj;
        if 0 <= ni < n && 0 <= nj < n {
          if g[ni][nj] != 0 {
            assert Near(ni, i) && Near(nj, j);
            return true;
          }
        }
      }
    }
    return false;
  }

  function Sign(x: int): int { if x > 0 then 1 else if x < 0 then -1 else 0 }

  /** The king-move distance between two cells. */
  function KingDistance(a: Move, b: Move): nat {
    if Abs(a.row - b.row) >= Abs(a.col - b.col) then Abs(a.row - b.row) else Abs(a.col - b.col)
  }

  /**
   * A board with an empty cell and a stone has an empty cell next to a
   * stone: walk from the empty cell towards the stone until the next cell is
   * taken.
   */
  lemma {:induction false} EmptyNearStone(g: Grid, a: Move, b: Move) returns (x: Move)
    requires IsEmptyCell(g, a) && InBounds(g, b.row, b.col) && g[b.row][b.col] != 0
    ensures IsEmptyCell(g, x) && NeighborStone(g, x.row, x.col)
    decreases KingDistance(a, b)
  {
    var next := Move(a.row + Sign(b.row - a.row), a.col + Sign(b.col - a.col));
    assert InBounds(g, next.row, next.col);
    assert Near(next.row, a.row) && Near(next.col, a.col) && next != a;
    if g[next.row][next.col] != 0 {
      x := a;
    } else {
      assert KingDistance(next, b) < KingDistance(a, b);
      x := EmptyNearStone(g, next, b);
    }
  }

  // ---------------------------------------------------------------------------
  // _get_valid_moves: the top-15 candidates
  // ---------------------------------------------------------------------------

  const MaxCandidates: nat := 15

  /** The scored candidates of row `i` up to column `j - 1`: empty cells next to a stone. */
  function CandInRow(st: State, i: int, j: int): seq<Scored>
    requires IsSquare(st.grid) && 0 <= i < |st.grid| && 0 <= j <= |st.grid|
  {
    if j == 0 then [] else CandInRow(st, i, j - 1) + CandAt(st, i, j - 1)
  }

  /** What cell `(i, j)` adds to the candidate list. */
  function CandAt(st: State, i: int, j: int): seq<Scored>
    requires IsSquare(st.grid) && InBounds(st.grid, i, j)
  {
    if st.grid[i][j] == 0 && NeighborStone(st.grid, i, j)
    then [Scored(MoveScore(st.grid, Move(i, j), st.current), Move(i, j))] else []
  }

  /** The scored candidates of rows `0 .. i - 1`, in the source's row-major order. */
  function CandInRows(st: State, i: int): seq<Scored>
    requires IsSquare(st.grid) && 0 <= i <= |st.grid|
  {
    if i == 0 then [] else CandInRows(st, i - 1) + CandInRow(st, i - 1, |st.grid|)
  }

  function Candidates(st: State): seq<Scored>
    requires IsSquare(st.grid)
  {
    CandInRows(st, |st.grid|)
  }

  /** What a candidate entry is. */
  predicate IsCandidate(st: State, x: Scored)
    requires IsSquare(st.grid)
  {
    IsEmptyCell(st.grid, x.move) && NeighborStone(st.grid, x.move.row, x.move.col) &&
    x.score == MoveScore(st.grid, x.move, st.current)
  }

  lemma {:induction false} CandInRowMembers(st: State, i: int, j: int, x: Scored)
    requires IsSquare(st.grid) && 0 <= i < |st.grid| && 0 <= j <= |st.grid|
    ensures x in CandInRow(st, i, j) <==> IsCandidate(st, x) && x.move.row == i && x.move.col < j
  {
    if j > 0 {
      CandInRowMembers(st, i, j - 1, x);
    }
  }

  lemma {:induction false} CandInRowsMembers(st: State, i: int, x: Scored)
    requires IsSquare(st.grid) && 0 <= i <= |st.grid|
    ensures x in CandInRows(st, i) <==> IsCandidate(st, x) && x.move.row < i
  {
    if i > 0 {
      var front, last := CandInRows(st, i - 1), CandInRow(st, i - 1, |st.grid|);
      assert CandInRows(st, i) == front + last;
      assert x in front + last <==> x in front || x in last;
      CandInRowsMembers(st, i - 1, x);
      CandInRowMembers(st, i - 1, |st.grid|, x);
    }
  }

  /** The candidate list holds exactly the empty cells next to a stone, each with its move score. */
  lemma CandidatesMembers(st: State, x: Scored)
    requires IsSquare(st.grid)
    ensures x in Candidates(st) <==> IsCandidate(st, x)
  {
    CandInRowsMembers(st, |st.grid|, x);
  }

  lemma {:induction false} CandInRowCount(st: State, i: int, j: int)
    requires IsSquare(st.grid) && 0 <= i < |st.grid| && 0 <= j <= |st.grid|
    ensures |CandInRow(st, i, j)| <= |EmptyInRow(st.grid[i], i, j)|
  {
    if j > 0 {
      CandInRowCount(st, i, j - 1);
    }
  }

  lemma {:induction false} CandInRowsCount(st: State, i: int)
    requires IsSquare(st.grid) && 0 <= i <= |st.grid|
    ensures |CandInRows(st, i)| <= |EmptyInRows(st.grid, i)|
  {
    if i > 0 {
      CandInRowsCount(st, i - 1);
      CandInRowCount(st, i - 1, |st.grid|);
    }
  }

  /** There are no more candidates than empty cells. */
  lemma CandidatesCount(st: State)
    requires IsSquare(st.grid)
    ensures |Candidates(st)| <= |EmptyCells(st.grid)|
  {
    CandInRowsCount(st, |st.grid|);
  }

  /** The centre cell, the whole answer on an empty board. */
  function CenterMove(n: nat): Move { Move(Center(n), Center(n)) }

  /**
   * `_get_valid_moves`: the centre alone on an empty board; otherwise the
   * candidates sorted by descending `(score, move)` and cut to fifteen.
   */
  function ValidMoves(st: State): (r: seq<Move>)
    requires ValidState(st)
    ensures forall m :: m in r ==> IsEmptyCell(st.grid, m)
    ensures |r| <= MaxCandidates
  {
    var n := |st.grid|;
    EmptyCellsCount(st.grid);
    if |EmptyCells(st.grid)| == n * n then [CenterMove(n)]
    else
      var top := Take(SortDesc(Candidates(st)), MaxCandidates);
      TopAreCandidates(st);
      MovesAreEmpty(st, top);
      Moves(top)
  }

  lemma MovesAreEmpty(st: State, top: seq<Scored>)
    requires IsSquare(st.grid) && forall x :: x in top ==> IsCandidate(st, x)
    ensures forall m :: m in Moves(top) ==> IsEmptyCell(st.grid, m)
  {
    forall m | m in Moves(top) ensures IsEmptyCell(st.grid, m) {
      MovesMembers(top, m);
    }
  }

  lemma TopAreCandidates(st: State)
    requires IsSquare(st.grid)
    ensures forall x :: x in Take(SortDesc(Candidates(st)), MaxCandidates) ==> IsCandidate(st, x)
  {
    var c := Candidates(st);
    SortDescCorrect(c);
    forall x | x in Take(SortDesc(c), MaxCandidates) ensures IsCandidate(st, x) {
      assert x in multiset(SortDesc(c));
      assert x in c;
      CandidatesMembers(st, x);
    }
  }

  /**
   * Apart from the empty board, the list is cut from the sorted candidates:
   * its entries are candidates in non-increasing score order, and any
   * candidate left out scores no more than every entry kept.
   */
  lemma ValidMovesTop(st: State)
    requires ValidState(st) && !AllEmpty(st.grid)
    ensures var top := Take(SortDesc(Candidates(st)), MaxCandidates);
      && ValidMoves(st) == Moves(top)
      && (forall x :: x in top ==> IsCandidate(st, x))
      && (forall a, b :: 0 <= a < b < |top| ==> top[a].score >= top[b].score)
      && (forall x :: IsCandidate(st, x) && x !in top ==>
            |top| == MaxCandidates && forall y :: y in top ==> x.score <= y.score)
  {
    var n := |st.grid|;
    EmptyCellsCount(st.grid);
    var c := Candidates(st);
    var top := Take(SortDesc(c), MaxCandidates);
    TopAreCandidates(st);
    SortDescCorrect(c);
    forall x | IsCandidate(st, x) && x !in top
      ensures |top| == MaxCandidates && forall y :: y in top ==> x.score <= y.score
    {
      CandidatesMembers(st, x);
      TopPrefix(c, MaxCandidates, x);
    }
  }

  /** On an empty board the list is the centre cell alone. */
  lemma ValidMovesEmptyBoard(st: State)
    requires ValidState(st) && AllEmpty(st.grid)
    ensures ValidMoves(st) == [CenterMove(|st.grid|)]
  {
    EmptyCellsCount(st.grid);
  }

  /** Every candidate is listed when there are at most fifteen of them. */
  lemma ValidMovesComplete(st: State, m: Move)
    requires ValidState(st) && !AllEmpty(st.grid) && |Candidates(st)| <= MaxCandidates
    requires IsEmptyCell(st.grid, m) && NeighborStone(st.grid, m.row, m.col)
    ensures m in ValidMoves(st)
  {
    EmptyCellsCount(st.grid);
    var c := Candidates(st);
    var x := Scored(MoveScore(st.grid, m, st.current), m);
    CandidatesMembers(st, x);
    SortDescCorrect(c);
    assert x in multiset(SortDesc(c));
    var top := Take(SortDesc(c), MaxCandidates);
    assert top == SortDesc(c);
    var k :| 0 <= k < |top| && top[k] == x;
    assert Moves(top)[k] == m;
  }

  /** The inner loop of `get_valid_moves` over row `i`: the scored empty cells next to a stone, left to right. */
  method ScanRow(st: State, i: int) returns (row: seq<Scored>)
    requires ValidState(st) && 0 <= i < |st.grid|
    ensures row == CandInRow(st, i, |st.grid|)
  {
    var g := st.grid;
    row := [];
    for j := 0 to |g|
      invariant row == CandInRow(st, i, j)
    {
      if g[i][j] == 0 {
        var near := HasNeighbor(g, i, j);
        if near {
          var score := EvaluateMove(g, Move(i, j), st.current);
          row := row + [Scored(score, Move(i, j))];
        }
      }
    }
  }

  /** `_get_valid_moves`: the nested loops that collect scored candidates, then the sort and the cut. */
  method GetValidMoves(b: Board) returns (moves: seq<Move>)
    requires b.Valid()
    ensures moves == ValidMoves(b.Snapshot())
  {
    var st := b.Snapshot();
    var g := st.grid;
    var n := |g|;
    if |b.GetValidMoves()| == n * n {
      return [CenterMove(n)];
    }
    var scored := CollectCandidates(st);
    moves := Moves(Take(SortDesc(scored), MaxCandidates));
  }

  /** The nested loops of `_get_valid_moves`: row by row, the scored empty cells next to a stone. */
  method CollectCandidates(st: State) returns (scored: seq<Scored>)
    requires ValidState(st)
    ensures scored == Candidates(st)
  {
    scored := [];
    for i := 0 to |st.grid|
      invariant scored == CandInRows(st, i)
    {
      var row := ScanRow(st, i);
      scored := scored + row;
    }
  }

  // ---------------------------------------------------------------------------
  // _evaluate_board: the leaf score
  // ---------------------------------------------------------------------------

  /**
   * What one stone contributes when `player` is to move: its own four
   * pattern scores if it is the player's, otherwise minus 1.1 times the
   * opponent's four pattern scores through it.
   */
  function CellScore(g: Grid, i: int, j: int, player: int): real
    requires IsSquare(g) && InBounds(g, i, j)
  {
    if g[i][j] == 0 then 0.0
    else if g[i][j] == player then AxisSum(g, i, j, player, 4) as real
    else -1.1 * AxisSum(g, i, j, -player, 4) as real
  }

  function RowScore(g: Grid, i: int, j: int, player: int): real
    requires IsSquare(g) && 0 <= i < |g| && 0 <= j <= |g|
  {
    if j == 0 then 0.0 else RowScore(g, i, j - 1, player) + CellScore(g, i, j - 1, player)
  }

  function RowsScore(g: Grid, i: int, player: int): real
    requires IsSquare(g) && 0 <= i <= |g|
  {
    if i == 0 then 0.0 else RowsScore(g, i - 1, player) + RowScore(g, i - 1, |g|, player)
  }

  /** `_evaluate_board`, from the point of view of the player to move on that board. */
  function BoardScore(st: State): real
    requires IsSquare(st.grid)
  {
    RowsScore(st.grid, |st.grid|, st.current)
  }

  /** The pattern scores of all of `p`'s stones in row `i` up to column `j - 1`. */
  function OwnRow(g: Grid, i: int, j: int, p: int): (v: int)
    requires IsSquare(g) && 0 <= i < |g| && 0 <= j <= |g|
    ensures 0 <= v
  {
    if j == 0 then 0
    else OwnRow(g, i, j - 1, p) + (if g[i][j - 1] == p then AxisSum(g, i, j - 1, p, 4) else 0)
  }

  function OwnRows(g: Grid, i: int, p: int): (v: int)
    requires IsSquare(g) && 0 <= i <= |g|
    ensures 0 <= v
  {
    if i == 0 then 0 else OwnRows(g, i - 1, p) + OwnRow(g, i - 1, |g|, p)
  }

  /** Every pattern score of every stone of `p`, four axes per stone. */
  function Own(g: Grid, p: int): nat
    requires IsSquare(g)
  {
    OwnRows(g, |g|, p)
  }

  lemma CellScoreSplit(g: Grid, i: int, j: int, player: int)
    requires IsSquare(g) && InBounds(g, i, j) && IsPlayer(player) && IsStone(g[i][j])
    ensures CellScore(g, i, j, player) ==
            (if g[i][j] == player then AxisSum(g, i, j, player, 4) else 0) as real
            - 1.1 * (if g[i][j] == -player then AxisSum(g, i, j, -player, 4) else 0) as real
  {
  }

  lemma {:induction false} RowScoreSplit(g: Grid, i: int, j: int, player: int)
    requires IsSquare(g) && 0 <= i < |g| && 0 <= j <= |g| && IsPlayer(player)
    requires forall c :: 0 <= c < |g| ==> IsStone(g[i][c])
    ensures RowScore(g, i, j, player) ==
            OwnRow(g, i, j, player) as real - 1.1 * OwnRow(g, i, j, -player) as real
  {
    if j > 0 {
      RowScoreSplit(g, i, j - 1, player);
      CellScoreSplit(g, i, j - 1, player);
    }
  }

  lemma {:induction false} RowsScoreSplit(g: Grid, i: int, player: int)
    requires IsSquare(g) && 0 <= i <= |g| && IsPlayer(player)
    requires forall r, c :: 0 <= r < |g| && 0 <= c < |g| ==> IsStone(g[r][c])
    ensures RowsScore(g, i, player) ==
            OwnRows(g, i, player) as real - 1.1 * OwnRows(g, i, -player) as real
  {
    if i > 0 {
      RowsScoreSplit(g, i - 1, player);
      RowScoreSplit(g, i - 1, |g|, player);
    }
  }

  /**
   * The leaf score is the mover's patterns minus 1.1 times the opponent's:
   * it is taken from whoever is to move on the scored board, and it is 0 on
   * an empty board.
   */
  lemma BoardScoreSplit(st: State)
    requires ValidState(st)
    ensures BoardScore(st) == Own(st.grid, st.current) as real
                              - 1.1 * Own(st.grid, -st.current) as real
    ensures AllEmpty(st.grid) ==> BoardScore(st) == 0.0
  {
    RowsScoreSplit(st.grid, |st.grid|, st.current);
    if AllEmpty(st.grid) {
      OwnEmpty(st.grid, |st.grid|, st.current);
      OwnEmpty(st.grid, |st.grid|, -st.current);
    }
  }

  lemma {:induction false} OwnEmpty(g: Grid, i: int, p: int)
    requires IsSquare(g) && AllEmpty(g) && 0 <= i <= |g| && p != 0
    ensures OwnRows(g, i, p) == 0
  {
    if i > 0 {
      OwnEmpty(g, i - 1, p);
      OwnRowEmpty(g, i - 1, |g|, p);
    }
  }

  lemma {:induction false} OwnRowEmpty(g: Grid, i: int, j: int, p: int)
    requires IsSquare(g) && AllEmpty(g) && 0 <= i < |g| && 0 <= j <= |g| && p != 0
    ensures OwnRow(g, i, j, p) == 0
  {
    if j > 0 {
      OwnRowEmpty(g, i, j - 1, p);
    }
  }

  /** The direction loop of `_evaluate_board` for the stone on `(i, j)`. */
  method StoneScore(g: Grid, i: int, j: int, player: int) returns (delta: real)
    requires IsSquare(g) && InBounds(g, i, j) && g[i][j] != 0
    ensures delta == CellScore(g, i, j, player)
  {
    var opponent := -player;
    delta := 0.0;
    for k := 0 to 4
      invariant g[i][j] == player ==> delta == AxisSum(g, i, j, player, k) as real
      invariant g[i][j] != player ==> delta == -1.1 * AxisSum(g, i, j, opponent, k) as real
    {
      var (di, dj) := Directions[k];
      DirectionSteps(k);
      if g[i][j] == player {
        var pt := GetPattern(g, i, j, di, dj, player);
        delta := delta + PatternScore(pt) as real;
      } else {
        var pt := GetPattern(g, i, j, di, dj, opponent);
        delta := delta - PatternScore(pt) as real * 1.1;
      }
    }
  }

  /** `_evaluate_board`: every stone, every axis, scored for the player to move. */
  method EvaluateBoard(b: Board) returns (score: real)
    requires b.Valid()
    ensures score == BoardScore(b.Snapshot())
  {
    var g := b.grid;
    var n := |g|;
    var player := b.current;
    score := 0.0;
    for i := 0 to n
      invariant score == RowsScore(g, i, player)
    {
      for j := 0 to n
        invariant score == RowsScore(g, i, player) + RowScore(g, i, j, player)
      {
        if g[i][j] != 0 {
          var delta := StoneScore(g, i, j, player);
          score := score + delta;
        }
      }
    }
  }
}
