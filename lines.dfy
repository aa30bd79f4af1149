/**
 * Walking along one axis from a cell. Both engines do this in three places:
 * the pattern scanners (`_get_pattern` in minimax.py, `_evaluate_line` and
 * the inner loop of `_quick_evaluate_move` in mcts.py) and the
 * single-origin five-in-a-row check `_is_winning_move` (one copy in
 * minimax.py, two in mcts.py). The scanners share one ray walk, `Walk`,
 * proved against the recursive `Ray`; the five check counts runs with
 * `RunLen` and is proved equivalent to "five in a row through the move".
 */
module Lines {
  import opened Wrappers
  import opened Board

  /** A unit step along one of the eight neighbour directions. */
  predicate IsStep(dr: int, dc: int) {
    -1 <= dr <= 1 && -1 <= dc <= 1 && (dr != 0 || dc != 0)
  }

  /** How many steps a walk from `(r, c)` can still take before it leaves an `n`-board. */
  function Dist(n: int, r: int, c: int, dr: int, dc: int): int {
    if dr > 0 then n - r else if dr < 0 then r + 1 else if dc > 0 then n - c else c + 1
  }

  /** What a walk sees a number of steps from where it starts. */
  datatype Look = Edge | Cell(v: int)

  function LookAt(g: Grid, r: int, c: int, dr: int, dc: int, t: int): Look
    requires IsSquare(g)
  {
    var x, y := Pos(r, dr, t), Pos(c, dc, t);
    if InBounds(g, x, y) then Cell(g[x][y]) else Edge
  }

  /** A stone that is neither empty nor the scanning player's. */
  predicate IsOpponent(l: Look, p: int) {
    l.Cell? && l.v != 0 && l.v != p
  }

  lemma LookShift(g: Grid, r: int, c: int, dr: int, dc: int, t: int)
    requires IsSquare(g) && IsStep(dr, dc)
    ensures LookAt(g, r, c, dr, dc, t + 1) == LookAt(g, r + dr, c + dc, dr, dc, t)
  {
  }

  // ---------------------------------------------------------------------------
  // One side of a pattern scan
  // ---------------------------------------------------------------------------

  /**
   * What one side of a scan adds: the stones it counted, the value of the
   * empty-cell counter when it stopped, and whether an opponent stone ended it.
   */
  datatype Side = Side(stones: nat, space: nat, blocked: nat)

  /**
   * The side scan of minimax.py:214-230 and mcts.py:130-146, walking from
   * `(r, c)` with the empty-cell counter starting at `space`: an empty cell
   * bumps the counter and ends the side once it reaches 2; a stone of `p`
   * counts only while no empty cell has been seen; an opponent stone sets
   * `blocked` and ends the side; leaving the board just ends it.
   */
  function Ray(g: Grid, r: int, c: int, dr: int, dc: int, p: int, space: nat): Side
    requires IsSquare(g) && IsStep(dr, dc)
    decreases Dist(|g|, r, c, dr, dc)
  {
    if !InBounds(g, r, c) then Side(0, space, 0)
    else if g[r][c] == 0 then
      if space + 1 >= 2 then Side(0, space + 1, 0) else Ray(g, r + dr, c + dc, dr, dc, p, space + 1)
    else if g[r][c] == p then
      if space == 0 then
        var s := Ray(g, r + dr, c + dc, dr, dc, p, space);
        Side(s.stones + 1, s.space, s.blocked)
      else Side(0, space, 0)
    else Side(0, space, 1)
  }

  /** The `while` loop of one scan side, with its counters. */
  method Walk(g: Grid, r0: int, c0: int, dr: int, dc: int, p: int, space0: nat) returns (s: Side)
    requires IsSquare(g) && IsStep(dr, dc)
    ensures s == Ray(g, r0, c0, dr, dc, p, space0)
  {
    var n := |g|;
    var stones, space, blocked := 0, space0, 0;
    var r, c := r0, c0;
    while 0 <= r < n && 0 <= c < n
      invariant blocked == 0
      invariant Ray(g, r0, c0, dr, dc, p, space0) ==
                var rest := Ray(g, r, c, dr, dc, p, space);
                Side(stones + rest.stones, rest.space, rest.blocked)
      decreases Dist(n, r, c, dr, dc)
    {
      if g[r][c] == 0 {
        space := space + 1;
        if space >= 2 {
          break;
        }
      } else if g[r][c] == p {
        if space == 0 {
          stones := stones + 1;
        } else {
          break;
        }
      } else {
        blocked := blocked + 1;
        break;
      }
      r, c := r + dr, c + dc;
    }
    s := Side(stones, space, blocked);
  }

  // ---------------------------------------------------------------------------
  // Runs of one player's stones
  // ---------------------------------------------------------------------------

  /** The number of consecutive `p` stones from `(r, c)` onwards. */
  function RunLen(g: Grid, r: int, c: int, dr: int, dc: int, p: int): nat
    requires IsSquare(g) && IsStep(dr, dc)
    decreases Dist(|g|, r, c, dr, dc)
  {
    if InBounds(g, r, c) && g[r][c] == p then 1 + RunLen(g, r + dr, c + dc, dr, dc, p) else 0
  }

  /** The run is at least `k` long exactly when the first `k` cells are `p`. */
  lemma {:induction false} RunLenPrefix(g: Grid, r: int, c: int, dr: int, dc: int, p: int, k: nat)
    requires IsSquare(g) && IsStep(dr, dc)
    ensures RunLen(g, r, c, dr, dc, p) >= k <==>
            forall t :: 0 <= t < k ==> LookAt(g, r, c, dr, dc, t) == Cell(p)
    decreases k
  {
    if k > 0 {
      var r1, c1 := r + dr, c + dc;
      RunLenPrefix(g, r1, c1, dr, dc, p, k - 1);
      if RunLen(g, r, c, dr, dc, p) >= k {
        forall t | 0 <= t < k ensures LookAt(g, r, c, dr, dc, t) == Cell(p) {
          if t > 0 {
            LookShift(g, r, c, dr, dc, t - 1);
          }
        }
      }
      if forall t :: 0 <= t < k ==> LookAt(g, r, c, dr, dc, t) == Cell(p) {
        assert LookAt(g, r, c, dr, dc, 0) == Cell(p);
        forall t | 0 <= t < k - 1 ensures LookAt(g, r1, c1, dr, dc, t) == Cell(p) {
          LookShift(g, r, c, dr, dc, t);
        }
      }
    }
  }

  /** The cell that ends a run is not a `p` stone on the board. */
  lemma {:induction false} RunLenEnd(g: Grid, r: int, c: int, dr: int, dc: int, p: int)
    requires IsSquare(g) && IsStep(dr, dc)
    ensures LookAt(g, r, c, dr, dc, RunLen(g, r, c, dr, dc, p)) != Cell(p)
    decreases Dist(|g|, r, c, dr, dc)
  {
    if InBounds(g, r, c) && g[r][c] == p {
      RunLenEnd(g, r + dr, c + dc, dr, dc, p);
      LookShift(g, r, c, dr, dc, RunLen(g, r + dr, c + dc, dr, dc, p));
    }
  }

  /** A side whose counter already saw an empty cell counts no stones and looks at one cell only. */
  lemma RayAfterGap(g: Grid, r: int, c: int, dr: int, dc: int, p: int, space: nat)
    requires IsSquare(g) && IsStep(dr, dc) && space >= 1
    ensures Ray(g, r, c, dr, dc, p, space) ==
            Side(0,
                 space + (if LookAt(g, r, c, dr, dc, 0) == Cell(0) then 1 else 0),
                 if IsOpponent(LookAt(g, r, c, dr, dc, 0), p) then 1 else 0)
  {
  }

  /**
   * A side that starts with no empty cell seen counts exactly the run of `p`
   * stones; after it, one empty cell may follow, and `blocked` is 1 exactly
   * when an opponent stone comes next or right after that one empty cell.
   * The board edge never blocks.
   */
  lemma {:induction false} RayFromStart(g: Grid, r: int, c: int, dr: int, dc: int, p: int)
    requires IsSquare(g) && IsStep(dr, dc) && p != 0
    ensures Ray(g, r, c, dr, dc, p, 0) == StartSide(g, r, c, dr, dc, p)
    decreases Dist(|g|, r, c, dr, dc)
  {
    if InBounds(g, r, c) && g[r][c] == p {
      RayFromStart(g, r + dr, c + dc, dr, dc, p);
      RayStoneStep(g, r, c, dr, dc, p);
    } else if InBounds(g, r, c) && g[r][c] == 0 {
      assert RunLen(g, r, c, dr, dc, p) == 0;
      assert LookAt(g, r, c, dr, dc, 0) == Cell(0);
      assert Ray(g, r, c, dr, dc, p, 0) == Ray(g, r + dr, c + dc, dr, dc, p, 1);
      RayAfterGap(g, r + dr, c + dc, dr, dc, p, 1);
      LookShift(g, r, c, dr, dc, 0);
    } else {
      assert RunLen(g, r, c, dr, dc, p) == 0;
    }
  }

  /** What a side with no empty cell seen yet finds, in terms of the run and the two cells after it. */
  function StartSide(g: Grid, r: int, c: int, dr: int, dc: int, p: int): Side
    requires IsSquare(g) && IsStep(dr, dc)
  {
    var run := RunLen(g, r, c, dr, dc, p);
    var next := LookAt(g, r, c, dr, dc, run);
    var after := LookAt(g, r, c, dr, dc, run + 1);
    Side(run,
         if next == Cell(0) then (if after == Cell(0) then 2 else 1) else 0,
         if IsOpponent(next, p) || (next == Cell(0) && IsOpponent(after, p)) then 1 else 0)
  }

  /** A `p` stone at the start adds one to the run and shifts the cells after it by one. */
  lemma RayStoneStep(g: Grid, r: int, c: int, dr: int, dc: int, p: int)
    requires IsSquare(g) && IsStep(dr, dc) && p != 0 && InBounds(g, r, c) && g[r][c] == p
    requires Ray(g, r + dr, c + dc, dr, dc, p, 0) == StartSide(g, r + dr, c + dc, dr, dc, p)
    ensures Ray(g, r, c, dr, dc, p, 0) == StartSide(g, r, c, dr, dc, p)
  {
    var rest := Ray(g, r + dr, c + dc, dr, dc, p, 0);
    var run' := RunLen(g, r + dr, c + dc, dr, dc, p);
    assert Ray(g, r, c, dr, dc, p, 0) == Side(rest.stones + 1, rest.space, rest.blocked);
    assert RunLen(g, r, c, dr, dc, p) == run' + 1;
    LookShift(g, r, c, dr, dc, run');
    LookShift(g, r, c, dr, dc, run' + 1);
  }

  // ---------------------------------------------------------------------------
  // Patterns: both sides of an anchor cell
  // ---------------------------------------------------------------------------

  /** `(consecutive, blocked, space)` as `_get_pattern` returns it. */
  datatype Pattern = Pattern(consecutive: nat, blocked: nat, space: nat)

  /**
   * The pattern through `(i, j)` along `(di, dj)`: the backward side, then the
   * forward side, each with its own empty-cell counter. The anchor itself is
   * taken as the player's stone and never read.
   */
  function PatternAt(g: Grid, i: int, j: int, di: int, dj: int, p: int): Pattern
    requires IsSquare(g) && IsStep(di, dj)
  {
    var before := Ray(g, i - di, j - dj, -di, -dj, p, 0);
    var after := Ray(g, i + di, j + dj, di, dj, p, 0);
    Pattern(1 + before.stones + after.stones, before.blocked + after.blocked, before.space + after.space)
  }

  /** The stones in line through `(i, j)` when `(i, j)` itself counts as one: what `_is_winning_move` counts. */
  function LineCount(g: Grid, i: int, j: int, di: int, dj: int, p: int): nat
    requires IsSquare(g) && IsStep(di, dj)
  {
    1 + RunLen(g, i + di, j + dj, di, dj, p) + RunLen(g, i - di, j - dj, -di, -dj, p)
  }

  /**
   * The pattern's bounds: at least one stone, at most two blocked ends and
   * at most four empty cells; its run length is the five check's count.
   */
  lemma PatternBounds(g: Grid, i: int, j: int, di: int, dj: int, p: int)
    requires IsSquare(g) && IsStep(di, dj) && p != 0
    ensures PatternAt(g, i, j, di, dj, p).consecutive == LineCount(g, i, j, di, dj, p)
    ensures PatternAt(g, i, j, di, dj, p).consecutive >= 1
    ensures PatternAt(g, i, j, di, dj, p).blocked <= 2
    ensures PatternAt(g, i, j, di, dj, p).space <= 4
  {
    RayFromStart(g, i - di, j - dj, -di, -dj, p);
    RayFromStart(g, i + di, j + dj, di, dj, p);
  }

  // ---------------------------------------------------------------------------
  // The single-origin five-in-a-row check
  // ---------------------------------------------------------------------------

  /** `_is_winning_move`: with `p` put on `m`, some axis through `m` counts five or more. */
  predicate IsWin(g: Grid, m: Move, p: int)
    requires IsSquare(g) && InBounds(g, m.row, m.col)
  {
    var t := Place(g, m, p);
    exists k | 0 <= k < 4 :: LineCount(t, m.row, m.col, Directions[k].0, Directions[k].1, p) >= 5
  }

  /** The loops of `_is_winning_move`, run on a copy of the grid with `p` on `m`. */
  method IsWinningMove(g: Grid, m: Move, p: int) returns (win: bool)
    requires IsSquare(g) && InBounds(g, m.row, m.col)
    ensures win == IsWin(g, m, p)
  {
    var t := Place(g, m, p);
    for k := 0 to 4
      invariant forall k' :: 0 <= k' < k ==>
                  LineCount(t, m.row, m.col, Directions[k'].0, Directions[k'].1, p) < 5
    {
      var (di, dj) := Directions[k];
      var count := CountLine(t, m, di, dj, p);
      if count >= 5 {
        return true;
      }
    }
    return false;
  }

  /** The two walks of one axis: the stone at `m` plus the `p` stones on either side of it. */
  method CountLine(t: Grid, m: Move, di: int, dj: int, p: int) returns (count: int)
    requires IsSquare(t) && IsStep(di, dj)
    ensures count == LineCount(t, m.row, m.col, di, dj, p)
  {
    var n := |t|;
    count := 1;
    var ni, nj := m.row + di, m.col + dj;
    while 0 <= ni < n && 0 <= nj < n && t[ni][nj] == p
      invariant count + RunLen(t, ni, nj, di, dj, p) == 1 + RunLen(t, m.row + di, m.col + dj, di, dj, p)
      decreases Dist(n, ni, nj, di, dj)
    {
      count := count + 1;
      ni, nj := ni + di, nj + dj;
    }
    ni, nj := m.row - di, m.col - dj;
    while 0 <= ni < n && 0 <= nj < n && t[ni][nj] == p
      invariant count + RunLen(t, ni, nj, -di, -dj, p) == LineCount(t, m.row, m.col, di, dj, p)
      decreases Dist(n, ni, nj, -di, -dj)
    {
      count := count + 1;
      ni, nj := ni - di, nj - dj;
    }
  }

  /** The first of `moves` that completes five for `p`. */
  function FirstWin(g: Grid, moves: seq<Move>, p: int): (r: Option<Move>)
    requires IsSquare(g) && forall m :: m in moves ==> InBounds(g, m.row, m.col)
    ensures r.Some? ==> r.value in moves
  {
    if moves == [] then None
    else if IsWin(g, moves[0], p) then Some(moves[0])
    else FirstWin(g, moves[1 ..], p)
  }

  /** `moves[i]` is the winning move of least index for `p`. */
  predicate IsFirstWin(g: Grid, moves: seq<Move>, i: int, p: int)
    requires IsSquare(g) && forall m :: m in moves ==> InBounds(g, m.row, m.col)
  {
    && 0 <= i < |moves| && IsWin(g, moves[i], p)
    && forall j :: 0 <= j < i ==> !IsWin(g, moves[j], p)
  }

  /** `FirstWin` finds nothing exactly when no move wins, and otherwise the winning move of least index. */
  lemma {:induction false} FirstWinSpec(g: Grid, moves: seq<Move>, p: int)
    requires IsSquare(g) && forall m :: m in moves ==> InBounds(g, m.row, m.col)
    ensures FirstWin(g, moves, p).None? <==> forall i :: 0 <= i < |moves| ==> !IsWin(g, moves[i], p)
    ensures FirstWin(g, moves, p).Some? ==>
              exists i :: 0 <= i < |moves| && moves[i] == FirstWin(g, moves, p).value && IsWin(g, moves[i], p) &&
                          forall j :: 0 <= j < i ==> !IsWin(g, moves[j], p)
  {
    if moves != [] {
      FirstWinSpec(g, moves[1 ..], p);
      assert forall i :: 0 < i < |moves| ==> moves[i] == moves[1 ..][i - 1];
      if !IsWin(g, moves[0], p) && FirstWin(g, moves, p).Some? {
        var i :| 0 <= i < |moves| - 1 && moves[1 ..][i] == FirstWin(g, moves, p).value && IsWin(g, moves[1 ..][i], p) &&
                 forall j :: 0 <= j < i ==> !IsWin(g, moves[1 ..][j], p);
        assert moves[i + 1] == moves[1 ..][i];
      }
    }
  }

  /** The first win of a concatenation is the first win of its front, else of its back. */
  lemma {:induction false} FirstWinAppend(g: Grid, a: seq<Move>, b: seq<Move>, p: int)
    requires IsSquare(g) && forall m :: m in a + b ==> InBounds(g, m.row, m.col)
    ensures forall m :: m in a ==> InBounds(g, m.row, m.col)
    ensures forall m :: m in b ==> InBounds(g, m.row, m.col)
    ensures FirstWin(g, a + b, p) == if FirstWin(g, a, p).Some? then FirstWin(g, a, p) else FirstWin(g, b, p)
  {
    assert forall m :: m in a ==> m in a + b;
    assert forall m :: m in b ==> m in a + b;
    if a != [] {
      assert (a + b)[1 ..] == a[1 ..] + b;
      assert forall m :: m in a[1 ..] + b ==> m in a + b;
      FirstWinAppend(g, a[1 ..], b, p);
      assert (a + b)[0] == a[0];
    } else {
      assert a + b == b;
    }
  }

  /** `for move in moves: if _is_winning_move(board, move, p): return move`. */
  method FindWin(g: Grid, moves: seq<Move>, p: int) returns (r: Option<Move>)
    requires IsSquare(g) && forall m :: m in moves ==> InBounds(g, m.row, m.col)
    ensures r == FirstWin(g, moves, p)
  {
    for i := 0 to |moves|
      invariant FirstWin(g, moves, p) == FirstWin(g, moves[i ..], p)
    {
      assert moves[i ..][1 ..] == moves[i + 1 ..];
      var win := IsWinningMove(g, moves[i], p);
      if win {
        return Some(moves[i]);
      }
    }
    assert moves[|moves| ..] == [];
    return None;
  }

  /** Five `p` stones along axis `k` whose `s`-th (counting from 0) is on `m`. */
  predicate WindowAt(g: Grid, m: Move, k: int, s: int, p: int)
    requires IsSquare(g) && 0 <= k < 4
  {
    FiveFrom(g, Pos(m.row, Directions[k].0, -s), Pos(m.col, Directions[k].1, -s), k, p)
  }

  /** Five `p` stones in a row along some axis, one of them on `m`. */
  predicate FiveThrough(g: Grid, m: Move, p: int)
    requires IsSquare(g)
  {
    exists k, s | 0 <= k < 4 && 0 <= s < 5 :: WindowAt(g, m, k, s, p)
  }

  // ---------------------------------------------------------------------------
  // The five check finds exactly the fives through the move
  // ---------------------------------------------------------------------------

  lemma DirectionSteps(k: int)
    requires 0 <= k < 4
    ensures IsStep(Directions[k].0, Directions[k].1)
  {
  }

  /** Every cell at offsets `lo .. hi - 1` from `(r, c)` along the axis holds `p`. */
  predicate Covered(g: Grid, r: int, c: int, dr: int, dc: int, p: int, lo: int, hi: int)
    requires IsSquare(g)
  {
    forall w :: lo <= w < hi ==> LookAt(g, r, c, dr, dc, w) == Cell(p)
  }

  /** Walking backwards is walking forwards with negative offsets. */
  lemma LookBack(g: Grid, r: int, c: int, dr: int, dc: int, t: int)
    requires IsSquare(g) && IsStep(dr, dc)
    ensures LookAt(g, r - dr, c - dc, -dr, -dc, t) == LookAt(g, r, c, dr, dc, -t - 1)
  {
  }

  /** Offsets along an axis add up. */
  lemma LookFrom(g: Grid, r: int, c: int, dr: int, dc: int, a: int, t: int)
    requires IsSquare(g) && IsStep(dr, dc)
    ensures LookAt(g, Pos(r, dr, a), Pos(c, dc, a), dr, dc, t) == LookAt(g, r, c, dr, dc, a + t)
  {
  }

  /** The forward run after `(r, c)` reaches `a` exactly when offsets `1 .. a` hold `p`. */
  lemma ForwardRun(g: Grid, r: int, c: int, dr: int, dc: int, p: int, a: nat)
    requires IsSquare(g) && IsStep(dr, dc)
    ensures RunLen(g, r + dr, c + dc, dr, dc, p) >= a <==> Covered(g, r, c, dr, dc, p, 1, a + 1)
  {
    var r1, c1 := r + dr, c + dc;
    RunLenPrefix(g, r1, c1, dr, dc, p, a);
    if RunLen(g, r1, c1, dr, dc, p) >= a {
      forall w | 1 <= w < a + 1 ensures LookAt(g, r, c, dr, dc, w) == Cell(p) {
        LookShift(g, r, c, dr, dc, w - 1);
      }
    }
    if Covered(g, r, c, dr, dc, p, 1, a + 1) {
      forall t | 0 <= t < a ensures LookAt(g, r1, c1, dr, dc, t) == Cell(p) {
        LookShift(g, r, c, dr, dc, t);
      }
    }
  }

  /** The backward run before `(r, c)` reaches `b` exactly when offsets `-b .. -1` hold `p`. */
  lemma BackwardRun(g: Grid, r: int, c: int, dr: int, dc: int, p: int, b: nat)
    requires IsSquare(g) && IsStep(dr, dc)
    ensures RunLen(g, r - dr, c - dc, -dr, -dc, p) >= b <==> Covered(g, r, c, dr, dc, p, -(b as int), 0)
  {
    var r1, c1, er, ec := r - dr, c - dc, -dr, -dc;
    RunLenPrefix(g, r1, c1, er, ec, p, b);
    if RunLen(g, r1, c1, er, ec, p) >= b {
      forall w | -(b as int) <= w < 0 ensures LookAt(g, r, c, dr, dc, w) == Cell(p) {
        LookBack(g, r, c, dr, dc, -w - 1);
      }
    }
    if Covered(g, r, c, dr, dc, p, -(b as int), 0) {
      forall t | 0 <= t < b ensures LookAt(g, r1, c1, er, ec, t) == Cell(p) {
        LookBack(g, r, c, dr, dc, t);
      }
    }
  }

  /** A window of five starting `s` cells before `m` is the offsets `-s .. 4 - s` from `m`. */
  lemma WindowCovered(g: Grid, m: Move, k: int, s: int, p: int)
    requires IsSquare(g) && 0 <= k < 4
    ensures WindowAt(g, m, k, s, p) <==> Covered(g, m.row, m.col, Directions[k].0, Directions[k].1, p, -s, 5 - s)
  {
    var (dr, dc) := Directions[k];
    DirectionSteps(k);
    var r0, c0 := Pos(m.row, dr, -s), Pos(m.col, dc, -s);
    forall t ensures LookAt(g, r0, c0, dr, dc, t) == LookAt(g, m.row, m.col, dr, dc, -s + t) {
      LookFrom(g, m.row, m.col, dr, dc, -s, t);
    }
    if WindowAt(g, m, k, s, p) {
      forall w | -s <= w < 5 - s ensures LookAt(g, m.row, m.col, dr, dc, w) == Cell(p) {
        assert LookAt(g, r0, c0, dr, dc, w + s) == Cell(p);
      }
    }
    if Covered(g, m.row, m.col, dr, dc, p, -s, 5 - s) {
      forall t | 0 <= t < 5
        ensures InBounds(g, Pos(r0, dr, t), Pos(c0, dc, t)) && g[Pos(r0, dr, t)][Pos(c0, dc, t)] == p
      {
        assert LookAt(g, m.row, m.col, dr, dc, -s + t) == Cell(p);
      }
    }
  }

  /** Runs of `b` cells before and `a` after a `p` stone at `(r, c)` cover offsets `-b .. a`. */
  lemma RunsCover(g: Grid, r: int, c: int, dr: int, dc: int, p: int, a: nat, b: nat)
    requires IsSquare(g) && IsStep(dr, dc) && LookAt(g, r, c, dr, dc, 0) == Cell(p)
    requires RunLen(g, r + dr, c + dc, dr, dc, p) >= a && RunLen(g, r - dr, c - dc, -dr, -dc, p) >= b
    ensures Covered(g, r, c, dr, dc, p, -(b as int), a + 1)
  {
    ForwardRun(g, r, c, dr, dc, p, a);
    BackwardRun(g, r, c, dr, dc, p, b);
  }

  /** Five counted along axis `k` through a `p` stone on `m` give a window of five there. */
  lemma AxisWindow(t: Grid, m: Move, k: int, p: int) returns (s: int)
    requires IsSquare(t) && InBounds(t, m.row, m.col) && t[m.row][m.col] == p && 0 <= k < 4
    requires LineCount(t, m.row, m.col, Directions[k].0, Directions[k].1, p) >= 5
    ensures 0 <= s < 5 && WindowAt(t, m, k, s, p)
  {
    var (dr, dc) := Directions[k];
    DirectionSteps(k);
    var b := RunLen(t, m.row - dr, m.col - dc, -dr, -dc, p);
    s := if b < 4 then b else 4;
    assert LookAt(t, m.row, m.col, dr, dc, 0) == Cell(p);
    RunsCover(t, m.row, m.col, dr, dc, p, 4 - s, s);
    WindowCovered(t, m, k, s, p);
  }

  lemma WinGivesWindow(g: Grid, m: Move, p: int)
    requires IsSquare(g) && InBounds(g, m.row, m.col) && IsWin(g, m, p)
    ensures FiveThrough(Place(g, m, p), m, p)
  {
    var t := Place(g, m, p);
    var k :| 0 <= k < 4 && LineCount(t, m.row, m.col, Directions[k].0, Directions[k].1, p) >= 5;
    var s := AxisWindow(t, m, k, p);
  }

  lemma WindowGivesWin(g: Grid, m: Move, p: int)
    requires IsSquare(g) && InBounds(g, m.row, m.col) && FiveThrough(Place(g, m, p), m, p)
    ensures IsWin(g, m, p)
  {
    var t := Place(g, m, p);
    var k, s :| 0 <= k < 4 && 0 <= s < 5 && WindowAt(t, m, k, s, p);
    var (dr, dc) := Directions[k];
    DirectionSteps(k);
    WindowCovered(t, m, k, s, p);
    ForwardRun(t, m.row, m.col, dr, dc, p, 4 - s);
    BackwardRun(t, m.row, m.col, dr, dc, p, s);
    assert LineCount(t, m.row, m.col, dr, dc, p) >= 5;
  }

  /**
   * `_is_winning_move` is right: it answers true exactly when, with `p` on
   * `m`, five `p` stones stand in a row along some axis with one of them on `m`.
   */
  lemma WinIffFive(g: Grid, m: Move, p: int)
    requires IsSquare(g) && InBounds(g, m.row, m.col)
    ensures IsWin(g, m, p) <==> FiveThrough(Place(g, m, p), m, p)
  {
    if IsWin(g, m, p) {
      WinGivesWindow(g, m, p);
    }
    if FiveThrough(Place(g, m, p), m, p) {
      WindowGivesWin(g, m, p);
    }
  }

  /** A winning move leaves five in a row on the board. */
  lemma WinMakesFive(g: Grid, m: Move, p: int)
    requires IsSquare(g) && InBounds(g, m.row, m.col) && IsWin(g, m, p)
    ensures HasFive(Place(g, m, p), p)
  {
    var t := Place(g, m, p);
    WinIffFive(g, m, p);
    var k, s :| 0 <= k < 4 && 0 <= s < 5 && WindowAt(t, m, k, s, p);
    var (dr, dc) := Directions[k];
    var r0, c0 := Pos(m.row, dr, -s), Pos(m.col, dc, -s);
    assert InBounds(t, Pos(r0, dr, 0), Pos(c0, dc, 0));
    assert FiveFrom(t, r0, c0, k, p);
  }

  /** A five that a stone on `m` completes, where there was none before, runs through `m`. */
  lemma NewFiveIsWin(g: Grid, m: Move, p: int)
    requires IsSquare(g) && InBounds(g, m.row, m.col)
    requires !HasFive(g, p) && HasFive(Place(g, m, p), p)
    ensures IsWin(g, m, p)
  {
    var t := Place(g, m, p);
    var r, c, k :| 0 <= r < |t| && 0 <= c < |t| && 0 <= k < 4 && FiveFrom(t, r, c, k, p);
    var (dr, dc) := Directions[k];
    if u :| 0 <= u < 5 && Pos(r, dr, u) == m.row && Pos(c, dc, u) == m.col {
      assert Pos(m.row, dr, -u) == r && Pos(m.col, dc, -u) == c;
      assert WindowAt(t, m, k, u, p);
      WindowGivesWin(g, m, p);
    } else {
      assert FiveFrom(g, r, c, k, p);
      assert false;
    }
  }

  /** A single stone on an empty board completes no five. */
  lemma NoWinOnEmpty(g: Grid, m: Move, p: int)
    requires IsSquare(g) && InBounds(g, m.row, m.col) && AllEmpty(g) && p != 0
    ensures !IsWin(g, m, p)
  {
    if IsWin(g, m, p) {
      WinMakesFive(g, m, p);
    }
  }
}
