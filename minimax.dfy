/**
 * The search of the minimax player (minimax.py): `_minimax`, the
 * depth-limited alpha-beta search over the top-15 candidates, and
 * `get_move`, which answers a forced win or a forced block before it
 * searches. The search is proved to agree with plain minimax over the same
 * candidates inside its window, and `get_move` to pick the first candidate
 * whose plain minimax value is largest.
 */
module Minimax {
  import opened Wrappers
  import opened Board
  import opened Lines
  import opened Sorting
  import opened MinimaxEval

  /** The search depth a player is created with. */
  const DefaultMaxDepth: int := 4

  // ---------------------------------------------------------------------------
  // Scores with the two infinities
  // ---------------------------------------------------------------------------

  /** A float score, where `float('-inf')` and `float('inf')` occur. */
  datatype Ext = NegInf | Fin(x: real) | PosInf

  predicate Le(a: Ext, b: Ext) {
    a.NegInf? || b.PosInf? || (a.Fin? && b.Fin? && a.x <= b.x)
  }

  predicate Lt(a: Ext, b: Ext) { !Le(b, a) }

  /** Python's `max(a, b)`: `b` only when it is strictly larger. */
  function Max(a: Ext, b: Ext): (r: Ext)
    ensures Le(a, r) && Le(b, r) && (r == a || r == b)
  {
    if Lt(a, b) then b else a
  }

  /** Python's `min(a, b)`: `b` only when it is strictly smaller. */
  function Min(a: Ext, b: Ext): (r: Ext)
    ensures Le(r, a) && Le(r, b) && (r == a || r == b)
  {
    if Lt(b, a) then b else a
  }

  // ---------------------------------------------------------------------------
  // _minimax
  // ---------------------------------------------------------------------------

  /**
   * `_minimax(board, depth, is_maximizing, alpha, beta)`: the leaf score at
   * depth 0 or when the game is over, otherwise the loop over the candidates.
   * The recursion ends because every move fills an empty cell.
   */
  function AlphaBeta(st: State, depth: int, maximizing: bool, alpha: Ext, beta: Ext): Ext
    requires ValidState(st)
    decreases |EmptyCells(st.grid)|, 1, 0
  {
    if depth == 0 || GameOver(st) then Fin(BoardScore(st))
    else Search(st, ValidMoves(st), 0, depth, maximizing, alpha, beta, if maximizing then NegInf else PosInf)
  }

  /**
   * The candidate loop from the `k`-th move on, with the running bound and
   * the best value so far; it stops as soon as `beta <= alpha`.
   */
  function Search(st: State, moves: seq<Move>, k: nat, depth: int, maximizing: bool,
                  alpha: Ext, beta: Ext, best: Ext): Ext
    requires ValidState(st) && k <= |moves| && forall m :: m in moves ==> IsEmptyCell(st.grid, m)
    decreases |EmptyCells(st.grid)|, 0, |moves| - k
  {
    if k == |moves| then best
    else
      ApplyKeepsValid(st, moves[k]);
      var v := AlphaBeta(Apply(st, moves[k]), depth - 1, !maximizing, alpha, beta);
      if maximizing then
        var best', alpha' := Max(best, v), Max(alpha, v);
        if Le(beta, alpha') then best' else Search(st, moves, k + 1, depth, maximizing, alpha', beta, best')
      else
        var best', beta' := Min(best, v), Min(beta, v);
        if Le(beta', alpha) then best' else Search(st, moves, k + 1, depth, maximizing, alpha, beta', best')
  }

  /** The same tree without pruning: the plain minimax value over the same candidates. */
  function MinimaxValue(st: State, depth: int, maximizing: bool): Ext
    requires ValidState(st)
    decreases |EmptyCells(st.grid)|, 1, 0
  {
    if depth == 0 || GameOver(st) then Fin(BoardScore(st))
    else Fold(st, ValidMoves(st), 0, depth, maximizing, if maximizing then NegInf else PosInf)
  }

  function Fold(st: State, moves: seq<Move>, k: nat, depth: int, maximizing: bool, acc: Ext): Ext
    requires ValidState(st) && k <= |moves| && forall m :: m in moves ==> IsEmptyCell(st.grid, m)
    decreases |EmptyCells(st.grid)|, 0, |moves| - k
  {
    if k == |moves| then acc
    else
      ApplyKeepsValid(st, moves[k]);
      var v := MinimaxValue(Apply(st, moves[k]), depth - 1, !maximizing);
      Fold(st, moves, k + 1, depth, maximizing, if maximizing then Max(acc, v) else Min(acc, v))
  }

  lemma {:induction false} FoldBound(st: State, moves: seq<Move>, k: nat, depth: int, maximizing: bool, acc: Ext)
    requires ValidState(st) && k <= |moves| && forall m :: m in moves ==> IsEmptyCell(st.grid, m)
    ensures maximizing ==> Le(acc, Fold(st, moves, k, depth, maximizing, acc))
    ensures !maximizing ==> Le(Fold(st, moves, k, depth, maximizing, acc), acc)
    decreases |moves| - k
  {
    if k < |moves| {
      ApplyKeepsValid(st, moves[k]);
      var v := MinimaxValue(Apply(st, moves[k]), depth - 1, !maximizing);
      FoldBound(st, moves, k + 1, depth, maximizing, if maximizing then Max(acc, v) else Min(acc, v));
    }
  }

  // ---------------------------------------------------------------------------
  // Alpha-beta agrees with plain minimax inside its window
  // ---------------------------------------------------------------------------

  /**
   * The fail-soft guarantee: a result at or below `alpha` bounds the true
   * value from above, one at or above `beta` bounds it from below, and one
   * strictly inside the window is the true value.
   */
  predicate Bounds(v: Ext, t: Ext, alpha: Ext, beta: Ext) {
    && (Le(v, alpha) ==> Le(t, v))
    && (Le(beta, v) ==> Le(v, t))
    && (Lt(alpha, v) && Lt(v, beta) ==> t == v)
  }

  lemma {:induction false} AlphaBetaSound(st: State, depth: int, maximizing: bool, alpha: Ext, beta: Ext)
    requires ValidState(st) && Lt(alpha, beta)
    ensures Bounds(AlphaBeta(st, depth, maximizing, alpha, beta), MinimaxValue(st, depth, maximizing), alpha, beta)
    decreases |EmptyCells(st.grid)|, 1, 0
  {
    if depth == 0 || GameOver(st) {
    } else if maximizing {
      SearchMaxSound(st, ValidMoves(st), 0, depth, alpha, alpha, beta, NegInf, NegInf);
    } else {
      SearchMinSound(st, ValidMoves(st), 0, depth, alpha, beta, beta, PosInf, PosInf);
    }
  }

  /** One child of a maximizing loop: how the running values and the true maximum move on. */
  lemma MaxStep(a0: Ext, alpha: Ext, beta: Ext, best: Ext, bestT: Ext, v: Ext, t: Ext)
    requires alpha == Max(a0, best) && Lt(alpha, beta)
    requires Le(best, a0) ==> Le(bestT, best)
    requires Lt(a0, best) ==> bestT == best
    requires Bounds(v, t, alpha, beta)
    ensures Le(beta, Max(alpha, v)) ==> Max(best, v) == v && Le(beta, v) && Lt(a0, v) && Le(v, Max(bestT, t))
    ensures !Le(beta, Max(alpha, v)) ==>
              && Max(alpha, v) == Max(a0, Max(best, v))
              && (Le(Max(best, v), a0) ==> Le(Max(bestT, t), Max(best, v)))
              && (Lt(a0, Max(best, v)) ==> Max(bestT, t) == Max(best, v))
  {
  }

  /** One child of a minimizing loop, symmetrically. */
  lemma MinStep(alpha: Ext, b0: Ext, beta: Ext, best: Ext, bestT: Ext, v: Ext, t: Ext)
    requires beta == Min(b0, best) && Lt(alpha, beta)
    requires Le(b0, best) ==> Le(best, bestT)
    requires Lt(best, b0) ==> bestT == best
    requires Bounds(v, t, alpha, beta)
    ensures Le(Min(beta, v), alpha) ==> Min(best, v) == v && Le(v, alpha) && Lt(v, b0) && Le(Min(bestT, t), v)
    ensures !Le(Min(beta, v), alpha) ==>
              && Min(beta, v) == Min(b0, Min(best, v))
              && (Le(b0, Min(best, v)) ==> Le(Min(best, v), Min(bestT, t)))
              && (Lt(Min(best, v), b0) ==> Min(bestT, t) == Min(best, v))
  {
  }

  /**
   * A maximizing loop that started with bound `a0`: `best` is what it has
   * returned so far, `bestT` the plain maximum over the same children.
   */
  lemma {:induction false} SearchMaxSound(st: State, moves: seq<Move>, k: nat, depth: int,
                                          a0: Ext, alpha: Ext, beta: Ext, best: Ext, bestT: Ext)
    requires ValidState(st) && k <= |moves| && forall m :: m in moves ==> IsEmptyCell(st.grid, m)
    requires alpha == Max(a0, best) && Lt(alpha, beta)
    requires Le(best, a0) ==> Le(bestT, best)
    requires Lt(a0, best) ==> bestT == best
    ensures Bounds(Search(st, moves, k, depth, true, alpha, beta, best), Fold(st, moves, k, depth, true, bestT), a0, beta)
    decreases |EmptyCells(st.grid)|, 0, |moves| - k
  {
    if k < |moves| {
      ApplyKeepsValid(st, moves[k]);
      var child := Apply(st, moves[k]);
      var v := AlphaBeta(child, depth - 1, false, alpha, beta);
      var t := MinimaxValue(child, depth - 1, false);
      AlphaBetaSound(child, depth - 1, false, alpha, beta);
      var best', alpha', bestT' := Max(best, v), Max(alpha, v), Max(bestT, t);
      MaxStep(a0, alpha, beta, best, bestT, v, t);
      if Le(beta, alpha') {
        FoldBound(st, moves, k + 1, depth, true, bestT');
      } else {
        SearchMaxSound(st, moves, k + 1, depth, a0, alpha', beta, best', bestT');
      }
    }
  }

  /** The minimizing loop, symmetrically, with `b0` its starting upper bound. */
  lemma {:induction false} SearchMinSound(st: State, moves: seq<Move>, k: nat, depth: int,
                                          alpha: Ext, b0: Ext, beta: Ext, best: Ext, bestT: Ext)
    requires ValidState(st) && k <= |moves| && forall m :: m in moves ==> IsEmptyCell(st.grid, m)
    requires beta == Min(b0, best) && Lt(alpha, beta)
    requires Le(b0, best) ==> Le(best, bestT)
    requires Lt(best, b0) ==> bestT == best
    ensures Bounds(Search(st, moves, k, depth, false, alpha, beta, best), Fold(st, moves, k, depth, false, bestT), alpha, b0)
    decreases |EmptyCells(st.grid)|, 0, |moves| - k
  {
    if k < |moves| {
      ApplyKeepsValid(st, moves[k]);
      var child := Apply(st, moves[k]);
      var v := AlphaBeta(child, depth - 1, true, alpha, beta);
      var t := MinimaxValue(child, depth - 1, true);
      AlphaBetaSound(child, depth - 1, true, alpha, beta);
      var best', beta', bestT' := Min(best, v), Min(beta, v), Min(bestT, t);
      MinStep(alpha, b0, beta, best, bestT, v, t);
      if Le(beta', alpha) {
        FoldBound(st, moves, k + 1, depth, false, bestT');
      } else {
        SearchMinSound(st, moves, k + 1, depth, alpha, b0, beta', best', bestT');
      }
    }
  }

  /** With the full window the search returns exactly the plain minimax value. */
  lemma AlphaBetaExact(st: State, depth: int, maximizing: bool)
    requires ValidState(st)
    ensures AlphaBeta(st, depth, maximizing, NegInf, PosInf) == MinimaxValue(st, depth, maximizing)
  {
    AlphaBetaSound(st, depth, maximizing, NegInf, PosInf);
  }

  // ---------------------------------------------------------------------------
  // Every value is finite
  // ---------------------------------------------------------------------------

  /** Only the empty board or a full one has no candidates; the empty board has the centre. */
  lemma ValidMovesEmpty(st: State)
    requires ValidState(st)
    ensures ValidMoves(st) == [] <==> EmptyCells(st.grid) == []
  {
    var g := st.grid;
    EmptyCellsCount(g);
    if EmptyCells(g) == [] {
      var c := Candidates(st);
      if c != [] {
        CandidatesMembers(st, c[0]);
        EmptyCellsMembers(g, c[0].move);
        assert false;
      }
      assert ValidMoves(st) == Moves(Take(SortDesc(c), MaxCandidates));
    } else if !AllEmpty(g) {
      var a := EmptyCells(g)[0];
      EmptyCellsMembers(g, a);
      var r, c :| 0 <= r < |g| && 0 <= c < |g| && g[r][c] != 0;
      var x := EmptyNearStone(g, a, Move(r, c));
      var e := Scored(MoveScore(g, x, st.current), x);
      CandidatesMembers(st, e);
      assert |Candidates(st)| > 0;
      SortDescCorrect(Candidates(st));
    }
  }

  function Identity(maximizing: bool): Ext { if maximizing then NegInf else PosInf }

  lemma {:induction false} MinimaxFinite(st: State, depth: int, maximizing: bool)
    requires ValidState(st)
    ensures MinimaxValue(st, depth, maximizing).Fin?
    decreases |EmptyCells(st.grid)|, 1, 0
  {
    if !(depth == 0 || GameOver(st)) {
      ValidMovesEmpty(st);
      FoldFinite(st, ValidMoves(st), 0, depth, maximizing, Identity(maximizing));
    }
  }

  lemma {:induction false} FoldFinite(st: State, moves: seq<Move>, k: nat, depth: int, maximizing: bool, acc: Ext)
    requires ValidState(st) && k <= |moves| && forall m :: m in moves ==> IsEmptyCell(st.grid, m)
    requires acc.Fin? || (k < |moves| && acc == Identity(maximizing))
    ensures Fold(st, moves, k, depth, maximizing, acc).Fin?
    decreases |EmptyCells(st.grid)|, 0, |moves| - k
  {
    if k < |moves| {
      ApplyKeepsValid(st, moves[k]);
      var v := MinimaxValue(Apply(st, moves[k]), depth - 1, !maximizing);
      MinimaxFinite(Apply(st, moves[k]), depth - 1, !maximizing);
      FoldFinite(st, moves, k + 1, depth, maximizing, if maximizing then Max(acc, v) else Min(acc, v));
    }
  }

  /** The recursive `_minimax`, on board copies. */
  method MinimaxSearch(b: Board, depth: int, maximizing: bool, alpha: Ext, beta: Ext) returns (v: Ext)
    requires b.Valid()
    ensures v == AlphaBeta(b.Snapshot(), depth, maximizing, alpha, beta)
    decreases |EmptyCells(b.grid)|, 1
  {
    if depth == 0 || b.IsGameOver() {
      var score := EvaluateBoard(b);
      return Fin(score);
    }
    var moves := GetValidMoves(b);
    if maximizing {
      v := MaxLoop(b, moves, depth, alpha, beta);
    } else {
      v := MinLoop(b, moves, depth, alpha, beta);
    }
  }

  /** The `is_maximizing` branch of `_minimax`: raise `alpha`, stop once `beta <= alpha`. */
  method MaxLoop(b: Board, moves: seq<Move>, depth: int, alpha: Ext, beta: Ext) returns (v: Ext)
    requires b.Valid() && forall m :: m in moves ==> IsEmptyCell(b.grid, m)
    ensures v == Search(b.Snapshot(), moves, 0, depth, true, alpha, beta, NegInf)
    decreases |EmptyCells(b.grid)|, 0
  {
    var st := b.Snapshot();
    var maxEval, a := NegInf, alpha;
    var k := 0;
    while k < |moves|
      invariant 0 <= k <= |moves|
      invariant Search(st, moves, 0, depth, true, alpha, beta, NegInf) == Search(st, moves, k, depth, true, a, beta, maxEval)
    {
      var nb := b.Copy();
      var ok := nb.MakeMove(moves[k]);
      ApplyKeepsValid(st, moves[k]);
      assert nb.Snapshot() == Apply(st, moves[k]);
      var e := MinimaxSearch(nb, depth - 1, false, a, beta);
      ghost var rest := Search(st, moves, k, depth, true, a, beta, maxEval);
      maxEval := Max(maxEval, e);
      a := Max(a, e);
      assert rest == if Le(beta, a) then maxEval else Search(st, moves, k + 1, depth, true, a, beta, maxEval);
      if Le(beta, a) {
        return maxEval;
      }
      k := k + 1;
    }
    v := maxEval;
  }

  /** The minimizing branch of `_minimax`: lower `beta`, stop once `beta <= alpha`. */
  method MinLoop(b: Board, moves: seq<Move>, depth: int, alpha: Ext, beta: Ext) returns (v: Ext)
    requires b.Valid() && forall m :: m in moves ==> IsEmptyCell(b.grid, m)
    ensures v == Search(b.Snapshot(), moves, 0, depth, false, alpha, beta, PosInf)
    decreases |EmptyCells(b.grid)|, 0
  {
    var st := b.Snapshot();
    var minEval, bt := PosInf, beta;
    var k := 0;
    while k < |moves|
      invariant 0 <= k <= |moves|
      invariant Search(st, moves, 0, depth, false, alpha, beta, PosInf) == Search(st, moves, k, depth, false, alpha, bt, minEval)
    {
      var nb := b.Copy();
      var ok := nb.MakeMove(moves[k]);
      ApplyKeepsValid(st, moves[k]);
      assert nb.Snapshot() == Apply(st, moves[k]);
      var e := MinimaxSearch(nb, depth - 1, true, alpha, bt);
      ghost var rest := Search(st, moves, k, depth, false, alpha, bt, minEval);
      minEval := Min(minEval, e);
      bt := Min(bt, e);
      assert rest == if Le(bt, alpha) then minEval else Search(st, moves, k + 1, depth, false, alpha, bt, minEval);
      if Le(bt, alpha) {
        return minEval;
      }
      k := k + 1;
    }
    v := minEval;
  }

  // ---------------------------------------------------------------------------
  // get_move
  // ---------------------------------------------------------------------------

  /** The plain minimax value of the `j`-th root candidate, as the root loop scores it. */
  function RootValue(st: State, moves: seq<Move>, j: int, depth: int): Ext
    requires ValidState(st) && 0 <= j < |moves| && forall m :: m in moves ==> IsEmptyCell(st.grid, m)
  {
    ApplyKeepsValid(st, moves[j]);
    MinimaxValue(Apply(st, moves[j]), depth, false)
  }

  /**
   * The root loop of `get_move` from the `k`-th candidate on: each child is
   * searched with the bound raised to the best score so far, and a child
   * replaces the chosen move only when it scores strictly higher.
   */
  function RootSearch(st: State, moves: seq<Move>, k: nat, depth: int, alpha: Ext, best: Ext,
                      chosen: Option<Move>): Option<Move>
    requires ValidState(st) && k <= |moves| && forall m :: m in moves ==> IsEmptyCell(st.grid, m)
    decreases |moves| - k
  {
    if k == |moves| then chosen
    else
      ApplyKeepsValid(st, moves[k]);
      var score := AlphaBeta(Apply(st, moves[k]), depth, false, alpha, PosInf);
      var better := Lt(best, score);
      var best' := if better then score else best;
      var chosen' := if better then Some(moves[k]) else chosen;
      RootSearch(st, moves, k + 1, depth, Max(alpha, best'), best', chosen')
  }

  /**
   * What `get_move` answers for a player searching `maxDepth` plies: nothing
   * without candidates; the centre when every cell is a candidate; the first
   * winning candidate; the first candidate that blocks the opponent's win;
   * otherwise the choice of the root search.
   */
  function ChooseMove(st: State, maxDepth: int): Option<Move>
    requires ValidState(st)
  {
    var valid := ValidMoves(st);
    var n := |st.grid|;
    if valid == [] then None
    else if |valid| == n * n then Some(CenterMove(n))
    else
      var win := FirstWin(st.grid, valid, st.current);
      if win.Some? then win
      else
        var block := FirstWin(st.grid, valid, -st.current);
        if block.Some? then block
        else RootSearch(st, valid, 0, maxDepth - 1, NegInf, NegInf, None)
  }

  /** `get_move`. The board it is given is only read: every trial move is made on a copy. */
  method GetMove(b: Board, maxDepth: int) returns (r: Option<Move>)
    requires b.Valid()
    ensures r == ChooseMove(b.Snapshot(), maxDepth)
  {
    var st := b.Snapshot();
    var valid := GetValidMoves(b);
    if |valid| == 0 {
      return None;
    }
    var n := |b.grid|;
    if |valid| == n * n {
      return Some(CenterMove(n));
    }
    var win := FindWin(b.grid, valid, b.current);
    if win.Some? {
      return win;
    }
    var block := FindWin(b.grid, valid, -b.current);
    if block.Some? {
      return block;
    }
    r := SearchRoot(b, valid, maxDepth);
  }

  /**
   * The loop of `get_move` over the candidates: each one is tried on a copy
   * of the board and scored by the alpha-beta search of the opponent's
   * reply, and the first strictly best one is kept.
   */
  method SearchRoot(b: Board, valid: seq<Move>, maxDepth: int) returns (bestMove: Option<Move>)
    requires b.Valid() && forall m :: m in valid ==> IsEmptyCell(b.grid, m)
    ensures bestMove == RootSearch(b.Snapshot(), valid, 0, maxDepth - 1, NegInf, NegInf, None)
  {
    var st := b.Snapshot();
    var alpha, beta := NegInf, PosInf;
    var bestScore: Ext := NegInf;
    bestMove := None;
    for k := 0 to |valid|
      invariant RootSearch(st, valid, 0, maxDepth - 1, NegInf, NegInf, None) ==
                RootSearch(st, valid, k, maxDepth - 1, alpha, bestScore, bestMove)
    {
      var nb := b.Copy();
      var ok := nb.MakeMove(valid[k]);
      ApplyKeepsValid(st, valid[k]);
      assert nb.Snapshot() == Apply(st, valid[k]);
      var score := MinimaxSearch(nb, maxDepth - 1, false, alpha, beta);
      ghost var rest := RootSearch(st, valid, k, maxDepth - 1, alpha, bestScore, bestMove);
      if Lt(bestScore, score) {
        bestScore := score;
        bestMove := Some(valid[k]);
      }
      alpha := Max(alpha, bestScore);
      assert rest == RootSearch(st, valid, k + 1, maxDepth - 1, alpha, bestScore, bestMove);
    }
  }

  // ---------------------------------------------------------------------------
  // What get_move guarantees
  // ---------------------------------------------------------------------------

  /** The `i`-th root candidate has the largest value, and every candidate before it a smaller one. */
  predicate IsFirstBest(st: State, moves: seq<Move>, i: int, depth: int)
    requires ValidState(st) && forall m :: m in moves ==> IsEmptyCell(st.grid, m)
  {
    && 0 <= i < |moves|
    && (forall j :: 0 <= j < |moves| ==> Le(RootValue(st, moves, j, depth), RootValue(st, moves, i, depth)))
    && (forall j :: 0 <= j < i ==> Lt(RootValue(st, moves, j, depth), RootValue(st, moves, i, depth)))
  }

  /** The root answer `r` is the `i`-th candidate and the first best one, or nothing when every value is `-inf`. */
  predicate RootAnswer(st: State, moves: seq<Move>, depth: int, r: Option<Move>, i: int)
    requires ValidState(st) && forall m :: m in moves ==> IsEmptyCell(st.grid, m)
  {
    && (r.None? ==> forall j :: 0 <= j < |moves| ==> RootValue(st, moves, j, depth) == NegInf)
    && (r.Some? ==> IsFirstBest(st, moves, i, depth) && r.value == moves[i])
  }

  /**
   * What the root loop keeps after `k` candidates: `best` bounds the values
   * seen, it is `-inf` exactly while nothing is chosen, and the choice is the
   * first candidate reaching it.
   */
  ghost predicate RootKeeps(st: State, moves: seq<Move>, k: nat, depth: int, best: Ext, chosen: Option<Move>, idx: int)
    requires ValidState(st) && k <= |moves| && forall m :: m in moves ==> IsEmptyCell(st.grid, m)
  {
    && (forall j :: 0 <= j < k ==> Le(RootValue(st, moves, j, depth), best))
    && (best.NegInf? <==> chosen.None?)
    && (chosen.Some? ==> 0 <= idx < k && chosen.value == moves[idx] && RootValue(st, moves, idx, depth) == best &&
                         forall j :: 0 <= j < idx ==> Lt(RootValue(st, moves, j, depth), best))
  }

  /** One pass of the root loop keeps `RootKeeps`, although it scores with alpha-beta and not plain minimax. */
  lemma RootStep(st: State, moves: seq<Move>, k: nat, depth: int, best: Ext, chosen: Option<Move>, idx: int)
    returns (idx': int)
    requires ValidState(st) && k < |moves| && forall m :: m in moves ==> IsEmptyCell(st.grid, m)
    requires RootKeeps(st, moves, k, depth, best, chosen, idx)
    ensures moves[k] in moves && ValidState(Apply(st, moves[k]))
    ensures var score := AlphaBeta(Apply(st, moves[k]), depth, false, best, PosInf);
      var better := Lt(best, score);
      var best' := if better then score else best;
      && Max(best, best') == best'
      && RootKeeps(st, moves, k + 1, depth, best', if better then Some(moves[k]) else chosen, idx')
  {
    ApplyKeepsValid(st, moves[k]);
    var child := Apply(st, moves[k]);
    var score := AlphaBeta(child, depth, false, best, PosInf);
    var t := RootValue(st, moves, k, depth);
    assert t == MinimaxValue(child, depth, false);
    if Lt(best, PosInf) {
      AlphaBetaSound(child, depth, false, best, PosInf);
    }
    if Lt(best, score) {
      assert t == score;
      idx' := k;
    } else {
      assert Le(t, best);
      idx' := idx;
    }
  }

  /** Once every candidate is seen, `RootKeeps` says the choice is the first best one. */
  lemma RootDone(st: State, moves: seq<Move>, depth: int, alpha: Ext, best: Ext, chosen: Option<Move>, idx: int)
    requires ValidState(st) && forall m :: m in moves ==> IsEmptyCell(st.grid, m)
    requires RootKeeps(st, moves, |moves|, depth, best, chosen, idx)
    ensures RootAnswer(st, moves, depth, RootSearch(st, moves, |moves|, depth, alpha, best, chosen), idx)
  {
    assert RootSearch(st, moves, |moves|, depth, alpha, best, chosen) == chosen;
  }

  /**
   * The root loop keeps the best plain minimax value seen so far as its bound
   * and the first child reaching it as its choice.
   */
  lemma {:induction false} RootSearchBest(st: State, moves: seq<Move>, k: nat, depth: int, alpha: Ext, best: Ext,
                                          chosen: Option<Move>, idx: int) returns (i: int)
    requires ValidState(st) && k <= |moves| && forall m :: m in moves ==> IsEmptyCell(st.grid, m)
    requires alpha == best && RootKeeps(st, moves, k, depth, best, chosen, idx)
    ensures RootAnswer(st, moves, depth, RootSearch(st, moves, k, depth, alpha, best, chosen), i)
    decreases |moves| - k
  {
    if k == |moves| {
      i := idx;
      RootDone(st, moves, depth, alpha, best, chosen, idx);
    } else {
      var best', chosen', idx' := RootAdvance(st, moves, k, depth, best, chosen, idx);
      i := RootSearchBest(st, moves, k + 1, depth, best', best', chosen', idx');
    }
  }

  /** One candidate of the root loop keeps `RootKeeps` and leaves the rest of the search to the next candidate. */
  lemma RootAdvance(st: State, moves: seq<Move>, k: nat, depth: int, best: Ext, chosen: Option<Move>, idx: int)
    returns (best': Ext, chosen': Option<Move>, idx': int)
    requires ValidState(st) && k < |moves| && forall m :: m in moves ==> IsEmptyCell(st.grid, m)
    requires RootKeeps(st, moves, k, depth, best, chosen, idx)
    ensures RootKeeps(st, moves, k + 1, depth, best', chosen', idx')
    ensures RootSearch(st, moves, k, depth, best, best, chosen) == RootSearch(st, moves, k + 1, depth, best', best', chosen')
  {
    idx' := RootStep(st, moves, k, depth, best, chosen, idx);
    best', chosen' := RootUnfold(st, moves, k, depth, best, chosen);
  }

  /** One candidate of the root loop, with the bound equal to the best value so far. */
  lemma RootUnfold(st: State, moves: seq<Move>, k: nat, depth: int, best: Ext, chosen: Option<Move>)
    returns (best': Ext, chosen': Option<Move>)
    requires ValidState(st) && k < |moves| && forall m :: m in moves ==> IsEmptyCell(st.grid, m)
    ensures moves[k] in moves && IsEmptyCell(st.grid, moves[k]) && ValidState(Apply(st, moves[k]))
    ensures var score := AlphaBeta(Apply(st, moves[k]), depth, false, best, PosInf);
      && best' == (if Lt(best, score) then score else best)
      && chosen' == (if Lt(best, score) then Some(moves[k]) else chosen)
    ensures RootSearch(st, moves, k, depth, best, best, chosen) == RootSearch(st, moves, k + 1, depth, best', best', chosen')
  {
    ApplyKeepsValid(st, moves[k]);
    var score := AlphaBeta(Apply(st, moves[k]), depth, false, best, PosInf);
    best' := if Lt(best, score) then score else best;
    chosen' := if Lt(best, score) then Some(moves[k]) else chosen;
    assert Max(best, best') == best';
  }

  /** `get_move` answers nothing exactly when no cell is empty. */
  lemma ChooseMoveNone(st: State, maxDepth: int)
    requires ValidState(st)
    ensures ChooseMove(st, maxDepth) == None <==> EmptyCells(st.grid) == []
  {
    var valid := ValidMoves(st);
    ValidMovesEmpty(st);
    var n := |st.grid|;
    if valid != [] && |valid| != n * n &&
       FirstWin(st.grid, valid, st.current).None? && FirstWin(st.grid, valid, -st.current).None? {
      var i := RootSearchBest(st, valid, 0, maxDepth - 1, NegInf, NegInf, None, 0);
      MinimaxFinite(Apply(st, valid[0]), maxDepth - 1, false);
      ApplyKeepsValid(st, valid[0]);
      assert RootValue(st, valid, 0, maxDepth - 1).Fin?;
    }
  }

  /** Only an empty board can have every cell as a candidate. */
  lemma FullListMeansEmpty(st: State)
    requires ValidState(st) && |ValidMoves(st)| == |st.grid| * |st.grid|
    ensures AllEmpty(st.grid)
  {
    EmptyCellsCount(st.grid);
    if !AllEmpty(st.grid) {
      CandidatesCount(st);
    }
  }

  /** Whatever `get_move` answers is one of the candidates. */
  lemma ChooseMoveMember(st: State, maxDepth: int)
    requires ValidState(st) && ChooseMove(st, maxDepth).Some?
    ensures ChooseMove(st, maxDepth).value in ValidMoves(st)
  {
    var valid := ValidMoves(st);
    var n := |st.grid|;
    if |valid| == n * n {
      FullListMeansEmpty(st);
      ValidMovesEmptyBoard(st);
    } else if FirstWin(st.grid, valid, st.current).None? && FirstWin(st.grid, valid, -st.current).None? {
      var i := RootSearchBest(st, valid, 0, maxDepth - 1, NegInf, NegInf, None, 0);
    }
  }

  /**
   * When no candidate wins or blocks, `get_move` answers the first candidate
   * whose plain minimax value, with the opponent to move next, is largest.
   */
  lemma ChooseMoveBest(st: State, maxDepth: int)
    requires ValidState(st) && !AllEmpty(st.grid) && EmptyCells(st.grid) != []
    requires forall m :: m in ValidMoves(st) ==> !IsWin(st.grid, m, st.current) && !IsWin(st.grid, m, -st.current)
    ensures var valid := ValidMoves(st);
      exists i :: 0 <= i < |valid| && ChooseMove(st, maxDepth) == Some(valid[i]) && IsFirstBest(st, valid, i, maxDepth - 1)
  {
    var valid := ValidMoves(st);
    ChooseMoveNone(st, maxDepth);
    ChooseMoveMember(st, maxDepth);
    ValidMovesEmpty(st);
    EmptyCellsCount(st.grid);
    var n := |st.grid|;
    if |valid| == n * n {
      FullListMeansEmpty(st);
    }
    FirstWinSpec(st.grid, valid, st.current);
    FirstWinSpec(st.grid, valid, -st.current);
    var i := RootSearchBest(st, valid, 0, maxDepth - 1, NegInf, NegInf, None, 0);
  }

  /**
   * The forced short cut of `get_move`: the first candidate that wins for
   * the player to move; failing that, the first candidate that wins for the
   * opponent.
   */
  lemma ChooseMoveForced(st: State, maxDepth: int)
    requires ValidState(st)
    ensures forall m :: m in ValidMoves(st) ==> InBounds(st.grid, m.row, m.col)
    ensures var valid := ValidMoves(st);
      forall i :: IsFirstWin(st.grid, valid, i, st.current) ==> ChooseMove(st, maxDepth) == Some(valid[i])
    ensures var valid := ValidMoves(st);
      (forall m :: m in valid ==> !IsWin(st.grid, m, st.current)) ==>
      forall i :: IsFirstWin(st.grid, valid, i, -st.current) ==> ChooseMove(st, maxDepth) == Some(valid[i])
  {
    var valid := ValidMoves(st);
    var n := |st.grid|;
    if |valid| == n * n {
      FullListMeansEmpty(st);
      forall m | m in valid
        ensures !IsWin(st.grid, m, st.current) && !IsWin(st.grid, m, -st.current)
      {
        NoWinOnEmpty(st.grid, m, st.current);
        NoWinOnEmpty(st.grid, m, -st.current);
      }
    } else {
      FirstWinSpec(st.grid, valid, st.current);
      FirstWinSpec(st.grid, valid, -st.current);
    }
  }
}
