/**
 * The board both engines read and copy. Its own source file is not part of
 * this model; what is here is the smallest board that provides what the
 * engines use: the cell matrix `board[i][j]` (0 empty, 1 and -1 the two
 * players), its side `size`, `current_player`, and the operations
 * `get_valid_moves`, `make_move`, `copy`, `check_win` and `is_game_over`.
 */
module Board {

  /** The side of a board created without arguments. */
  const DefaultSize: nat := 15

  /** The cell matrix, row by row. Its side is `|g|`. */
  type Grid = seq<seq<int>>

  /** A (row, column) pair, both 0-based. */
  datatype Move = Move(row: int, col: int)

  /** The value of a board: its cells and the player who moves next. */
  datatype State = State(grid: Grid, current: int)

  /** The four axes the engines scan, in the order the source lists them. */
  const Directions: seq<(int, int)> := [(1, 0), (0, 1), (1, 1), (1, -1)]

  predicate IsPlayer(p: int) { p == 1 || p == -1 }

  /** `-player`: the other side. */
  function Opponent(p: int): int { -p }

  predicate IsStone(v: int) { v == -1 || v == 0 || v == 1 }

  predicate IsSquare(g: Grid) { forall i :: 0 <= i < |g| ==> |g[i]| == |g| }

  predicate InBounds(g: Grid, r: int, c: int) { 0 <= r < |g| && 0 <= c < |g| }

  /** What every board the engines see satisfies. */
  predicate ValidState(st: State) {
    && |st.grid| > 0
    && IsSquare(st.grid)
    && IsPlayer(st.current)
    && forall i, j :: 0 <= i < |st.grid| && 0 <= j < |st.grid| ==> IsStone(st.grid[i][j])
  }

  predicate IsEmptyCell(g: Grid, m: Move) {
    IsSquare(g) && InBounds(g, m.row, m.col) && g[m.row][m.col] == 0
  }

  predicate AllEmpty(g: Grid)
    requires IsSquare(g)
  {
    forall r, c :: 0 <= r < |g| && 0 <= c < |g| ==> g[r][c] == 0
  }

  /** The cell `t` steps from `x` along a unit step `d` (negative `t` walks backwards). */
  function Pos(x: int, d: int, t: int): int {
    if d > 0 then x + t else if d < 0 then x - t else x
  }

  function EmptyGrid(n: nat): (g: Grid)
    ensures |g| == n && IsSquare(g) && AllEmpty(g)
  {
    seq(n, _ => seq(n, _ => 0))
  }

  /** The grid with one cell overwritten, as `board[i][j] = v` does on a copy. */
  function Place(g: Grid, m: Move, v: int): (t: Grid)
    requires IsSquare(g) && InBounds(g, m.row, m.col)
    ensures |t| == |g| && IsSquare(t)
    ensures t[m.row][m.col] == v
    ensures forall r, c :: InBounds(g, r, c) && (r != m.row || c != m.col) ==> t[r][c] == g[r][c]
  {
    g[m.row := g[m.row][m.col := v]]
  }

  /** Overwriting a cell twice leaves the second value. */
  lemma PlaceTwice(g: Grid, m: Move, a: int, b: int)
    requires IsSquare(g) && InBounds(g, m.row, m.col)
    ensures Place(Place(g, m, a), m, b) == Place(g, m, b)
  {
    assert Place(g, m, a)[m.row][m.col := b] == g[m.row][m.col := b];
  }

  /** The state after the player to move puts a stone on `m`. */
  function Apply(st: State, m: Move): State
    requires IsSquare(st.grid) && InBounds(st.grid, m.row, m.col)
  {
    State(Place(st.grid, m, st.current), -st.current)
  }

  // ---------------------------------------------------------------------------
  // get_valid_moves: the empty cells in row-major order
  // ---------------------------------------------------------------------------

  /** The empty cells among `row[0 .. j - 1]` of row `i`, left to right. */
  function EmptyInRow(row: seq<int>, i: int, j: int): seq<Move>
    requires 0 <= j <= |row|
  {
    if j == 0 then [] else EmptyInRow(row, i, j - 1) + (if row[j - 1] == 0 then [Move(i, j - 1)] else [])
  }

  /** The empty cells of rows `0 .. i - 1`, in row-major order. */
  function EmptyInRows(g: Grid, i: int): seq<Move>
    requires IsSquare(g) && 0 <= i <= |g|
  {
    if i == 0 then [] else EmptyInRows(g, i - 1) + EmptyInRow(g[i - 1], i - 1, |g|)
  }

  function EmptyCells(g: Grid): seq<Move>
    requires IsSquare(g)
  {
    EmptyInRows(g, |g|)
  }

  lemma {:induction false} EmptyInRowMembers(row: seq<int>, i: int, j: int, m: Move)
    requires 0 <= j <= |row|
    ensures m in EmptyInRow(row, i, j) <==> m.row == i && 0 <= m.col < j && row[m.col] == 0
  {
    if j > 0 {
      EmptyInRowMembers(row, i, j - 1, m);
    }
  }

  lemma {:induction false} EmptyInRowsMembers(g: Grid, i: int, m: Move)
    requires IsSquare(g) && 0 <= i <= |g|
    ensures m in EmptyInRows(g, i) <==> 0 <= m.row < i && 0 <= m.col < |g| && g[m.row][m.col] == 0
  {
    if i > 0 {
      EmptyInRowsMembers(g, i - 1, m);
      EmptyInRowMembers(g[i - 1], i - 1, |g|, m);
    }
  }

  /** `get_valid_moves` lists exactly the empty cells. */
  lemma EmptyCellsMembers(g: Grid, m: Move)
    requires IsSquare(g)
    ensures m in EmptyCells(g) <==> IsEmptyCell(g, m)
  {
    EmptyInRowsMembers(g, |g|, m);
  }

  lemma EmptyCellsAreEmpty(g: Grid)
    requires IsSquare(g)
    ensures forall m :: m in EmptyCells(g) ==> IsEmptyCell(g, m)
  {
    forall m | m in EmptyCells(g) ensures IsEmptyCell(g, m) {
      EmptyCellsMembers(g, m);
    }
  }

  lemma {:induction false} EmptyInRowCount(row: seq<int>, i: int, j: int)
    requires 0 <= j <= |row|
    ensures |EmptyInRow(row, i, j)| <= j
    ensures |EmptyInRow(row, i, j)| == j <==> forall c :: 0 <= c < j ==> row[c] == 0
  {
    if j > 0 {
      EmptyInRowCount(row, i, j - 1);
    }
  }

  lemma {:induction false} EmptyInRowsCount(g: Grid, i: int)
    requires IsSquare(g) && 0 <= i <= |g|
    ensures |EmptyInRows(g, i)| <= i * |g|
    ensures |EmptyInRows(g, i)| == i * |g| <==>
            forall r, c :: 0 <= r < i && 0 <= c < |g| ==> g[r][c] == 0
  {
    if i > 0 {
      EmptyInRowsCount(g, i - 1);
      EmptyInRowCount(g[i - 1], i - 1, |g|);
      assert i * |g| == (i - 1) * |g| + |g|;
      if |EmptyInRows(g, i)| == i * |g| {
        forall r, c | 0 <= r < i && 0 <= c < |g| ensures g[r][c] == 0 {
          if r < i - 1 { } else { }
        }
      }
    }
  }

  /** The board has `size * size` valid moves exactly when it is empty. */
  lemma EmptyCellsCount(g: Grid)
    requires IsSquare(g)
    ensures |EmptyCells(g)| <= |g| * |g|
    ensures |EmptyCells(g)| == |g| * |g| <==> AllEmpty(g)
  {
    EmptyInRowsCount(g, |g|);
  }

  lemma {:induction false} PlaceInRowCount(row: seq<int>, i: int, j: int, c: int, v: int)
    requires 0 <= j <= |row| && 0 <= c < |row| && row[c] == 0 && v != 0
    ensures |EmptyInRow(row[c := v], i, j)| == |EmptyInRow(row, i, j)| - (if c < j then 1 else 0)
  {
    if j > 0 {
      PlaceInRowCount(row, i, j - 1, c, v);
    }
  }

  lemma {:induction false} PlaceInRowsCount(g: Grid, i: int, m: Move, v: int)
    requires IsEmptyCell(g, m) && v != 0 && 0 <= i <= |g|
    ensures |EmptyInRows(Place(g, m, v), i)| == |EmptyInRows(g, i)| - (if m.row < i then 1 else 0)
  {
    if i > 0 {
      PlaceInRowsCount(g, i - 1, m, v);
      var t := Place(g, m, v);
      if i - 1 == m.row {
        PlaceInRowCount(g[m.row], m.row, |g|, m.col, v);
        assert t[i - 1] == g[m.row][m.col := v];
      } else {
        assert t[i - 1] == g[i - 1];
      }
    }
  }

  /** A stone put on an empty cell removes exactly one valid move. */
  lemma PlaceRemovesOneEmpty(g: Grid, m: Move, v: int)
    requires IsEmptyCell(g, m) && v != 0
    ensures |EmptyCells(Place(g, m, v))| == |EmptyCells(g)| - 1
  {
    PlaceInRowsCount(g, |g|, m, v);
  }

  lemma ApplyKeepsValid(st: State, m: Move)
    requires ValidState(st) && IsEmptyCell(st.grid, m)
    ensures ValidState(Apply(st, m))
    ensures |EmptyCells(Apply(st, m).grid)| == |EmptyCells(st.grid)| - 1
  {
    PlaceRemovesOneEmpty(st.grid, m, st.current);
  }

  // ---------------------------------------------------------------------------
  // check_win: a five-in-a-row anywhere on the board
  // ---------------------------------------------------------------------------

  /** Five `p` stones from `(r, c)` along axis `k`. */
  predicate FiveFrom(g: Grid, r: int, c: int, k: int, p: int)
    requires IsSquare(g) && 0 <= k < 4
  {
    forall t | 0 <= t < 5 ::
      && InBounds(g, Pos(r, Directions[k].0, t), Pos(c, Directions[k].1, t))
      && g[Pos(r, Directions[k].0, t)][Pos(c, Directions[k].1, t)] == p
  }

  predicate HasFive(g: Grid, p: int)
    requires IsSquare(g)
  {
    exists r, c, k | 0 <= r < |g| && 0 <= c < |g| && 0 <= k < 4 :: FiveFrom(g, r, c, k, p)
  }

  /** The player with five in a row, or 0 when there is none. */
  function Winner(g: Grid): (w: int)
    requires IsSquare(g)
    ensures w != 0 ==> HasFive(g, w)
    ensures w == 0 <==> !HasFive(g, 1) && !HasFive(g, -1)
  {
    if HasFive(g, 1) then 1 else if HasFive(g, -1) then -1 else 0
  }

  predicate GameOver(st: State)
    requires IsSquare(st.grid)
  {
    Winner(st.grid) != 0 || EmptyCells(st.grid) == []
  }

  // ---------------------------------------------------------------------------
  // The board object
  // ---------------------------------------------------------------------------

  class Board {
    var grid: Grid
    var current: int

    ghost predicate Valid()
      reads this
    {
      ValidState(State(grid, current))
    }

    function Snapshot(): State
      reads this
    {
      State(grid, current)
    }

    /** A fresh board: every cell empty, player 1 to move. */
    constructor ()
      ensures grid == EmptyGrid(DefaultSize) && current == 1
      ensures Valid()
    {
      grid := EmptyGrid(DefaultSize);
      current := 1;
    }

    /** A board holding the given value. */
    constructor Of(st: State)
      ensures Snapshot() == st
    {
      grid := st.grid;
      current := st.current;
    }

    /** `copy`: an independent board with the same cells and player to move. */
    method Copy() returns (b: Board)
      ensures fresh(b) && b.Snapshot() == Snapshot()
    {
      b := new Board.Of(Snapshot());
    }

    predicate IsValidMove(m: Move)
      reads this
    {
      IsEmptyCell(grid, m)
    }

    function GetValidMoves(): seq<Move>
      reads this
      requires IsSquare(grid)
    {
      EmptyCells(grid)
    }

    function CheckWin(): int
      reads this
      requires IsSquare(grid)
    {
      Winner(grid)
    }

    function IsGameOver(): bool
      reads this
      requires IsSquare(grid)
    {
      GameOver(Snapshot())
    }

    /**
     * `make_move`: puts the mover's stone on `m` and passes the turn. An
     * occupied or out-of-range cell is refused and nothing changes.
     */
    method MakeMove(m: Move) returns (ok: bool)
      modifies this
      ensures ok == IsEmptyCell(old(grid), m)
      ensures ok ==> Snapshot() == Apply(old(Snapshot()), m)
      ensures !ok ==> Snapshot() == old(Snapshot())
    {
      ok := IsEmptyCell(grid, m);
      if ok {
        grid := Place(grid, m, current);
        current := -current;
      }
    }
  }
}
