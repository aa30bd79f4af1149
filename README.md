# Gomoku decision engines in Dafny

This project models the move-choosing core of a five-in-a-row (Gomoku)
player on a square board of cells holding 0 (empty), 1 or -1. The core has
two engines, and the model covers both.

- **Minimax engine** (`minimax.py`, class `GomokuAI`):
  - a directional pattern scanner and its score table;
  - a one-move five-in-a-row check;
  - a neighbour-filtered, top-15 candidate generator;
  - a static board evaluator;
  - alpha-beta minimax with a forced-win / forced-block short cut at the root.
- **Monte-Carlo tree search engine** (`mcts.py`, classes `Node` and `MCTS`):
  - a second line table, a distance window and a quick rollout score;
  - a priority-bucketed, top-10 move sorter;
  - the node class with `add_child`, `update` and `select_child`;
  - the select / expand / rollout / backpropagate loop;
  - the final "most visited child" choice.

Modules, one file each:

| module | file | what it holds |
|---|---|---|
| `Wrappers` | `wrappers.dfy` | `Option` |
| `Board` | `board.dfy` | The minimal board the engines call: grid, player to move, copy, `make_move`, `get_valid_moves`, `check_win`, `is_game_over`. It is a class over a `State` value. |
| `Sorting` | `sorting.dfy` | Python's `list.sort(reverse=True)` on `(score, move)` tuples, and slicing `[:k]`. |
| `Lines` | `lines.dfy` | The one side-walking loop that all three scanners share, the run length through a cell, and the five-in-a-row check. |
| `MinimaxEval` | `minimax_eval.dfy` | The pattern table, the pattern, the move and board scores, and the candidate list. |
| `Minimax` | `minimax.dfy` | Alpha-beta search, plain minimax as its reference, and `get_move`. |
| `MctsEval` | `mcts_eval.dfy` | The line table, the distance window, the quick score, the move sorter and the rollout policy. |
| `Mcts` | `mcts.dfy` | The `Node` class, the tree invariants, one search iteration, the search loop and `get_move`. |

Each loop of the source is a method. Where a method computes a value, it
is proved equal to a specification function, and the properties are proved
about those functions. The methods of the tree search (`Select`, `Expand`,
`Backpropagate`, one search pass, the search loop and `get_move`) change
the tree instead. Their contracts relate the new tree to the old one: which
nodes gain a visit and what they score, which child is added, and which
path selection walks. The tree of the search is a set of `Node` objects. Each node keeps
`children`, `untried`, `visits` and `wins` as fields that the methods update
in place. Ghost predicates state that the nodes form a tree rooted at the
root, that each child's board is its parent's board after the child's move,
and that `0 <= wins <= visits` at every node.

Where the code and the game's usual description differ, the model follows
the code:

- Leaving the board never counts as a blocked end. Only an opponent stone
  blocks.
- The minimax leaf score is taken for the player to move on the leaf board,
  not for the root's player.
- Every node on the backpropagation path gets the same result. That result
  is scored for the player to move on the expanded leaf, not for the root's
  player.
- The rollout looks at the first six empty cells in row-major order, not at
  the six best-scored ones. It takes the first winning move among them. It
  blocks with the *last* opponent-winning move among them, because that loop
  does not stop at a block.
- `_quick_evaluate_move` shares one empty-cell counter between the two sides
  of an axis. After a gap on the forward side, the backward side counts no
  stones.
- `select_child` and the final choice take the *last* child with the largest
  key. The sort is stable and the code takes its last element.
- The forced-move check of the tree search looks only at the root's sorted
  moves. `ForcedMoveSpec` proves that this is still "the first winning empty
  cell, else the first blocking one".
- The candidate cap is 15 for the minimax engine and 10 for the move sorter.
- The forced-move check of the minimax engine scans only the (at most 15)
  candidates of `_get_valid_moves`, not every empty cell. A blocking cell
  scores at least 110000 − 10·d from its defence term, while a winning cell
  is only sure of 100000 − 10·d (`WinningMoveScore`). So a one-move win can
  be cut off when fifteen other cells outrank it. The model keeps that cap;
  `WinningMoveScore` is a bound on the score, not a promise that such a win
  is always found. The tree search has no such gap (`ForcedMoveSpec` covers
  every empty cell).

## Model

| member | source | states |
|---|---|---|
| Board.Board.MakeMove | minimax.py:49-50 | On an empty cell the board becomes the old state with the mover's stone placed and the turn passed. Otherwise nothing changes and the answer is false. |
| Board.Board.Copy | minimax.py:49 | The copy is a new object with the same grid and player to move. |
| Board.Winner | mcts.py:292 | Non-zero only for a player who has five in a row. 0 exactly when neither player has five. |
| Board.EmptyCellsMembers | mcts.py:261 | `get_valid_moves` lists exactly the empty cells. |
| Board.EmptyCellsCount | minimax.py:63 | There are at most n·n empty cells. There are exactly n·n only on an empty board. |
| Board.ApplyKeepsValid | mcts.py:289 | A move on an empty cell keeps the board well formed and removes exactly one empty cell. This is why the rollout and the search end. |
| Board.PlaceTwice | minimax.py:178-185 | Writing a cell twice leaves only the second value. |
| Sorting.SortDescCorrect | minimax.py:75 | The descending sort is sorted by `(score, move)` and is a permutation of its input. |
| Sorting.TopPrefix | minimax.py:75-76 | An element dropped by the cut to the first k ranks at or below every kept one. |
| Sorting.Take | mcts.py:60 | Python's `[:k]`: a prefix of length min(k, len). |
| Sorting.TakeMoves | mcts.py:58-60 | Cutting the scored list and then dropping the scores gives the same moves as the other order. |
| Sorting.MovesMembers | minimax.py:76 | A move is in the projected list exactly when some scored pair carries it. |
| Lines.Walk | minimax.py:215-230 | The side-walking loop computes the side specification `Ray`. |
| Lines.RayFromStart | minimax.py:214-248 | From a fresh start a side counts exactly the run of the player's stones. At most one gap follows the run. It is blocked exactly when an opponent stone comes next, or comes right after that one gap. The edge never blocks. |
| Lines.RayAfterGap | mcts.py:344-360 | A side that starts after a gap counts no stones and looks at one cell only. |
| Lines.PatternBounds | minimax.py:207-250 | consecutive equals the run through the cell on both sides, and is at least 1. blocked ≤ 2 and space ≤ 4. |
| Lines.IsWinningMove | minimax.py:120-144 | The check on a copy answers true exactly when some axis has five or more of the player's stones through the move. |
| Lines.CountLine | mcts.py:310-325 | The two walks count the placed stone plus the player's runs on either side. |
| Lines.WinIffFive | mcts.py:62-87 | The check is true exactly when the placed stone lies in some five-cell window of the player's stones. |
| Lines.WinMakesFive | mcts.py:34 | A winning move leaves the player with five in a row on the board. |
| Lines.NewFiveIsWin | mcts.py:34 | A move that creates the player's first five is a winning move. |
| Lines.NoWinOnEmpty | mcts.py:232-238 | On an empty board no move wins. |
| Lines.FirstWinSpec | minimax.py:33-40 | The scan finds nothing exactly when no move wins. Otherwise it finds the winning move of least index. |
| Lines.FirstWinAppend | mcts.py:32-35 | Scanning a concatenation finds the first win of the front part, else that of the back part. |
| Lines.FindWin | minimax.py:33-35 | The loop returns the first winning move. |
| MinimaxEval.PatternScore | minimax.py:252-281 | The score is within [0, 100000]. It is 100000 exactly for five or more. It is positive exactly for the categories of the table. |
| MinimaxEval.PatternOrder | minimax.py:10-19 | Open beats closed at equal length, and a closed run beats the open run one shorter. A rush four beats an open three. Both ends blocked scores 0 below five. |
| MinimaxEval.GetPattern | minimax.py:207-250 | The two loops compute the pattern, with consecutive ≥ 1, blocked ≤ 2 and space ≤ 4. consecutive is the line count through the cell. |
| MinimaxEval.SideBounds | minimax.py:216-230 | One side adds at most one blocked end and at most two empty cells. |
| MinimaxEval.AxisSum | minimax.py:196-205 | The four axis scores add up to a value within [0, 4·100000]. |
| MinimaxEval.AxisSumCovers | minimax.py:201-203 | Each axis contributes its whole score to the sum. |
| MinimaxEval.DirectionAll | minimax.py:196-205 | The loop over the four axes computes their sum. |
| MinimaxEval.FiveScoresWin | minimax.py:178-182 | A winning cell scores at least the five bonus in attack. |
| MinimaxEval.RayOffPath | minimax.py:214-248 | A side never reads the anchor cell. |
| MinimaxEval.PatternIgnoresAnchor | minimax.py:178-186 | The pattern through a cell does not depend on what the cell holds. So writing the opponent's stone for the defence score changes nothing. |
| MinimaxEval.AxisSumIgnoresAnchor | minimax.py:178-186 | The same holds for the sum over the four axes. |
| MinimaxEval.MoveScoreIgnoresStone | minimax.py:169-194 | The move score is own axes + 1.1 × opponent axes − 10 × centre distance, all read on the board as given. |
| MinimaxEval.MoveScoreBounds | minimax.py:169-194 | The move score lies between −10·d and 840000 − 10·d, where d is the distance to the centre. |
| MinimaxEval.WinningMoveScore | minimax.py:169-194 | A winning move scores at least 100000 − 10·d. |
| MinimaxEval.EvaluateMove | minimax.py:169-194 | The method computes the move score. |
| MinimaxEval.HasNeighbor | minimax.py:78-88 | True exactly when one of the eight in-bounds neighbours holds a stone. |
| MinimaxEval.EmptyNearStone | minimax.py:67-72 | A board with a stone and an empty cell has an empty cell next to a stone, so the candidate list is not empty. |
| MinimaxEval.CandidatesMembers | minimax.py:67-72 | A scored pair is collected exactly when its cell is empty, has a neighbour and carries its move score. |
| MinimaxEval.CandidatesCount | minimax.py:67-72 | There are no more candidates than empty cells. |
| MinimaxEval.ValidMoves | minimax.py:61-76 | At most 15 moves, each on an empty cell. |
| MinimaxEval.ValidMovesTop | minimax.py:67-76 | On a non-empty board the list is the candidates sorted by descending score and cut to 15. Every dropped candidate scores at most every kept one. |
| MinimaxEval.ValidMovesEmptyBoard | minimax.py:63-65 | On an empty board the list is exactly the centre. |
| MinimaxEval.ValidMovesComplete | minimax.py:67-76 | With at most 15 candidates, every empty cell next to a stone is listed. |
| MinimaxEval.ScanRow | minimax.py:69-72 | The inner loop collects the scored candidates of one row, left to right. |
| MinimaxEval.CollectCandidates | minimax.py:67-72 | The nested loops collect exactly the candidate list, row by row. |
| MinimaxEval.GetValidMoves | minimax.py:61-76 | The method computes the candidate list. |
| MinimaxEval.BoardScoreSplit | minimax.py:146-167 | The board score is the mover's pattern total − 1.1 × the opponent's. It is 0 on an empty board. |
| MinimaxEval.StoneScore | minimax.py:156-165 | The direction loop for one stone computes that stone's contribution. |
| MinimaxEval.EvaluateBoard | minimax.py:146-167 | The nested loops compute the board score for the player to move on that board. |
| Minimax.FoldBound | minimax.py:97-118 | A maximising scan never goes below its start and a minimising scan never above it. |
| Minimax.AlphaBetaSound | minimax.py:90-118 | The pruned search is exact strictly inside (alpha, beta). At or below alpha it is an upper bound, and at or above beta a lower bound, of the plain minimax value. |
| Minimax.SearchMaxSound | minimax.py:97-107 | The maximising sibling loop with cut-offs keeps that bound relation. |
| Minimax.SearchMinSound | minimax.py:108-118 | The same holds for the minimising loop. |
| Minimax.AlphaBetaExact | minimax.py:42-51 | With the full window the pruned search equals plain minimax. |
| Minimax.ValidMovesEmpty | minimax.py:23-25 | There are no candidates exactly when no cell is empty. |
| Minimax.MinimaxFinite | minimax.py:92-93 | The minimax value is always a finite score, never ±inf. |
| Minimax.MinimaxSearch | minimax.py:90-118 | The recursive method computes the pruned search value. |
| Minimax.MaxLoop | minimax.py:97-107 | The maximising loop with its cut-off computes the pruned maximum. |
| Minimax.MinLoop | minimax.py:108-118 | The minimising loop with its cut-off computes the pruned minimum. |
| Minimax.GetMove | minimax.py:21-59 | The method answers what `get_move` specifies, and the board passed in is not modified. |
| Minimax.SearchRoot | minimax.py:42-59 | The root loop computes the choice of the root search. |
| Minimax.RootStep | minimax.py:48-57 | One root pass keeps the running best as the plain minimax maximum so far, and the chosen move as the first to reach it. |
| Minimax.RootAdvance | minimax.py:48-57 | One root pass keeps the running-best facts and leaves the rest of the choice to the next candidate. |
| Minimax.RootUnfold | minimax.py:50-57 | One root pass scores the child with the running best as the lower bound, keeps the strictly better score, and passes the new best on as the next bound. |
| Minimax.RootDone | minimax.py:48-59 | After the last candidate, the running-best facts give the first candidate of maximal value, or nothing when every value is −inf. |
| Minimax.RootSearchBest | minimax.py:48-59 | The root loop returns the first candidate of maximal minimax value, or nothing when every value is −inf. |
| Minimax.ChooseMoveNone | minimax.py:23-25 | `get_move` answers None exactly when no cell is empty. |
| Minimax.FullListMeansEmpty | minimax.py:28-30 | A candidate list covering the whole board happens only on an empty board. |
| Minimax.ChooseMoveMember | minimax.py:21-59 | A returned move is always one of the candidates. |
| Minimax.ChooseMoveForced | minimax.py:32-40 | If some candidate wins for the player to move, the answer is the first such candidate. Otherwise, if some candidate wins for the opponent, the answer is the first of those. |
| Minimax.ChooseMoveBest | minimax.py:42-59 | Without a forced move the answer is the first candidate whose minimax value is largest. |
| MctsEval.LineScore | mcts.py:166-185 | The score is within [100, 100000]. It is 100000 exactly for five or more, and 100 exactly for the fallback categories. |
| MctsEval.LineOrder | mcts.py:166-185 | Open beats closed at equal length, and a closed run beats the open run one shorter. |
| MctsEval.EvaluateLine | mcts.py:123-185 | The two loops compute the line score of the pattern. |
| MctsEval.LineSum | mcts.py:102-109 | The four line scores add up to a value within [4·100, 4·100000]. |
| MctsEval.LineSumIgnoresAnchor | mcts.py:97-104 | The attack lines read on the copy with the stone placed equal those on the board as given. |
| MctsEval.LineSumCovers | mcts.py:102-105 | Each axis contributes its whole score, and the other axes at least the base score. |
| MctsEval.MinWith | mcts.py:196 | `min(min_distance, distance)` with +inf as "no stone yet". |
| MctsEval.GetMinDistance | mcts.py:187-198 | +inf exactly when the clipped 5×5 window holds no stone. Otherwise it is the least Manhattan distance of a stone in it, at most 4. |
| MctsEval.FarIffIsolated | mcts.py:117-119 | A distance above 2 means exactly that no stone lies within Manhattan distance 2 in the window. |
| MctsEval.EvaluateMove | mcts.py:89-121 | The method computes the move score: attack + 1.1 × defence − 10 × centre distance, times 0.1 when isolated. |
| MctsEval.RawScoreIgnoresStone | mcts.py:97-114 | Before the isolation factor, the score reads only the board as given. |
| MctsEval.MoveScoreBounds | mcts.py:89-121 | The move score lies in [840 − 10·d, 840000 − 10·d], scaled by 0.1 for an isolated cell. |
| MctsEval.NeighbourNotIsolated | mcts.py:116-119 | A cell with a stone of its line right next to it is not isolated. |
| MctsEval.PenaltyBound | mcts.py:111-114 | On the 15×15 board the centre distance is at most 14. |
| MctsEval.ThreeOrBetterIsHigh | mcts.py:43-47 | An attack line of open three, four or five makes the move high priority (≥ 5000). |
| MctsEval.QuickScore | mcts.py:362-379 | The quick score is within [0, 100000]. It is 100000 exactly for five or more, and positive exactly for runs of 2 to 4 with at most one blocked end. |
| MctsEval.QuickSum | mcts.py:336-381 | The four quick axis scores add up to a value within [0, 400000]. |
| MctsEval.QuickEvaluate | mcts.py:330-381 | The method computes the quick score of a move, within [0, 400000]. |
| MctsEval.QuickEvaluateAxis | mcts.py:339-379 | The two walks of one axis, sharing the empty-cell counter, compute that axis's quick score. |
| MctsEval.QuickAxisCount | mcts.py:339-360 | The quick run is the forward run. It includes the backward run only when the forward side met no empty cell. |
| MctsEval.QuickVsPattern | mcts.py:339-360 | The quick run never exceeds the full pattern's run, and equals it when no gap follows the forward run. |
| MctsEval.Blockers | mcts.py:37-40 | The blockers list is no longer than the moves scanned. |
| MctsEval.BlockersMembers | mcts.py:37-40 | A move is a blocker exactly when it is scanned and wins for the opponent. |
| MctsEval.BlockersFirst | mcts.py:37-40 | The first blocker is the first opponent-winning move. |
| MctsEval.RankedMembers | mcts.py:42-47 | A pair is in the high (or normal) list exactly when its move is scanned, is not a blocker, scores ≥ 5000 (or < 5000), and carries its score. |
| MctsEval.Classify | mcts.py:37-47 | Each scanned move goes to exactly one of the three lists. |
| MctsEval.RankedCount | mcts.py:32-47 | The three lists together have as many entries as moves scanned. |
| MctsEval.ScanMove | mcts.py:33-47 | One loop pass reports a win, or extends the lists by that move. |
| MctsEval.ScanMoves | mcts.py:32-47 | The loop returns the first winning move, or else the three lists. |
| MctsEval.GetSortedMoves | mcts.py:16-60 | The method computes the sorted move list: empty without a valid move, the centre on an empty board (`SortedMovesEmptyBoard`), the first winning cell, else every blocking cell, else the ranked groups cut to ten. |
| MctsEval.ConcatOrder | mcts.py:54-59 | Joining the two sorted groups puts every high move first, each group in descending order. |
| MctsEval.SortedGroupMembers | mcts.py:54-55 | A sorted group holds exactly the empty cells of its priority with their scores. |
| MctsEval.JoinedMembers | mcts.py:58-59 | The joined list holds exactly the empty cells that do not win for the opponent, with their scores. |
| MctsEval.JoinedOrder | mcts.py:58-59 | In the joined list high moves come first, each group in descending order. |
| MctsEval.JoinedCount | mcts.py:50-59 | The joined list and the blockers together count the empty cells. |
| MctsEval.SortedMovesEmptyBoard | mcts.py:22-25 | On an empty board the list is exactly the centre cell. |
| MctsEval.SortedMovesEmpty | mcts.py:18-20 | The sorted list is empty exactly when no cell is empty. |
| MctsEval.SortedMovesValid | mcts.py:16-60 | Every sorted move is an empty cell. |
| MctsEval.SortedMovesWin | mcts.py:32-35 | When the mover can win, the list is the single first winning empty cell. |
| MctsEval.SortedMovesCritical | mcts.py:50-51 | When the mover cannot win but the opponent can, the list holds exactly the opponent's winning cells, untruncated. |
| MctsEval.SortedMovesRanked | mcts.py:53-60 | Otherwise there are at most 10 moves, high before normal, each group descending. Every empty cell left out ranks at or below every kept one. |
| MctsEval.RankedCase | mcts.py:50-60 | Without forced moves there are no blockers, and the list is the first 10 of the joined list. |
| MctsEval.LeftOut | mcts.py:57-60 | A cell missing from the first 10 means the list is full, and the cell ranks at or below each kept move. |
| MctsEval.RolloutPool | mcts.py:261-269 | The rollout looks at the first min(6, len) empty cells, and at least one when any cell is empty. |
| MctsEval.LastWin | mcts.py:269-276 | The remembered blocking move is one of the moves scanned. |
| MctsEval.LastWinSpec | mcts.py:269-276 | The remembered blocking move is the opponent-winning move of greatest index, or none exactly when there is none. |
| MctsEval.QuickScores | mcts.py:284-285 | The list holds one quick-scored pair per pool move, in order. |
| MctsEval.SortHead | mcts.py:286-287 | The head of the sorted list is one of its elements. |
| MctsEval.RolloutMove | mcts.py:261-287 | The rollout plays a pool move, on an empty cell. |
| MctsEval.RolloutTakesWin | mcts.py:269-279 | When a pool move wins, the rollout plays the first winning one. |
| MctsEval.RolloutTakesBlock | mcts.py:274-281 | With no win but some opponent win, the rollout plays the last such blocking move of the pool. |
| MctsEval.RolloutTakesBest | mcts.py:282-287 | Otherwise no pool move ranks above the one played, by (quick score, move). |
| MctsEval.ScanPool | mcts.py:266-276 | The loop finds the first win, or else the last block. |
| MctsEval.QuickScoreAll | mcts.py:284-285 | The comprehension computes the quick-scored list. |
| MctsEval.ChooseRolloutMove | mcts.py:260-287 | The method computes the rollout's move. |
| Mcts.IndexOf | mcts.py:212 | The index of the first occurrence. |
| Mcts.RemoveFirst | mcts.py:212 | `list.remove`: one element shorter, with exactly one copy of the move taken out. |
| Mcts.LastMaxIndex | mcts.py:203-205 | The last index holding the largest key, which is what a stable sort's last element is. |
| Mcts.Node.constructor | mcts.py:7-14 | A node with no children and zero statistics, whose untried moves are the sorted moves of its board. |
| Mcts.Node.AddChild | mcts.py:207-214 | Exactly one new child is appended. Its parent is this node and its board is this board after the move. The move is removed once from the untried moves, and this node's own board and statistics are unchanged. |
| Mcts.Node.Update | mcts.py:216-219 | Adds 1 to the visits and the result to the wins, and nothing else changes. |
| Mcts.Node.Keys | mcts.py:203-204 | The UCB key of each child, in child order. |
| Mcts.Node.SelectChild | mcts.py:200-205 | Returns a child, the last one of largest UCB key. |
| Mcts.VisitKeys | mcts.py:301 | The visit count of each node, in order. |
| Mcts.AncestorsOf | mcts.py:293-298 | The parent chain from any tree node reaches the root and stays in the tree. |
| Mcts.Select | mcts.py:244-248 | Descends only while a node has no untried move and has children. It stops at a tree node that still has untried moves or has no children. Every node on the path above the result is fully expanded, and each step goes to the child of its parent with the largest UCB key (the last one on ties). |
| Mcts.SelectStep | mcts.py:247-248 | One step of the descent keeps the path facts: the chosen child is in the tree, is one level deeper, and was picked by `select_child` from a fully expanded parent. |
| Mcts.Expand | mcts.py:250-253 | Expands with the first untried move. The new leaf is a child of the node, on the node's board after that move, with zero statistics, no children and the sorted moves of its board still to try. The tree and its invariants are kept. With no untried move nothing changes. |
| Mcts.RootedGrow | mcts.py:211-213 | Adding a child of a tree node keeps the tree rooted. |
| Mcts.BoardsGrow | mcts.py:209-211 | Adding a child whose board is its parent's after its move keeps all boards consistent. |
| Mcts.Playout | mcts.py:259-289 | The rollout ends on a finished game. |
| Mcts.PlayoutKeepsStones | mcts.py:289 | The rollout never removes or changes a stone. |
| Mcts.Simulate | mcts.py:256-292 | The rollout loop on a copy returns the winner of the finished rollout. |
| Mcts.Outcome | mcts.py:294-297 | The result is in [0, 1]. It is 0.5 exactly for a draw and 1 exactly when the leaf's player to move won. |
| Mcts.Backpropagate | mcts.py:291-298 | Exactly the nodes on the path from the leaf to the root gain one visit and the result. All nodes keep `0 <= wins <= visits`. |
| Mcts.Grow | mcts.py:246-253 | Selection then expansion: the selected node is reached along the path `Select` walks on the tree as it was. The leaf is that node, or its new child for its first untried move. No statistics change. |
| Mcts.ScorePath | mcts.py:255-298 | The rollout from the leaf's board and its backpropagation: exactly the leaf and its ancestors gain one visit and the outcome of the finished rollout for the leaf's player to move. |
| Mcts.Iterate | mcts.py:243-298 | One pass keeps the tree invariants. The selected node lies on the path `Select` walks, and the leaf is it or its new child. Exactly the leaf and its ancestors gain one visit and the rollout's outcome for the leaf's player to move; every other node keeps its statistics. |
| Mcts.FirstForced | mcts.py:232-238 | The forced move found, if any, is a listed move that wins for one of the two sides. |
| Mcts.FirstForcedNone | mcts.py:232-238 | With no move winning for either side, no forced move is found. |
| Mcts.FindForced | mcts.py:232-238 | The loop returns the first move that wins for either side. |
| Mcts.ForcedMoveSpec | mcts.py:229-238 | Scanning the root's sorted moves gives the first winning empty cell, else the first blocking one. |
| Mcts.Search | mcts.py:240-298 | After n passes from a fresh root, the root has n visits and the tree invariants hold. The root has a child once there was a pass and a move. |
| Mcts.GetMove | mcts.py:226-301 | Answers the forced move when there is one. Otherwise it answers the move of the root child with the most visits, the last among equals. That child's board is the position after the move, and it is a sorted move on an empty cell. The answer is none exactly when there was no pass or no move. |

## Left out

- `gui.py` is not part of this model. It is a user interface that only calls `get_move` and `make_move`.
- `board.py` is not part of this model. `Board` is the minimal interface the engines call. Its move list is assumed to be the empty cells in row-major order. Its win test is assumed to be "five in a row for player 1, else for player -1, else 0". Its game-over test is assumed to be "someone has five, or no cell is empty".
- The wall-clock budget of the tree search is an iteration count. `time_limit` and `max_moves` are left out, because `max_moves` is never read.
- `select_child`'s UCB1 formula uses `math.sqrt` and `math.log`. It is a function parameter `ucb(wins, visits, parentVisits)`. The model proves which child is picked for any such function, not the value of the formula.
- Floating point: the weights 1.1 and 0.1 are exact reals, and ±inf is the `Ext` type (`NegInf`, `Fin`, `PosInf`). Rounding is not modelled.
- `get_best_move` is a one-line wrapper around `get_move` and is left out. The unused `numpy` and `random` imports are left out too.
- Mcts.GetMove: where `sorted(root.children, ...)[-1]` raises `IndexError` on a root without children, the model returns `None`.
- Depth stays an `int` as in the source, so a negative depth never reaches 0 and searches until the game is over. Termination is shown on the number of empty cells, not on the depth.
- Mcts.GetMove: the winner counts fed to `update` are the leaf's player's. The contract states where the answer comes from (most visits, last among equals) but not that it is a good move for the root's player.
