/**
 * The Monte Carlo tree search of `mcts.py`: the search tree of `Node`
 * objects, the forced-move check, the select / expand / simulate /
 * backpropagate loop and the final pick of the most visited child.
 *
 * The wall-clock budget of the source becomes an iteration count, and the
 * UCB1 key of `select_child` an arbitrary function of a child's wins, its
 * visits and its parent's visits.
 */
module Mcts {
  import opened Wrappers
  import opened Board
  import opened Lines
  import opened Sorting
  import opened MctsEval
  import MinimaxEval

  // ---------------------------------------------------------------------------
  // list.remove and sorted(...)[-1]
  // ---------------------------------------------------------------------------

  /** The index of the first occurrence of `x` in `s`. */
  function IndexOf<T(==)>(s: seq<T>, x: T): (i: nat)
    requires x in s
    ensures i < |s| && s[i] == x && forall k :: 0 <= k < i ==> s[k] != x
  {
    if s[0] == x then 0 else 1 + IndexOf(s[1 ..], x)
  }

  /** `list.remove(x)`: the list without its first occurrence of `x`, one element shorter and otherwise the same. */
  function RemoveFirst<T(==)>(s: seq<T>, x: T): (r: seq<T>)
    requires x in s
    ensures |r| == |s| - 1
    ensures multiset(r) == multiset(s) - multiset{x}
  {
    var i := IndexOf(s, x);
    assert s == s[.. i] + [x] + s[i + 1 ..];
    s[.. i] + s[i + 1 ..]
  }

  /** The last index of a largest key: what `sorted(..., key=...)[-1]` picks. */
  predicate IsLastMax(ks: seq<real>, i: int) {
    && 0 <= i < |ks|
    && (forall j :: 0 <= j < |ks| ==> ks[j] <= ks[i])
    && (forall j :: i < j < |ks| ==> ks[j] < ks[i])
  }

  /**
   * `sorted(xs, key=...)[-1]`: the sort is stable, so its last element is
   * the last of the elements with the largest key.
   */
  method LastMaxIndex(ks: seq<real>) returns (best: nat)
    requires ks != []
    ensures IsLastMax(ks, best)
  {
    best := 0;
    for i := 1 to |ks|
      invariant IsLastMax(ks[.. i], best)
    {
      if ks[i] >= ks[best] {
        best := i;
      }
    }
    assert ks[.. |ks|] == ks;
  }

  // ---------------------------------------------------------------------------
  // Node
  // ---------------------------------------------------------------------------

  /** A search tree node. Its board is a value of its own that nothing changes. */
  class Node {
    const board: State
    const parent: Node?
    const move: Option<Move>
    /** The number of moves from the root. */
    ghost const depth: nat
    /** The number of empty cells on the board. */
    ghost const room: nat
    var children: seq<Node>
    var wins: real
    var visits: nat
    var untried: seq<Move>

    /** `Node(board, parent, move)`: no children, no statistics, the sorted moves still to try. */
    constructor (board: State, parent: Node?, move: Option<Move>)
      requires ValidState(board)
      ensures this.board == board && this.parent == parent && this.move == move
      ensures depth == if parent == null then 0 else parent.depth + 1
      ensures room == |EmptyCells(board.grid)|
      ensures children == [] && wins == 0.0 && visits == 0
      ensures untried == SortedMoves(board)
    {
      var sorted := GetSortedMoves(board);
      this.board := board;
      this.parent := parent;
      this.move := move;
      this.depth := if parent == null then 0 else parent.depth + 1;
      this.room := |EmptyCells(board.grid)|;
      children := [];
      wins := 0.0;
      visits := 0;
      untried := sorted;
    }

    /**
     * `add_child`: plays `m` on a copy of this node's board, drops `m` from
     * the moves still to try and appends the new child; this node's board,
     * wins and visits stay as they were.
     */
    method AddChild(m: Move) returns (child: Node)
      requires ValidState(board) && m in untried && IsEmptyCell(board.grid, m)
      modifies this
      ensures fresh(child)
      ensures child.board == Apply(board, m) && child.parent == this && child.move == Some(m)
      ensures child.depth == depth + 1 && child.room == |EmptyCells(child.board.grid)|
      ensures child.children == [] && child.wins == 0.0 && child.visits == 0
      ensures child.untried == SortedMoves(child.board)
      ensures children == old(children) + [child]
      ensures untried == RemoveFirst(old(untried), m)
      ensures wins == old(wins) && visits == old(visits)
    {
      var next := new Board.Of(board);
      var ok := next.MakeMove(m);
      ApplyKeepsValid(board, m);
      child := new Node(next.Snapshot(), this, Some(m));
      untried := RemoveFirst(untried, m);
      children := children + [child];
    }

    /** `update`: one more visit, scoring `result`. */
    method Update(result: real)
      modifies this
      ensures visits == old(visits) + 1 && wins == old(wins) + result
      ensures children == old(children) && untried == old(untried)
    {
      visits := visits + 1;
      wins := wins + result;
    }

    /** The keys `ucb(child.wins, child.visits, self.visits)` of the children, in order. */
    function Keys(ucb: (real, nat, nat) -> real): (ks: seq<real>)
      reads this, children
      ensures |ks| == |children|
      ensures forall i :: 0 <= i < |children| ==> ks[i] == ucb(children[i].wins, children[i].visits, visits)
    {
      seq(|children|, i reads this, children requires 0 <= i < |children| =>
        ucb(children[i].wins, children[i].visits, visits))
    }

    /**
     * `select_child`: the child of largest key, the last one among equals.
     * The source divides by the child's visits and takes the logarithm of
     * this node's, so it needs every one of them to be positive.
     */
    method SelectChild(ucb: (real, nat, nat) -> real) returns (c: Node)
      requires children != [] && visits >= 1
      requires forall k :: 0 <= k < |children| ==> children[k].visits >= 1
      ensures c in children
      ensures exists i :: IsLastMax(Keys(ucb), i) && children[i] == c
    {
      var best := LastMaxIndex(Keys(ucb));
      c := children[best];
    }
  }

  /** The visit counts of `nodes`, in order: the key of the final choice. */
  function VisitKeys(nodes: seq<Node>): (ks: seq<real>)
    reads set n | n in nodes
    ensures |ks| == |nodes| && forall i :: 0 <= i < |nodes| ==> ks[i] == nodes[i].visits as real
  {
    seq(|nodes|, i reads set n | n in nodes requires 0 <= i < |nodes| => nodes[i].visits as real)
  }

  // ---------------------------------------------------------------------------
  // The shape of the tree
  // ---------------------------------------------------------------------------

  /**
   * What never changes about the tree over `nodes`, because it is made of
   * the nodes' constant fields: `root` alone has no parent, and every other
   * node sits one level below a parent in the tree, on a board with fewer
   * empty cells.
   */
  ghost predicate Rooted(root: Node, nodes: set<Node>) {
    && root in nodes && root.parent == null && root.depth == 0
    && (forall n :: n in nodes && n.parent == null ==> n == root)
    && (forall n {:trigger n.parent} :: n in nodes && n.parent != null ==>
          n.parent in nodes && n.depth == n.parent.depth + 1 && n.room < n.parent.room)
  }

  /** `n`'s board is its parent's board with `n`'s move played on an empty cell. */
  ghost predicate ChildOf(n: Node) {
    && n.parent != null
    && n.move.Some?
    && IsEmptyCell(n.parent.board.grid, n.move.value)
    && n.board == Apply(n.parent.board, n.move.value)
  }

  /** Every board of the tree is a proper board, and every child's board is its parent's after its move. */
  ghost predicate Boards(nodes: set<Node>) {
    && (forall n :: n in nodes ==> ValidState(n.board) && n.room == |EmptyCells(n.board.grid)|)
    && (forall n :: n in nodes && n.parent != null ==> ChildOf(n))
  }

  /** At `n`: its children are nodes of the tree that point back to it, and its moves still to try are empty cells. */
  ghost predicate LinkedAt(n: Node, nodes: set<Node>)
    reads n
  {
    && (forall c :: c in n.children ==> c in nodes && c.parent == n)
    && (forall m :: m in n.untried ==> IsEmptyCell(n.board.grid, m))
  }

  /** The links that change, at every node of the tree. */
  ghost predicate Linked(nodes: set<Node>)
    reads nodes
  {
    forall n :: n in nodes ==> LinkedAt(n, nodes)
  }

  /** `0 <= wins <= visits` at every node. */
  ghost predicate Stats(nodes: set<Node>)
    reads nodes
  {
    forall n :: n in nodes ==> 0.0 <= n.wins <= n.visits as real
  }

  /** Between iterations: every node but the root visited, and the root too once it has children. */
  ghost predicate Visited(root: Node, nodes: set<Node>)
    reads nodes
  {
    && (forall n :: n in nodes && n != root ==> n.visits >= 1)
    && (root in nodes && root.children != [] ==> root.visits >= 1)
  }

  /** The chain of nodes from `n` up to the root, `n` included. */
  ghost function Ancestors(n: Node): set<Node>
    decreases n.depth
  {
    if n.parent == null || n.parent.depth >= n.depth then {n} else {n} + Ancestors(n.parent)
  }

  /** In a tree the chain from any node reaches the root, and climbs one level per node. */
  lemma {:induction false} AncestorsOf(root: Node, nodes: set<Node>, n: Node)
    requires Rooted(root, nodes) && n in nodes
    ensures root in Ancestors(n) && Ancestors(n) <= nodes
    ensures forall a :: a in Ancestors(n) ==> a.depth <= n.depth
    decreases n.depth
  {
    if n.parent != null {
      AncestorsOf(root, nodes, n.parent);
    }
  }

  // ---------------------------------------------------------------------------
  // One iteration of the search loop
  // ---------------------------------------------------------------------------

  /**
   * `a` was reached from its parent by `select_child`: the parent had nothing
   * left to try, had children, and `a` is its last child of largest key.
   */
  ghost predicate SelectedFrom(a: Node, ucb: (real, nat, nat) -> real)
    reads if a.parent != null then {a.parent} + set c | c in a.parent.children else {}
  {
    && a.parent != null
    && a.parent.untried == [] && a.parent.children != []
    && exists i :: IsLastMax(a.parent.Keys(ucb), i) && a.parent.children[i] == a
  }

  /**
   * `sel` is where `Select` stops: every node above it on the path from the
   * root was fully expanded, each step went to the child `select_child`
   * picks, and `sel` has moves left to try or no children.
   */
  ghost predicate SelectedPath(root: Node, sel: Node, ucb: (real, nat, nat) -> real)
    reads *
  {
    && root in Ancestors(sel)
    && (sel.untried == [] ==> sel.children == [])
    && (forall a :: a in Ancestors(sel) && a != sel ==> a.untried == [] && a.children != [])
    && (forall a :: a in Ancestors(sel) && a != root ==> SelectedFrom(a, ucb))
  }

  /**
   * `leaf` is what `expand` made of `sel`, which had the moves `untried` and
   * the children `children`: `sel` itself when nothing was left to try,
   * otherwise a new child for the first move, with no children of its own
   * and the sorted moves of its board still to try.
   */
  ghost predicate Expanded(sel: Node, leaf: Node, untried: seq<Move>, children: seq<Node>)
    reads sel, leaf
  {
    if untried == [] then leaf == sel && sel.children == children && sel.untried == untried
    else
      && leaf.parent == sel && ChildOf(leaf) && leaf.move == Some(untried[0]) && ValidState(leaf.board)
      && leaf.children == [] && leaf.untried == SortedMoves(leaf.board)
      && sel.children == children + [leaf] && sel.untried == untried[1 ..]
  }

  /**
   * Selection: descend by `select_child` while a node has nothing left to
   * try and has children. Every node passed on the way was fully expanded,
   * and every step took the child `select_child` picks.
   */
  method Select(root: Node, ghost nodes: set<Node>, ucb: (real, nat, nat) -> real) returns (node: Node)
    requires Rooted(root, nodes) && Linked(nodes) && Visited(root, nodes)
    ensures node in nodes && (node.untried == [] ==> node.children == [])
    ensures node == root || (root.untried == [] && root.children != [])
    ensures root in Ancestors(node) && Ancestors(node) <= nodes
    ensures forall a :: a in Ancestors(node) && a != node ==> a.untried == [] && a.children != []
    ensures forall a :: a in Ancestors(node) && a != root ==> SelectedFrom(a, ucb)
  {
    node := root;
    while node.untried == [] && node.children != []
      invariant node in nodes && root in Ancestors(node) && Ancestors(node) <= nodes
      invariant node == root || (root.untried == [] && root.children != [])
      invariant forall a :: a in Ancestors(node) && a != node ==> a.untried == [] && a.children != []
      invariant forall a :: a in Ancestors(node) && a != root ==> SelectedFrom(a, ucb)
      decreases node.room
    {
      assert forall k :: 0 <= k < |node.children| ==> node.children[k] in node.children;
      var c := node.SelectChild(ucb);
      SelectStep(root, nodes, node, c, ucb);
      node := c;
    }
  }

  /** One step of the descent extends the selected path by the child `select_child` picked. */
  lemma SelectStep(root: Node, nodes: set<Node>, node: Node, c: Node, ucb: (real, nat, nat) -> real)
    requires Rooted(root, nodes) && Linked(nodes) && node in nodes
    requires root in Ancestors(node) && Ancestors(node) <= nodes
    requires node.untried == [] && node.children != []
    requires forall a :: a in Ancestors(node) && a != node ==> a.untried == [] && a.children != []
    requires forall a :: a in Ancestors(node) && a != root ==> SelectedFrom(a, ucb)
    requires c in node.children && exists i :: IsLastMax(node.Keys(ucb), i) && node.children[i] == c
    ensures c in nodes && c.room < node.room && root in Ancestors(c) && Ancestors(c) <= nodes
    ensures forall a :: a in Ancestors(c) && a != c ==> a.untried == [] && a.children != []
    ensures forall a :: a in Ancestors(c) && a != root ==> SelectedFrom(a, ucb)
  {
    assert LinkedAt(node, nodes);
    assert c in nodes && c.parent == node && c != root;
    assert Ancestors(c) == {c} + Ancestors(node);
    assert SelectedFrom(c, ucb);
  }

  /** Expansion: a node with moves left gets the child of its first one, which becomes the leaf. */
  method Expand(root: Node, node: Node, ghost nodes: set<Node>, ghost moves: seq<Move>) returns (leaf: Node, ghost next: set<Node>)
    requires Rooted(root, nodes) && Boards(nodes) && Linked(nodes) && Stats(nodes) && Visited(root, nodes) && node in nodes
    requires MadeFrom(root.children, root.untried, moves)
    modifies node
    ensures MadeFrom(root.children, root.untried, moves)
    ensures old(root.children) <= root.children
    ensures node == root && old(root.untried) != [] ==> root.children != []
    ensures Rooted(root, next) && Boards(next) && Linked(next) && Stats(next) && leaf in next
    ensures forall n :: n in next && n != root && n != leaf ==> n.visits >= 1
    ensures old(node.untried) == [] ==>
              leaf == node && next == nodes && node.children == old(node.children) && node.untried == old(node.untried)
    ensures old(node.untried) != [] ==>
              && fresh(leaf) && next == nodes + {leaf} && leaf.parent == node && leaf.move == Some(old(node.untried)[0])
              && ChildOf(leaf) && ValidState(leaf.board)
              && leaf.visits == 0 && leaf.wins == 0.0
              && leaf.children == [] && leaf.untried == SortedMoves(leaf.board)
              && node.children == old(node.children) + [leaf]
              && node.untried == old(node.untried)[1 ..]
    ensures node.visits == old(node.visits) && node.wins == old(node.wins)
  {
    if node.untried == [] {
      return node, nodes;
    }
    var m := node.untried[0];
    assert m in node.untried;
    ghost var before := node.untried;
    leaf := node.AddChild(m);
    next := nodes + {leaf};
    ApplyKeepsValid(node.board, m);
    RootedGrow(root, nodes, leaf);
    BoardsGrow(nodes, leaf);
    SortedMovesValid(leaf.board);
    assert forall k :: k in node.untried ==> k in multiset(before);
    assert LinkedAt(node, next) && LinkedAt(leaf, next);
    forall n | n in nodes && n != node ensures LinkedAt(n, next) {
      assert old(LinkedAt(n, nodes));
    }
  }

  /** A new node one level below a node of the tree, on a board with fewer empty cells, keeps it a tree. */
  lemma RootedGrow(root: Node, nodes: set<Node>, leaf: Node)
    requires Rooted(root, nodes) && leaf.parent != null && leaf.parent in nodes
    requires leaf.depth == leaf.parent.depth + 1 && leaf.room < leaf.parent.room
    ensures Rooted(root, nodes + {leaf})
  {
  }

  /** A new node whose board is its parent's after its move keeps the boards of the tree consistent. */
  lemma BoardsGrow(nodes: set<Node>, leaf: Node)
    requires Boards(nodes) && ChildOf(leaf)
    requires ValidState(leaf.board) && leaf.room == |EmptyCells(leaf.board.grid)|
    ensures Boards(nodes + {leaf})
  {
  }

  /**
   * The rollout from `st`: while the game is not over, play the move the
   * rollout policy picks among the first six empty cells. Every step fills
   * an empty cell, so the rollout ends.
   */
  function Playout(st: State): (end: State)
    requires ValidState(st)
    ensures ValidState(end) && GameOver(end)
    decreases |EmptyCells(st.grid)|
  {
    if GameOver(st) then st
    else
      var m := RolloutMove(st);
      ApplyKeepsValid(st, m);
      Playout(Apply(st, m))
  }

  /** A rollout only adds stones: every stone already on the board stays where it is. */
  lemma {:induction false} PlayoutKeepsStones(st: State, r: int, c: int)
    requires ValidState(st) && InBounds(st.grid, r, c) && st.grid[r][c] != 0
    ensures |Playout(st).grid| == |st.grid| && Playout(st).grid[r][c] == st.grid[r][c]
    decreases |EmptyCells(st.grid)|
  {
    if !GameOver(st) {
      var m := RolloutMove(st);
      ApplyKeepsValid(st, m);
      PlayoutKeepsStones(Apply(st, m), r, c);
    }
  }

  /** The simulation phase on a copy of the leaf's board: the winner of the finished rollout, 0 for a draw. */
  method Simulate(st: State) returns (winner: int)
    requires ValidState(st)
    ensures winner == Winner(Playout(st).grid)
  {
    var b := new Board.Of(st);
    while !b.IsGameOver()
      invariant ValidState(b.Snapshot()) && Playout(b.Snapshot()) == Playout(st)
      decreases |EmptyCells(b.grid)|
    {
      var moves := b.GetValidMoves();
      if |moves| == 0 {
        break;
      }
      var chosen := ChooseRolloutMove(b.Snapshot());
      ApplyKeepsValid(b.Snapshot(), chosen);
      var ok := b.MakeMove(chosen);
    }
    winner := b.CheckWin();
  }

  /** What every node on the path scores: 0.5 for a draw, 1 if the leaf's player to move won, 0 otherwise. */
  function Outcome(winner: int, player: int): (result: real)
    ensures 0.0 <= result <= 1.0
    ensures result == 0.5 <==> winner == 0
    ensures result == 1.0 <==> winner != 0 && winner == player
  {
    if winner == 0 then 0.5 else if winner == player then 1.0 else 0.0
  }

  /**
   * Backpropagation: walk the `parent` links from `leaf` to the root,
   * updating every node on the way once with the same `result`.
   */
  method Backpropagate(root: Node, leaf: Node, ghost nodes: set<Node>, result: real)
    requires Rooted(root, nodes) && leaf in nodes
    requires Linked(nodes) && Stats(nodes) && 0.0 <= result <= 1.0
    requires forall n :: n in nodes && n != root && n != leaf ==> n.visits >= 1
    modifies nodes
    ensures Linked(nodes) && Stats(nodes) && Visited(root, nodes)
    ensures root in Ancestors(leaf) && Ancestors(leaf) <= nodes
    ensures forall n :: n in nodes ==>
              && n.visits == old(n.visits) + (if n in Ancestors(leaf) then 1 else 0)
              && n.wins == old(n.wins) + (if n in Ancestors(leaf) then result else 0.0)
              && n.children == old(n.children) && n.untried == old(n.untried)
  {
    AncestorsOf(root, nodes, leaf);
    var node: Node? := leaf;
    ghost var done: set<Node> := {};
    while node != null
      invariant node != null ==> node in nodes && Ancestors(leaf) == done + Ancestors(node) && done !! Ancestors(node)
      invariant node == null ==> done == Ancestors(leaf)
      invariant forall n :: n in nodes ==>
                  && n.visits == old(n.visits) + (if n in done then 1 else 0)
                  && n.wins == old(n.wins) + (if n in done then result else 0.0)
                  && n.children == old(n.children) && n.untried == old(n.untried)
      decreases if node == null then 0 else node.depth + 1
    {
      AncestorsOf(root, nodes, node);
      if node.parent != null {
        AncestorsOf(root, nodes, node.parent);
      }
      node.Update(result);
      done := done + {node};
      node := node.parent;
    }
    forall n | n in nodes ensures LinkedAt(n, nodes) {
      assert old(LinkedAt(n, nodes));
    }
  }

  /** Every child in `kids` was made by a move of `moves`, and every move in `todo` is one of them. */
  ghost predicate MadeFrom(kids: seq<Node>, todo: seq<Move>, moves: seq<Move>) {
    && (forall c :: c in kids ==> c.move.Some? && c.move.value in moves)
    && (forall m :: m in todo ==> m in moves)
  }

  /**
   * The first half of a pass: select a node, then expand it. The path to
   * `sel` is the one `Select` walks on the tree as it was; `leaf` is `sel`
   * itself when it had no move left, otherwise its new child.
   */
  method Grow(root: Node, ghost nodes: set<Node>, ucb: (real, nat, nat) -> real, ghost moves: seq<Move>)
    returns (ghost next: set<Node>, sel: Node, leaf: Node)
    requires Rooted(root, nodes) && Boards(nodes) && Linked(nodes) && Stats(nodes) && Visited(root, nodes)
    requires MadeFrom(root.children, root.untried, moves)
    modifies nodes
    ensures Rooted(root, next) && Boards(next) && Linked(next) && Stats(next)
    ensures forall n :: n in next && n != root && n != leaf ==> n.visits >= 1
    ensures MadeFrom(root.children, root.untried, moves)
    ensures nodes <= next && fresh(next - nodes) && leaf in next
    ensures old(root.children) <= root.children
    ensures old(root.untried) != [] ==> root.children != []
    ensures sel in nodes && Ancestors(sel) <= nodes && old(SelectedPath(root, sel, ucb))
    ensures Expanded(sel, leaf, old(sel.untried), old(sel.children))
    ensures old(sel.untried) == [] ==> next == nodes
    ensures old(sel.untried) != [] ==> leaf !in nodes && next == nodes + {leaf} && leaf.visits == 0 && leaf.wins == 0.0
    ensures forall n :: n in nodes ==> n.visits == old(n.visits) && n.wins == old(n.wins)
    ensures forall n :: n in nodes && n != sel ==> n.children == old(n.children) && n.untried == old(n.untried)
  {
    sel := Select(root, nodes, ucb);
    assert SelectedPath(root, sel, ucb);
    leaf, next := Expand(root, sel, nodes, moves);
  }

  /**
   * One pass of the search loop: select a node, expand it, play a rollout
   * from the leaf's board and score every node from the leaf up to the root
   * with the outcome for the leaf's player to move. The tree stays a tree
   * over consistent boards with its statistics in range; the nodes that gain
   * a visit are exactly the leaf and its ancestors.
   */
  method Iterate(root: Node, ghost nodes: set<Node>, ucb: (real, nat, nat) -> real, ghost moves: seq<Move>)
    returns (ghost next: set<Node>, ghost sel: Node, ghost leaf: Node)
    requires Rooted(root, nodes) && Boards(nodes) && Linked(nodes) && Stats(nodes) && Visited(root, nodes)
    requires MadeFrom(root.children, root.untried, moves)
    modifies nodes
    ensures Rooted(root, next) && Boards(next) && Linked(next) && Stats(next) && Visited(root, next)
    ensures MadeFrom(root.children, root.untried, moves)
    ensures nodes <= next && fresh(next - nodes)
    ensures root.visits == old(root.visits) + 1
    ensures old(root.children) <= root.children
    ensures old(root.untried) != [] ==> root.children != []
    // selection and expansion, on the tree as it was
    ensures sel in nodes && Ancestors(sel) <= nodes && old(SelectedPath(root, sel, ucb))
    ensures Expanded(sel, leaf, old(sel.untried), old(sel.children))
    ensures old(sel.untried) == [] ==> next == nodes
    ensures old(sel.untried) != [] ==> leaf !in nodes && next == nodes + {leaf}
    ensures forall n :: n in nodes && n != sel ==> n.children == old(n.children) && n.untried == old(n.untried)
    // simulation and backpropagation: every node from `leaf` up to the root
    // gains one visit and the outcome of the rollout from the leaf's board
    ensures leaf in next && ValidState(leaf.board) && root in Ancestors(leaf) && Ancestors(leaf) <= next
    ensures forall n :: n in nodes ==>
              && n.visits == old(n.visits) + (if n in Ancestors(leaf) then 1 else 0)
              && n.wins == old(n.wins) +
                   (if n in Ancestors(leaf) then Outcome(Winner(Playout(leaf.board).grid), leaf.board.current) else 0.0)
    ensures leaf !in nodes ==>
              leaf.visits == 1 && leaf.wins == Outcome(Winner(Playout(leaf.board).grid), leaf.board.current)
  {
    var node, expanded;
    next, node, expanded := Grow(root, nodes, ucb, moves);
    ScorePath(root, expanded, next);
    sel, leaf := node, expanded;
  }

  /**
   * The second half of a pass: a rollout from the leaf's board, then
   * backpropagation of its outcome for the leaf's player to move.
   */
  method ScorePath(root: Node, leaf: Node, ghost nodes: set<Node>)
    requires Rooted(root, nodes) && Boards(nodes) && leaf in nodes
    requires Linked(nodes) && Stats(nodes)
    requires forall n :: n in nodes && n != root && n != leaf ==> n.visits >= 1
    modifies nodes
    ensures Linked(nodes) && Stats(nodes) && Visited(root, nodes)
    ensures ValidState(leaf.board) && root in Ancestors(leaf) && Ancestors(leaf) <= nodes
    ensures forall n :: n in nodes ==>
              && n.visits == old(n.visits) + (if n in Ancestors(leaf) then 1 else 0)
              && n.wins == old(n.wins) +
                   (if n in Ancestors(leaf) then Outcome(Winner(Playout(leaf.board).grid), leaf.board.current) else 0.0)
              && n.children == old(n.children) && n.untried == old(n.untried)
  {
    var winner := Simulate(leaf.board);
    var result := Outcome(winner, leaf.board.current);
    Backpropagate(root, leaf, nodes, result);
  }

  // ---------------------------------------------------------------------------
  // get_move
  // ---------------------------------------------------------------------------

  /** The first move of `ms` that wins for `p` or for `p`'s opponent. */
  function FirstForced(g: Grid, ms: seq<Move>, p: int): (r: Option<Move>)
    requires IsSquare(g) && forall m :: m in ms ==> InBounds(g, m.row, m.col)
    ensures r.Some? ==> r.value in ms && (IsWin(g, r.value, p) || IsWin(g, r.value, Opponent(p)))
  {
    if ms == [] then None
    else if IsWin(g, ms[0], p) || IsWin(g, ms[0], Opponent(p)) then Some(ms[0])
    else FirstForced(g, ms[1 ..], p)
  }

  /** A list none of whose moves wins for either player has no forced move. */
  lemma {:induction false} FirstForcedNone(g: Grid, ms: seq<Move>, p: int)
    requires IsSquare(g) && forall m :: m in ms ==> InBounds(g, m.row, m.col)
    requires forall m :: m in ms ==> !IsWin(g, m, p) && !IsWin(g, m, Opponent(p))
    ensures FirstForced(g, ms, p).None?
  {
    if ms != [] {
      assert forall m :: m in ms[1 ..] ==> m in ms;
      FirstForcedNone(g, ms[1 ..], p);
    }
  }

  /** The loop at the top of `get_move` over the root's sorted moves: a win for `p`, else a block, move by move. */
  method FindForced(g: Grid, ms: seq<Move>, p: int) returns (r: Option<Move>)
    requires IsSquare(g) && forall m :: m in ms ==> InBounds(g, m.row, m.col)
    ensures r == FirstForced(g, ms, p)
  {
    for i := 0 to |ms|
      invariant FirstForced(g, ms, p) == FirstForced(g, ms[i ..], p)
    {
      assert ms[i ..][1 ..] == ms[i + 1 ..];
      var win := IsWinningMove(g, ms[i], p);
      if win {
        return Some(ms[i]);
      }
      var block := IsWinningMove(g, ms[i], Opponent(p));
      if block {
        return Some(ms[i]);
      }
    }
    return None;
  }

  /** The move the check before the search returns for a position, if any. */
  function ForcedMove(st: State): Option<Move>
    requires ValidState(st)
  {
    SortedMovesValid(st);
    FirstForced(st.grid, SortedMoves(st), st.current)
  }

  /**
   * Although it only looks at the root's sorted moves, the forced-move check
   * finds the first empty cell in board order that wins for the player to
   * move, and failing that the first one the opponent would win on.
   */
  lemma ForcedMoveSpec(st: State)
    requires ValidState(st)
    ensures forall m :: m in EmptyCells(st.grid) ==> InBounds(st.grid, m.row, m.col)
    ensures var valid, p := EmptyCells(st.grid), st.current;
      ForcedMove(st) == if FirstWin(st.grid, valid, p).Some? then FirstWin(st.grid, valid, p)
                        else FirstWin(st.grid, valid, Opponent(p))
  {
    var g, p := st.grid, st.current;
    var q := Opponent(p);
    EmptyCellsAreEmpty(g);
    EmptyCellsCount(g);
    SortedMovesValid(st);
    var valid := EmptyCells(g);
    FirstWinSpec(g, valid, p);
    FirstWinSpec(g, valid, q);
    if valid == [] {
    } else if AllEmpty(g) {
      var c := MinimaxEval.CenterMove(|g|);
      NoWinOnEmpty(g, c, p);
      NoWinOnEmpty(g, c, q);
      forall i | 0 <= i < |valid| ensures !IsWin(g, valid[i], p) && !IsWin(g, valid[i], q) {
        NoWinOnEmpty(g, valid[i], p);
        NoWinOnEmpty(g, valid[i], q);
      }
    } else if FirstWin(g, valid, p).None? {
      BlockersFirst(g, valid, q);
      var critical := Critical(st);
      if critical != [] {
        BlockersMembers(g, valid, q, critical[0]);
      } else {
        forall m | m in SortedMoves(st) ensures !IsWin(g, m, p) && !IsWin(g, m, q) {
          EmptyCellsMembers(g, m);
          BlockersMembers(g, valid, q, m);
        }
        FirstForcedNone(g, SortedMoves(st), p);
      }
    }
  }

  /**
   * The search loop of `get_move`, `iterations` passes from a fresh root:
   * afterwards the root has been visited once per pass, its children were
   * made by the root's sorted moves, and it has a child as soon as there was
   * a pass and a move to try.
   */
  method Search(root: Node, iterations: nat, ucb: (real, nat, nat) -> real, ghost moves: seq<Move>)
    returns (ghost nodes: set<Node>)
    requires ValidState(root.board) && root.parent == null && root.depth == 0
    requires root.room == |EmptyCells(root.board.grid)|
    requires root.children == [] && root.visits == 0 && root.wins == 0.0 && root.untried == moves
    requires forall m :: m in moves ==> IsEmptyCell(root.board.grid, m)
    modifies root
    ensures Rooted(root, nodes) && Boards(nodes) && Linked(nodes) && Stats(nodes) && Visited(root, nodes)
    ensures root.visits == iterations
    ensures MadeFrom(root.children, root.untried, moves)
    ensures iterations > 0 && moves != [] ==> root.children != []
  {
    nodes := {root};
    for it := 0 to iterations
      invariant root in nodes && fresh(nodes - {root})
      invariant Rooted(root, nodes) && Boards(nodes) && Linked(nodes) && Stats(nodes) && Visited(root, nodes)
      invariant root.visits == it
      invariant MadeFrom(root.children, root.untried, moves)
      invariant it == 0 ==> root.children == [] && root.untried == moves
      invariant it > 0 && moves != [] ==> root.children != []
    {
      ghost var sel, leaf;
      nodes, sel, leaf := Iterate(root, nodes, ucb, moves);
    }
  }

  /**
   * `get_move` with a budget of `iterations` passes instead of a time limit:
   * a forced move when there is one; otherwise the move of the root child
   * with the most visits, the last one among equals, after the search; and
   * nothing where the source raises an error because the root has no child.
   * Whatever it returns is one of the root's sorted moves, an empty cell.
   */
  method GetMove(st: State, iterations: nat, ucb: (real, nat, nat) -> real)
    returns (r: Option<Move>, ghost tree: Node?, ghost kids: seq<Node>)
    requires ValidState(st)
    ensures ForcedMove(st).Some? ==> r == ForcedMove(st)
    ensures ForcedMove(st).None? ==> (r.None? <==> iterations == 0 || SortedMoves(st) == [])
    ensures r.Some? ==> r.value in SortedMoves(st) && IsEmptyCell(st.grid, r.value)
    ensures ForcedMove(st).None? && r.Some? ==>
              && tree != null && tree.board == st && tree.parent == null
              && tree.visits == iterations && kids == tree.children
              && (forall k :: k in kids ==> k.parent == tree && k.move.Some? && IsEmptyCell(st.grid, k.move.value)
                                            && k.board == Apply(st, k.move.value))
              && exists i :: IsLastMax(VisitKeys(kids), i) && kids[i].move == r
  {
    var root := new Node(st, null, None);
    SortedMovesValid(st);
    var forced := FindForced(st.grid, root.untried, st.current);
    if forced.Some? {
      return forced, null, [];
    }
    ghost var nodes := Search(root, iterations, ucb, SortedMoves(st));
    if root.children == [] {
      return None, null, [];
    }
    var best := LastMaxIndex(VisitKeys(root.children));
    r := root.children[best].move;
    tree, kids := root, root.children;
    assert LinkedAt(root, nodes);
    forall k | k in kids
      ensures k.parent == root && k.move.Some? && IsEmptyCell(st.grid, k.move.value) && k.board == Apply(st, k.move.value)
    {
      assert k in nodes && k.parent == root && ChildOf(k);
    }
  }
}
