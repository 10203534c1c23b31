/**
 * The Monte Carlo tree search agent, `selectBestMoveMCTS`.  The tree of `MCTSNode`s is kept
 * as a sequence of nodes, the root at position 0, each node naming its parent and children
 * by position.  Each iteration walks down from the root by `selectBestChild`, expands a leaf
 * that was visited before (or the root) with every placement of the current piece, steps to
 * the first new child, and adds one visit and that iteration's reward to every node from there
 * up to the root.  The answer is the move of the most visited child of the root.
 */
module Mcts {
  import opened Wrappers
  import opened Board
  import opened Lines
  import opened Moves
  import opened Choice

  /** The number of iterations the search runs. */
  const MctsIterations: nat := 50

  /**
   * An `MCTSNode`: the move that led to it (none at the root), its board, the rewards summed
   * over its visits, its visit count, its children and its parent.
   */
  datatype Node = Node(move: Option<Placement>, board: array2<int>, wins: real, visits: nat,
                       children: seq<nat>, parent: Option<nat>)

  /** A tree rooted at position 0: every other node has a move and a parent placed before it. */
  predicate Linked(nodes: seq<Node>)
  {
    && |nodes| > 0
    && nodes[0].parent.None?
    && forall i :: 0 < i < |nodes| ==> nodes[i].parent.Some? && nodes[i].parent.value < i && nodes[i].move.Some?
  }

  /** Every child of a node is placed after it and names it as parent. */
  predicate ChildrenLinked(nodes: seq<Node>)
  {
    forall i, j :: 0 <= i < |nodes| && 0 <= j < |nodes[i].children| ==>
      i < nodes[i].children[j] < |nodes| && nodes[nodes[i].children[j]].parent == Some(i)
  }

  /** No node has been visited more often than its parent. */
  predicate VisitsBounded(nodes: seq<Node>)
    requires Linked(nodes)
  {
    forall i :: 0 < i < |nodes| ==> nodes[i].visits <= nodes[nodes[i].parent.value].visits
  }

  predicate Valid(nodes: seq<Node>)
  {
    Linked(nodes) && ChildrenLinked(nodes) && VisitsBounded(nodes)
  }

  // ---------------------------------------------------------------------------------------
  // Selection
  // ---------------------------------------------------------------------------------------

  /** The value `ucb1` returns: infinite for an unvisited node, otherwise a number. */
  datatype Priority = Infinite | Finite(value: real)

  /** The comparison `a > b` on these values: infinity exceeds every number, and not itself. */
  predicate Above(a: Priority, b: Priority)
  {
    (a.Infinite? && b.Finite?) || (a.Finite? && b.Finite? && a.value > b.value)
  }

  /**
   * `ucb1(parentVisits)`: infinite when the node is unvisited; otherwise the UCB1 value, here
   * the given function of the node's wins, its visits and its parent's visits.  Unvisited
   * nodes get priority: nothing is above them and they are above every number, while a
   * visited node is below an unvisited one and not above some number.
   */
  function Ucb1(node: Node, parentVisits: nat, ucb: (real, nat, nat) -> real): (p: Priority)
    ensures node.visits == 0 ==> forall q: Priority :: !Above(q, p) && (q.Finite? ==> Above(p, q))
    ensures node.visits > 0 ==> Above(Infinite, p) && exists q: Priority :: q.Finite? && !Above(p, q)
  {
    if node.visits == 0 then Infinite
    else
      var p := Finite(ucb(node.wins, node.visits, parentVisits));
      assert !Above(p, p);
      p
  }

  /** The numbers of a sequence of finite priorities. */
  function Values(ps: seq<Priority>): (vs: seq<real>)
    requires forall i :: 0 <= i < |ps| ==> ps[i].Finite?
    ensures |vs| == |ps| && forall i :: 0 <= i < |ps| ==> vs[i] == ps[i].value
  {
    seq(|ps|, i requires 0 <= i < |ps| => ps[i].value)
  }

  /**
   * The position `reduce((best, c) => c > best ? c : best)` ends on: the first infinite
   * priority when there is one, otherwise the first maximum.
   */
  function BestOf(ps: seq<Priority>): (r: nat)
    requires |ps| > 0
    ensures r < |ps|
    ensures (exists i :: 0 <= i < |ps| && ps[i].Infinite?) ==>
              ps[r].Infinite? && forall i :: 0 <= i < r ==> ps[i].Finite?
    ensures (forall i :: 0 <= i < |ps| ==> ps[i].Finite?) ==> IsFirstMax(Values(ps), r)
  {
    if |ps| == 1 then 0
    else
      var init := ps[..|ps| - 1];
      assert forall i :: 0 <= i < |init| ==> init[i] == ps[i];
      var b := BestOf(init);
      if Above(ps[|ps| - 1], ps[b]) then |ps| - 1 else b
  }

  /** One step of the `reduce`: the best of a longer prefix. */
  lemma BestOfStep(ps: seq<Priority>, j: int)
    requires 0 < j < |ps|
    ensures BestOf(ps[..j + 1]) == if Above(ps[j], ps[BestOf(ps[..j])]) then j else BestOf(ps[..j])
  {
    assert ps[..j + 1][..j] == ps[..j];
  }

  /** The priorities of node `i`'s children, against `i`'s visit count. */
  function Priorities(nodes: seq<Node>, i: nat, ucb: (real, nat, nat) -> real): (ps: seq<Priority>)
    requires Valid(nodes) && i < |nodes|
    ensures |ps| == |nodes[i].children|
    ensures forall j :: 0 <= j < |ps| ==> ps[j] == Ucb1(nodes[nodes[i].children[j]], nodes[i].visits, ucb)
  {
    seq(|nodes[i].children|, j requires 0 <= j < |nodes[i].children| =>
      Ucb1(nodes[nodes[i].children[j]], nodes[i].visits, ucb))
  }

  /** The child `selectBestChild` picks. */
  function BestChild(nodes: seq<Node>, i: nat, ucb: (real, nat, nat) -> real): (c: nat)
    requires Valid(nodes) && i < |nodes| && |nodes[i].children| > 0
    ensures i < c < |nodes|
  {
    nodes[i].children[BestOf(Priorities(nodes, i, ucb))]
  }

  /**
   * `selectBestChild` picks the first unvisited child when there is one; otherwise the first
   * child of highest UCB1 value.
   */
  lemma BestChildChoice(nodes: seq<Node>, i: nat, ucb: (real, nat, nat) -> real)
    requires Valid(nodes) && i < |nodes| && |nodes[i].children| > 0
    ensures var ch := nodes[i].children;
            var k := BestOf(Priorities(nodes, i, ucb));
            && BestChild(nodes, i, ucb) == ch[k]
            && ((exists j :: 0 <= j < |ch| && nodes[ch[j]].visits == 0) ==>
                  nodes[ch[k]].visits == 0 && forall j :: 0 <= j < k ==> nodes[ch[j]].visits > 0)
            && ((forall j :: 0 <= j < |ch| ==> nodes[ch[j]].visits > 0) ==>
                  IsFirstMax(Values(Priorities(nodes, i, ucb)), k))
  {
    var ch := nodes[i].children;
    var ps := Priorities(nodes, i, ucb);
    assert forall j :: 0 <= j < |ch| ==> (ps[j].Infinite? <==> nodes[ch[j]].visits == 0);
    if exists j :: 0 <= j < |ch| && nodes[ch[j]].visits == 0 {
      var j :| 0 <= j < |ch| && nodes[ch[j]].visits == 0;
      assert ps[j].Infinite?;
    }
  }

  /** `selectBestChild`: the `reduce` over the children, keeping the earlier one unless beaten. */
  method SelectBestChild(nodes: seq<Node>, i: nat, ucb: (real, nat, nat) -> real) returns (c: nat)
    requires Valid(nodes) && i < |nodes| && |nodes[i].children| > 0
    ensures c == BestChild(nodes, i, ucb)
  {
    var parentVisits := nodes[i].visits;
    var children := nodes[i].children;
    ghost var ps := Priorities(nodes, i, ucb);
    var best := 0;
    for j := 1 to |children|
      invariant best == BestOf(ps[..j])
    {
      BestOfStep(ps, j);
      if Above(Ucb1(nodes[children[j]], parentVisits, ucb), Ucb1(nodes[children[best]], parentVisits, ucb)) {
        best := j;
      }
    }
    assert ps[..|children|] == ps;
    c := children[best];
  }

  /** The node the selection walk ends on, starting from `i`. */
  function Leaf(nodes: seq<Node>, i: nat, ucb: (real, nat, nat) -> real): (l: nat)
    requires Valid(nodes) && i < |nodes|
    ensures i <= l < |nodes| && nodes[l].children == []
    decreases |nodes| - i
  {
    if |nodes[i].children| == 0 then i else Leaf(nodes, BestChild(nodes, i, ucb), ucb)
  }

  /** The selection walk: from the root, step to the best child until reaching a leaf. */
  method Descend(nodes: seq<Node>, ucb: (real, nat, nat) -> real) returns (node: nat, board: array2<int>)
    requires Valid(nodes)
    ensures node == Leaf(nodes, 0, ucb)
    ensures fresh(board) && Cells(board) == Cells(nodes[node].board)
  {
    node := 0;
    board := CopyBlocks(nodes[0].board);
    while |nodes[node].children| > 0
      invariant node < |nodes| && Leaf(nodes, node, ucb) == Leaf(nodes, 0, ucb)
      invariant fresh(board) && Cells(board) == Cells(nodes[node].board)
      decreases |nodes| - node
    {
      node := SelectBestChild(nodes, node, ucb);
      board := CopyBlocks(nodes[node].board);
    }
  }

  // ---------------------------------------------------------------------------------------
  // Expansion
  // ---------------------------------------------------------------------------------------

  /** The positions `from`, `from + 1`, ..., `to - 1`. */
  function Range(from: nat, to: nat): (r: seq<nat>)
    requires from <= to
    ensures |r| == to - from && forall k :: 0 <= k < |r| ==> r[k] == from + k
  {
    seq(to - from, k requires 0 <= k < to - from => from + k)
  }

  /**
   * `nodes'` is `nodes` with node `n` given one new child for each of the first placements of
   * `moves`, in order.
   */
  predicate GrownPart(nodes: seq<Node>, nodes': seq<Node>, n: nat, moves: seq<Placement>)
    requires n < |nodes|
  {
    && |nodes| <= |nodes'| <= |nodes| + |moves|
    && (forall i :: 0 <= i < |nodes| && i != n ==> nodes'[i] == nodes[i])
    && nodes'[n] == nodes[n].(children := nodes[n].children + Range(|nodes|, |nodes'|))
    && forall i :: |nodes| <= i < |nodes'| ==>
         nodes'[i] == Node(Some(moves[i - |nodes|]), nodes'[i].board, 0.0, 0, [], Some(n))
  }

  /** `nodes'` is `nodes` with node `n` given one new child per placement of `moves`, in order. */
  predicate Grown(nodes: seq<Node>, nodes': seq<Node>, n: nat, moves: seq<Placement>)
    requires n < |nodes|
  {
    |nodes'| == |nodes| + |moves| && GrownPart(nodes, nodes', n, moves)
  }

  /** The new children's boards are `board` after their moves, lines cleared. */
  ghost predicate ChildBoards(nodes: seq<Node>, nodes': seq<Node>, board: array2<int>, s: Shape, moves: seq<Placement>)
    requires s.Valid() && |nodes'| <= |nodes| + |moves|
    reads board, set i | |nodes| <= i < |nodes'| :: nodes'[i].board
  {
    forall i :: |nodes| <= i < |nodes'| ==>
      && nodes'[i].board.Length0 == board.Length0
      && 0 <= moves[i - |nodes|].dir < 4
      && Cells(nodes'[i].board) == Cleared(Stamp(Cells(board), s, moves[i - |nodes|]))
  }

  /** Growing a leaf keeps the tree well formed. */
  lemma GrownValid(nodes: seq<Node>, nodes': seq<Node>, n: nat, moves: seq<Placement>)
    requires Valid(nodes) && n < |nodes| && nodes[n].children == []
    requires Grown(nodes, nodes', n, moves)
    ensures Valid(nodes')
  {
    forall i, j | 0 <= i < |nodes'| && 0 <= j < |nodes'[i].children|
      ensures i < nodes'[i].children[j] < |nodes'| && nodes'[nodes'[i].children[j]].parent == Some(i)
    {
      if i != n && i < |nodes| {
        assert nodes'[i] == nodes[i];
      }
    }
    forall i | 0 < i < |nodes'|
      ensures nodes'[i].parent.Some? && nodes'[i].parent.value < i && nodes'[i].move.Some?
    {
      if i < |nodes| && i != n {
        assert nodes'[i] == nodes[i];
      }
    }
    forall i | 0 < i < |nodes'|
      ensures nodes'[i].visits <= nodes'[nodes'[i].parent.value].visits
    {
      if i < |nodes| && i != n {
        var p := nodes[i].parent.value;
        assert nodes'[p].visits == nodes[p].visits;
      }
    }
  }

  /** One more child, added as `AddChild` adds it, extends the grown part by one placement. */
  lemma GrownStep(nodes: seq<Node>, mid: seq<Node>, next: seq<Node>, n: nat, moves: seq<Placement>)
    requires n < |nodes| && GrownPart(nodes, mid, n, moves) && |mid| < |nodes| + |moves|
    requires |next| == |mid| + 1
    requires forall i :: 0 <= i < |mid| && i != n ==> next[i] == mid[i]
    requires next[n] == mid[n].(children := mid[n].children + [|mid|])
    requires next[|mid|] == Node(Some(moves[|mid| - |nodes|]), next[|mid|].board, 0.0, 0, [], Some(n))
    ensures GrownPart(nodes, next, n, moves)
  {
    assert Range(|nodes|, |next|) == Range(|nodes|, |mid|) + [|mid|];
  }

  /** A new child whose board is the placement's outcome extends the boards of the grown part. */
  lemma ChildBoardsStep(nodes: seq<Node>, mid: seq<Node>, next: seq<Node>, board: array2<int>, s: Shape,
                        moves: seq<Placement>)
    requires s.Valid() && |nodes| <= |mid| < |nodes| + |moves| && |next| == |mid| + 1
    requires ChildBoards(nodes, mid, board, s, moves)
    requires forall i :: |nodes| <= i < |mid| ==> next[i].board == mid[i].board
    requires next[|mid|].board.Length0 == board.Length0 && 0 <= moves[|mid| - |nodes|].dir < 4
    requires Cells(next[|mid|].board) == Cleared(Stamp(Cells(board), s, moves[|mid| - |nodes|]))
    ensures ChildBoards(nodes, next, board, s, moves)
  {
  }

  /**
   * One pass of the expansion loop: the new child with the move's board, its parent link and
   * its push onto the node's children.
   */
  method AddChild(nodes: seq<Node>, n: nat, board: array2<int>, s: Shape, m: Placement) returns (nodes': seq<Node>)
    requires n < |nodes| && board.Length0 > 0 && s.Valid() && 0 <= m.dir < 4
    ensures |nodes'| == |nodes| + 1
    ensures forall i :: 0 <= i < |nodes| && i != n ==> nodes'[i] == nodes[i]
    ensures nodes'[n] == nodes[n].(children := nodes[n].children + [|nodes|])
    ensures nodes'[|nodes|] == Node(Some(m), nodes'[|nodes|].board, 0.0, 0, [], Some(n))
    ensures fresh(nodes'[|nodes|].board) && nodes'[|nodes|].board.Length0 == board.Length0
    ensures Cells(nodes'[|nodes|].board) == Cleared(Stamp(Cells(board), s, m))
  {
    var newBoard := ApplyMoveToBoard(board, s, m);
    var child := Node(Some(m), newBoard, 0.0, 0, [], Some(n));
    nodes' := nodes + [child];
    nodes' := nodes'[n := nodes'[n].(children := nodes'[n].children + [|nodes|])];
  }

  /** The expansion loop: one new child of `n` per placement of `moves`, in order. */
  method AddChildren(nodes: seq<Node>, n: nat, board: array2<int>, s: Shape, moves: seq<Placement>)
    returns (nodes': seq<Node>)
    requires n < |nodes| && board.Length0 > 0 && s.Valid()
    requires forall j :: 0 <= j < |moves| ==> 0 <= moves[j].dir < 4
    ensures Grown(nodes, nodes', n, moves)
    ensures ChildBoards(nodes, nodes', board, s, moves)
  {
    nodes' := nodes;
    for j := 0 to |moves|
      modifies {}
      invariant |nodes'| == |nodes| + j
      invariant GrownPart(nodes, nodes', n, moves)
      invariant ChildBoards(nodes, nodes', board, s, moves)
    {
      var next := AddChild(nodes', n, board, s, moves[j]);
      GrownStep(nodes, nodes', next, n, moves);
      ChildBoardsStep(nodes, nodes', next, board, s, moves);
      nodes' := next;
    }
  }

  /**
   * The expansion step: every placement `getAllMovesForMCTS` finds on the leaf's board becomes
   * a child holding `applyMoveToBoard`'s board, with no visits and no wins.
   */
  method Expand(nodes: seq<Node>, n: nat, board: array2<int>, s: Shape) returns (nodes': seq<Node>)
    requires Valid(nodes) && n < |nodes| && nodes[n].children == [] && board.Length0 > 0 && s.Valid()
    ensures Valid(nodes')
    ensures Grown(nodes, nodes', n, LegalMoves(Cells(board), s, false))
    ensures ChildBoards(nodes, nodes', board, s, LegalMoves(Cells(board), s, false))
  {
    var moves := GetAllMovesForMCTS(board, s);
    LegalRotations(Cells(board), s, false);
    nodes' := AddChildren(nodes, n, board, s, moves);
    GrownValid(nodes, nodes', n, moves);
  }

  // ---------------------------------------------------------------------------------------
  // Backpropagation
  // ---------------------------------------------------------------------------------------

  /** Node `i` is `n` or one of its ancestors: the walk up from `n` passes it. */
  ghost predicate OnPath(nodes: seq<Node>, n: nat, i: int)
    requires Linked(nodes) && n < |nodes|
    decreases n
  {
    i == n || (n > 0 && OnPath(nodes, nodes[n].parent.value, i))
  }

  /** The walk up from any node reaches the root. */
  lemma {:induction false} RootOnPath(nodes: seq<Node>, n: nat)
    requires Linked(nodes) && n < |nodes|
    ensures OnPath(nodes, n, 0)
    decreases n
  {
    if n > 0 {
      RootOnPath(nodes, nodes[n].parent.value);
    }
  }

  /** The walk up from `n` passes only `n` and nodes placed before it. */
  lemma {:induction false} PathBelow(nodes: seq<Node>, n: nat)
    requires Linked(nodes) && n < |nodes|
    ensures forall i :: OnPath(nodes, n, i) ==> 0 <= i <= n
    decreases n
  {
    if n > 0 {
      PathBelow(nodes, nodes[n].parent.value);
    }
  }

  /** The walk up passes the parent of every node it passes. */
  lemma {:induction false} PathClosed(nodes: seq<Node>, n: nat, c: nat)
    requires Linked(nodes) && n < |nodes| && 0 < c < |nodes| && OnPath(nodes, n, c)
    ensures OnPath(nodes, n, nodes[c].parent.value)
    decreases n
  {
    if c != n {
      PathClosed(nodes, nodes[n].parent.value, c);
    }
  }

  /** A node after one more visit with the given reward. */
  function Visited(node: Node, reward: real): Node
  {
    node.(visits := node.visits + 1, wins := node.wins + reward)
  }

  /** The two trees differ at most in visits and wins. */
  predicate SameShape(a: seq<Node>, b: seq<Node>)
  {
    && |a| == |b|
    && forall i :: 0 <= i < |a| ==>
         b[i].move == a[i].move && b[i].board == a[i].board && b[i].children == a[i].children
  }

  /** Adding a visit to every node on a walk up to the root keeps every node within its parent's visits. */
  lemma BackpropagatedValid(nodes: seq<Node>, nodes': seq<Node>, n: nat, reward: real)
    requires Valid(nodes) && n < |nodes| && |nodes'| == |nodes|
    requires forall i :: 0 <= i < |nodes| ==>
               nodes'[i] == if OnPath(nodes, n, i) then Visited(nodes[i], reward) else nodes[i]
    ensures Valid(nodes') && nodes'[0].visits == nodes[0].visits + 1
    ensures SameShape(nodes, nodes')
  {
    RootOnPath(nodes, n);
    forall i | 0 < i < |nodes|
      ensures nodes'[i].visits <= nodes'[nodes'[i].parent.value].visits
    {
      if OnPath(nodes, n, i) {
        PathClosed(nodes, n, i);
      }
    }
  }

  /**
   * The backpropagation loop: one visit and the reward are added to `n` and to each of its
   * ancestors up to the root, and to no other node; the tree stays well formed.
   */
  method Backpropagate(nodes: seq<Node>, n: nat, reward: real) returns (nodes': seq<Node>)
    requires Valid(nodes) && n < |nodes|
    ensures |nodes'| == |nodes|
    ensures forall i :: 0 <= i < |nodes| ==>
              nodes'[i] == if OnPath(nodes, n, i) then Visited(nodes[i], reward) else nodes[i]
    ensures Valid(nodes') && nodes'[0].visits == nodes[0].visits + 1
    ensures SameShape(nodes, nodes')
  {
    nodes' := nodes;
    var node: Option<nat> := Some(n);
    while node.Some?
      invariant |nodes'| == |nodes|
      invariant node.Some? ==> node.value < |nodes| && OnPath(nodes, n, node.value)
      invariant forall i :: 0 <= i < |nodes| ==>
                  nodes'[i] == if OnPath(nodes, n, i) && !(node.Some? && OnPath(nodes, node.value, i))
                               then Visited(nodes[i], reward) else nodes[i]
      decreases if node.Some? then node.value + 1 else 0
    {
      var k := node.value;
      if k > 0 {
        PathBelow(nodes, nodes[k].parent.value);
        PathClosed(nodes, n, k);
      }
      nodes' := nodes'[k := Visited(nodes'[k], reward)];
      node := nodes[k].parent;
    }
    BackpropagatedValid(nodes, nodes', n, reward);
  }

  // ---------------------------------------------------------------------------------------
  // The search
  // ---------------------------------------------------------------------------------------

  /** The moves of the root's children, in order. */
  function RootMoves(nodes: seq<Node>): seq<Placement>
    requires Valid(nodes)
  {
    seq(|nodes[0].children|, j requires 0 <= j < |nodes[0].children| => nodes[nodes[0].children[j]].move.value)
  }

  /** The root's moves depend only on its children list and on their moves. */
  lemma RootMovesFrame(a: seq<Node>, b: seq<Node>)
    requires Valid(a) && Valid(b) && |a| <= |b| && b[0].children == a[0].children
    requires forall i :: 0 <= i < |a| ==> b[i].move == a[i].move
    ensures RootMoves(b) == RootMoves(a)
  {
  }

  /** Growing a node below the root leaves the root's moves as they were. */
  lemma GrownElsewhere(nodes: seq<Node>, nodes': seq<Node>, n: nat, moves: seq<Placement>)
    requires Valid(nodes) && Valid(nodes') && 0 < n < |nodes| && Grown(nodes, nodes', n, moves)
    ensures RootMoves(nodes') == RootMoves(nodes)
  {
    RootMovesFrame(nodes, nodes');
  }

  /** Growing the childless root gives it exactly the new moves. */
  lemma GrownRoot(nodes: seq<Node>, nodes': seq<Node>, moves: seq<Placement>)
    requires Valid(nodes) && Valid(nodes') && nodes[0].children == [] && Grown(nodes, nodes', 0, moves)
    ensures RootMoves(nodes') == moves
  {
    assert nodes'[0].children == Range(|nodes|, |nodes'|);
  }

  /**
   * The expansion branch of an iteration: grow the selected leaf, then step to its first
   * child if it got any.  The node the playout starts from is `sim`: the first new child,
   * or the leaf itself when the piece has no placement on the leaf's board.
   */
  method ExpandLeaf(nodes: seq<Node>, node: nat, board: array2<int>, s: Shape) returns (nodes': seq<Node>, sim: nat)
    requires Valid(nodes) && node < |nodes| && nodes[node].children == [] && s.Valid()
    requires board.Length0 > 0 && forall i :: 0 <= i < |nodes| ==> nodes[i].board.Length0 == board.Length0
    ensures Valid(nodes') && sim < |nodes'|
    ensures Grown(nodes, nodes', node, LegalMoves(Cells(board), s, false))
    ensures ChildBoards(nodes, nodes', board, s, LegalMoves(Cells(board), s, false))
    ensures sim == if |LegalMoves(Cells(board), s, false)| > 0 then |nodes| else node
    ensures nodes'[0].visits == nodes[0].visits && nodes'[0].board == nodes[0].board
    ensures forall i :: 0 <= i < |nodes'| ==> nodes'[i].board.Length0 == board.Length0
    ensures node != 0 ==> RootMoves(nodes') == RootMoves(nodes)
    ensures node == 0 ==> RootMoves(nodes') == LegalMoves(Cells(board), s, false)
  {
    nodes' := Expand(nodes, node, board, s);
    sim := node;
    assert nodes'[node].children == Range(|nodes|, |nodes'|);
    if |nodes'[node].children| > 0 {
      sim := nodes'[node].children[0];
    }
    if node != 0 {
      GrownElsewhere(nodes, nodes', node, LegalMoves(Cells(board), s, false));
    } else {
      GrownRoot(nodes, nodes', LegalMoves(Cells(board), s, false));
    }
  }

  /**
   * One iteration: select a leaf; expand it when it was visited before or is the root, and
   * then step to its first child if it got any; backpropagate the reward from there.  The
   * selected leaf is `leaf`, the tree after expansion `grown`, the node played out `sim`.
   */
  method Iterate(nodes: seq<Node>, s: Shape, reward: real, ucb: (real, nat, nat) -> real)
    returns (nodes': seq<Node>, ghost leaf: nat, ghost grown: seq<Node>, ghost sim: nat)
    requires Valid(nodes) && s.Valid() && forall i :: 0 <= i < |nodes| ==> nodes[i].board.Length0 == nodes[0].board.Length0 > 0
    ensures leaf == Leaf(nodes, 0, ucb)
    ensures Valid(grown) && sim < |grown|
    ensures (nodes[leaf].visits > 0 || leaf == 0) ==>
              && Grown(nodes, grown, leaf, LegalMoves(Cells(nodes[leaf].board), s, false))
              && sim == if |LegalMoves(Cells(nodes[leaf].board), s, false)| > 0 then |nodes| else leaf
    ensures (nodes[leaf].visits == 0 && leaf != 0) ==> grown == nodes && sim == leaf
    ensures |nodes'| == |grown|
    ensures forall i :: 0 <= i < |grown| ==>
              nodes'[i] == if OnPath(grown, sim, i) then Visited(grown[i], reward) else grown[i]
    ensures Valid(nodes') && nodes'[0].visits == nodes[0].visits + 1
    ensures nodes'[0].board == nodes[0].board
    ensures forall i :: 0 <= i < |nodes'| ==> nodes'[i].board.Length0 == nodes[0].board.Length0
    ensures |nodes[0].children| > 0 ==> RootMoves(nodes') == RootMoves(nodes)
    ensures |nodes[0].children| == 0 ==> RootMoves(nodes') == LegalMoves(Cells(nodes[0].board), s, false)
  {
    var node, board := Descend(nodes, ucb);
    var expanded := nodes;
    var start := node;
    if nodes[node].visits > 0 || node == 0 {
      expanded, start := ExpandLeaf(nodes, node, board, s);
    }
    leaf, grown, sim := node, expanded, start;
    nodes' := Backpropagate(expanded, start, reward);
    RootMovesFrame(expanded, nodes');
    assert forall i :: 0 <= i < |nodes'| ==> nodes'[i].board == expanded[i].board;
  }

  /**
   * The iterations of `selectBestMoveMCTS`, one per reward: the root ends with one visit per
   * iteration and, after at least one iteration, one child per placement of the piece.
   */
  method RunSearch(blocks: array2<int>, s: Shape, rewards: seq<real>, ucb: (real, nat, nat) -> real)
    returns (nodes: seq<Node>)
    requires blocks.Length0 > 0 && s.Valid()
    ensures Valid(nodes) && nodes[0].visits == |rewards|
    ensures |rewards| > 0 ==> RootMoves(nodes) == LegalMoves(Cells(blocks), s, false)
  {
    ghost var g := Cells(blocks);
    var currentBoard := CopyBlocks(blocks);
    nodes := [Node(None, currentBoard, 0.0, 0, [], None)];
    for it := 0 to |rewards|
      modifies {}
      invariant Valid(nodes) && nodes[0].visits == it
      invariant nodes[0].board == currentBoard && Cells(currentBoard) == g
      invariant forall i :: 0 <= i < |nodes| ==> nodes[i].board.Length0 == currentBoard.Length0
      invariant it == 0 ==> |nodes[0].children| == 0
      invariant it > 0 ==> RootMoves(nodes) == LegalMoves(g, s, false)
    {
      var next, leaf, grown, sim := Iterate(nodes, s, rewards[it], ucb);
      nodes := next;
    }
  }

  /** The visit counts of the root's children. */
  function ChildVisits(nodes: seq<Node>): (vs: seq<real>)
    requires Valid(nodes)
    ensures |vs| == |nodes[0].children|
  {
    seq(|nodes[0].children|, j requires 0 <= j < |nodes[0].children| => nodes[nodes[0].children[j]].visits as real)
  }

  /** The move of the first most visited child of the root, if the root has children. */
  function MostVisited(nodes: seq<Node>): Option<Placement>
    requires Valid(nodes)
  {
    match FirstMax(ChildVisits(nodes))
    case None => None
    case Some(k) => Some(RootMoves(nodes)[k])
  }

  /** The final `reduce` over the root's children by visit count. */
  method PickMostVisited(nodes: seq<Node>) returns (best: Option<Placement>)
    requires Valid(nodes)
    ensures best == MostVisited(nodes)
  {
    var children := nodes[0].children;
    ghost var visits := ChildVisits(nodes);
    best := None;
    if |children| > 0 {
      var bestChild := 0;
      for j := 1 to |children|
        invariant FirstMax(visits[..j]) == Some(bestChild) && bestChild < j
      {
        FirstMaxStep(visits, j);
        if nodes[children[j]].visits > nodes[children[bestChild]].visits {
          bestChild := j;
        }
      }
      assert visits[..|children|] == visits;
      best := Some(nodes[children[bestChild]].move.value);
    }
  }

  /**
   * Once the root's children are the placements of the piece, the most visited one is none
   * exactly when no placement is possible, and otherwise a possible placement.
   */
  lemma MostVisitedLegal(nodes: seq<Node>, g: Grid, s: Shape)
    requires Valid(nodes) && g.Valid() && s.Valid() && RootMoves(nodes) == LegalMoves(g, s, false)
    ensures MostVisited(nodes).None? <==> forall p :: !Legal(g, s, false, p)
    ensures MostVisited(nodes).Some? ==> Legal(g, s, false, MostVisited(nodes).value)
  {
    LegalMovesSpec(g, s, false);
    var ps := LegalMoves(g, s, false);
    assert |ps| == |ChildVisits(nodes)|;
    if |ps| > 0 {
      var k := FirstMax(ChildVisits(nodes)).value;
      assert MostVisited(nodes).value == ps[k] && ps[k] in ps;
    } else {
      forall p
        ensures !Legal(g, s, false, p)
      {
        assert p !in ps;
      }
    }
  }

  /**
   * `selectBestMoveMCTS`, with the reward of each iteration's random playout given: the move
   * of the most visited child of the searched tree's root, whose children are the placements
   * of the piece; so nothing exactly when the piece has no placement free at its drop row,
   * and otherwise one of them.
   */
  method SelectBestMoveMCTS(blocks: array2<int>, s: Shape, rewards: seq<real>, ucb: (real, nat, nat) -> real)
    returns (best: Option<Placement>, ghost tree: seq<Node>)
    requires blocks.Length0 > 0 && s.Valid() && |rewards| == MctsIterations
    ensures Valid(tree) && tree[0].visits == |rewards|
    ensures RootMoves(tree) == LegalMoves(Cells(blocks), s, false) && best == MostVisited(tree)
    ensures best.None? <==> forall p :: !Legal(Cells(blocks), s, false, p)
    ensures best.Some? ==> Legal(Cells(blocks), s, false, best.value)
  {
    var nodes := RunSearch(blocks, s, rewards, ucb);
    best := PickMostVisited(nodes);
    MostVisitedLegal(nodes, Cells(blocks), s);
    tree := nodes;
  }
}
