/** The Monte Carlo tree search player: a tree of nodes, each holding a board, its parent, the
    children expanded so far and win/visit tallies, grown by repeated selection, expansion,
    random playout and backpropagation. Randomness comes from an injected source. */
module MonteCarloAgent {
  import opened Boards

  /* ---------------- The random source ---------------- */

  /** A source of choices standing in for Python's random module: a linear congruential
      generator whose state is its seed. */
  class Random {
    var seed: nat

    constructor (seed: nat)
      ensures this.seed == seed
    {
      this.seed := seed;
    }

    /** random.choice on a list of length n: an index into the list. */
    method Choice(n: nat) returns (r: nat)
      requires n > 0
      modifies this
      ensures r < n
    {
      seed := (seed * 1103515245 + 12345) % 2147483648;
      r := seed % n;
    }
  }

  /* ---------------- UCB1 scores ---------------- */

  /** A UCB1 score: a real number, or plus infinity for a child never visited. */
  datatype Score = Finite(r: real) | Infinite

  predicate Greater(s: Score, t: Score)
  {
    match s
    case Infinite => t.Finite?
    case Finite(x) => t.Finite? && x > t.r
  }

  const ExplorationWeight: real := 1.414

  /* ---------------- Tree nodes ---------------- */

  class MCTSNode {
    const state: Board
    const parent: MCTSNode?
    /** The distance to the root, which makes the parent chain well founded. */
    ghost const depth: nat
    /** The children in insertion order, each with the action that leads to it. */
    var children: seq<(GameAction, MCTSNode)>
    var visits: int
    var wins: int

    constructor (state: Board, parent: MCTSNode?)
      ensures this.state == state && this.parent == parent
      ensures depth == (if parent == null then 0 else parent.depth + 1)
      ensures children == [] && visits == 0 && wins == 0
    {
      this.state := state;
      this.parent := parent;
      depth := if parent == null then 0 else parent.depth + 1;
      children := [];
      visits := 0;
      wins := 0;
    }

    /** is_fully_expanded: as many children as possible actions. */
    predicate IsFullyExpanded(possibleActions: seq<GameAction>)
      reads this`children
    {
      |children| == |possibleActions|
    }

    /** The UCB1 score of child c under this node: the child's mean reward plus the
        exploration weight times explore(parent visits, child visits), which stands for
        sqrt(ln(parent visits) / child visits); an unvisited child scores infinity. */
    function Ucb1(c: MCTSNode, weight: real, explore: (int, int) -> real): Score
      reads this`visits, c`visits, c`wins
    {
      if c.visits > 0 then Finite(c.wins as real / c.visits as real + weight * explore(visits, c.visits))
      else Infinite
    }

    /** The child objects. */
    ghost function Kids(): set<MCTSNode>
      reads this
    {
      set i | 0 <= i < |children| :: children[i].1
    }

    /** Child k has the largest UCB1 score and every earlier child a strictly smaller one. */
    ghost predicate FirstBestScore(k: int, weight: real, explore: (int, int) -> real)
      reads this, Kids()
    {
      && 0 <= k < |children|
      && (forall j :: 0 <= j < |children| ==>
            !Greater(Ucb1(children[j].1, weight, explore), Ucb1(children[k].1, weight, explore)))
      && (forall j :: 0 <= j < k ==>
            Greater(Ucb1(children[k].1, weight, explore), Ucb1(children[j].1, weight, explore)))
    }

    /** best_child: the first child of largest UCB1 score, or none without children. */
    method BestChild(weight: real, explore: (int, int) -> real) returns (r: Option<(GameAction, MCTSNode)>)
      ensures r.None? <==> |children| == 0
      ensures r.Some? ==> exists k :: FirstBestScore(k, weight, explore) && children[k] == r.value
    {
      r := None;
      var bestScore := Infinite;
      ghost var bestK := 0;
      var i := 0;
      while i < |children|
        invariant 0 <= i <= |children|
        invariant r.None? <==> i == 0
        invariant r.Some? ==> bestK < i && children[bestK] == r.value && bestScore == Ucb1(children[bestK].1, weight, explore)
        invariant r.Some? ==> forall j :: 0 <= j < i ==> !Greater(Ucb1(children[j].1, weight, explore), bestScore)
        invariant r.Some? ==> forall j :: 0 <= j < bestK ==> Greater(bestScore, Ucb1(children[j].1, weight, explore))
      {
        var child := children[i].1;
        var score := if child.visits > 0
          then Finite(child.wins as real / child.visits as real + weight * explore(visits, child.visits))
          else Infinite;
        assert score == Ucb1(child, weight, explore);
        if r.None? || Greater(score, bestScore) {
          bestScore := score;
          r := Some(children[i]);
          bestK := i;
        }
        i := i + 1;
      }
    }

    /** Child k has the most visits and every earlier child strictly fewer. */
    ghost predicate FirstMostVisited(k: int)
      reads this, Kids()
    {
      && 0 <= k < |children|
      && (forall j :: 0 <= j < |children| ==> children[j].1.visits <= children[k].1.visits)
      && (forall j :: 0 <= j < k ==> children[j].1.visits < children[k].1.visits)
    }

    /** max over the children by visit count: the first child with the most visits, or none
        without children (where Python's max raises). */
    method MostVisited() returns (r: Option<(GameAction, MCTSNode)>)
      ensures r.None? <==> |children| == 0
      ensures r.Some? ==> exists k :: FirstMostVisited(k) && children[k] == r.value
    {
      r := None;
      ghost var bestK := 0;
      var i := 0;
      while i < |children|
        invariant 0 <= i <= |children|
        invariant r.None? <==> i == 0
        invariant r.Some? ==> bestK < i && children[bestK] == r.value
        invariant r.Some? ==> forall j :: 0 <= j < i ==> children[j].1.visits <= r.value.1.visits
        invariant r.Some? ==> forall j :: 0 <= j < bestK ==> children[j].1.visits < r.value.1.visits
      {
        if r.None? || children[i].1.visits > r.value.1.visits {
          r := Some(children[i]);
          bestK := i;
        }
        i := i + 1;
      }
    }

    /** expand: the child is added after the existing ones. */
    method Expand(action: GameAction, childNode: MCTSNode)
      modifies this`children
      ensures children == old(children) + [(action, childNode)]
    {
      children := children + [(action, childNode)];
    }
  }

  /* ---------------- The shape of the tree ---------------- */

  /** The parent chain climbs one depth at a time to depth 0. */
  ghost predicate Linked(n: MCTSNode)
    decreases n.depth
  {
    n.parent != null ==> n.parent.depth + 1 == n.depth && Linked(n.parent)
  }

  /** The node and its ancestors, the node first and the root last. */
  ghost function Path(n: MCTSNode): (p: seq<MCTSNode>)
    requires Linked(n)
    ensures |p| >= 1 && p[0] == n
    decreases n.depth
  {
    [n] + (if n.parent == null then [] else Path(n.parent))
  }

  /** The end of the parent chain. */
  ghost function Root(n: MCTSNode): MCTSNode
    requires Linked(n)
    decreases n.depth
  {
    if n.parent == null then n else Root(n.parent)
  }

  /** The actions of a child list, in order. */
  function Actions(cs: seq<(GameAction, MCTSNode)>): (s: seq<GameAction>)
    ensures |s| == |cs| && forall i :: 0 <= i < |cs| ==> s[i] == cs[i].0
  {
    seq(|cs|, i requires 0 <= i < |cs| => cs[i].0)
  }

  /** One child entry: the child is in the tree, hangs under n, and holds n's board after the
      action, which was a free edge, played for the side to move. */
  ghost predicate ChildOK(n: MCTSNode, a: GameAction, c: MCTSNode, nodes: set<MCTSNode>)
  {
    c in nodes && c.parent == n && WellShaped(n.state) && Unclaimed(n.state, a) &&
    c.state == Shift(n.state, a, n.state.player1Turn)
  }

  /** One node of the tree: a legal board, a parent chain to the root inside the tree, no
      more children than free edges, and every child entry well formed. Two children may be
      for the same edge. */
  ghost predicate NodeOK(root: MCTSNode, nodes: set<MCTSNode>, n: MCTSNode)
    reads n`children
  {
    && Valid(n.state) && Linked(n) && Root(n) == root
    && (n.parent != null ==> n.parent in nodes)
    && |n.children| <= NumUnclaimed(n.state)
    && forall i :: 0 <= i < |n.children| ==> ChildOK(n, n.children[i].0, n.children[i].1, nodes)
  }

  /** The search tree: every node is well formed and the root has no parent. */
  ghost predicate Tree(root: MCTSNode, nodes: set<MCTSNode>)
    reads nodes`children
  {
    root in nodes && root.parent == null && forall n :: n in nodes ==> NodeOK(root, nodes, n)
  }

  /** Along a parent chain the depths count down by one and each entry's parent is the next. */
  lemma {:induction false} PathShape(n: MCTSNode)
    requires Linked(n)
    ensures forall i :: 0 <= i < |Path(n)| ==> Linked(Path(n)[i]) && Path(n)[i].depth + i == n.depth
    ensures forall i :: 0 <= i < |Path(n)| ==>
      Path(n)[i].parent == (if i + 1 < |Path(n)| then Path(n)[i + 1] else null)
    ensures Path(n)[|Path(n)| - 1] == Root(n)
    decreases n.depth
  {
    if n.parent != null {
      PathShape(n.parent);
      var p := Path(n.parent);
      assert Path(n) == [n] + p;
      forall i | 0 < i < |Path(n)|
        ensures Path(n)[i] == p[i - 1]
      {
      }
      assert Path(n)[|Path(n)| - 1] == p[|p| - 1];
      assert Path(n)[0].parent == p[0];
    }
  }

  /** A parent chain ends at the root. */
  lemma {:induction false} PathEnd(n: MCTSNode)
    requires Linked(n)
    ensures Path(n)[|Path(n)| - 1] == Root(n)
    decreases n.depth
  {
    if n.parent != null {
      PathEnd(n.parent);
      assert Path(n)[|Path(n)| - 1] == Path(n.parent)[|Path(n.parent)| - 1];
    }
  }

  /** The i-th entry of a parent chain has the next entry as its parent and appears nowhere
      else in the chain. */
  lemma PathNext(n: MCTSNode, i: nat)
    requires Linked(n) && i < |Path(n)|
    ensures Path(n)[i].parent == (if i + 1 < |Path(n)| then Path(n)[i + 1] else null)
    ensures forall j :: 0 <= j < |Path(n)| && j != i ==> Path(n)[j] != Path(n)[i]
    ensures Path(n)[i] in Elems(Path(n))
  {
    PathParent(n, i);
    PathShape(n);
  }

  /** The parent of the i-th entry of a parent chain is the next entry. */
  lemma {:induction false} PathParent(n: MCTSNode, i: nat)
    requires Linked(n) && i < |Path(n)|
    ensures Path(n)[i].parent == (if i + 1 < |Path(n)| then Path(n)[i + 1] else null)
    decreases n.depth
  {
    if n.parent != null {
      var q := Path(n.parent);
      assert Path(n) == [n] + q;
      if i > 0 {
        PathParent(n.parent, i - 1);
        assert Path(n)[i] == q[i - 1];
        assert i + 1 < |Path(n)| ==> Path(n)[i + 1] == q[i];
      }
    }
  }

  /* ---------------- Untried actions ---------------- */

  /** The untried actions of expansion. The children mapping is keyed by action objects
      compared by identity, and the possible actions are fresh objects, so no possible action
      is ever found among the keys: the list is every possible action. */
  function Untried(possible: seq<GameAction>, children: seq<(GameAction, MCTSNode)>): (u: seq<GameAction>)
    ensures forall a :: a in possible ==> a in u
    ensures forall a :: a in u ==> a in possible
  {
    possible
  }

  /** An edge that already has a child is offered again: with two free edges and the first
      picked twice, the node has as many children as free edges, so it counts as fully
      expanded, while the second edge has no child. */
  lemma ExpansionMayRepeat(n: MCTSNode, m: MCTSNode)
    ensures var a, c := GameAction(Row, 0, 0), GameAction(Col, 0, 0);
      a in Untried([a, c], []) && a in Untried([a, c], [(a, n)]) &&
      |[(a, n), (a, m)]| == |[a, c]| && c !in Actions([(a, n), (a, m)])
  {
    var a, c := GameAction(Row, 0, 0), GameAction(Col, 0, 0);
    assert Actions([(a, n), (a, m)]) == [a, a];
  }

  /* ---------------- The player ---------------- */

  /** get_possible_actions: the free edges in the shared enumeration order. */
  method GetPossibleActions(b: Board) returns (moves: seq<GameAction>)
    requires WellShaped(b)
    ensures moves == RowMajorMoves(b)
  {
    moves := CollectMoves(b);
  }

  /** evaluate_terminal_state: 1 when player 1 (the side counted positive) has more boxes, -1
      when player 2 has, 0 on a tie. */
  function EvaluateTerminalState(b: Board): (r: int)
    ensures r == 1 <==> Material(b) > 0
    ensures r == -1 <==> Material(b) < 0
    ensures r == 0 <==> Material(b) == 0
  {
    var player1Score := |BoxesWith(b, 4)|;
    var player2Score := |BoxesWith(b, -4)|;
    if player1Score > player2Score then 1
    else if player2Score > player1Score then -1
    else 0
  }

  /** The board after playing the moves in order, each a free edge for the side to move, or
      None when one of them is not free. */
  ghost function Replay(b: Board, moves: seq<GameAction>): Option<Board>
    decreases |moves|
  {
    if moves == [] then Some(b)
    else
      match Replay(b, moves[..|moves| - 1])
      case None => None
      case Some(c) =>
        var a := moves[|moves| - 1];
        if WellShaped(c) && Unclaimed(c, a) then Some(Shift(c, a, c.player1Turn)) else None
  }

  /** selection: descend through nodes that are in play and fully expanded, taking the
      best_child each time; the node reached is node0 or a descendant of it. */
  method Selection(ghost root: MCTSNode, ghost nodes: set<MCTSNode>, node0: MCTSNode, explore: (int, int) -> real)
    returns (node: MCTSNode)
    requires Tree(root, nodes) && node0 in nodes
    ensures node in nodes && node0 in Path(node)
    ensures IsTerminal(node.state) || !node.IsFullyExpanded(RowMajorMoves(node.state))
    ensures node != node0 ==> |node0.children| > 0
  {
    node := node0;
    var possible := GetPossibleActions(node.state);
    while !IsTerminal(node.state) && node.IsFullyExpanded(possible)
      invariant node in nodes && node0 in Path(node) && possible == RowMajorMoves(node.state)
      invariant node != node0 ==> |node0.children| > 0
      decreases NumUnclaimed(node.state)
    {
      TerminalIffNoMoves(node.state);
      var r := node.BestChild(ExplorationWeight, explore);
      var action, child := r.value.0, r.value.1;
      ghost var k :| 0 <= k < |node.children| && node.children[k] == r.value;
      assert ChildOK(node, node.children[k].0, node.children[k].1, nodes);
      ShiftDropsOne(node.state, action, node.state.player1Turn);
      assert Path(child) == [child] + Path(node);
      node := child;
      possible := GetPossibleActions(node.state);
    }
  }

  /** expansion: one of the untried actions, picked by the random source, played for the side
      to move; the new node is added as the node's last child and the tree stays well formed. */
  method Expansion(ghost root: MCTSNode, ghost nodes: set<MCTSNode>, node: MCTSNode, random: Random)
    returns (childNode: MCTSNode, ghost action: GameAction)
    requires Tree(root, nodes) && node in nodes
    requires !IsTerminal(node.state) && !node.IsFullyExpanded(RowMajorMoves(node.state))
    modifies node`children, random
    ensures fresh(childNode) && childNode.parent == node
    ensures childNode.children == [] && childNode.visits == 0 && childNode.wins == 0
    ensures node.children == old(node.children) + [(action, childNode)]
    ensures Unclaimed(node.state, action)
    ensures Tree(root, nodes + {childNode})
  {
    assert NodeOK(root, nodes, node);
    var picked := PickUntried(root, nodes, node, random);
    var newState := Shift(node.state, picked, node.state.player1Turn);
    childNode := new MCTSNode(newState, node);
    ghost var before := node.children;
    node.Expand(picked, childNode);
    action := picked;
    TreeGrows(root, nodes, node, before, action, childNode);
  }

  /** The first half of expansion: the random choice among the untried actions, of which a
      node in play has at least one. */
  method PickUntried(ghost root: MCTSNode, ghost nodes: set<MCTSNode>, node: MCTSNode, random: Random)
    returns (action: GameAction)
    requires Tree(root, nodes) && node in nodes && !IsTerminal(node.state)
    modifies random
    ensures Unclaimed(node.state, action)
  {
    var possibleActions := GetPossibleActions(node.state);
    var untriedActions := Untried(possibleActions, node.children);
    TerminalIffNoMoves(node.state);
    assert possibleActions[0] in untriedActions;
    var i := random.Choice(|untriedActions|);
    action := untriedActions[i];
    assert action in possibleActions;
    RowMajorMovesSpec(node.state);
  }

  /** Hanging a fresh, childless node under a tree node with fewer children than free edges,
      for a free edge, keeps the tree well formed. */
  lemma TreeGrows(root: MCTSNode, nodes: set<MCTSNode>, node: MCTSNode,
                  before: seq<(GameAction, MCTSNode)>, action: GameAction, c: MCTSNode)
    requires node in nodes && c !in nodes && c.parent == node && c.depth == node.depth + 1
    requires c.children == [] && node.children == before + [(action, c)]
    requires root in nodes && root.parent == null
    requires forall n :: n in nodes && n != node ==> NodeOK(root, nodes, n)
    requires Valid(node.state) && Linked(node) && Root(node) == root
    requires node.parent != null ==> node.parent in nodes
    requires |before| < NumUnclaimed(node.state)
    requires forall i :: 0 <= i < |before| ==> ChildOK(node, before[i].0, before[i].1, nodes)
    requires Unclaimed(node.state, action) && c.state == Shift(node.state, action, node.state.player1Turn)
    ensures Tree(root, nodes + {c})
  {
    var all := nodes + {c};
    ShiftValid(node.state, action, node.state.player1Turn);
    forall n | n in all
      ensures NodeOK(root, all, n)
    {
      if n == c {
      } else if n == node {
        forall i | 0 <= i < |node.children|
          ensures ChildOK(node, node.children[i].0, node.children[i].1, all)
        {
          if i < |before| {
            assert node.children[i] == before[i];
          }
        }
      } else {
        assert NodeOK(root, nodes, n);
        forall i | 0 <= i < |n.children|
          ensures ChildOK(n, n.children[i].0, n.children[i].1, all)
        {
          assert ChildOK(n, n.children[i].0, n.children[i].1, nodes);
        }
      }
    }
  }

  /** simulation: a random playout to the end of the game; the reward is the outcome of the
      final board, which is reached from the given one by one free edge after another. */
  method Simulation(state: Board, random: Random) returns (reward: int, ghost played: seq<GameAction>, ghost final: Board)
    requires Valid(state)
    modifies random
    ensures Replay(state, played) == Some(final) && |played| == NumUnclaimed(state)
    ensures IsTerminal(final) && reward == EvaluateTerminalState(final)
  {
    var currentState := state;
    played := [];
    while !IsTerminal(currentState)
      invariant Valid(currentState) && Replay(state, played) == Some(currentState)
      invariant NumUnclaimed(currentState) + |played| == NumUnclaimed(state)
      decreases NumUnclaimed(currentState)
    {
      var possibleActions := GetPossibleActions(currentState);
      TerminalIffNoMoves(currentState);
      var i := random.Choice(|possibleActions|);
      var action := possibleActions[i];
      MoveAt(currentState, i);
      ShiftDropsOne(currentState, action, currentState.player1Turn);
      ShiftValid(currentState, action, currentState.player1Turn);
      assert (played + [action])[..|played|] == played;
      played := played + [action];
      currentState := Shift(currentState, action, currentState.player1Turn);
    }
    TerminalIffNoMoves(currentState);
    final := currentState;
    reward := EvaluateTerminalState(currentState);
  }

  /** The reward as seen i levels above the node it was scored at: it changes sign at every
      level. */
  function Alternate(reward: int, i: nat): (r: int)
    ensures r == reward || r == -reward
    ensures i % 2 == 0 ==> r == reward
  {
    if i % 2 == 0 then reward else -reward
  }

  lemma AlternateStep(reward: int, i: nat)
    ensures Alternate(reward, i + 1) == -Alternate(reward, i)
  {
  }

  /** backpropagation: every node from the given one up to the root gains a visit and the
      reward, negated at each level up; no other node changes. */
  method Backpropagation(node: MCTSNode, reward: int)
    requires Linked(node)
    modifies Elems(Path(node))`visits, Elems(Path(node))`wins
    ensures forall i :: 0 <= i < |Path(node)| ==>
      Path(node)[i].visits == old(Path(node)[i].visits) + 1 &&
      Path(node)[i].wins == old(Path(node)[i].wins) + Alternate(reward, i)
  {
    ghost var p := Path(node);
    ghost var visits0 := seq(|p|, j requires 0 <= j < |p| reads p => p[j].visits);
    ghost var wins0 := seq(|p|, j requires 0 <= j < |p| reads p => p[j].wins);
    var current: MCTSNode? := node;
    var r := reward;
    ghost var i := 0;
    while current != null
      invariant 0 <= i <= |p|
      invariant current == (if i < |p| then p[i] else null)
      invariant r == Alternate(reward, i)
      invariant forall j :: 0 <= j < |p| ==>
        p[j].visits == visits0[j] + (if j < i then 1 else 0) &&
        p[j].wins == wins0[j] + (if j < i then Alternate(reward, j) else 0)
      decreases |p| - i
    {
      PathNext(node, i);
      AlternateStep(reward, i);
      current.visits := current.visits + 1;
      current.wins := current.wins + r;
      r := -r;
      current := current.parent;
      i := i + 1;
    }
  }

  /** Every node on the parent chain of a tree node is in the tree. */
  lemma {:induction false} PathInTree(root: MCTSNode, nodes: set<MCTSNode>, n: MCTSNode)
    requires Tree(root, nodes) && n in nodes
    ensures Elems(Path(n)) <= nodes
    decreases n.depth
  {
    assert NodeOK(root, nodes, n);
    if n.parent != null {
      PathInTree(root, nodes, n.parent);
      assert Path(n) == [n] + Path(n.parent);
    }
  }

  /** One pass of get_action's loop: selection from the root, expansion when the node reached
      is in play, a playout from the node and backpropagation from it. The tree stays well
      formed, the root gains a visit, and a root in play has a child afterwards. */
  method Round(root: MCTSNode, ghost nodes: set<MCTSNode>, random: Random, explore: (int, int) -> real)
    returns (ghost grown: set<MCTSNode>)
    requires Tree(root, nodes)
    modifies nodes`children, nodes`visits, nodes`wins, random
    ensures Tree(root, grown) && nodes <= grown && forall n :: n in grown - nodes ==> fresh(n)
    ensures root.visits == old(root.visits) + 1
    ensures |root.children| >= old(|root.children|)
    ensures !IsTerminal(root.state) ==> |root.children| > 0
  {
    var node := Selection(root, nodes, root, explore);
    grown := nodes;
    if !IsTerminal(node.state) {
      ghost var action;
      node, action := Expansion(root, nodes, node, random);
      grown := nodes + {node};
    }
    assert NodeOK(root, grown, node);
    var reward, _, _ := Simulation(node.state, random);
    PathEnd(node);
    PathInTree(root, grown, node);
    Backpropagation(node, reward);
  }

  /** The loop of get_action: a fresh root for the board and `simulations` rounds. Every round
      passes through the root, and the root has a child exactly when some round ran on a
      board in play. */
  method RunSimulations(state: Board, simulations: int, random: Random, explore: (int, int) -> real)
    returns (root: MCTSNode, ghost nodes: set<MCTSNode>)
    requires Valid(state)
    modifies random
    ensures fresh(root) && root.state == state && Tree(root, nodes)
    ensures root.visits == (if simulations > 0 then simulations else 0)
    ensures |root.children| > 0 <==> simulations > 0 && !IsTerminal(state)
  {
    root := new MCTSNode(state, null);
    nodes := {root};
    var i := 0;
    while i < simulations
      invariant Tree(root, nodes) && root.state == state
      invariant forall n :: n in nodes ==> fresh(n)
      invariant root.visits == i && 0 <= i <= (if simulations > 0 then simulations else 0)
      invariant i == 0 ==> |root.children| == 0
      invariant i > 0 && !IsTerminal(state) ==> |root.children| > 0
    {
      ghost var before := nodes;
      nodes := Round(root, nodes, random, explore);
      assert forall n :: n in nodes ==> n in before || n in nodes - before;
      i := i + 1;
    }
    assert NodeOK(root, nodes, root);
    TerminalIffNoMoves(state);
  }

  /** get_action: after the simulations, the action of the first most visited child of the
      root. There is one exactly when at least one simulation ran on a board in play; it is
      then a free edge of the board. */
  method GetAction(state: Board, simulations: int, random: Random, explore: (int, int) -> real)
    returns (action: Option<GameAction>, ghost root: MCTSNode)
    requires Valid(state)
    modifies random
    ensures root.state == state && root.visits == (if simulations > 0 then simulations else 0)
    ensures action.Some? <==> simulations > 0 && !IsTerminal(state)
    ensures action.Some? ==> Unclaimed(state, action.value)
    ensures action.Some? ==> exists k :: root.FirstMostVisited(k) && root.children[k].0 == action.value
  {
    ghost var nodes;
    var tree;
    tree, nodes := RunSimulations(state, simulations, random, explore);
    root := tree;
    var best := tree.MostVisited();
    if best.Some? {
      action := Some(best.value.0);
      ghost var k :| tree.FirstMostVisited(k) && tree.children[k] == best.value;
      assert NodeOK(tree, nodes, tree);
      assert ChildOK(tree, tree.children[k].0, tree.children[k].1, nodes);
    } else {
      action := None;
    }
  }
}
