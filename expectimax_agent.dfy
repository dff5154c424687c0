/** The expectimax player: a depth-limited search in which the player's own levels take the
    best child and the opponent's levels are chance nodes that average over every free edge,
    on the same copy-and-write transition as the alpha-beta player. */
module ExpectimaxAgent {
  import opened Boards
  import opened Search

  /* ---------------- Reference: depth-limited expectimax ---------------- */

  /** The expectimax value of a board in play searched to the given depth (a negative depth
      searches to the end of the game). A board in play that is not finished has a free edge,
      so the maximum and the average are over at least one child. */
  function Expectimax(b: Board, depth: int, maximizing: bool): real
    requires Valid(b)
    decreases NumUnclaimed(b), 2
  {
    if depth == 0 || IsTerminal(b) then Material(b) as real
    else
      TerminalIffNoMoves(b);
      if maximizing then RMax(ExpectedValues(b, depth, true), NumUnclaimed(b))
      else Mean(ExpectedValues(b, depth, false))
  }

  /** The expectimax values of the children, in move-list order, one level shallower and with
      the other kind of level. */
  function ExpectedValues(b: Board, depth: int, up: bool): (vs: seq<real>)
    requires Valid(b)
    ensures |vs| == NumUnclaimed(b)
    decreases NumUnclaimed(b), 1, 1
  {
    Tabulate(NumUnclaimed(b), 0, ExpectedChildren(b, depth, up))
  }

  /** The value of each child by its index in the move list (0 past the end). */
  function ExpectedChildren(b: Board, depth: int, up: bool): nat -> real
    requires Valid(b)
    decreases NumUnclaimed(b), 1, 0
  {
    (k: nat) => if k < NumUnclaimed(b) then ExpectedChild(b, depth, up, k) else 0.0
  }

  /** The k-th value is the value of the k-th child. */
  lemma {:induction false} ExpectedAt(b: Board, depth: int, up: bool, k: nat)
    requires Valid(b) && k < NumUnclaimed(b)
    ensures ExpectedValues(b, depth, up)[k] == ExpectedChild(b, depth, up, k)
  {
    var f := ExpectedChildren(b, depth, up);
    TabulateAt(NumUnclaimed(b), 0, f, k);
    assert f(k) == ExpectedChild(b, depth, up, k);
  }

  /** The expectimax value of the board after the k-th move. */
  function ExpectedChild(b: Board, depth: int, up: bool, k: nat): real
    requires Valid(b) && k < NumUnclaimed(b)
    decreases NumUnclaimed(b), 0
  {
    Expectimax(ChildOf(b, k, up), depth - 1, !up)
  }

  /** The answer of a max level: move k has the largest child value and every earlier move a
      strictly smaller one. */
  predicate FirstBest(b: Board, depth: int, k: int)
    requires Valid(b)
  {
    var vs := ExpectedValues(b, depth, true);
    0 <= k < |vs| && vs[k] == RMax(vs, |vs|) && forall j :: 0 <= j < k ==> vs[j] < vs[k]
  }

  /* ---------------- expectimax ---------------- */

  /** expectimax. The value is the expectimax value; a max level below the depth limit on an
      unfinished board returns the first move of largest value, every other call no move. */
  method ExpectimaxSearch(b: Board, depth: int, maximizing: bool) returns (best: Option<GameAction>, value: real)
    requires Valid(b)
    ensures value == Expectimax(b, depth, maximizing)
    ensures best.Some? <==> maximizing && depth != 0 && !IsTerminal(b)
    ensures best.Some? ==> exists k :: FirstBest(b, depth, k) && RowMajorMoves(b)[k] == best.value
    decreases NumUnclaimed(b), 2
  {
    if depth == 0 || IsTerminal(b) {
      return None, Material(b) as real;
    }
    TerminalIffNoMoves(b);
    if maximizing {
      best, value := MaxNode(b, depth);
    } else {
      value := ChanceNode(b, depth);
      best := None;
    }
  }

  /** The max level: every child searched as a chance level, the first strictly largest value
      kept with its move. */
  method MaxNode(b: Board, depth: int) returns (best: Option<GameAction>, value: real)
    requires Valid(b) && NumUnclaimed(b) > 0
    ensures value == RMax(ExpectedValues(b, depth, true), NumUnclaimed(b))
    ensures best.Some? && exists k :: FirstBest(b, depth, k) && RowMajorMoves(b)[k] == best.value
    decreases NumUnclaimed(b), 1
  {
    var moves := CollectMovesOf(b);
    ghost var vs := ExpectedValues(b, depth, true);
    ghost var bestK := 0;
    value, best := 0.0, None;
    var i := 0;
    while i < |moves|
      invariant 0 <= i <= |moves| == |vs| && moves == RowMajorMoves(b)
      invariant RMaxScan(vs, i, best.Some?, value, bestK)
      invariant best.Some? ==> moves[bestK] == best.value
    {
      var v := SearchChild(b, depth, i, moves[i], true);
      RMaxScanStep(vs, i, best.Some?, value, bestK);
      if best.None? || v > value {
        value, best := v, Some(moves[i]);
        bestK := i;
      }
      i := i + 1;
    }
  }

  /** The chance level: every child searched as a max level, the values summed and divided by
      the number of moves. */
  method ChanceNode(b: Board, depth: int) returns (value: real)
    requires Valid(b) && NumUnclaimed(b) > 0
    ensures value == Mean(ExpectedValues(b, depth, false))
    decreases NumUnclaimed(b), 1
  {
    var moves := CollectMovesOf(b);
    ghost var vs := ExpectedValues(b, depth, false);
    var total := 0.0;
    var i := 0;
    while i < |moves|
      invariant 0 <= i <= |moves| == |vs| && moves == RowMajorMoves(b)
      invariant total == Sum(vs, i)
    {
      var v := SearchChild(b, depth, i, moves[i], false);
      total := total + v;
      i := i + 1;
    }
    value := total / (|moves| as real);
    assert value == Mean(vs);
  }

  /** One pass of a level's loop: the k-th move simulated for the side given by up and the
      child searched one level shallower as the other kind of level. */
  method SearchChild(b: Board, depth: int, k: nat, action: GameAction, up: bool) returns (v: real)
    requires Valid(b) && k < NumUnclaimed(b) && action == RowMajorMoves(b)[k]
    ensures v == ExpectedValues(b, depth, up)[k]
    decreases NumUnclaimed(b), 0
  {
    MoveAt(b, k);
    var child := Shift(b, action, up);
    assert child == ChildOf(b, k, up);
    ExpectedAt(b, depth, up, k);
    var _, value := ExpectimaxSearch(child, depth - 1, !up);
    v := value;
  }

  /** get_possible_actions: the free edges in the shared enumeration order. */
  method CollectMovesOf(b: Board) returns (moves: seq<GameAction>)
    requires WellShaped(b)
    ensures moves == RowMajorMoves(b)
  {
    moves := CollectMoves(b);
  }

  /** get_action: the search from the root as a max level. Below the depth limit on an
      unfinished board it returns the first move of largest expectimax value. */
  method GetAction(b: Board, maxDepth: int) returns (action: Option<GameAction>)
    requires Valid(b)
    ensures action.Some? <==> maxDepth != 0 && !IsTerminal(b)
    ensures action.Some? ==> Unclaimed(b, action.value)
    ensures action.Some? ==> exists k :: FirstBest(b, maxDepth, k) && RowMajorMoves(b)[k] == action.value
  {
    var value;
    action, value := ExpectimaxSearch(b, maxDepth, true);
    if action.Some? {
      var k :| FirstBest(b, maxDepth, k) && RowMajorMoves(b)[k] == action.value;
      MoveAt(b, k);
    }
  }

  /* ---------------- Properties of the reference ---------------- */

  /** A chance level's value lies between the smallest and the largest child value. */
  lemma ChanceBetween(b: Board, depth: int)
    requires Valid(b) && depth != 0 && !IsTerminal(b)
    ensures NumUnclaimed(b) > 0
    ensures RMin(ExpectedValues(b, depth, false), NumUnclaimed(b)) <= Expectimax(b, depth, false)
    ensures Expectimax(b, depth, false) <= RMax(ExpectedValues(b, depth, false), NumUnclaimed(b))
  {
    TerminalIffNoMoves(b);
    MeanBetween(ExpectedValues(b, depth, false));
  }

  /** A max level's value is at least every child's value and is one of them. */
  lemma MaxChoosesChild(b: Board, depth: int)
    requires Valid(b) && depth != 0 && !IsTerminal(b)
    ensures forall k :: 0 <= k < NumUnclaimed(b) ==> ExpectedValues(b, depth, true)[k] <= Expectimax(b, depth, true)
    ensures exists k :: 0 <= k < NumUnclaimed(b) && ExpectedValues(b, depth, true)[k] == Expectimax(b, depth, true)
  {
    TerminalIffNoMoves(b);
    RMaxSpec(ExpectedValues(b, depth, true), NumUnclaimed(b));
  }

  /** Every expectimax value is between minus and plus the number of boxes, the range of the
      score difference at the leaves. */
  lemma {:induction false} ExpectimaxBound(b: Board, depth: int, maximizing: bool)
    requires Valid(b)
    ensures -((Height(b) * Width(b)) as real) <= Expectimax(b, depth, maximizing) <= (Height(b) * Width(b)) as real
    decreases NumUnclaimed(b)
  {
    var n := (Height(b) * Width(b)) as real;
    if depth == 0 || IsTerminal(b) {
      MaterialBound(b);
    } else {
      TerminalIffNoMoves(b);
      var vs := ExpectedValues(b, depth, maximizing);
      forall k | 0 <= k < |vs|
        ensures -n <= vs[k] <= n
      {
        ExpectedAt(b, depth, maximizing, k);
        ExpectimaxBound(ChildOf(b, k, maximizing), depth - 1, !maximizing);
      }
      BoundsOfRMinMax(vs, |vs|, -n, n);
      if !maximizing {
        MeanBetween(vs);
      }
    }
  }
}
