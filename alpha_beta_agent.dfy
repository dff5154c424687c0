/** The alpha-beta player: a depth-limited minimax search with a fail-soft (alpha, beta)
    window over the agent's copy-and-write transition, in which the maximizing side adds +1
    and the minimizing side -1 to the boxes an edge borders. Max and min levels alternate
    at every level of the recursion, whoever completed a box. */
module AlphaBetaAgent {
  import opened Boards
  import opened Search

  /* ---------------- Reference: depth-limited minimax ---------------- */

  /** The minimax value of the board searched to the given depth (a negative depth searches
      to the end of the game). A level without moves keeps the -inf or +inf it starts from. */
  function Minimax(b: Board, depth: int, maximizing: bool): ExtInt
    requires WellShaped(b)
    decreases NumUnclaimed(b), 2
  {
    if depth == 0 || IsTerminal(b) then Fin(Material(b))
    else if maximizing then PrefixMax(ChildValues(b, depth, true), NumUnclaimed(b))
    else PrefixMin(ChildValues(b, depth, false), NumUnclaimed(b))
  }

  /** The minimax values of the children, in move-list order, one level shallower and with
      the other side to move. */
  function ChildValues(b: Board, depth: int, up: bool): (vs: seq<ExtInt>)
    requires WellShaped(b)
    ensures |vs| == NumUnclaimed(b)
    decreases NumUnclaimed(b), 1, 1
  {
    Tabulate(NumUnclaimed(b), 0, ChildValueOf(b, depth, up))
  }

  /** The value of each child by its index in the move list (-inf past the end). */
  function ChildValueOf(b: Board, depth: int, up: bool): nat -> ExtInt
    requires WellShaped(b)
    decreases NumUnclaimed(b), 1, 0
  {
    (k: nat) => if k < NumUnclaimed(b) then ChildValue(b, depth, up, k) else NegInf
  }

  /** The k-th child value is the value of the board after the k-th move. */
  lemma {:induction false} ChildValueAt(b: Board, depth: int, up: bool, k: nat)
    requires WellShaped(b) && k < NumUnclaimed(b)
    ensures ChildValues(b, depth, up)[k] == ChildValue(b, depth, up, k)
  {
    var f := ChildValueOf(b, depth, up);
    TabulateAt(NumUnclaimed(b), 0, f, k);
    assert f(k) == ChildValue(b, depth, up, k);
  }

  /** The minimax value of the board after the k-th move. */
  function ChildValue(b: Board, depth: int, up: bool, k: nat): ExtInt
    requires WellShaped(b) && k < NumUnclaimed(b)
    decreases NumUnclaimed(b), 0
  {
    Minimax(ChildOf(b, k, up), depth - 1, !up)
  }

  /** A maximizing search's answer: the move at index k achieves value, and every earlier move
      has a strictly smaller value. */
  predicate FirstMax(b: Board, depth: int, k: int, value: ExtInt)
    requires WellShaped(b)
  {
    0 <= k < NumUnclaimed(b) && ChildValues(b, depth, true)[k] == value && Lt(PrefixMax(ChildValues(b, depth, true), k), value)
  }

  /** A minimizing search's answer: the move at index k achieves value, and every earlier move
      has a strictly larger value. */
  predicate FirstMin(b: Board, depth: int, k: int, value: ExtInt)
    requires WellShaped(b)
  {
    0 <= k < NumUnclaimed(b) && ChildValues(b, depth, false)[k] == value && Lt(value, PrefixMin(ChildValues(b, depth, false), k))
  }

  /* ---------------- alpha_beta_search ---------------- */

  /** alpha_beta_search. At depth 0 or on a finished board it returns no move and the board's
      score. Otherwise, given a non-empty window, the value is a fail-soft bound on the
      minimax value, exact when it falls strictly inside the window, and the move it returns
      is a free edge; for an exact value it is the first move whose child has that value. */
  method AlphaBetaSearch(b: Board, depth: int, alpha: ExtInt, beta: ExtInt, maximizing: bool)
    returns (best: Option<GameAction>, value: ExtInt)
    requires WellShaped(b)
    ensures depth == 0 || IsTerminal(b) ==> best == None && value == Fin(Material(b))
    ensures Lt(alpha, beta) ==> FailSoft(value, Minimax(b, depth, maximizing), alpha, beta)
    ensures depth != 0 && !IsTerminal(b) && value.Fin? ==> best.Some?
    ensures best.Some? ==> Unclaimed(b, best.value)
    ensures best.Some? && Lt(alpha, beta) && Lt(alpha, value) && Lt(value, beta) ==>
      exists k :: 0 <= k < NumUnclaimed(b) && RowMajorMoves(b)[k] == best.value &&
        (if maximizing then FirstMax(b, depth, k, value) else FirstMin(b, depth, k, value))
    decreases NumUnclaimed(b), 2
  {
    if depth == 0 || IsTerminal(b) {
      return None, Fin(Material(b));
    }
    if maximizing {
      best, value := MaxLevel(b, depth, alpha, beta);
    } else {
      best, value := MinLevel(b, depth, alpha, beta);
    }
  }

  /** The maximizing branch of alpha_beta_search: children in move-list order, each searched
      one level shallower as a minimizing level with the window (alpha, beta), alpha raised
      to every child value, stopping once beta <= alpha. */
  method MaxLevel(b: Board, depth: int, alpha: ExtInt, beta: ExtInt)
    returns (best: Option<GameAction>, value: ExtInt)
    requires WellShaped(b)
    ensures Lt(alpha, beta) ==> FailSoft(value, PrefixMax(ChildValues(b, depth, true), NumUnclaimed(b)), alpha, beta)
    ensures best.None? ==> value == NegInf
    ensures best.Some? ==> Unclaimed(b, best.value)
    ensures best.Some? && Lt(alpha, beta) && Lt(alpha, value) && Lt(value, beta) ==>
      exists k :: 0 <= k < NumUnclaimed(b) && RowMajorMoves(b)[k] == best.value && FirstMax(b, depth, k, value)
    decreases NumUnclaimed(b), 1
  {
    var moves := GetPossibleActions(b);
    value, best := NegInf, None;
    ghost var vs := ChildValues(b, depth, true);
    ghost var bestK := 0;
    var a := alpha;
    var i, cutoff := 0, false;
    while i < |moves| && !cutoff
      invariant 0 <= i <= |moves| == NumUnclaimed(b) && moves == RowMajorMoves(b)
      invariant MaxScan(vs, i, alpha, beta, value, a, best.Some?, bestK)
      invariant if cutoff then Le(beta, a) else Lt(alpha, beta) ==> Lt(a, beta)
      invariant best.Some? ==> moves[bestK] == best.value
    {
      var eval := SearchChild(b, depth, i, moves[i], true, a, beta);
      MaxScanStep(vs, i, alpha, beta, value, a, best.Some?, bestK, eval);
      if Lt(value, eval) {
        value, best := eval, Some(moves[i]);
        bestK := i;
      }
      a := Max(a, eval);
      i := i + 1;
      cutoff := Le(beta, a);
    }
    if cutoff && Lt(alpha, beta) {
      MaxScanCut(vs, i, alpha, beta, value, a, best.Some?, bestK);
    }
    if best.Some? {
      MoveAt(b, bestK);
    }
  }

  /** The minimizing branch, the mirror image of MaxLevel: beta lowered to every child
      value. */
  method MinLevel(b: Board, depth: int, alpha: ExtInt, beta: ExtInt)
    returns (best: Option<GameAction>, value: ExtInt)
    requires WellShaped(b)
    ensures Lt(alpha, beta) ==> FailSoft(value, PrefixMin(ChildValues(b, depth, false), NumUnclaimed(b)), alpha, beta)
    ensures best.None? ==> value == PosInf
    ensures best.Some? ==> Unclaimed(b, best.value)
    ensures best.Some? && Lt(alpha, beta) && Lt(alpha, value) && Lt(value, beta) ==>
      exists k :: 0 <= k < NumUnclaimed(b) && RowMajorMoves(b)[k] == best.value && FirstMin(b, depth, k, value)
    decreases NumUnclaimed(b), 1
  {
    var moves := GetPossibleActions(b);
    value, best := PosInf, None;
    ghost var vs := ChildValues(b, depth, false);
    ghost var bestK := 0;
    var c := beta;
    var i, cutoff := 0, false;
    while i < |moves| && !cutoff
      invariant 0 <= i <= |moves| == NumUnclaimed(b) && moves == RowMajorMoves(b)
      invariant MinScan(vs, i, alpha, beta, value, c, best.Some?, bestK)
      invariant if cutoff then Le(c, alpha) else Lt(alpha, beta) ==> Lt(alpha, c)
      invariant best.Some? ==> moves[bestK] == best.value
    {
      var eval := SearchChild(b, depth, i, moves[i], false, alpha, c);
      MinScanStep(vs, i, alpha, beta, value, c, best.Some?, bestK, eval);
      if Lt(eval, value) {
        value, best := eval, Some(moves[i]);
        bestK := i;
      }
      c := Min(c, eval);
      i := i + 1;
      cutoff := Le(c, alpha);
    }
    if cutoff && Lt(alpha, beta) {
      MinScanCut(vs, i, alpha, beta, value, c, best.Some?, bestK);
    }
    if best.Some? {
      MoveAt(b, bestK);
    }
  }

  /** One pass of a level's loop before the comparison: the k-th move simulated for the side
      given by up, and the child searched one level shallower for the other side with the
      level's current window. */
  method SearchChild(b: Board, depth: int, k: nat, action: GameAction, up: bool, alpha: ExtInt, beta: ExtInt)
    returns (eval: ExtInt)
    requires WellShaped(b) && k < NumUnclaimed(b) && action == RowMajorMoves(b)[k]
    ensures Lt(alpha, beta) ==> FailSoft(eval, ChildValues(b, depth, up)[k], alpha, beta)
    decreases NumUnclaimed(b), 0
  {
    MoveAt(b, k);
    var child := Shift(b, action, up);
    assert child == ChildOf(b, k, up);
    ChildValueAt(b, depth, up, k);
    var _, v := AlphaBetaSearch(child, depth - 1, alpha, beta, !up);
    eval := v;
  }

  /** get_possible_actions: the free edges in the shared enumeration order. */
  method GetPossibleActions(b: Board) returns (moves: seq<GameAction>)
    requires WellShaped(b)
    ensures moves == RowMajorMoves(b)
  {
    moves := CollectMoves(b);
  }

  /** get_action: the search from the root with the full window (-inf, +inf) as the
      maximizing side. Its value is the exact minimax value, and a finite value comes with
      the first move that achieves it. */
  method GetAction(b: Board, maxDepth: int) returns (action: Option<GameAction>)
    requires WellShaped(b)
    ensures maxDepth == 0 || IsTerminal(b) ==> action.None?
    ensures action.Some? ==> Unclaimed(b, action.value)
    ensures maxDepth != 0 && !IsTerminal(b) && Minimax(b, maxDepth, true).Fin? ==>
      action.Some? &&
      exists k :: 0 <= k < NumUnclaimed(b) && RowMajorMoves(b)[k] == action.value &&
        FirstMax(b, maxDepth, k, Minimax(b, maxDepth, true))
  {
    var value;
    action, value := AlphaBetaSearch(b, maxDepth, NegInf, PosInf, true);
    FullWindow(value, Minimax(b, maxDepth, true));
  }

  /* ---------------- Properties of the reference ---------------- */

  /** A maximizing level's value is at least every child's value and is one of them. */
  lemma MaxChoosesChild(b: Board, depth: int)
    requires WellShaped(b) && depth != 0 && !IsTerminal(b) && NumUnclaimed(b) > 0
    ensures forall k :: 0 <= k < NumUnclaimed(b) ==> Le(ChildValues(b, depth, true)[k], Minimax(b, depth, true))
    ensures exists k :: 0 <= k < NumUnclaimed(b) && ChildValues(b, depth, true)[k] == Minimax(b, depth, true)
  {
    PrefixMaxSpec(ChildValues(b, depth, true), NumUnclaimed(b));
  }

  /** A minimizing level's value is at most every child's value and is one of them. */
  lemma MinChoosesChild(b: Board, depth: int)
    requires WellShaped(b) && depth != 0 && !IsTerminal(b) && NumUnclaimed(b) > 0
    ensures forall k :: 0 <= k < NumUnclaimed(b) ==> Le(Minimax(b, depth, false), ChildValues(b, depth, false)[k])
    ensures exists k :: 0 <= k < NumUnclaimed(b) && ChildValues(b, depth, false)[k] == Minimax(b, depth, false)
  {
    PrefixMinSpec(ChildValues(b, depth, false), NumUnclaimed(b));
  }

  /** On a board in play, every minimax value is a score difference, so it is finite and at
      most the number of boxes in absolute value. */
  lemma {:induction false} MinimaxBound(b: Board, depth: int, maximizing: bool)
    requires Valid(b)
    ensures Minimax(b, depth, maximizing).Fin?
    ensures -(Height(b) * Width(b)) <= Minimax(b, depth, maximizing).v <= Height(b) * Width(b)
    decreases NumUnclaimed(b)
  {
    if depth == 0 || IsTerminal(b) {
      MaterialBound(b);
    } else {
      TerminalIffNoMoves(b);
      var vs := ChildValues(b, depth, maximizing);
      forall k | 0 <= k < |vs|
        ensures vs[k].Fin? && -(Height(b) * Width(b)) <= vs[k].v <= Height(b) * Width(b)
      {
        ChildValueAt(b, depth, maximizing, k);
        MinimaxBound(ChildOf(b, k, maximizing), depth - 1, !maximizing);
      }
      if maximizing {
        PrefixMaxSpec(vs, |vs|);
      } else {
        PrefixMinSpec(vs, |vs|);
      }
    }
  }
}
