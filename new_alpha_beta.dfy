/** The newAlphaBeta player's root move choice: every free edge tried in move-list order, the
    board after it searched by the shared alpha-beta as a minimizing level at the player's
    full depth (not one less), the score difference being the evaluation, and the alpha of
    the window raised to the best value so far. */
module NewAlphaBeta {
  import opened Boards
  import opened Search
  import opened ResultSearch

  /** The value of each move at the root: the board after the move searched at the full
      depth as a minimizing level, that is the child values of a maximizing level one deeper. */
  function RootValues(b: Board, depth: int): (vs: seq<ExtInt>)
    requires WellShaped(b)
    ensures |vs| == NumUnclaimed(b)
  {
    ChildValues(Material, b, depth + 1, true)
  }

  /** The root value of move k is the minimax value at the full depth, as a minimizing level,
      of the board after move k. */
  lemma RootValueAt(b: Board, depth: int, k: nat)
    requires WellShaped(b) && k < NumUnclaimed(b)
    ensures RootValues(b, depth)[k] == Minimax(Material, ChildOf(b, k, !b.player1Turn), depth, false)
  {
    ChildValueAt(Material, b, depth + 1, true, k);
  }

  /** Move k is the answer of the root loop: its value is the largest, it is above -inf, and
      every earlier move has a strictly smaller value. */
  predicate FirstBest(vs: seq<ExtInt>, k: int)
  {
    && 0 <= k < |vs|
    && vs[k] == PrefixMax(vs, |vs|)
    && Lt(NegInf, vs[k])
    && forall j :: 0 <= j < k ==> Lt(vs[j], vs[k])
  }

  /** The root loop's invariant after moves 0..i-1: best is their largest value, alpha
      equals it, and the kept move, if any, is index bestK, the first of that value above
      -inf. */
  ghost predicate RootScan(vs: seq<ExtInt>, i: nat, best: ExtInt, alpha: ExtInt, kept: bool, bestK: nat)
    requires i <= |vs|
  {
    && best == PrefixMax(vs, i)
    && alpha == best
    && (kept <==> Lt(NegInf, best))
    && (kept ==> bestK < i && vs[bestK] == best && forall j :: 0 <= j < bestK ==> Lt(vs[j], best))
  }

  /** get_action, the alpha-beta root loop: the first move of largest root value, or none
      when there is no move or every root value is -inf. */
  method GetAction(b: Board, depth: int) returns (bestAction: Option<GameAction>)
    requires WellShaped(b)
    ensures bestAction.None? <==> PrefixMax(RootValues(b, depth), NumUnclaimed(b)) == NegInf
    ensures bestAction.Some? ==>
      exists k :: FirstBest(RootValues(b, depth), k) && RowMajorMoves(b)[k] == bestAction.value
    ensures Valid(b) && !IsTerminal(b) ==> bestAction.Some?
  {
    var actions := GetAllPossibleActionsLegal(b);
    ghost var vs := RootValues(b, depth);
    ghost var bestK := 0;
    bestAction := None;
    var bestValue := NegInf;
    var alpha := NegInf;
    var i := 0;
    while i < |actions|
      invariant 0 <= i <= |actions| == |vs| && actions == RowMajorMoves(b)
      invariant RootScan(vs, i, bestValue, alpha, bestAction.Some?, bestK)
      invariant bestAction.Some? ==> actions[bestK] == bestAction.value
    {
      var value := SearchChild(Material, b, depth + 1, i, actions[i], true, alpha, PosInf);
      RootStep(vs, i, bestValue, bestAction.Some?, bestK, value);
      if Lt(bestValue, value) {
        bestValue := value;
        bestAction := Some(actions[i]);
        bestK := i;
      }
      alpha := Max(alpha, bestValue);
      i := i + 1;
    }
    if bestAction.Some? {
      RootChoice(vs, bestK);
    }
    if Valid(b) && !IsTerminal(b) {
      RootHasMove(b, depth);
    }
  }

  /** One pass of the root loop: the child result is fail-soft for the move's value under the
      window (best, +inf), so it is kept exactly when the value beats every earlier one. */
  lemma RootStep(vs: seq<ExtInt>, i: nat, best: ExtInt, kept: bool, bestK: nat, value: ExtInt)
    requires i < |vs|
    requires RootScan(vs, i, best, best, kept, bestK)
    requires Lt(best, PosInf) ==> FailSoft(value, vs[i], best, PosInf)
    ensures Lt(best, value) ==> RootScan(vs, i + 1, value, Max(best, value), true, i)
    ensures !Lt(best, value) ==> RootScan(vs, i + 1, best, Max(best, best), kept, bestK)
  {
    PrefixMaxSpec(vs, i);
  }

  /** The kept move after the whole loop is the first best move. */
  lemma RootChoice(vs: seq<ExtInt>, k: nat)
    requires k < |vs| && vs[k] == PrefixMax(vs, |vs|) && Lt(NegInf, vs[k])
    requires forall j :: 0 <= j < k ==> Lt(vs[j], vs[k])
    ensures FirstBest(vs, k)
  {
  }

  /* ---------------- Properties ---------------- */

  /** On a legal unfinished board the root loop returns a move: every root value is finite. */
  lemma RootHasMove(b: Board, depth: int)
    requires Valid(b) && !IsTerminal(b)
    ensures PrefixMax(RootValues(b, depth), NumUnclaimed(b)) != NegInf
  {
    TerminalIffNoMoves(b);
    RootValueAt(b, depth, 0);
    MinimaxFinite(Material, ChildOf(b, 0, !b.player1Turn), depth, false);
    PrefixMaxSpec(RootValues(b, depth), NumUnclaimed(b));
  }

  /** The root loop searches one level deeper than a maximizing alpha-beta call at the same
      depth: its best value is the minimax value of the board at depth + 1 (for a depth other
      than -1, which would make that a leaf). */
  lemma RootIsOneDeeper(b: Board, depth: int)
    requires WellShaped(b) && !IsTerminal(b) && depth != -1
    ensures PrefixMax(RootValues(b, depth), NumUnclaimed(b)) == Minimax(Material, b, depth + 1, true)
  {
  }

  /** Every root value lies between minus and plus the number of boxes. */
  lemma RootValuesBound(b: Board, depth: int, k: nat)
    requires Valid(b) && k < NumUnclaimed(b)
    ensures RootValues(b, depth)[k].Fin?
    ensures -(Height(b) * Width(b)) <= RootValues(b, depth)[k].v <= Height(b) * Width(b)
  {
    var c := ChildOf(b, k, !b.player1Turn);
    var n := Height(b) * Width(b);
    forall d | WellShaped(d) && Height(d) == Height(c) && Width(d) == Width(c)
      ensures -n <= Material(d) <= n
    {
      MaterialBound(d);
    }
    MinimaxWithin(Material, c, depth, false, -n, n);
    RootValueAt(b, depth, k);
  }
}
