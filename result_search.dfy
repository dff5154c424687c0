/** The alpha-beta search shared, line for line, by the ProAlphaBeta and newAlphaBeta players:
    a depth-limited minimax with a fail-soft (alpha, beta) window over their `result`
    transition, which signs the boxes an edge borders by the turn after the move. The two
    players differ only in their evaluation, which is a parameter here. */
module ResultSearch {
  import opened Boards
  import opened Search

  /* ---------------- result and the move list ---------------- */

  /** result: the copied board with the edge claimed, the turn negated, and each box the edge
      borders moved by +1 when the new turn is player 1's and by -1 otherwise. */
  function Result(b: Board, a: GameAction): (r: Board)
    requires WellShaped(b) && InRange(b, a)
    ensures WellShaped(r) && Height(r) == Height(b) && Width(r) == Width(b)
    ensures r.player1Turn == !b.player1Turn
    ensures r.rowStatus == Claim(b, a).rowStatus && r.colStatus == Claim(b, a).colStatus
    ensures forall i, j :: IsBox(b, i, j) ==>
      r.boardStatus[i][j] == b.boardStatus[i][j] + (if Adjacent(a, i, j) then (if r.player1Turn then 1 else -1) else 0)
  {
    ShiftBoxes(b, a, !b.player1Turn);
    Shift(b, a, !b.player1Turn)
  }

  /** get_all_possible_actions_legal: the free edges, rows before cols, each row-major. */
  method GetAllPossibleActionsLegal(b: Board) returns (actions: seq<GameAction>)
    requires WellShaped(b)
    ensures actions == RowMajorMoves(b)
  {
    actions := CollectMoves(b);
  }

  /* ---------------- Reference: depth-limited minimax ---------------- */

  /** The minimax value under the evaluation eval: eval at depth 0 or on a finished board;
      otherwise the largest (maximizing) or smallest child value, the children being the
      results of the moves in move-list order. A level without moves keeps its -inf or +inf. */
  function Minimax(eval: Board -> int, b: Board, depth: int, maximizing: bool): ExtInt
    requires WellShaped(b)
    decreases NumUnclaimed(b), 2
  {
    if IsTerminal(b) || depth == 0 then Fin(eval(b))
    else if maximizing then PrefixMax(ChildValues(eval, b, depth, true), NumUnclaimed(b))
    else PrefixMin(ChildValues(eval, b, depth, false), NumUnclaimed(b))
  }

  /** The values of the children one level shallower, searched as the other kind of level. */
  function ChildValues(eval: Board -> int, b: Board, depth: int, maximizing: bool): (vs: seq<ExtInt>)
    requires WellShaped(b)
    ensures |vs| == NumUnclaimed(b)
    decreases NumUnclaimed(b), 1, 1
  {
    Tabulate(NumUnclaimed(b), 0, ChildValueOf(eval, b, depth, maximizing))
  }

  /** The value of each child by its index in the move list (-inf past the end). */
  function ChildValueOf(eval: Board -> int, b: Board, depth: int, maximizing: bool): nat -> ExtInt
    requires WellShaped(b)
    decreases NumUnclaimed(b), 1, 0
  {
    (k: nat) => if k < NumUnclaimed(b) then ChildValue(eval, b, depth, maximizing, k) else NegInf
  }

  /** The k-th child value is the value of the board after the k-th move. */
  lemma {:induction false} ChildValueAt(eval: Board -> int, b: Board, depth: int, maximizing: bool, k: nat)
    requires WellShaped(b) && k < NumUnclaimed(b)
    ensures ChildValues(eval, b, depth, maximizing)[k] == ChildValue(eval, b, depth, maximizing, k)
  {
    var f := ChildValueOf(eval, b, depth, maximizing);
    TabulateAt(NumUnclaimed(b), 0, f, k);
    assert f(k) == ChildValue(eval, b, depth, maximizing, k);
  }

  /** The value of the result of the k-th move. */
  function ChildValue(eval: Board -> int, b: Board, depth: int, maximizing: bool, k: nat): ExtInt
    requires WellShaped(b) && k < NumUnclaimed(b)
    decreases NumUnclaimed(b), 0
  {
    Minimax(eval, ChildOf(b, k, !b.player1Turn), depth - 1, !maximizing)
  }

  /* ---------------- alpha_beta ---------------- */

  /** alpha_beta. At depth 0 or on a finished board it is the evaluation; otherwise, given a
      non-empty window, it is a fail-soft bound on the minimax value, exact strictly inside
      the window, so exact for the window (-inf, +inf). */
  method AlphaBeta(eval: Board -> int, b: Board, depth: int, alpha: ExtInt, beta: ExtInt, isMaximizing: bool)
    returns (value: ExtInt)
    requires WellShaped(b)
    ensures IsTerminal(b) || depth == 0 ==> value == Fin(eval(b))
    ensures Lt(alpha, beta) ==> FailSoft(value, Minimax(eval, b, depth, isMaximizing), alpha, beta)
    decreases NumUnclaimed(b), 2
  {
    if IsTerminal(b) || depth == 0 {
      return Fin(eval(b));
    }
    if isMaximizing {
      value := MaxLevel(eval, b, depth, alpha, beta);
    } else {
      value := MinLevel(eval, b, depth, alpha, beta);
    }
  }

  /** The maximizing branch: max_eval and alpha raised to every child value, stopping once
      beta <= alpha. */
  method MaxLevel(eval: Board -> int, b: Board, depth: int, alpha: ExtInt, beta: ExtInt) returns (maxEval: ExtInt)
    requires WellShaped(b)
    ensures Lt(alpha, beta) ==> FailSoft(maxEval, PrefixMax(ChildValues(eval, b, depth, true), NumUnclaimed(b)), alpha, beta)
    decreases NumUnclaimed(b), 1
  {
    var actions := GetAllPossibleActionsLegal(b);
    ghost var vs := ChildValues(eval, b, depth, true);
    ghost var found, bestK := false, 0;
    maxEval := NegInf;
    var a := alpha;
    var i, cutoff := 0, false;
    while i < |actions| && !cutoff
      invariant 0 <= i <= |actions| == NumUnclaimed(b) && actions == RowMajorMoves(b)
      invariant MaxScan(vs, i, alpha, beta, maxEval, a, found, bestK)
      invariant if cutoff then Le(beta, a) else Lt(alpha, beta) ==> Lt(a, beta)
    {
      var e := SearchChild(eval, b, depth, i, actions[i], true, a, beta);
      MaxScanStep(vs, i, alpha, beta, maxEval, a, found, bestK, e);
      if Lt(maxEval, e) {
        found, bestK := true, i;
      }
      assert Max(maxEval, e) == if Lt(maxEval, e) then e else maxEval;
      maxEval := Max(maxEval, e);
      a := Max(a, e);
      i := i + 1;
      cutoff := Le(beta, a);
    }
    if cutoff && Lt(alpha, beta) {
      MaxScanCut(vs, i, alpha, beta, maxEval, a, found, bestK);
    }
  }

  /** The minimizing branch, the mirror image: min_eval and beta lowered to every child
      value. */
  method MinLevel(eval: Board -> int, b: Board, depth: int, alpha: ExtInt, beta: ExtInt) returns (minEval: ExtInt)
    requires WellShaped(b)
    ensures Lt(alpha, beta) ==> FailSoft(minEval, PrefixMin(ChildValues(eval, b, depth, false), NumUnclaimed(b)), alpha, beta)
    decreases NumUnclaimed(b), 1
  {
    var actions := GetAllPossibleActionsLegal(b);
    ghost var vs := ChildValues(eval, b, depth, false);
    ghost var found, bestK := false, 0;
    minEval := PosInf;
    var c := beta;
    var i, cutoff := 0, false;
    while i < |actions| && !cutoff
      invariant 0 <= i <= |actions| == NumUnclaimed(b) && actions == RowMajorMoves(b)
      invariant MinScan(vs, i, alpha, beta, minEval, c, found, bestK)
      invariant if cutoff then Le(c, alpha) else Lt(alpha, beta) ==> Lt(alpha, c)
    {
      var e := SearchChild(eval, b, depth, i, actions[i], false, alpha, c);
      MinScanStep(vs, i, alpha, beta, minEval, c, found, bestK, e);
      if Lt(e, minEval) {
        found, bestK := true, i;
      }
      assert Min(minEval, e) == if Lt(e, minEval) then e else minEval;
      minEval := Min(minEval, e);
      c := Min(c, e);
      i := i + 1;
      cutoff := Le(c, alpha);
    }
    if cutoff && Lt(alpha, beta) {
      MinScanCut(vs, i, alpha, beta, minEval, c, found, bestK);
    }
  }

  /** One pass of a level's loop: the result of the k-th move searched one level shallower as
      the other kind of level, with the level's current window. */
  method SearchChild(eval: Board -> int, b: Board, depth: int, k: nat, action: GameAction, maximizing: bool,
                     alpha: ExtInt, beta: ExtInt)
    returns (e: ExtInt)
    requires WellShaped(b) && k < NumUnclaimed(b) && action == RowMajorMoves(b)[k]
    ensures Lt(alpha, beta) ==> FailSoft(e, ChildValues(eval, b, depth, maximizing)[k], alpha, beta)
    decreases NumUnclaimed(b), 0
  {
    MoveAt(b, k);
    var child := Result(b, action);
    assert child == ChildOf(b, k, !b.player1Turn);
    ChildValueAt(eval, b, depth, maximizing, k);
    e := AlphaBeta(eval, child, depth - 1, alpha, beta, !maximizing);
  }

  /* ---------------- Properties of the reference ---------------- */

  /** With the full window alpha_beta is exactly depth-limited minimax. */
  lemma FullWindowIsMinimax(eval: Board -> int, b: Board, depth: int, maximizing: bool, value: ExtInt)
    requires WellShaped(b)
    requires FailSoft(value, Minimax(eval, b, depth, maximizing), NegInf, PosInf)
    ensures value == Minimax(eval, b, depth, maximizing)
  {
    FullWindow(value, Minimax(eval, b, depth, maximizing));
  }

  /** On a legal board every minimax value is finite: every level below the depth limit on an
      unfinished board has a move, and the leaves are evaluations. */
  lemma {:induction false} MinimaxFinite(eval: Board -> int, b: Board, depth: int, maximizing: bool)
    requires Valid(b)
    ensures Minimax(eval, b, depth, maximizing).Fin?
    decreases NumUnclaimed(b)
  {
    if !(IsTerminal(b) || depth == 0) {
      TerminalIffNoMoves(b);
      var vs := ChildValues(eval, b, depth, maximizing);
      forall k | 0 <= k < |vs|
        ensures vs[k].Fin?
      {
        ChildValueAt(eval, b, depth, maximizing, k);
        MinimaxFinite(eval, ChildOf(b, k, !b.player1Turn), depth - 1, !maximizing);
      }
      if maximizing {
        PrefixMaxSpec(vs, |vs|);
      } else {
        PrefixMinSpec(vs, |vs|);
      }
    }
  }

  /** When the evaluation of every board of b's shape lies in [lo, hi], so does every minimax
      value of the legal board b. */
  lemma {:induction false} MinimaxWithin(eval: Board -> int, b: Board, depth: int, maximizing: bool, lo: int, hi: int)
    requires Valid(b)
    requires forall c :: WellShaped(c) && Height(c) == Height(b) && Width(c) == Width(b) ==> lo <= eval(c) <= hi
    ensures Minimax(eval, b, depth, maximizing).Fin?
    ensures lo <= Minimax(eval, b, depth, maximizing).v <= hi
    decreases NumUnclaimed(b)
  {
    if !(IsTerminal(b) || depth == 0) {
      TerminalIffNoMoves(b);
      var vs := ChildValues(eval, b, depth, maximizing);
      forall k | 0 <= k < |vs|
        ensures vs[k].Fin? && lo <= vs[k].v <= hi
      {
        ChildValueAt(eval, b, depth, maximizing, k);
        MinimaxWithin(eval, ChildOf(b, k, !b.player1Turn), depth - 1, !maximizing, lo, hi);
      }
      if maximizing {
        PrefixMaxSpec(vs, |vs|);
      } else {
        PrefixMinSpec(vs, |vs|);
      }
    }
  }
}
