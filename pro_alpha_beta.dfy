/** The ProAlphaBeta player's evaluation: the score difference plus a penalty, weighted by the
    square of the number of box rows, for every box with value exactly 3, signed against the
    side to move. Its search is the shared alpha-beta of ResultSearch run with this
    evaluation, and its structure scan is the one in Structures. */
module ProAlphaBeta {
  import opened Boards
  import ResultSearch
  import Heuristics

  /* ---------------- nearly_completed_boxes ---------------- */

  /** The boxes with value exactly +3; a box at -3 is not counted. */
  function Threes(b: Board): set<(int, int)>
  {
    BoxesWith(b, 3)
  }

  /** The penalty term: minus the number of +3 boxes on player 1's turn, plus it otherwise. */
  function NearlyCompleted(b: Board): int
  {
    if b.player1Turn then -|Threes(b)| else |Threes(b)|
  }

  /** The +3 boxes as a grid of flags. */
  function ThreeFlags(b: Board): (f: seq<seq<bool>>)
    requires WellShaped(b)
    ensures Heuristics.IsMatrix(f, Height(b), Width(b))
  {
    seq(Height(b), i requires 0 <= i < Height(b) =>
      seq(Width(b), j requires 0 <= j < Width(b) => b.boardStatus[i][j] == 3))
  }

  /** nearly_completed_boxes: count the +3 boxes row by row, then sign the count by the turn. */
  method NearlyCompletedBoxes(b: Board) returns (r: int)
    requires WellShaped(b)
    ensures r == NearlyCompleted(b)
  {
    ghost var f := ThreeFlags(b);
    var penalty := 0;
    var i := 0;
    while i < Height(b)
      invariant 0 <= i <= Height(b)
      invariant penalty == Heuristics.CountRows(f, i)
    {
      var j := 0;
      while j < Width(b)
        invariant 0 <= j <= Width(b)
        invariant penalty == Heuristics.CountRows(f, i) + Heuristics.CountRow(f[i], j)
      {
        if b.boardStatus[i][j] == 3 {
          penalty := penalty + 1;
        }
        j := j + 1;
      }
      i := i + 1;
    }
    ThreesCounted(b);
    if b.player1Turn {
      r := 0 - penalty;
    } else {
      r := penalty;
    }
  }

  /** Counting the flags row by row gives the number of +3 boxes. */
  lemma ThreesCounted(b: Board)
    requires WellShaped(b)
    ensures Heuristics.CountRows(ThreeFlags(b), Height(b)) == |Threes(b)|
  {
    var f := ThreeFlags(b);
    Heuristics.CountRowsCard(f, Height(b));
    assert Heuristics.FlagSet(f, Height(b)) == Threes(b);
  }

  /** The penalty is never positive on player 1's turn and never negative otherwise, is at
      most the number of boxes in size, and is zero exactly when no box is at +3, whatever
      the boxes at -3. */
  lemma NearlyCompletedSpec(b: Board)
    requires WellShaped(b)
    ensures b.player1Turn ==> NearlyCompleted(b) <= 0
    ensures !b.player1Turn ==> NearlyCompleted(b) >= 0
    ensures Abs(NearlyCompleted(b)) <= Height(b) * Width(b)
    ensures NearlyCompleted(b) == 0 <==> forall i, j :: IsBox(b, i, j) ==> b.boardStatus[i][j] != 3
  {
    BoxesCard(b);
    SubsetCard(Threes(b), Boxes(b));
    forall i, j | IsBox(b, i, j) && b.boardStatus[i][j] == 3
      ensures |Threes(b)| > 0
    {
      assert (i, j) in Threes(b);
    }
    if NearlyCompleted(b) != 0 {
      var p :| p in Threes(b);
      assert IsBox(b, p.0, p.1) && b.boardStatus[p.0][p.1] == 3;
    }
  }

  /* ---------------- _evaluate ---------------- */

  /** _evaluate: score_diff plus the number of box rows squared times the penalty. */
  function Evaluate(b: Board): int
  {
    Material(b) + Height(b) * Height(b) * NearlyCompleted(b)
  }

  /** The evaluation of a board with n boxes lies within n * (1 + h^2) of 0, h being the
      number of box rows. */
  lemma EvaluateBound(b: Board)
    requires WellShaped(b)
    ensures Abs(Evaluate(b)) <= Height(b) * Width(b) * (1 + Height(b) * Height(b))
  {
    var n, hh := Height(b) * Width(b), Height(b) * Height(b);
    MaterialBound(b);
    NearlyCompletedSpec(b);
    var p := NearlyCompleted(b);
    ScaledBound(hh, p, n);
    assert n * (1 + hh) == n + hh * n;
  }

  lemma ScaledBound(k: nat, p: int, n: nat)
    requires Abs(p) <= n
    ensures Abs(k * p) <= k * n
  {
    if p < 0 {
      assert k * p == -(k * -p);
    }
  }

  /** On a square board one box at +3 outweighs the whole score difference: the evaluation is
      negative on player 1's turn and positive on player 2's. */
  lemma PenaltyOutweighsScore(b: Board)
    requires WellShaped(b) && Height(b) == Width(b) && Threes(b) != {}
    ensures b.player1Turn ==> Evaluate(b) < 0
    ensures !b.player1Turn ==> Evaluate(b) > 0
  {
    var hh, t := Height(b) * Height(b), |Threes(b)|;
    BoxesCard(b);
    OthersLeft(b, 4);
    OthersLeft(b, -4);
    assert hh * t >= hh by {
      assert t >= 1;
    }
  }

  /** A side's completed boxes and the +3 boxes share no box, so together they are at most
      the number of boxes. */
  lemma OthersLeft(b: Board, v: int)
    requires WellShaped(b) && v != 3
    ensures |BoxesWith(b, v)| + |Threes(b)| <= |Boxes(b)|
  {
    assert BoxesWith(b, v) !! Threes(b);
    assert BoxesWith(b, v) + Threes(b) <= Boxes(b);
    SubsetCard(BoxesWith(b, v) + Threes(b), Boxes(b));
  }

  /* ---------------- alpha_beta with this evaluation ---------------- */

  /** Every depth-limited minimax value under this evaluation of a legal board is finite and
      within the evaluation's bound, so alpha_beta with the full window returns such a value. */
  lemma MinimaxBound(b: Board, depth: int, maximizing: bool)
    requires Valid(b)
    ensures ResultSearch.Minimax(Evaluate, b, depth, maximizing).Fin?
    ensures Abs(ResultSearch.Minimax(Evaluate, b, depth, maximizing).v) <= Height(b) * Width(b) * (1 + Height(b) * Height(b))
  {
    var m := Height(b) * Width(b) * (1 + Height(b) * Height(b));
    forall c | WellShaped(c) && Height(c) == Height(b) && Width(c) == Width(b)
      ensures -m <= Evaluate(c) <= m
    {
      EvaluateBound(c);
    }
    ResultSearch.MinimaxWithin(Evaluate, b, depth, maximizing, -m, m);
  }
}
