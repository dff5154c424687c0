/** The structural evaluation helpers of heurestics.py: the endgame test, free-box detection,
    the double-cross score, the two flood fills over boxes with three taken sides, and the
    neighbour tests the flood fills use. Every helper reads a board snapshot and changes
    nothing. */
module Heuristics {
  import opened Boards

  /* ---------------- Box predicates ---------------- */

  /** Box (y, x), as an (x, y) pair, lies on the board and has three taken sides. */
  predicate ThreeAt(b: Board, p: (int, int))
  {
    WellShaped(b) && 0 <= p.0 < Width(b) && 0 <= p.1 < Height(b) && Abs(b.boardStatus[p.1][p.0]) == 3
  }

  /** No box of the board has three taken sides. */
  predicate NoThrees(b: Board)
  {
    forall i, j :: 0 <= i < |b.boardStatus| && 0 <= j < |b.boardStatus[i]| ==> Abs(b.boardStatus[i][j]) != 3
  }

  /** Two (x, y) points are orthogonal neighbours. */
  predicate Orth(p: (int, int), q: (int, int))
  {
    (p.0 == q.0 && (p.1 == q.1 + 1 || p.1 + 1 == q.1)) || (p.1 == q.1 && (p.0 == q.0 + 1 || p.0 + 1 == q.0))
  }

  /* ---------------- is_endgame ---------------- */

  /** No box carries exactly one taken side, in either sign. */
  predicate Endgame(b: Board)
  {
    forall i, j :: 0 <= i < |b.boardStatus| && 0 <= j < |b.boardStatus[i]| ==>
      b.boardStatus[i][j] != 1 && b.boardStatus[i][j] != -1
  }

  /** The scan of is_endgame: stop at the first box whose value is 1 or -1. */
  method IsEndgame(b: Board) returns (r: bool)
    requires WellShaped(b)
    ensures r <==> Endgame(b)
  {
    var i := 0;
    while i < |b.boardStatus|
      invariant 0 <= i <= |b.boardStatus|
      invariant forall k, j :: 0 <= k < i && 0 <= j < |b.boardStatus[k]| ==>
        b.boardStatus[k][j] != 1 && b.boardStatus[k][j] != -1
    {
      var j := 0;
      while j < |b.boardStatus[i]|
        invariant 0 <= j <= |b.boardStatus[i]|
        invariant forall k :: 0 <= k < j ==> b.boardStatus[i][k] != 1 && b.boardStatus[i][k] != -1
      {
        if b.boardStatus[i][j] == 1 || b.boardStatus[i][j] == -1 {
          return false;
        }
        j := j + 1;
      }
      i := i + 1;
    }
    return true;
  }

  /** On a board whose box values count taken sides, the endgame test says that no box has
      exactly one taken side. */
  lemma EndgameIffNoSingleSide(b: Board)
    requires Consistent(b)
    ensures Endgame(b) <==> forall i, j :: IsBox(b, i, j) ==> Sides(b, i, j) != 1
  {
    if Endgame(b) {
      forall i, j | IsBox(b, i, j)
        ensures Sides(b, i, j) != 1
      {
        assert Abs(b.boardStatus[i][j]) == Sides(b, i, j);
      }
    } else {
      var i, j :| 0 <= i < |b.boardStatus| && 0 <= j < |b.boardStatus[i]| &&
        (b.boardStatus[i][j] == 1 || b.boardStatus[i][j] == -1);
      assert IsBox(b, i, j) && Sides(b, i, j) == 1;
    }
  }

  /* ---------------- check_for_free_boxes ---------------- */

  /** The column of the last |3| box among row[0..n], if any. */
  function LastThreeInRow(row: seq<int>, n: nat): (r: Option<nat>)
    requires n <= |row|
    ensures r.Some? ==> r.value < n && Abs(row[r.value]) == 3
  {
    if n == 0 then None
    else if Abs(row[n - 1]) == 3 then Some(n - 1)
    else LastThreeInRow(row, n - 1)
  }

  /** The last |3| box, as (row, column), among rows 0..m-1 of the box grid. */
  function LastThreeIn(g: Grid, m: nat): Option<(int, int)>
    requires m <= |g|
  {
    if m == 0 then None
    else match LastThreeInRow(g[m - 1], |g[m - 1]|)
      case Some(j) => Some((m - 1, j))
      case None => LastThreeIn(g, m - 1)
  }

  /** The last |3| box met by a row-major scan that has finished rows 0..y-1 and the first
      x boxes of row y. */
  function LastThreeUpTo(g: Grid, y: nat, x: nat): Option<(int, int)>
    requires y < |g| && x <= |g[y]|
  {
    match LastThreeInRow(g[y], x)
    case Some(j) => Some((y, j))
    case None => LastThreeIn(g, y)
  }

  /** Box (i, j) comes after box (k, l) in row-major order. */
  predicate After(i: int, j: int, k: int, l: int)
  {
    i > k || (i == k && j > l)
  }

  lemma {:induction false} LastThreeInRowSpec(row: seq<int>, n: nat)
    requires n <= |row|
    ensures LastThreeInRow(row, n).None? <==> forall j :: 0 <= j < n ==> Abs(row[j]) != 3
    ensures LastThreeInRow(row, n).Some? ==>
      forall j :: LastThreeInRow(row, n).value < j < n ==> Abs(row[j]) != 3
  {
    if n > 0 {
      LastThreeInRowSpec(row, n - 1);
    }
  }

  /** The scan finds no box exactly when no row holds a |3| box; what it finds is a |3| box
      and no later box in row-major order has three taken sides. */
  lemma {:induction false} LastThreeInSpec(g: Grid, m: nat)
    requires m <= |g|
    ensures LastThreeIn(g, m).None? <==>
      forall i, j :: 0 <= i < m && 0 <= j < |g[i]| ==> Abs(g[i][j]) != 3
    ensures LastThreeIn(g, m).Some? ==>
      var p := LastThreeIn(g, m).value;
      && 0 <= p.0 < m && 0 <= p.1 < |g[p.0]| && Abs(g[p.0][p.1]) == 3
      && forall i, j :: 0 <= i < m && 0 <= j < |g[i]| && After(i, j, p.0, p.1) ==> Abs(g[i][j]) != 3
  {
    if m > 0 {
      LastThreeInSpec(g, m - 1);
      LastThreeInRowSpec(g[m - 1], |g[m - 1]|);
    }
  }

  /** The first free side of box (i, j) in the order top, bottom, left, right. */
  function FreeSide(b: Board, i: int, j: int): Option<GameAction>
    requires WellShaped(b) && IsBox(b, i, j)
  {
    if b.rowStatus[i][j] == 0 then Some(GameAction(Row, j, i))
    else if b.rowStatus[i + 1][j] == 0 then Some(GameAction(Row, j, i + 1))
    else if b.colStatus[i][j] == 0 then Some(GameAction(Col, j, i))
    else if b.colStatus[i][j + 1] == 0 then Some(GameAction(Col, j + 1, i))
    else None
  }

  /** What FreeSide returns is a free edge of the box; it returns nothing only when all four
      sides are taken; no free side of the box precedes it in the order top, bottom, left,
      right. */
  lemma FreeSideSpec(b: Board, i: int, j: int)
    requires WellShaped(b) && IsBox(b, i, j)
    ensures FreeSide(b, i, j).Some? ==>
      Unclaimed(b, FreeSide(b, i, j).value) && Adjacent(FreeSide(b, i, j).value, i, j)
    ensures FreeSide(b, i, j).None? <==>
      forall a :: InRange(b, a) && Adjacent(a, i, j) ==> EdgeValue(b, a) != 0
  {
    if FreeSide(b, i, j).None? {
      forall a | InRange(b, a) && Adjacent(a, i, j)
        ensures EdgeValue(b, a) != 0
      {
      }
    } else {
      var a := FreeSide(b, i, j).value;
      assert InRange(b, a) && Adjacent(a, i, j);
    }
  }

  /** On a board whose box values count taken sides, a |3| box has exactly one free side,
      and FreeSide returns it. */
  lemma FreeSideOfThree(b: Board, i: int, j: int)
    requires Valid(b) && Consistent(b) && IsBox(b, i, j) && Abs(b.boardStatus[i][j]) == 3
    ensures FreeSide(b, i, j).Some?
    ensures forall a :: Unclaimed(b, a) && Adjacent(a, i, j) ==> a == FreeSide(b, i, j).value
  {
    assert Sides(b, i, j) == 3;
    assert b.rowStatus[i][j] == 0 || b.rowStatus[i][j] == 1;
    assert b.rowStatus[i + 1][j] == 0 || b.rowStatus[i + 1][j] == 1;
    assert b.colStatus[i][j] == 0 || b.colStatus[i][j] == 1;
    assert b.colStatus[i][j + 1] == 0 || b.colStatus[i][j + 1] == 1;
  }

  /** check_for_free_boxes: scan every box, remembering the last |3| box, then return its
      first free side. A remembered position is always acted on, (0, 0) included. */
  method CheckForFreeBoxes(b: Board) returns (r: Option<GameAction>)
    requires WellShaped(b)
    ensures LastThreeIn(b.boardStatus, Height(b)).None? ==> r.None?
    ensures LastThreeIn(b.boardStatus, Height(b)).Some? ==>
      var p := LastThreeIn(b.boardStatus, Height(b)).value;
      IsBox(b, p.0, p.1) && r == FreeSide(b, p.0, p.1)
  {
    var pos: Option<(int, int)> := None;
    var i := 0;
    while i < Height(b)
      invariant 0 <= i <= Height(b)
      invariant pos == LastThreeIn(b.boardStatus, i)
    {
      var j := 0;
      while j < |b.boardStatus[i]|
        invariant 0 <= j <= |b.boardStatus[i]|
        invariant pos == LastThreeUpTo(b.boardStatus, i, j)
      {
        if b.boardStatus[i][j] == 3 || b.boardStatus[i][j] == -3 {
          pos := Some((i, j));
        }
        j := j + 1;
      }
      i := i + 1;
    }
    LastThreeInSpec(b.boardStatus, Height(b));
    if pos.Some? {
      var p := pos.value;
      if b.rowStatus[p.0][p.1] == 0 {
        return Some(GameAction(Row, p.1, p.0));
      }
      if b.rowStatus[p.0 + 1][p.1] == 0 {
        return Some(GameAction(Row, p.1, p.0 + 1));
      }
      if b.colStatus[p.0][p.1] == 0 {
        return Some(GameAction(Col, p.1, p.0));
      }
      if b.colStatus[p.0][p.1 + 1] == 0 {
        return Some(GameAction(Col, p.1 + 1, p.0));
      }
    }
    return None;
  }

  /** The free-box answer is empty when no box has three taken sides; on a board whose box
      values count taken sides it is otherwise the one free edge of the last |3| box. */
  lemma FreeBoxesSpec(b: Board)
    requires Valid(b) && Consistent(b)
    ensures LastThreeIn(b.boardStatus, Height(b)).None? <==> NoThrees(b)
    ensures LastThreeIn(b.boardStatus, Height(b)).Some? ==>
      var p := LastThreeIn(b.boardStatus, Height(b)).value;
      && IsBox(b, p.0, p.1) && Abs(b.boardStatus[p.0][p.1]) == 3
      && FreeSide(b, p.0, p.1).Some? && Unclaimed(b, FreeSide(b, p.0, p.1).value)
      && Adjacent(FreeSide(b, p.0, p.1).value, p.0, p.1)
  {
    LastThreeInSpec(b.boardStatus, Height(b));
    var last := LastThreeIn(b.boardStatus, Height(b));
    if last.Some? {
      var p := last.value;
      FreeSideOfThree(b, p.0, p.1);
      FreeSideSpec(b, p.0, p.1);
    }
  }

  /* ---------------- is_chain_opportunity and double_cross_evaluation ---------------- */

  /** The number of orthogonal neighbours of box (y, x) with three taken sides. */
  function NeighbourThrees(b: Board, x: int, y: int): (n: nat)
    requires WellShaped(b) && IsBox(b, y, x)
    ensures n <= 4
  {
    var g := b.boardStatus;
    (if y > 0 && Abs(g[y - 1][x]) == 3 then 1 else 0)
    + (if y < Height(b) - 1 && Abs(g[y + 1][x]) == 3 then 1 else 0)
    + (if x > 0 && Abs(g[y][x - 1]) == 3 then 1 else 0)
    + (if x < Width(b) - 1 && Abs(g[y][x + 1]) == 3 then 1 else 0)
  }

  /** Box (y, x) has at least two orthogonal |3| neighbours: ThreeNeighbours, the set of
      those neighbours, has two elements or more. */
  function ChainOpportunity(b: Board, x: int, y: int): (r: bool)
    requires WellShaped(b) && IsBox(b, y, x)
    ensures r <==> |ThreeNeighbours(b, x, y)| >= 2
  {
    NeighbourThreesCard(b, x, y);
    NeighbourThrees(b, x, y) >= 2
  }

  /** The point q as a one-element set when it is a |3| box, else the empty set. */
  function IfThree(b: Board, q: (int, int)): (s: set<(int, int)>)
    ensures |s| == (if ThreeAt(b, q) then 1 else 0)
    ensures forall p :: p in s <==> p == q && ThreeAt(b, q)
  {
    if ThreeAt(b, q) then {q} else {}
  }

  /** The |3| neighbours of a box, as a set of (x, y) points: above, below, left, right. */
  function ThreeNeighbours(b: Board, x: int, y: int): set<(int, int)>
  {
    IfThree(b, (x, y - 1)) + IfThree(b, (x, y + 1)) + IfThree(b, (x - 1, y)) + IfThree(b, (x + 1, y))
  }

  /** The neighbour set holds exactly the orthogonal neighbours with three taken sides. */
  lemma ThreeNeighboursSpec(b: Board, x: int, y: int)
    ensures forall q :: q in ThreeNeighbours(b, x, y) <==> ThreeAt(b, q) && Orth((x, y), q)
  {
    forall q | Orth((x, y), q)
      ensures q == (x, y - 1) || q == (x, y + 1) || q == (x - 1, y) || q == (x + 1, y)
    {
    }
  }

  /** The neighbour count of is_chain_opportunity is the size of that set. */
  lemma NeighbourThreesCard(b: Board, x: int, y: int)
    requires WellShaped(b) && IsBox(b, y, x)
    ensures NeighbourThrees(b, x, y) == |ThreeNeighbours(b, x, y)|
  {
    var up, down, left, right := IfThree(b, (x, y - 1)), IfThree(b, (x, y + 1)), IfThree(b, (x - 1, y)), IfThree(b, (x + 1, y));
    assert up !! down && (up + down) !! left && (up + down + left) !! right;
    assert |up + down + left + right| == |up| + |down| + |left| + |right|;
  }

  /** A box the double-cross score rewards. */
  predicate Opportunity(b: Board, y: int, x: int)
    requires WellShaped(b) && IsBox(b, y, x)
  {
    Abs(b.boardStatus[y][x]) == 3 && ChainOpportunity(b, x, y)
  }

  /** The rewarded boxes, as a set of (row, column) pairs. */
  function OpportunitySet(b: Board): set<(int, int)>
    requires WellShaped(b)
  {
    set i, j | 0 <= i < Height(b) && 0 <= j < Width(b) && Opportunity(b, i, j) :: (i, j)
  }

  /** The rewarded boxes as a grid of flags. */
  function OpportunityFlags(b: Board): (f: seq<seq<bool>>)
    requires WellShaped(b)
    ensures IsMatrix(f, Height(b), Width(b))
  {
    seq(Height(b), i requires 0 <= i < Height(b) =>
      seq(Width(b), j requires 0 <= j < Width(b) => Opportunity(b, i, j)))
  }

  /** The set flags among row[0..n]. */
  function CountRow(row: seq<bool>, n: nat): nat
    requires n <= |row|
  {
    if n == 0 then 0 else CountRow(row, n - 1) + (if row[n - 1] then 1 else 0)
  }

  /** The set flags in rows 0..m-1. */
  function CountRows(f: seq<seq<bool>>, m: nat): nat
    requires m <= |f|
  {
    if m == 0 then 0 else CountRows(f, m - 1) + CountRow(f[m - 1], |f[m - 1]|)
  }

  /** The set flags of rows 0..m-1 as (row, column) pairs. */
  function FlagSet(f: seq<seq<bool>>, m: nat): set<(int, int)>
    requires m <= |f|
  {
    set i, j | 0 <= i < m && 0 <= j < |f[i]| && f[i][j] :: (i, j)
  }

  /** The set flags of row[0..n] as (y, column) pairs. */
  function RowFlagSet(row: seq<bool>, y: int, n: nat): set<(int, int)>
    requires n <= |row|
  {
    set j | 0 <= j < n && row[j] :: (y, j)
  }

  lemma {:induction false} CountRowCard(row: seq<bool>, y: int, n: nat)
    requires n <= |row|
    ensures CountRow(row, n) == |RowFlagSet(row, y, n)|
  {
    if n > 0 {
      CountRowCard(row, y, n - 1);
      if row[n - 1] {
        assert RowFlagSet(row, y, n) == RowFlagSet(row, y, n - 1) + {(y, n - 1)};
      } else {
        assert RowFlagSet(row, y, n) == RowFlagSet(row, y, n - 1);
      }
    }
  }

  /** Counting the flags row by row gives the size of the set of flagged cells. */
  lemma {:induction false} CountRowsCard(f: seq<seq<bool>>, m: nat)
    requires m <= |f|
    ensures CountRows(f, m) == |FlagSet(f, m)|
  {
    if m > 0 {
      CountRowsCard(f, m - 1);
      CountRowCard(f[m - 1], m - 1, |f[m - 1]|);
      assert FlagSet(f, m) == FlagSet(f, m - 1) + RowFlagSet(f[m - 1], m - 1, |f[m - 1]|);
      assert FlagSet(f, m - 1) !! RowFlagSet(f[m - 1], m - 1, |f[m - 1]|);
    }
  }

  /** double_cross_evaluation: add 5 for every |3| box with at least two |3| neighbours. */
  method DoubleCrossEvaluation(b: Board) returns (score: int)
    requires WellShaped(b)
    ensures score == 5 * CountRows(OpportunityFlags(b), Height(b))
  {
    ghost var f := OpportunityFlags(b);
    score := 0;
    var y := 0;
    while y < Height(b)
      invariant 0 <= y <= Height(b)
      invariant score == 5 * CountRows(f, y)
    {
      var x := 0;
      while x < Width(b)
        invariant 0 <= x <= Width(b)
        invariant score == 5 * (CountRows(f, y) + CountRow(f[y], x))
      {
        if Abs(b.boardStatus[y][x]) == 3 {
          if ChainOpportunity(b, x, y) {
            score := score + 5;
          }
        }
        x := x + 1;
      }
      y := y + 1;
    }
  }

  /** The double-cross score counts the rewarded boxes: it is five times the size of their
      set, hence a non-negative multiple of 5 and at most five per box, and 0 when no box has
      three taken sides. */
  lemma DoubleCrossSpec(b: Board)
    requires WellShaped(b)
    ensures CountRows(OpportunityFlags(b), Height(b)) == |OpportunitySet(b)|
    ensures |OpportunitySet(b)| <= Height(b) * Width(b)
    ensures NoThrees(b) ==> OpportunitySet(b) == {}
  {
    var f := OpportunityFlags(b);
    CountRowsCard(f, Height(b));
    assert FlagSet(f, Height(b)) == OpportunitySet(b);
    BoxesCard(b);
    SubsetCard(OpportunitySet(b), Boxes(b));
  }

  /* ---------------- _chain_length_dfs ---------------- */

  /** q is next to one of the first k points of s. */
  ghost predicate Borders(s: seq<(int, int)>, k: int, q: (int, int))
  {
    exists j :: 0 <= j < k && j < |s| && Orth(s[j], q)
  }

  /** Every point after the first is next to an earlier one, so the points form one
      connected group. */
  ghost predicate Connected(s: seq<(int, int)>)
  {
    forall i {:trigger Borders(s, i, s[i])} :: 0 < i < |s| ==> Borders(s, i, s[i])
  }

  lemma BordersGrow(s: seq<(int, int)>, k: int, p: (int, int), q: (int, int))
    requires Borders(s, k, q) && k <= |s|
    ensures Borders(s + [p], k, q)
  {
    var j :| 0 <= j < k && j < |s| && Orth(s[j], q);
    assert (s + [p])[j] == s[j];
  }

  lemma ConnectedAppend(s: seq<(int, int)>, p: (int, int))
    requires Connected(s) && (s == [] || Borders(s, |s|, p))
    ensures Connected(s + [p])
  {
    forall i | 0 < i < |s| + 1
      ensures Borders(s + [p], i, (s + [p])[i])
    {
      if i < |s| {
        BordersGrow(s, i, p, s[i]);
      } else {
        BordersGrow(s, |s|, p, p);
      }
    }
  }


  /** Every point of s is an (x, y) point of a box. */
  predicate OnBoard(b: Board, s: set<(int, int)>)
  {
    forall p :: p in s ==> 0 <= p.0 < Width(b) && 0 <= p.1 < Height(b)
  }

  lemma OnBoardCard(b: Board, s: set<(int, int)>)
    requires OnBoard(b, s)
    ensures |s| <= Height(b) * Width(b)
  {
    SubsetCard(s, Cells(Width(b), Height(b)));
  }

  /** Every point of s is a |3| box. */
  predicate AllThree(b: Board, s: set<(int, int)>)
  {
    forall p :: p in s ==> ThreeAt(b, p)
  }

  /** Every |3| neighbour of a point of s lies in within. */
  ghost predicate Closed(b: Board, s: set<(int, int)>, within: set<(int, int)>)
  {
    forall p, q :: p in s && ThreeAt(b, q) && Orth(p, q) ==> q in within
  }

  lemma ClosedGrow(b: Board, s: set<(int, int)>, within: set<(int, int)>, bigger: set<(int, int)>)
    requires Closed(b, s, within) && within <= bigger
    ensures Closed(b, s, bigger)
  {
  }

  lemma ClosedUnion(b: Board, s: set<(int, int)>, t: set<(int, int)>, within: set<(int, int)>)
    requires Closed(b, s, within) && Closed(b, t, within)
    ensures Closed(b, s + t, within)
  {
  }

  /** Two consecutive growth steps of the fill make one. */
  lemma Join(b: Board, v: set<(int, int)>, a: set<(int, int)>, c: set<(int, int)>)
    requires v <= a <= c
    requires AllThree(b, a - v) && AllThree(b, c - a)
    requires Closed(b, a - v, c) && Closed(b, c - a, c)
    ensures AllThree(b, c - v) && Closed(b, c - v, c)
  {
    assert c - v == (a - v) + (c - a);
  }

  /** The four recursive calls of one fill step, from (x, y), together: the boxes they add
      and (x, y) itself form a grown set whose |3| neighbours are all inside it. */
  lemma JoinFill(b: Board, visited: set<(int, int)>, x: int, y: int,
                 s0: set<(int, int)>, s1: set<(int, int)>, s2: set<(int, int)>, s3: set<(int, int)>, s4: set<(int, int)>)
    requires s0 == visited + {(x, y)} && (x, y) !in visited && ThreeAt(b, (x, y))
    requires s0 <= s1 <= s2 <= s3 <= s4
    requires AllThree(b, s1 - s0) && Closed(b, s1 - s0, s1)
    requires AllThree(b, s2 - s1) && Closed(b, s2 - s1, s2)
    requires AllThree(b, s3 - s2) && Closed(b, s3 - s2, s3)
    requires AllThree(b, s4 - s3) && Closed(b, s4 - s3, s4)
    requires ThreeAt(b, (x, y - 1)) ==> (x, y - 1) in s1
    requires ThreeAt(b, (x, y + 1)) ==> (x, y + 1) in s2
    requires ThreeAt(b, (x - 1, y)) ==> (x - 1, y) in s3
    requires ThreeAt(b, (x + 1, y)) ==> (x + 1, y) in s4
    ensures AllThree(b, s4 - visited) && Closed(b, s4 - visited, s4)
  {
    ClosedPoint(b, x, y, s4);
    assert s0 - visited == {(x, y)};
    ClosedGrow(b, s3 - s2, s3, s4);
    Join(b, s2, s3, s4);
    ClosedGrow(b, s2 - s1, s2, s4);
    Join(b, s1, s2, s4);
    ClosedGrow(b, s1 - s0, s1, s4);
    Join(b, s0, s1, s4);
    Join(b, visited, s0, s4);
  }

  /** The |3| neighbours of one point lie in within when each of its four neighbours does. */
  lemma ClosedPoint(b: Board, x: int, y: int, within: set<(int, int)>)
    requires ThreeAt(b, (x, y - 1)) ==> (x, y - 1) in within
    requires ThreeAt(b, (x, y + 1)) ==> (x, y + 1) in within
    requires ThreeAt(b, (x - 1, y)) ==> (x - 1, y) in within
    requires ThreeAt(b, (x + 1, y)) ==> (x + 1, y) in within
    ensures Closed(b, {(x, y)}, within)
  {
    forall p, q | p in {(x, y)} && ThreeAt(b, q) && Orth(p, q)
      ensures q in within
    {
      assert q == (x, y - 1) || q == (x, y + 1) || q == (x - 1, y) || q == (x + 1, y);
    }
  }

  /** A point next to the first point of s borders s. */
  lemma BordersFirst(s: seq<(int, int)>, q: (int, int))
    requires s != [] && Orth(s[0], q)
    ensures Borders(s, |s|, q)
  {
  }

  /** Two connected runs make one when the second is empty or starts next to the first. */
  lemma ConnectedConcat(s: seq<(int, int)>, t: seq<(int, int)>)
    requires Connected(s) && Connected(t)
    requires t != [] ==> Borders(s, |s|, t[0])
    ensures Connected(s + t)
  {
    forall i | 0 < i < |s + t|
      ensures Borders(s + t, i, (s + t)[i])
    {
      if i < |s| {
        assert Borders(s, i, s[i]);
        var j :| 0 <= j < i && j < |s| && Orth(s[j], s[i]);
        assert (s + t)[j] == s[j];
      } else if i == |s| {
        var j :| 0 <= j < |s| && Orth(s[j], t[0]);
        assert (s + t)[j] == s[j];
      } else {
        assert Borders(t, i - |s|, t[i - |s|]);
        var j :| 0 <= j < i - |s| && j < |t| && Orth(t[j], t[i - |s|]);
        assert (s + t)[|s| + j] == t[j];
      }
    }
  }

  /** The runs of the four recursive calls, after the start, form one connected run. */
  lemma FillOrder(x: int, y: int, o1: seq<(int, int)>, o2: seq<(int, int)>, o3: seq<(int, int)>, o4: seq<(int, int)>)
    requires Connected(o1) && (o1 != [] ==> o1[0] == (x, y - 1))
    requires Connected(o2) && (o2 != [] ==> o2[0] == (x, y + 1))
    requires Connected(o3) && (o3 != [] ==> o3[0] == (x - 1, y))
    requires Connected(o4) && (o4 != [] ==> o4[0] == (x + 1, y))
    ensures Connected([(x, y)] + o1 + o2 + o3 + o4)
    ensures Elems([(x, y)] + o1 + o2 + o3 + o4) == {(x, y)} + Elems(o1) + Elems(o2) + Elems(o3) + Elems(o4)
  {
    var p0 := [(x, y)];
    if o1 != [] { BordersFirst(p0, o1[0]); }
    ConnectedConcat(p0, o1);
    ElemsConcat(p0, o1);
    var p1 := p0 + o1;
    if o2 != [] { BordersFirst(p1, o2[0]); }
    ConnectedConcat(p1, o2);
    ElemsConcat(p1, o2);
    var p2 := p1 + o2;
    if o3 != [] { BordersFirst(p2, o3[0]); }
    ConnectedConcat(p2, o3);
    ElemsConcat(p2, o3);
    var p3 := p2 + o3;
    if o4 != [] { BordersFirst(p3, o4[0]); }
    ConnectedConcat(p3, o4);
    ElemsConcat(p3, o4);
    assert Elems(p0) == {(x, y)};
  }

  /** The boxes one fill step adds are the start and what the four calls add. */
  lemma FillSets(visited: set<(int, int)>, s0: set<(int, int)>, s1: set<(int, int)>, s2: set<(int, int)>,
                 s3: set<(int, int)>, s4: set<(int, int)>, x: int, y: int,
                 e: set<(int, int)>, e1: set<(int, int)>, e2: set<(int, int)>, e3: set<(int, int)>, e4: set<(int, int)>)
    requires s0 == visited + {(x, y)} && (x, y) !in visited && s0 <= s1 <= s2 <= s3 <= s4
    requires e1 == s1 - s0 && e2 == s2 - s1 && e3 == s3 - s2 && e4 == s4 - s3
    requires e == {(x, y)} + e1 + e2 + e3 + e4
    ensures e == s4 - visited
  {
  }

  /** The recursive flood fill over |3| boxes. The visited set of (x, y) points is shared by
      every call of one fill; here each call receives it and hands back the grown set. A
      call from an unvisited |3| box adds it, and the added boxes are |3| boxes whose |3|
      neighbours all end up visited. The ghost order lists the added boxes as the fill
      reaches them: the start first, each later box next to an earlier one, so every added
      box is joined to the start through added |3| boxes. */
  method ChainLengthDfs(b: Board, x: int, y: int, visited: set<(int, int)>)
    returns (length: nat, seen: set<(int, int)>, ghost order: seq<(int, int)>)
    requires WellShaped(b) && IsBox(b, y, x) && OnBoard(b, visited)
    ensures visited <= seen && OnBoard(b, seen)
    ensures length == |seen| - |visited| && length <= Height(b) * Width(b)
    ensures (x, y) in visited || !ThreeAt(b, (x, y)) ==> length == 0 && seen == visited
    ensures (x, y) !in visited && ThreeAt(b, (x, y)) ==> (x, y) in seen
    ensures AllThree(b, seen - visited) && Closed(b, seen - visited, seen)
    ensures Elems(order) == seen - visited && Connected(order)
    ensures order != [] ==> order[0] == (x, y)
    decreases Height(b) * Width(b) - |visited|, 2
  {
    if (x, y) in visited || Abs(b.boardStatus[y][x]) != 3 {
      return 0, visited, [];
    }
    length, seen, order := FillFrom(b, x, y, visited);
  }

  /** The body of _chain_length_dfs past its guard: mark the unvisited |3| box (x, y), count
      it, and add the counts of the fills into its four neighbours (up, down, left, right). */
  method FillFrom(b: Board, x: int, y: int, visited: set<(int, int)>)
    returns (length: nat, seen: set<(int, int)>, ghost order: seq<(int, int)>)
    requires WellShaped(b) && IsBox(b, y, x) && OnBoard(b, visited)
    requires (x, y) !in visited && ThreeAt(b, (x, y))
    ensures visited + {(x, y)} <= seen && OnBoard(b, seen)
    ensures length == |seen| - |visited| && length <= Height(b) * Width(b)
    ensures AllThree(b, seen - visited) && Closed(b, seen - visited, seen)
    ensures Elems(order) == seen - visited && Connected(order)
    ensures order != [] && order[0] == (x, y)
    decreases Height(b) * Width(b) - |visited|, 1
  {
    OnBoardCard(b, visited);
    var s0 := visited + {(x, y)};
    OnBoardCard(b, s0);
    var n1, s1, o1 := Neighbour(b, x, y - 1, s0);
    var n2, s2, o2 := Neighbour(b, x, y + 1, s1);
    var n3, s3, o3 := Neighbour(b, x - 1, y, s2);
    var n4, s4, o4 := Neighbour(b, x + 1, y, s3);
    length, seen, order := 1 + n1 + n2 + n3 + n4, s4, [(x, y)] + o1 + o2 + o3 + o4;
    FillStep(b, visited, x, y, s0, s1, s2, s3, s4, o1, o2, o3, o4);
  }

  /** One fill step as a whole: the start and the four calls' additions make the boxes the
      step adds, closed and joined to the start. */
  lemma FillStep(b: Board, visited: set<(int, int)>, x: int, y: int,
                 s0: set<(int, int)>, s1: set<(int, int)>, s2: set<(int, int)>, s3: set<(int, int)>, s4: set<(int, int)>,
                 o1: seq<(int, int)>, o2: seq<(int, int)>, o3: seq<(int, int)>, o4: seq<(int, int)>)
    requires s0 == visited + {(x, y)} && (x, y) !in visited && ThreeAt(b, (x, y))
    requires s0 <= s1 <= s2 <= s3 <= s4
    requires AllThree(b, s1 - s0) && Closed(b, s1 - s0, s1)
    requires AllThree(b, s2 - s1) && Closed(b, s2 - s1, s2)
    requires AllThree(b, s3 - s2) && Closed(b, s3 - s2, s3)
    requires AllThree(b, s4 - s3) && Closed(b, s4 - s3, s4)
    requires ThreeAt(b, (x, y - 1)) ==> (x, y - 1) in s1
    requires ThreeAt(b, (x, y + 1)) ==> (x, y + 1) in s2
    requires ThreeAt(b, (x - 1, y)) ==> (x - 1, y) in s3
    requires ThreeAt(b, (x + 1, y)) ==> (x + 1, y) in s4
    requires Elems(o1) == s1 - s0 && Connected(o1) && (o1 != [] ==> o1[0] == (x, y - 1))
    requires Elems(o2) == s2 - s1 && Connected(o2) && (o2 != [] ==> o2[0] == (x, y + 1))
    requires Elems(o3) == s3 - s2 && Connected(o3) && (o3 != [] ==> o3[0] == (x - 1, y))
    requires Elems(o4) == s4 - s3 && Connected(o4) && (o4 != [] ==> o4[0] == (x + 1, y))
    ensures AllThree(b, s4 - visited) && Closed(b, s4 - visited, s4)
    ensures Elems([(x, y)] + o1 + o2 + o3 + o4) == s4 - visited && Connected([(x, y)] + o1 + o2 + o3 + o4)
  {
    JoinFill(b, visited, x, y, s0, s1, s2, s3, s4);
    FillOrder(x, y, o1, o2, o3, o4);
    FillSets(visited, s0, s1, s2, s3, s4, x, y, Elems([(x, y)] + o1 + o2 + o3 + o4), Elems(o1), Elems(o2), Elems(o3), Elems(o4));
  }

  /** One recursive step of the fill: descend into (x, y) when that box exists (the
      bounds tests before each recursive call). */
  method Neighbour(b: Board, x: int, y: int, visited: set<(int, int)>)
    returns (length: nat, seen: set<(int, int)>, ghost order: seq<(int, int)>)
    requires WellShaped(b) && OnBoard(b, visited)
    ensures visited <= seen && OnBoard(b, seen) && |seen| <= Height(b) * Width(b)
    ensures length == |seen| - |visited|
    ensures ThreeAt(b, (x, y)) ==> (x, y) in seen
    ensures AllThree(b, seen - visited) && Closed(b, seen - visited, seen)
    ensures Elems(order) == seen - visited && Connected(order)
    ensures order != [] ==> order[0] == (x, y)
    decreases Height(b) * Width(b) - |visited|, 3
  {
    OnBoardCard(b, visited);
    if IsBox(b, y, x) {
      length, seen, order := ChainLengthDfs(b, x, y, visited);
      OnBoardCard(b, seen);
    } else {
      length, seen, order := 0, visited, [];
    }
  }

  /** Every box of a run that starts at p and steps from box to neighbouring box lies in
      any set that holds p and is closed under |3| neighbours, when the run's boxes are
      |3| boxes. */
  lemma {:induction false} RunInside(b: Board, o: seq<(int, int)>, s: set<(int, int)>, i: nat)
    requires o != [] && o[0] in s && Connected(o) && AllThree(b, Elems(o)) && Closed(b, s, s)
    requires i < |o|
    ensures o[i] in s
    decreases i
  {
    if i > 0 {
      assert Borders(o, i, o[i]);
      var j :| 0 <= j < i && j < |o| && Orth(o[j], o[i]);
      RunInside(b, o, s, j);
      assert o[i] in Elems(o);
    }
  }

  /** The |3| component of a box is well defined: two connected runs of |3| boxes from the
      same start whose sets are each closed under |3| neighbours hold the same boxes. */
  lemma ComponentUnique(b: Board, o1: seq<(int, int)>, o2: seq<(int, int)>)
    requires o1 != [] && o2 != [] && o1[0] == o2[0]
    requires Connected(o1) && AllThree(b, Elems(o1)) && Closed(b, Elems(o1), Elems(o1))
    requires Connected(o2) && AllThree(b, Elems(o2)) && Closed(b, Elems(o2), Elems(o2))
    ensures Elems(o1) == Elems(o2)
  {
    forall i | 0 <= i < |o1|
      ensures o1[i] in Elems(o2)
    {
      RunInside(b, o1, Elems(o2), i);
    }
    forall i | 0 <= i < |o2|
      ensures o2[i] in Elems(o1)
    {
      RunInside(b, o2, Elems(o1), i);
    }
  }

  /** detect_chain_length: a fill from (x, y) with an empty visited set. The count is the
      number of boxes of the 4-connected |3| component of the start: the ghost component
      holds the start, its boxes are |3| boxes joined to the start through each other, and
      every |3| neighbour of one of them is in it (a set ComponentUnique shows to be unique).
      The count is zero exactly when the start box is not a |3| box. */
  method DetectChainLength(b: Board, x: int, y: int) returns (length: nat, ghost component: seq<(int, int)>)
    requires WellShaped(b) && IsBox(b, y, x)
    ensures length <= Height(b) * Width(b)
    ensures length == 0 <==> !ThreeAt(b, (x, y))
    ensures length == |Elems(component)|
    ensures ThreeAt(b, (x, y)) ==>
      component != [] && component[0] == (x, y) && Connected(component)
      && AllThree(b, Elems(component)) && Closed(b, Elems(component), Elems(component))
  {
    var seen;
    length, seen, component := ChainLengthDfs(b, x, y, {});
    assert ThreeAt(b, (x, y)) ==> (x, y) in seen;
    assert seen - {} == seen;
  }

  /* ---------------- check_common_line_between_boxes and is_chain_of_2s ---------------- */

  /** check_common_line_between_boxes as written: for boxes in one row it reads the vertical
      edge at the smaller column, for boxes in one column the horizontal edge at the smaller
      row, and it answers False for boxes that are not aligned or are the same box. */
  function CommonLineAsWritten(b: Board, y1: int, x1: int, y2: int, x2: int): (r: bool)
    requires WellShaped(b) && IsBox(b, y1, x1) && IsBox(b, y2, x2)
    ensures r ==> (y1 == y2 && x1 != x2) || (x1 == x2 && y1 != y2)
    ensures y1 == y2 && x1 != x2 ==> (r <==> b.colStatus[y1][if x1 < x2 then x1 else x2] == 1)
    ensures x1 == x2 && y1 != y2 ==> (r <==> b.rowStatus[if y1 < y2 then y1 else y2][x1] == 1)
  {
    if y1 == y2 then
      if x1 < x2 then b.colStatus[y1][x1] == 1
      else if x1 > x2 then b.colStatus[y1][x2] == 1
      else false
    else if x1 == x2 then
      if y1 < y2 then b.rowStatus[y1][x1] == 1
      else if y1 > y2 then b.rowStatus[y2][x1] == 1
      else false
    else false
  }

  /** The edge between two orthogonally adjacent boxes: the vertical edge to the right of
      the left box, or the horizontal edge below the upper box. */
  function SharedEdge(y1: int, x1: int, y2: int, x2: int): GameAction
  {
    if y1 == y2 then GameAction(Col, if x1 < x2 then x2 else x1, y1)
    else GameAction(Row, x1, if y1 < y2 then y2 else y1)
  }

  /** The edge SharedEdge names borders both boxes, and no other edge does. */
  lemma SharedEdgeSpec(y1: int, x1: int, y2: int, x2: int)
    requires Orth((x1, y1), (x2, y2))
    ensures Adjacent(SharedEdge(y1, x1, y2, x2), y1, x1) && Adjacent(SharedEdge(y1, x1, y2, x2), y2, x2)
    ensures forall a :: Adjacent(a, y1, x1) && Adjacent(a, y2, x2) ==> a == SharedEdge(y1, x1, y2, x2)
  {
  }

  /** The intended common-line test: the edge the two boxes share is taken. */
  function CommonLine(b: Board, y1: int, x1: int, y2: int, x2: int): (r: bool)
    requires WellShaped(b) && IsBox(b, y1, x1) && IsBox(b, y2, x2)
    ensures r ==> (y1 == y2 && x1 != x2) || (x1 == x2 && y1 != y2)
  {
    if (y1 == y2 && x1 != x2) || (x1 == x2 && y1 != y2) then
      var e := SharedEdge(y1, x1, y2, x2);
      assert InRange(b, e);
      EdgeValue(b, e) == 1
    else false
  }

  /** For neighbouring boxes the intended test reads exactly the edge both boxes border, and
      it is symmetric in the two boxes. */
  lemma CommonLineSpec(b: Board, y1: int, x1: int, y2: int, x2: int)
    requires WellShaped(b) && IsBox(b, y1, x1) && IsBox(b, y2, x2)
    ensures CommonLine(b, y1, x1, y2, x2) == CommonLine(b, y2, x2, y1, x1)
    ensures Orth((x1, y1), (x2, y2)) ==>
      (CommonLine(b, y1, x1, y2, x2) <==>
        exists a :: InRange(b, a) && Adjacent(a, y1, x1) && Adjacent(a, y2, x2) && EdgeValue(b, a) == 1)
  {
    if Orth((x1, y1), (x2, y2)) {
      SharedEdgeSpec(y1, x1, y2, x2);
      var e := SharedEdge(y1, x1, y2, x2);
      assert InRange(b, e);
      assert SharedEdge(y2, x2, y1, x1) == e;
    } else if (y1 == y2 && x1 != x2) || (x1 == x2 && y1 != y2) {
      assert SharedEdge(y2, x2, y1, x1) == SharedEdge(y1, x1, y2, x2);
    }
  }

  /** The as-written test is symmetric too. */
  lemma CommonLineAsWrittenSymmetric(b: Board, y1: int, x1: int, y2: int, x2: int)
    requires WellShaped(b) && IsBox(b, y1, x1) && IsBox(b, y2, x2)
    ensures CommonLineAsWritten(b, y1, x1, y2, x2) == CommonLineAsWritten(b, y2, x2, y1, x1)
  {
  }

  /** A two-box row (three dots wide, two dots high) whose only taken edge is the left border
      of the left box: the as-written test reports a common line although the edge between
      the boxes is free. */
  lemma CommonLineAsWrittenReadsOuterEdge()
    ensures var b := Board([[0, 0]], [[0, 0], [0, 0]], [[1, 0, 0]], true);
      && WellShaped(b) && IsBox(b, 0, 0) && IsBox(b, 0, 1)
      && CommonLineAsWritten(b, 0, 0, 0, 1)
      && !CommonLine(b, 0, 0, 0, 1)
      && !Adjacent(GameAction(Col, 0, 0), 0, 1)
  {
    var b := Board([[0, 0]], [[0, 0], [0, 0]], [[1, 0, 0]], true);
    assert WellShaped(b);
    assert SharedEdge(0, 0, 0, 1) == GameAction(Col, 1, 0);
  }

  /** is_chain_of_2s: box (y, x) has two taken sides and a common line with the box
      (prevY, prevX) the fill came from, by the test as written. */
  function ChainOf2s(b: Board, y: int, x: int, prevY: int, prevX: int): (r: bool)
    requires WellShaped(b) && IsBox(b, y, x) && IsBox(b, prevY, prevX)
    ensures r <==> Abs(b.boardStatus[y][x]) == 2 && CommonLineAsWritten(b, y, x, prevY, prevX)
    ensures r ==> (y == prevY && x != prevX) || (x == prevX && y != prevY)
  {
    Abs(b.boardStatus[y][x]) == 2 && CommonLineAsWritten(b, y, x, prevY, prevX)
  }

  /** From box p, a (y, x) pair, the fill of chain_len may go on to box q: q is an orthogonal
      neighbour on the board and is_chain_of_2s holds for q coming from p. */
  predicate Continues(b: Board, p: (int, int), q: (int, int))
  {
    WellShaped(b) && IsBox(b, p.0, p.1) && IsBox(b, q.0, q.1) && Orth(p, q) && ChainOf2s(b, q.0, q.1, p.0, p.1)
  }

  /** No box with three taken sides has a neighbour the fill continues into, so every fill
      of chain_len stops at its start. */
  ghost predicate NoChainFromThree(b: Board)
  {
    forall p, q :: Continues(b, p, q) ==> Abs(b.boardStatus[p.0][p.1]) != 3
  }

  /* ---------------- chain_len ---------------- */

  /** A visited matrix of h rows of w flags. */
  predicate IsMatrix(v: seq<seq<bool>>, h: nat, w: nat)
  {
    |v| == h && forall i :: 0 <= i < h ==> |v[i]| == w
  }

  /** The cells of a visited matrix that are set. */
  function Marked(v: seq<seq<bool>>): set<(int, int)>
  {
    set i, j | 0 <= i < |v| && 0 <= j < |v[i]| && v[i][j] :: (i, j)
  }

  lemma MarkedCard(v: seq<seq<bool>>, h: nat, w: nat)
    requires IsMatrix(v, h, w)
    ensures |Marked(v)| <= h * w
  {
    SubsetCard(Marked(v), Cells(h, w));
  }

  /** Setting one unset cell of a visited matrix marks exactly that cell more. */
  lemma MarkOne(v: seq<seq<bool>>, i: nat, j: nat)
    requires i < |v| && j < |v[i]| && !v[i][j]
    ensures Marked(v[i := v[i][j := true]]) == Marked(v) + {(i, j)}
    ensures |Marked(v[i := v[i][j := true]])| == |Marked(v)| + 1
  {
    assert Marked(v[i := v[i][j := true]]) == Marked(v) + {(i, j)};
  }


  /** The cells of a visited matrix that are set are the ones marked. */
  lemma MarkedHas(v: seq<seq<bool>>, i: int, j: int)
    requires 0 <= i < |v| && 0 <= j < |v[i]|
    ensures (i, j) in Marked(v) <==> v[i][j]
  {
  }

  /** The neighbours chain_len pushes from box (cy, cx): up, down, left and right, each when it
      exists, is not visited and continues a chain of 2s from (cy, cx). */
  function FillNeighbours(b: Board, visited: seq<seq<bool>>, cy: int, cx: int): (ns: seq<(int, int)>)
    requires WellShaped(b) && IsMatrix(visited, Height(b), Width(b)) && IsBox(b, cy, cx)
    ensures |ns| <= 4
    ensures forall k :: 0 <= k < |ns| ==>
      IsBox(b, ns[k].0, ns[k].1) && Abs(b.boardStatus[ns[k].0][ns[k].1]) == 2 && !visited[ns[k].0][ns[k].1]
  {
    (if cy > 0 && !visited[cy - 1][cx] && ChainOf2s(b, cy - 1, cx, cy, cx) then [(cy - 1, cx)] else [])
    + (if cy < Height(b) - 1 && !visited[cy + 1][cx] && ChainOf2s(b, cy + 1, cx, cy, cx) then [(cy + 1, cx)] else [])
    + (if cx > 0 && !visited[cy][cx - 1] && ChainOf2s(b, cy, cx - 1, cy, cx) then [(cy, cx - 1)] else [])
    + (if cx < Width(b) - 1 && !visited[cy][cx + 1] && ChainOf2s(b, cy, cx + 1, cy, cx) then [(cy, cx + 1)] else [])
  }

  /** The boxes FillNeighbours pushes are exactly the unvisited boxes the fill continues into
      from (cy, cx); every other box it continues into is already visited. */
  lemma FillNeighboursSpec(b: Board, visited: seq<seq<bool>>, cy: int, cx: int)
    requires WellShaped(b) && IsMatrix(visited, Height(b), Width(b)) && IsBox(b, cy, cx)
    ensures forall q :: q in FillNeighbours(b, visited, cy, cx) <==> Continues(b, (cy, cx), q) && !visited[q.0][q.1]
    ensures forall q :: Continues(b, (cy, cx), q) ==> q in Marked(visited) || q in FillNeighbours(b, visited, cy, cx)
  {
    var ns := FillNeighbours(b, visited, cy, cx);
    forall q
      ensures q in ns <==> Continues(b, (cy, cx), q) && !visited[q.0][q.1]
      ensures Continues(b, (cy, cx), q) ==> q in Marked(visited) || q in ns
    {
      if Continues(b, (cy, cx), q) {
        MarkedHas(visited, q.0, q.1);
      }
    }
  }

  /** Every box of s is the start box (y, x) or an existing box with two taken sides. */
  predicate ChainBoxes(b: Board, s: set<(int, int)>, y: int, x: int)
  {
    WellShaped(b) && forall p :: p in s ==> p == (y, x) || (IsBox(b, p.0, p.1) && Abs(b.boardStatus[p.0][p.1]) == 2)
  }

  /** Every stacked box exists and is the start box or has two taken sides. */
  predicate StackBoxes(b: Board, stack: seq<(int, int)>, y: int, x: int)
  {
    WellShaped(b) && forall k :: 0 <= k < |stack| ==>
      IsBox(b, stack[k].0, stack[k].1) && (stack[k] == (y, x) || Abs(b.boardStatus[stack[k].0][stack[k].1]) == 2)
  }

  lemma PopBoxes(b: Board, stack: seq<(int, int)>, y: int, x: int)
    requires StackBoxes(b, stack, y, x) && stack != []
    ensures StackBoxes(b, stack[..|stack| - 1], y, x)
    ensures IsBox(b, stack[|stack| - 1].0, stack[|stack| - 1].1)
    ensures stack[|stack| - 1] == (y, x) || Abs(b.boardStatus[stack[|stack| - 1].0][stack[|stack| - 1].1]) == 2
  {
  }

  lemma PushBoxes(b: Board, stack: seq<(int, int)>, ns: seq<(int, int)>, y: int, x: int)
    requires StackBoxes(b, stack, y, x) && WellShaped(b)
    requires forall k :: 0 <= k < |ns| ==> IsBox(b, ns[k].0, ns[k].1) && Abs(b.boardStatus[ns[k].0][ns[k].1]) == 2
    ensures StackBoxes(b, stack + ns, y, x)
  {
    forall k | 0 <= k < |stack + ns|
      ensures IsBox(b, (stack + ns)[k].0, (stack + ns)[k].1)
      ensures (stack + ns)[k] == (y, x) || Abs(b.boardStatus[(stack + ns)[k].0][(stack + ns)[k].1]) == 2
    {
      if k >= |stack| {
        assert (stack + ns)[k] == ns[k - |stack|];
      }
    }
  }


  /** Box q continues the fill from one of the first k boxes of s. */
  ghost predicate Follows(b: Board, s: seq<(int, int)>, k: int, q: (int, int))
  {
    exists j :: 0 <= j < k && j < |s| && Continues(b, s[j], q)
  }

  /** Every box of s after the first continues the fill from an earlier one. */
  ghost predicate ChainRun(b: Board, s: seq<(int, int)>)
  {
    forall i {:trigger Follows(b, s, i, s[i])} :: 0 < i < |s| ==> Follows(b, s, i, s[i])
  }

  /** Marking the popped box cur extends the visit order; the boxes left on the stack and
      the ones pushed from cur all continue the fill from the extended order. */
  lemma MarkStep(b: Board, order: seq<(int, int)>, rest: seq<(int, int)>, cur: (int, int),
                 ns: seq<(int, int)>, y: int, x: int, popped: bool)
    requires ChainRun(b, order) && (order != [] ==> order[0] == (y, x))
    requires popped ==> Follows(b, order, |order|, cur) && forall k :: 0 <= k < |rest| ==> Follows(b, order, |order|, rest[k])
    requires !popped ==> order == [] && cur == (y, x) && rest == []
    requires forall q :: q in ns ==> Continues(b, cur, q)
    ensures ChainRun(b, order + [cur]) && (order + [cur])[0] == (y, x)
    ensures forall k :: 0 <= k < |rest + ns| ==> Follows(b, order + [cur], |order| + 1, (rest + ns)[k])
  {
    var o := order + [cur];
    forall i | 0 < i < |o|
      ensures Follows(b, o, i, o[i])
    {
      if i < |order| {
        assert Follows(b, order, i, order[i]);
        var j :| 0 <= j < i && j < |order| && Continues(b, order[j], order[i]);
        assert o[j] == order[j];
      } else {
        var j :| 0 <= j < |order| && Continues(b, order[j], cur);
        assert o[j] == order[j];
      }
    }
    forall k | 0 <= k < |rest + ns|
      ensures Follows(b, o, |order| + 1, (rest + ns)[k])
    {
      if k < |rest| {
        assert (rest + ns)[k] == rest[k];
        var j :| 0 <= j < |order| && Continues(b, order[j], rest[k]);
        assert o[j] == order[j];
      } else {
        assert (rest + ns)[k] == ns[k - |rest|];
        assert o[|order|] == cur;
      }
    }
  }

  /** Marking cur keeps the closure: what the fill continues into from a visited box of the
      order is marked or still on the stack. */
  lemma CloseStep(b: Board, order: seq<(int, int)>, rest: seq<(int, int)>, cur: (int, int),
                  ns: seq<(int, int)>, m: set<(int, int)>, m': set<(int, int)>)
    requires m' == m + {cur}
    requires forall p, q :: p in Elems(order) && Continues(b, p, q) ==> q in m || q in rest + [cur]
    requires forall q :: Continues(b, cur, q) ==> q in m' || q in ns
    ensures forall p, q :: p in Elems(order + [cur]) && Continues(b, p, q) ==> q in m' || q in rest + ns
  {
    ElemsConcat(order, [cur]);
    assert Elems([cur]) == {cur};
  }

  /** Skipping a popped box that is already marked keeps the closure. */
  lemma SkipStep(b: Board, order: seq<(int, int)>, rest: seq<(int, int)>, cur: (int, int), m: set<(int, int)>)
    requires cur in m
    requires forall p, q :: p in Elems(order) && Continues(b, p, q) ==> q in m || q in rest + [cur]
    ensures forall p, q :: p in Elems(order) && Continues(b, p, q) ==> q in m || q in rest
  {
  }

  /** A visit order whose start has no continuation holds the start alone. */
  lemma LoneStart(b: Board, order: seq<(int, int)>, p: (int, int))
    requires ChainRun(b, order) && order != [] && order[0] == p
    requires forall q :: !Continues(b, p, q)
    ensures order == [p]
  {
    assert |order| > 1 ==> Follows(b, order, 1, order[1]);
    assert |order| == 1;
    assert order == [order[0]];
  }

  /** The counting facts the dfs of chain_len keeps between pops, over the cells V visited
      before it and the cells M visited so far: the stack holds boxes, the count is the
      number of newly visited cells, the start is visited once popped (unless it was visited
      before, in which case nothing is), and every newly visited box is the start or a +-2
      box. */
  ghost predicate DfsCount(b: Board, y: int, x: int, V: set<(int, int)>, M: set<(int, int)>,
                           stack: seq<(int, int)>, popped: bool, chainLength: int)
  {
    && WellShaped(b) && IsBox(b, y, x)
    && StackBoxes(b, stack, y, x)
    && V <= M && |M| <= Height(b) * Width(b)
    && chainLength == |M| - |V|
    && (!popped ==> stack == [(y, x)] && M == V)
    && (popped && (y, x) in V ==> stack == [] && M == V)
    && (popped && (y, x) !in V ==> (y, x) in M && chainLength >= 1)
    && ChainBoxes(b, M - V, y, x)
  }

  /** The connection facts the dfs keeps between pops: the newly visited boxes are the visit
      order, each box of the order after the start and each stacked box (once the start is
      popped) continues the fill from an earlier box of the order, and whatever the fill
      continues into from a box of the order is visited or still stacked. */
  ghost predicate DfsOrder(b: Board, y: int, x: int, V: set<(int, int)>, M: set<(int, int)>,
                           stack: seq<(int, int)>, order: seq<(int, int)>, popped: bool)
  {
    && Elems(order) == M - V && ChainRun(b, order)
    && (order != [] ==> order[0] == (y, x))
    && (!popped ==> order == [])
    && (popped ==> forall k :: 0 <= k < |stack| ==> Follows(b, order, |order|, stack[k]))
    && (forall p, q :: p in Elems(order) && Continues(b, p, q) ==> q in M || q in stack)
  }

  /** Popping a box that is already visited keeps the dfs facts. */
  lemma DfsSkip(b: Board, y: int, x: int, V: set<(int, int)>, M: set<(int, int)>,
                stack: seq<(int, int)>, order: seq<(int, int)>, popped: bool, chainLength: int)
    requires DfsCount(b, y, x, V, M, stack, popped, chainLength) && stack != []
    requires DfsOrder(b, y, x, V, M, stack, order, popped)
    requires stack[|stack| - 1] in M
    ensures DfsCount(b, y, x, V, M, stack[..|stack| - 1], true, chainLength)
    ensures DfsOrder(b, y, x, V, M, stack[..|stack| - 1], order, true)
  {
    var cur := stack[|stack| - 1];
    var rest := stack[..|stack| - 1];
    assert stack == rest + [cur];
    PopBoxes(b, stack, y, x);
    SkipStep(b, order, rest, cur, M);
    if popped {
      forall k | 0 <= k < |rest|
        ensures Follows(b, order, |order|, rest[k])
      {
        assert rest[k] == stack[k];
      }
    }
  }

  /** Popping an unvisited box, visiting it (M') and pushing the +-2 boxes ns keeps the
      counting facts. */
  lemma DfsMarkCount(b: Board, y: int, x: int, V: set<(int, int)>, M: set<(int, int)>, M': set<(int, int)>,
                     stack: seq<(int, int)>, popped: bool, chainLength: int, ns: seq<(int, int)>)
    requires DfsCount(b, y, x, V, M, stack, popped, chainLength) && stack != []
    requires stack[|stack| - 1] !in M && M' == M + {stack[|stack| - 1]} && |M'| <= Height(b) * Width(b)
    requires forall k :: 0 <= k < |ns| ==> IsBox(b, ns[k].0, ns[k].1) && Abs(b.boardStatus[ns[k].0][ns[k].1]) == 2
    ensures DfsCount(b, y, x, V, M', stack[..|stack| - 1] + ns, true, chainLength + 1)
  {
    var cur := stack[|stack| - 1];
    var rest := stack[..|stack| - 1];
    PopBoxes(b, stack, y, x);
    PushBoxes(b, rest, ns, y, x);
    assert M' - V == M - V + {cur};
  }

  /** Popping an unvisited box cur, visiting it (M'), appending it to the order and pushing
      the boxes ns the fill continues into from cur and that M' leaves out keeps the
      connection facts. */
  lemma DfsMarkOrder(b: Board, y: int, x: int, V: set<(int, int)>, M: set<(int, int)>, M': set<(int, int)>,
                     stack: seq<(int, int)>, order: seq<(int, int)>, popped: bool, ns: seq<(int, int)>)
    requires stack != [] && (!popped ==> stack == [(y, x)]) && V <= M
    requires DfsOrder(b, y, x, V, M, stack, order, popped)
    requires stack[|stack| - 1] !in M && M' == M + {stack[|stack| - 1]}
    requires forall q :: q in ns ==> Continues(b, stack[|stack| - 1], q)
    requires forall q :: Continues(b, stack[|stack| - 1], q) ==> q in M' || q in ns
    ensures DfsOrder(b, y, x, V, M', stack[..|stack| - 1] + ns, order + [stack[|stack| - 1]], true)
  {
    var cur := stack[|stack| - 1];
    var rest := stack[..|stack| - 1];
    assert stack == rest + [cur];
    if popped {
      forall k | 0 <= k < |rest|
        ensures Follows(b, order, |order|, rest[k])
      {
        assert rest[k] == stack[k];
      }
    }
    MarkStep(b, order, rest, cur, ns, y, x, popped);
    CloseStep(b, order, rest, cur, ns, M, M');
    ElemsConcat(order, [cur]);
    assert Elems([cur]) == {cur};
  }

  /** One visit of the dfs of chain_len: the popped box (cy, cx), unvisited, is marked and
      counted, and its FillNeighbours are pushed. */
  method DfsVisit(b: Board, visited: seq<seq<bool>>, y: int, x: int, stack: seq<(int, int)>,
                  marked: seq<seq<bool>>, chainLength: nat, ghost order: seq<(int, int)>, ghost popped: bool)
    returns (stack': seq<(int, int)>, marked': seq<seq<bool>>, chainLength': nat, ghost order': seq<(int, int)>)
    requires IsMatrix(visited, Height(b), Width(b)) && IsMatrix(marked, Height(b), Width(b))
    requires DfsCount(b, y, x, Marked(visited), Marked(marked), stack, popped, chainLength)
    requires DfsOrder(b, y, x, Marked(visited), Marked(marked), stack, order, popped)
    requires !popped ==> marked == visited
    requires popped && visited[y][x] ==> marked == visited
    requires stack != [] && stack[|stack| - 1] !in Marked(marked)
    ensures IsMatrix(marked', Height(b), Width(b)) && !visited[y][x]
    ensures |Marked(marked')| == |Marked(marked)| + 1
    ensures DfsCount(b, y, x, Marked(visited), Marked(marked'), stack', true, chainLength')
    ensures DfsOrder(b, y, x, Marked(visited), Marked(marked'), stack', order', true)
  {
    var cur := stack[|stack| - 1];
    PopBoxes(b, stack, y, x);
    var cy, cx := cur.0, cur.1;
    MarkedHas(marked, cy, cx);
    MarkedHas(visited, y, x);
    marked' := marked[cy := marked[cy][cx := true]];
    MarkOne(marked, cy, cx);
    MarkedCard(marked', Height(b), Width(b));
    var neighbors := FillNeighbours(b, marked', cy, cx);
    FillNeighboursSpec(b, marked', cy, cx);
    DfsMarkCount(b, y, x, Marked(visited), Marked(marked), Marked(marked'), stack, popped, chainLength, neighbors);
    DfsMarkOrder(b, y, x, Marked(visited), Marked(marked), Marked(marked'), stack, order, popped, neighbors);
    chainLength' := chainLength + 1;
    stack' := stack[..|stack| - 1] + neighbors;
    order' := order + [cur];
  }

  /** The nested dfs of chain_len: an explicit stack, starting from box (y, x); a popped box
      already visited is skipped, otherwise it is marked, counted, and its unvisited
      neighbours that continue a chain of 2s are pushed (up, down, left, right). The newly
      marked boxes, in the order they are marked, start at (y, x) and each continues the
      fill from an earlier one; every box the fill continues into from one of them ends up
      marked. */
  method ChainDfs(b: Board, visited: seq<seq<bool>>, y: int, x: int)
    returns (chainLength: nat, marked: seq<seq<bool>>, ghost order: seq<(int, int)>)
    requires WellShaped(b) && IsMatrix(visited, Height(b), Width(b)) && IsBox(b, y, x)
    ensures IsMatrix(marked, Height(b), Width(b))
    ensures Marked(visited) <= Marked(marked)
    ensures chainLength == |Marked(marked)| - |Marked(visited)|
    ensures visited[y][x] ==> chainLength == 0 && marked == visited
    ensures !visited[y][x] ==> chainLength >= 1 && (y, x) in Marked(marked)
    ensures ChainBoxes(b, Marked(marked) - Marked(visited), y, x)
    ensures Elems(order) == Marked(marked) - Marked(visited) && ChainRun(b, order)
    ensures order != [] ==> order[0] == (y, x)
    ensures forall p, q :: p in Marked(marked) - Marked(visited) && Continues(b, p, q) ==> q in Marked(marked)
  {
    var stack := [(y, x)];
    chainLength := 0;
    marked := visited;
    order := [];
    MarkedCard(marked, Height(b), Width(b));
    MarkedHas(visited, y, x);
    assert Elems(order) == {};
    ghost var popped := false;
    while stack != []
      invariant IsMatrix(marked, Height(b), Width(b))
      invariant !popped ==> marked == visited
      invariant popped && visited[y][x] ==> marked == visited
      invariant DfsCount(b, y, x, Marked(visited), Marked(marked), stack, popped, chainLength)
      invariant DfsOrder(b, y, x, Marked(visited), Marked(marked), stack, order, popped)
      decreases Height(b) * Width(b) - |Marked(marked)|, |stack|
    {
      var cur := stack[|stack| - 1];
      PopBoxes(b, stack, y, x);
      MarkedHas(marked, cur.0, cur.1);
      if marked[cur.0][cur.1] {
        DfsSkip(b, y, x, Marked(visited), Marked(marked), stack, order, popped, chainLength);
        stack := stack[..|stack| - 1];
      } else {
        stack, marked, chainLength, order := DfsVisit(b, visited, y, x, stack, marked, chainLength, order, popped);
      }
      popped := true;
    }
  }

  /** Boxes before (y, x) in row-major order. */
  predicate NoThreesBefore(b: Board, y: int, x: int)
  {
    forall i, j :: 0 <= i < |b.boardStatus| && 0 <= j < |b.boardStatus[i]| && !After(i, j, y, x - 1) ==>
      Abs(b.boardStatus[i][j]) != 3
  }

  /** Every cell of s is a box with three taken sides. */
  predicate ThreeCells(b: Board, s: set<(int, int)>)
  {
    WellShaped(b) && forall c :: c in s ==> IsBox(b, c.0, c.1) && Abs(b.boardStatus[c.0][c.1]) == 3
  }

  /** Every box of s with three taken sides lies before (y, x) in row-major order. */
  predicate ThreesBefore(b: Board, s: set<(int, int)>, y: int, x: int)
  {
    WellShaped(b) && forall c :: c in s && IsBox(b, c.0, c.1) && Abs(b.boardStatus[c.0][c.1]) == 3 ==> !After(c.0, c.1, y, x - 1)
  }

  /** No box with three taken sides before (y, x) has a neighbour the fill continues into. */
  ghost predicate NoChainBefore(b: Board, y: int, x: int)
  {
    forall p, q :: Continues(b, p, q) && !After(p.0, p.1, y, x - 1) ==> Abs(b.boardStatus[p.0][p.1]) != 3
  }

  /** The facts the scan of chain_len keeps at position (y, x), over the set S of visited
      cells: the longest count is at most |S| and is 0 exactly while no |3| box has been
      passed, the visited |3| boxes lie before (y, x), a longest count below 2 leaves only |3|
      boxes visited and no |3| box before (y, x) with a continuation, and without any chain
      from a |3| box the longest count stays at most 1. */
  ghost predicate ScanInv(b: Board, S: set<(int, int)>, y: int, x: int, longest: int)
  {
    && WellShaped(b)
    && 0 <= longest <= |S| <= Height(b) * Width(b)
    && (longest == 0 ==> S == {})
    && (longest == 0 <==> NoThreesBefore(b, y, x))
    && ThreesBefore(b, S, y, x)
    && (longest < 2 ==> ThreeCells(b, S) && NoChainBefore(b, y, x))
    && (NoChainFromThree(b) ==> longest <= 1)
  }

  /** A set of at most one element that holds a holds nothing else. */
  lemma Single<T>(s: set<T>, a: T)
    requires a in s && |s| <= 1
    ensures s == {a}
  {
    if s != {a} {
      var c :| c in s && c != a;
      SubsetCard({a, c}, s);
    }
  }

  /** A fill from (y, x) that visits only (y, x), after visits of |3| boxes only, leaves the
      start without a continuation. */
  lemma FillAlone(b: Board, S: set<(int, int)>, S': set<(int, int)>, y: int, x: int)
    requires WellShaped(b) && IsBox(b, y, x)
    requires S' == S + {(y, x)}
    requires ThreeCells(b, S) && Abs(b.boardStatus[y][x]) == 3
    requires forall q :: Continues(b, (y, x), q) ==> q in S'
    ensures ThreeCells(b, S')
    ensures forall q :: !Continues(b, (y, x), q)
  {
  }

  /** The facts a fill of chain_len from the unvisited |3| box (y, x) establishes, over the
      cells S visited before it and S' after it. */
  ghost predicate FillResult(b: Board, S: set<(int, int)>, S': set<(int, int)>, order: seq<(int, int)>,
                             y: int, x: int, chainLength: int)
  {
    && S <= S' && |S'| <= Height(b) * Width(b)
    && chainLength == |S'| - |S| && chainLength >= 1 && (y, x) in S'
    && ChainBoxes(b, S' - S, y, x)
    && Elems(order) == S' - S && ChainRun(b, order)
    && order != [] && order[0] == (y, x)
    && (forall p, q :: p in S' - S && Continues(b, p, q) ==> q in S')
  }

  /** After a fill the longest count is still bounded by the visited cells and is not 0. */
  lemma ScanFillCount(b: Board, S: set<(int, int)>, S': set<(int, int)>, order: seq<(int, int)>,
                      y: int, x: int, longest: int, chainLength: int, l: int)
    requires ScanInv(b, S, y, x, longest) && IsBox(b, y, x) && Abs(b.boardStatus[y][x]) == 3
    requires FillResult(b, S, S', order, y, x, chainLength)
    requires l == if longest < chainLength then chainLength else longest
    ensures 0 <= l <= |S'| <= Height(b) * Width(b)
    ensures l != 0 && !NoThreesBefore(b, y, x + 1)
  {
    SubsetCard(S, S');
  }

  /** After a fill from (y, x) the visited |3| boxes lie before (y, x + 1). */
  lemma ScanFillThrees(b: Board, S: set<(int, int)>, S': set<(int, int)>, order: seq<(int, int)>,
                       y: int, x: int, longest: int, chainLength: int)
    requires ScanInv(b, S, y, x, longest) && IsBox(b, y, x)
    requires FillResult(b, S, S', order, y, x, chainLength)
    ensures ThreesBefore(b, S', y, x + 1)
  {
    forall c | c in S' && IsBox(b, c.0, c.1) && Abs(b.boardStatus[c.0][c.1]) == 3
      ensures !After(c.0, c.1, y, x)
    {
      if c !in S {
        assert c in S' - S;
      }
    }
  }

  /** A fill that leaves the longest count below 2 visits only its start, and the start has
      no continuation. */
  lemma ScanFillShort(b: Board, S: set<(int, int)>, S': set<(int, int)>, order: seq<(int, int)>,
                      y: int, x: int, longest: int, chainLength: int)
    requires ScanInv(b, S, y, x, longest) && IsBox(b, y, x) && Abs(b.boardStatus[y][x]) == 3
    requires FillResult(b, S, S', order, y, x, chainLength)
    requires longest < 2 && chainLength < 2
    ensures ThreeCells(b, S') && NoChainBefore(b, y, x + 1)
  {
    Single(S' - S, (y, x));
    assert S' == S + {(y, x)};
    FillAlone(b, S, S', y, x);
    assert forall p, q :: Continues(b, p, q) && !After(p.0, p.1, y, x) ==> Abs(b.boardStatus[p.0][p.1]) != 3;
  }

  /** Without any chain from a |3| box a fill counts its start alone. */
  lemma ScanFillLone(b: Board, S: set<(int, int)>, S': set<(int, int)>, order: seq<(int, int)>,
                     y: int, x: int, chainLength: int)
    requires WellShaped(b) && IsBox(b, y, x) && Abs(b.boardStatus[y][x]) == 3
    requires FillResult(b, S, S', order, y, x, chainLength)
    requires NoChainFromThree(b)
    ensures chainLength == 1
  {
    LoneStart(b, order, (y, x));
    assert Elems(order) == {(y, x)};
    assert S' == S + (S' - S) && S * (S' - S) == {};
  }

  /** One fill of chain_len, from the unvisited |3| box (y, x), keeps the scan's facts. */
  lemma ScanFill(b: Board, S: set<(int, int)>, S': set<(int, int)>, order: seq<(int, int)>,
                 y: int, x: int, longest: int, chainLength: int)
    requires ScanInv(b, S, y, x, longest)
    requires IsBox(b, y, x) && Abs(b.boardStatus[y][x]) == 3
    requires FillResult(b, S, S', order, y, x, chainLength)
    ensures ScanInv(b, S', y, x + 1, if longest < chainLength then chainLength else longest)
  {
    var l := if longest < chainLength then chainLength else longest;
    ScanFillCount(b, S, S', order, y, x, longest, chainLength, l);
    ScanFillThrees(b, S, S', order, y, x, longest, chainLength);
    if l < 2 {
      ScanFillShort(b, S, S', order, y, x, longest, chainLength);
    }
    if NoChainFromThree(b) {
      ScanFillLone(b, S, S', order, y, x, chainLength);
    }
  }

  /** The body of chain_len's scan at an unvisited |3| box: fill from it and keep the larger
      count. */
  method ScanBox(b: Board, visited: seq<seq<bool>>, y: int, x: int, longest: nat)
    returns (visited': seq<seq<bool>>, longest': nat)
    requires WellShaped(b) && IsMatrix(visited, Height(b), Width(b)) && ScanInv(b, Marked(visited), y, x, longest)
    requires IsBox(b, y, x) && !visited[y][x] && Abs(b.boardStatus[y][x]) == 3
    ensures IsMatrix(visited', Height(b), Width(b)) && ScanInv(b, Marked(visited'), y, x + 1, longest')
  {
    var chainLength, v, order := ChainDfs(b, visited, y, x);
    MarkedCard(v, Height(b), Width(b));
    assert FillResult(b, Marked(visited), Marked(v), order, y, x, chainLength);
    ScanFill(b, Marked(visited), Marked(v), order, y, x, longest, chainLength);
    visited' := v;
    longest' := if longest < chainLength then chainLength else longest;
  }

  /** Passing a box that is visited or not at +-3 keeps the scan's facts. */
  lemma ScanSkip(b: Board, S: set<(int, int)>, y: int, x: int, longest: int)
    requires ScanInv(b, S, y, x, longest) && IsBox(b, y, x)
    requires (y, x) in S || Abs(b.boardStatus[y][x]) != 3
    ensures ScanInv(b, S, y, x + 1, longest)
  {
    assert Abs(b.boardStatus[y][x]) != 3;
  }

  /** The end of a row of the scan is the start of the next. */
  lemma ScanRow(b: Board, S: set<(int, int)>, y: int, longest: int)
    requires ScanInv(b, S, y, Width(b), longest)
    ensures ScanInv(b, S, y + 1, 0, longest)
  {
  }

  /** After the last row the scan's facts give chain_len's contract. */
  lemma ScanDone(b: Board, S: set<(int, int)>, longest: int)
    requires ScanInv(b, S, Height(b), 0, longest)
    ensures longest == 0 <==> NoThrees(b)
    ensures longest == 1 <==> !NoThrees(b) && NoChainFromThree(b)
    ensures longest <= Height(b) * Width(b)
  {
  }

  /** One row y of chain_len's scan: a fill from every unvisited |3| box of the row, left
      to right, keeping the longest count. */
  method ScanRowBoxes(b: Board, visited: seq<seq<bool>>, y: int, longest: nat)
    returns (visited': seq<seq<bool>>, longest': nat)
    requires WellShaped(b) && 0 <= y < Height(b) && IsMatrix(visited, Height(b), Width(b))
    requires ScanInv(b, Marked(visited), y, 0, longest)
    ensures IsMatrix(visited', Height(b), Width(b)) && ScanInv(b, Marked(visited'), y + 1, 0, longest')
  {
    visited', longest' := visited, longest;
    var x := 0;
    while x < Width(b)
      invariant 0 <= x <= Width(b)
      invariant IsMatrix(visited', Height(b), Width(b))
      invariant ScanInv(b, Marked(visited'), y, x, longest')
    {
      if !visited'[y][x] && Abs(b.boardStatus[y][x]) == 3 {
        visited', longest' := ScanBox(b, visited', y, x, longest');
      } else {
        MarkedHas(visited', y, x);
        ScanSkip(b, Marked(visited'), y, x, longest');
      }
      x := x + 1;
    }
    ScanRow(b, Marked(visited'), y, longest');
  }

  /** chain_len: start a fill at every unvisited |3| box in row-major order and keep the
      longest count. The start_box argument does not take part. The result is 0 exactly
      when no box has three taken sides, 1 exactly when some box does and no fill goes
      beyond its start, and never more than the number of boxes. */
  method ChainLen(b: Board, startBox: int) returns (longest: nat)
    requires WellShaped(b)
    ensures longest == 0 <==> NoThrees(b)
    ensures longest == 1 <==> !NoThrees(b) && NoChainFromThree(b)
    ensures longest <= Height(b) * Width(b)
  {
    var rows, cols := Height(b), Width(b);
    var visited := seq(rows, _ => seq(cols, _ => false));
    assert Marked(visited) == {};
    longest := 0;
    var y := 0;
    while y < rows
      invariant 0 <= y <= rows
      invariant IsMatrix(visited, rows, cols)
      invariant ScanInv(b, Marked(visited), y, 0, longest)
    {
      visited, longest := ScanRowBoxes(b, visited, y, longest);
      y := y + 1;
    }
    ScanDone(b, Marked(visited), longest);
  }

  /* ---------------- backCross ---------------- */

  /** backCross: 1000 when chain_len reports 1 (some box has three taken sides and no fill
      goes beyond its start) and no box has one taken side; otherwise the score difference
      (boxes at 4 minus boxes at -4). */
  method BackCross(b: Board) returns (score: int)
    requires WellShaped(b)
    ensures score == (if Endgame(b) && !NoThrees(b) && NoChainFromThree(b) then 1000 else Material(b))
  {
    score := Material(b);
    var chainLengthScore := ChainLen(b, 3);
    var threes := ChainLen(b, 3);
    if threes == 1 {
      var twos := ChainLen(b, 2);
      if twos >= 1 {
        var endgame := IsEndgame(b);
        if endgame {
          score := 1000;
        }
      }
    }
  }

  /** A 2 x 2 board on which the |3| box (0, 0) continues into the |2| box (0, 1) only
      through the as-written common-line test (it reads the taken left border), while the
      edge the two boxes share is free: chain_len exceeds 1 there and backCross gives the
      score difference, where the shared-edge test would give 1 and 1000. */
  lemma ChainThroughOuterEdge()
    ensures var b := Board([[3, 2], [3, 0]], [[1, 1], [1, 0], [1, 0]], [[1, 0, 1], [1, 0, 0]], true);
      && WellShaped(b) && Endgame(b) && !NoThrees(b)
      && Continues(b, (0, 0), (0, 1)) && !NoChainFromThree(b)
      && !CommonLine(b, 0, 1, 0, 0)
  {
    var b := Board([[3, 2], [3, 0]], [[1, 1], [1, 0], [1, 0]], [[1, 0, 1], [1, 0, 0]], true);
    assert WellShaped(b);
    assert Abs(b.boardStatus[0][0]) == 3;
    assert Continues(b, (0, 0), (0, 1));
    assert SharedEdge(0, 1, 0, 0) == GameAction(Col, 1, 0);
  }
}
