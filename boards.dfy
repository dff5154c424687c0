/** Board values shared by every part of the engine: the move record, the board snapshot
    (three integer grids and the side to move), and the questions every component asks of
    a board (which edges are free, which boxes are complete, who is ahead). */
module Boards {

  datatype Option<T> = None | Some(value: T)

  /** "row" draws a horizontal line, "col" a vertical one. */
  datatype Kind = Row | Col

  /** One edge claim at grid position (x, y), both zero-based. */
  datatype GameAction = GameAction(kind: Kind, x: int, y: int)

  type Grid = seq<seq<int>>

  /** The board of a game on an (h+1) x (w+1) dot grid, every grid indexed [y][x]:
      boardStatus holds the h x w boxes, rowStatus the (h+1) x w horizontal edges and
      colStatus the h x (w+1) vertical edges (1 = taken, 0 = free). */
  datatype Board = Board(boardStatus: Grid, rowStatus: Grid, colStatus: Grid, player1Turn: bool)

  function Abs(v: int): nat { if v < 0 then -v else v }

  predicate IsGrid(g: Grid, h: nat, w: nat)
  {
    |g| == h && forall i :: 0 <= i < h ==> |g[i]| == w
  }

  function Height(b: Board): nat { |b.boardStatus| }

  function Width(b: Board): nat { if |b.rowStatus| == 0 then 0 else |b.rowStatus[0]| }

  /** The three grids have the shapes of one board. */
  predicate WellShaped(b: Board)
  {
    && IsGrid(b.boardStatus, Height(b), Width(b))
    && IsGrid(b.rowStatus, Height(b) + 1, Width(b))
    && IsGrid(b.colStatus, Height(b), Width(b) + 1)
  }

  predicate Binary(g: Grid)
  {
    forall i, j :: 0 <= i < |g| && 0 <= j < |g[i]| ==> g[i][j] == 0 || g[i][j] == 1
  }

  /** A board every component can work on: the right shapes, and every edge 0 or 1. */
  predicate Valid(b: Board)
  {
    WellShaped(b) && Binary(b.rowStatus) && Binary(b.colStatus)
  }

  predicate IsBox(b: Board, i: int, j: int)
  {
    0 <= i < Height(b) && 0 <= j < Width(b)
  }

  /** The action names an edge of the board. */
  predicate InRange(b: Board, a: GameAction)
  {
    match a.kind
    case Row => 0 <= a.y < |b.rowStatus| && 0 <= a.x < |b.rowStatus[a.y]|
    case Col => 0 <= a.y < |b.colStatus| && 0 <= a.x < |b.colStatus[a.y]|
  }

  function EdgeValue(b: Board, a: GameAction): int
    requires InRange(b, a)
  {
    match a.kind
    case Row => b.rowStatus[a.y][a.x]
    case Col => b.colStatus[a.y][a.x]
  }

  predicate Unclaimed(b: Board, a: GameAction)
  {
    InRange(b, a) && EdgeValue(b, a) == 0
  }

  function SetCell(g: Grid, i: nat, j: nat, v: int): (r: Grid)
    requires i < |g| && j < |g[i]|
    ensures |r| == |g|
  {
    g[i := g[i][j := v]]
  }

  /** The board with the named edge set to 1 and nothing else changed. */
  function Claim(b: Board, a: GameAction): Board
    requires InRange(b, a)
  {
    match a.kind
    case Row => b.(rowStatus := SetCell(b.rowStatus, a.y, a.x, 1))
    case Col => b.(colStatus := SetCell(b.colStatus, a.y, a.x, 1))
  }

  /** Box (i, j) (row i, column j) is one of the boxes the edge borders. */
  predicate Adjacent(a: GameAction, i: int, j: int)
  {
    match a.kind
    case Row => j == a.x && (i == a.y || i == a.y - 1)
    case Col => i == a.y && (j == a.x || j == a.x - 1)
  }

  /** The boxes of the board that the edge borders. */
  function AdjacentBoxes(b: Board, a: GameAction): set<(int, int)>
  {
    set i, j | 0 <= i < Height(b) && 0 <= j < Width(b) && Adjacent(a, i, j) :: (i, j)
  }

  lemma {:induction false} AdjacentCount(b: Board, a: GameAction)
    requires WellShaped(b) && InRange(b, a) && Height(b) >= 1 && Width(b) >= 1
    ensures a.kind == Row ==>
      |AdjacentBoxes(b, a)| == (if a.y == 0 || a.y == Height(b) then 1 else 2)
    ensures a.kind == Col ==>
      |AdjacentBoxes(b, a)| == (if a.x == 0 || a.x == Width(b) then 1 else 2)
  {
    var s := AdjacentBoxes(b, a);
    if a.kind == Row {
      if a.y == 0 {
        assert s == {(0, a.x)};
      } else if a.y == Height(b) {
        assert s == {(a.y - 1, a.x)};
      } else {
        assert s == {(a.y, a.x), (a.y - 1, a.x)};
      }
    } else {
      assert a.y < Height(b);
      if a.x == 0 {
        assert s == {(a.y, 0)};
      } else if a.x == Width(b) {
        assert s == {(a.y, a.x - 1)};
      } else {
        assert s == {(a.y, a.x), (a.y, a.x - 1)};
      }
    }
  }

  /** The grid with delta added to one cell. */
  function AddAt(g: Grid, i: nat, j: nat, delta: int): Grid
    requires i < |g| && j < |g[i]|
  {
    SetCell(g, i, j, g[i][j] + delta)
  }

  /** The agents' copy-and-write transition: claim the edge, add +1 (up) or -1 to each box it
      borders, and negate player1Turn. Every agent's simulate_action and result is this
      function with its own choice of `up`. */
  function Shift(b: Board, a: GameAction, up: bool): (r: Board)
    requires WellShaped(b) && InRange(b, a)
    ensures WellShaped(r) && Height(r) == Height(b) && Width(r) == Width(b)
    ensures r.rowStatus == Claim(b, a).rowStatus && r.colStatus == Claim(b, a).colStatus
    ensures r.player1Turn == !b.player1Turn
  {
    var d := if up then 1 else -1;
    var g := b.boardStatus;
    var g1 :=
      if a.kind == Row then (if a.y < Height(b) then AddAt(g, a.y, a.x, d) else g)
      else (if a.x < Width(b) then AddAt(g, a.y, a.x, d) else g);
    var g2 :=
      if a.kind == Row then (if a.y > 0 then AddAt(g1, a.y - 1, a.x, d) else g1)
      else (if a.x > 0 then AddAt(g1, a.y, a.x - 1, d) else g1);
    Claim(b, a).(boardStatus := g2, player1Turn := !b.player1Turn)
  }

  /** Each box the edge borders moves by one in the chosen direction; the others stay. */
  lemma ShiftBoxes(b: Board, a: GameAction, up: bool)
    requires WellShaped(b) && InRange(b, a)
    ensures forall i, j :: IsBox(b, i, j) ==>
      Shift(b, a, up).boardStatus[i][j] ==
        b.boardStatus[i][j] + (if Adjacent(a, i, j) then (if up then 1 else -1) else 0)
  {
  }

  /** The transition keeps every edge 0 or 1. */
  lemma ShiftValid(b: Board, a: GameAction, up: bool)
    requires WellShaped(b) && InRange(b, a)
    ensures Valid(b) ==> Valid(Shift(b, a, up))
  {
  }

  /** The contents of a two-dimensional buffer, row by row. */
  function Contents(a: array2<int>): Grid
    reads a
  {
    seq(a.Length0, i requires 0 <= i < a.Length0 reads a =>
      seq(a.Length1, j requires 0 <= j < a.Length1 reads a => a[i, j]))
  }

  /** A fresh buffer with the same contents (numpy's copy()). */
  method CopyBuffer(a: array2<int>) returns (c: array2<int>)
    ensures fresh(c) && c.Length0 == a.Length0 && c.Length1 == a.Length1
    ensures Contents(c) == Contents(a)
  {
    c := new int[a.Length0, a.Length1]((i, j) reads a =>
      if 0 <= i < a.Length0 && 0 <= j < a.Length1 then a[i, j] else 0);
    assert forall i | 0 <= i < a.Length0 :: Contents(c)[i] == Contents(a)[i];
  }

  /** A buffer holds a grid when they agree cell by cell. */
  lemma ContentsFromCells(a: array2<int>, g: Grid)
    requires IsGrid(g, a.Length0, a.Length1)
    requires forall i, j :: 0 <= i < a.Length0 && 0 <= j < a.Length1 ==> a[i, j] == g[i][j]
    ensures Contents(a) == g
  {
    assert forall i | 0 <= i < a.Length0 :: Contents(a)[i] == g[i];
  }

  /** Every cell of a buffer is 1 exactly when every cell of its contents is. */
  lemma AllOnesContents(a: array2<int>)
    ensures AllOnes(Contents(a)) <==>
      forall i, j :: 0 <= i < a.Length0 && 0 <= j < a.Length1 ==> a[i, j] == 1
  {
    assert forall i, j :: 0 <= i < a.Length0 && 0 <= j < a.Length1 ==> Contents(a)[i][j] == a[i, j];
  }

  /** A single-cell store into a buffer. */
  method Store(a: array2<int>, i: int, j: int, v: int)
    requires 0 <= i < a.Length0 && 0 <= j < a.Length1
    modifies a
    ensures Contents(a) == SetCell(old(Contents(a)), i, j, v)
  {
    a[i, j] := v;
    assert forall k | 0 <= k < a.Length0 :: Contents(a)[k] == SetCell(old(Contents(a)), i, j, v)[k];
  }

  /* ---------------- Completed boxes and material ---------------- */

  function Boxes(b: Board): set<(int, int)>
  {
    set i, j | 0 <= i < Height(b) && 0 <= j < Width(b) :: (i, j)
  }

  /** The boxes whose value is exactly v (for v = 4 or -4: the completed boxes of one side). */
  function BoxesWith(b: Board, v: int): set<(int, int)>
  {
    set i, j | 0 <= i < |b.boardStatus| && 0 <= j < |b.boardStatus[i]| && b.boardStatus[i][j] == v :: (i, j)
  }

  function RowCells(i: int, w: nat): set<(int, int)>
    ensures |RowCells(i, w)| == w
    ensures forall p :: p in RowCells(i, w) <==> p.0 == i && 0 <= p.1 < w
  {
    if w == 0 then {} else
      assert (i, w - 1) !in RowCells(i, w - 1);
      RowCells(i, w - 1) + {(i, w - 1)}
  }

  function Cells(h: nat, w: nat): set<(int, int)>
    ensures |Cells(h, w)| == h * w
    ensures forall p :: p in Cells(h, w) <==> 0 <= p.0 < h && 0 <= p.1 < w
  {
    if h == 0 then {} else
      assert Cells(h - 1, w) !! RowCells(h - 1, w);
      Cells(h - 1, w) + RowCells(h - 1, w)
  }

  /** The board has Height * Width boxes. */
  lemma BoxesCard(b: Board)
    ensures |Boxes(b)| == Height(b) * Width(b)
  {
    assert Boxes(b) == Cells(Height(b), Width(b));
  }

  /** Completed boxes of the positive side minus completed boxes of the negative side. */
  function Material(b: Board): int
  {
    |BoxesWith(b, 4)| - |BoxesWith(b, -4)|
  }

  lemma MaterialBound(b: Board)
    requires WellShaped(b)
    ensures -(Height(b) * Width(b)) <= Material(b) <= Height(b) * Width(b)
  {
    BoxesCard(b);
    SubsetCard(BoxesWith(b, 4), Boxes(b));
    SubsetCard(BoxesWith(b, -4), Boxes(b));
  }

  lemma SubsetCard<T>(a: set<T>, c: set<T>)
    requires a <= c
    ensures |a| <= |c|
  {
    assert c == a + (c - a);
  }

  /* ---------------- Terminal test ---------------- */

  predicate AllOnes(g: Grid)
  {
    forall i, j :: 0 <= i < |g| && 0 <= j < |g[i]| ==> g[i][j] == 1
  }

  /** Every edge is taken. */
  predicate IsTerminal(b: Board)
  {
    AllOnes(b.rowStatus) && AllOnes(b.colStatus)
  }

  /* ---------------- Row-major move enumeration ---------------- */

  /** The free cells of line[0..n] as actions of the given kind on line y, left to right. */
  function LineZeros(line: seq<int>, kind: Kind, y: int, n: nat): seq<GameAction>
    requires n <= |line|
  {
    if n == 0 then []
    else LineZeros(line, kind, y, n - 1) + (if line[n - 1] == 0 then [GameAction(kind, n - 1, y)] else [])
  }

  /** The free cells of lines 0..m of g, line by line (y outer, x inner). */
  function RowMajorZeros(g: Grid, kind: Kind, m: nat): seq<GameAction>
    requires m <= |g|
  {
    if m == 0 then []
    else RowMajorZeros(g, kind, m - 1) + LineZeros(g[m - 1], kind, m - 1, |g[m - 1]|)
  }

  /** The agents' move list: free row edges, then free col edges, each row-major. */
  function RowMajorMoves(b: Board): seq<GameAction>
  {
    RowMajorZeros(b.rowStatus, Row, |b.rowStatus|) + RowMajorZeros(b.colStatus, Col, |b.colStatus|)
  }

  function NumUnclaimed(b: Board): nat { |RowMajorMoves(b)| }

  function Rank(k: Kind): int { if k == Row then 0 else 1 }

  /** Row edges before col edges; within a kind, by y and then by x. */
  predicate RowMajorBefore(a: GameAction, c: GameAction)
  {
    Rank(a.kind) < Rank(c.kind) ||
    (a.kind == c.kind && (a.y < c.y || (a.y == c.y && a.x < c.x)))
  }

  predicate RowMajorSorted(s: seq<GameAction>)
  {
    forall i, j :: 0 <= i < j < |s| ==> RowMajorBefore(s[i], s[j])
  }

  lemma {:induction false} LineZerosSpec(line: seq<int>, kind: Kind, y: int, n: nat)
    requires n <= |line|
    ensures forall a :: a in LineZeros(line, kind, y, n) <==>
      a.kind == kind && a.y == y && 0 <= a.x < n && line[a.x] == 0
    ensures RowMajorSorted(LineZeros(line, kind, y, n))
  {
    if n > 0 {
      LineZerosSpec(line, kind, y, n - 1);
      LineStep(line, kind, y, n, LineZeros(line, kind, y, n - 1),
               if line[n - 1] == 0 then [GameAction(kind, n - 1, y)] else []);
    }
  }

  /** The free cells of line[0..n-1] followed by cell n - 1 when it is free are the free
      cells of line[0..n], still left to right. */
  lemma LineStep(line: seq<int>, kind: Kind, y: int, n: nat, s: seq<GameAction>, u: seq<GameAction>)
    requires 0 < n <= |line|
    requires forall a :: a in s <==> a.kind == kind && a.y == y && 0 <= a.x < n - 1 && line[a.x] == 0
    requires RowMajorSorted(s)
    requires u == if line[n - 1] == 0 then [GameAction(kind, n - 1, y)] else []
    ensures forall a :: a in s + u <==> a.kind == kind && a.y == y && 0 <= a.x < n && line[a.x] == 0
    ensures RowMajorSorted(s + u)
  {
    if u != [] {
      forall i, j | 0 <= i < |s| && 0 <= j < |u|
        ensures RowMajorBefore(s[i], u[j])
      {
        assert s[i] in s;
      }
      ConcatSorted(s, u);
    } else {
      assert s + u == s;
    }
  }

  lemma {:induction false} RowMajorZerosSpec(g: Grid, kind: Kind, m: nat)
    requires m <= |g|
    ensures forall a :: a in RowMajorZeros(g, kind, m) <==>
      a.kind == kind && 0 <= a.y < m && 0 <= a.x < |g[a.y]| && g[a.y][a.x] == 0
    ensures RowMajorSorted(RowMajorZeros(g, kind, m))
  {
    if m > 0 {
      RowMajorZerosSpec(g, kind, m - 1);
      LineZerosSpec(g[m - 1], kind, m - 1, |g[m - 1]|);
      RowMajorStep(g, kind, m, RowMajorZeros(g, kind, m - 1), LineZeros(g[m - 1], kind, m - 1, |g[m - 1]|));
    }
  }

  /** The free cells of the first m - 1 lines followed by those of line m - 1 are the free
      cells of the first m lines, still in row-major order. */
  lemma RowMajorStep(g: Grid, kind: Kind, m: nat, s: seq<GameAction>, t: seq<GameAction>)
    requires 0 < m <= |g|
    requires forall a :: a in s <==> a.kind == kind && 0 <= a.y < m - 1 && 0 <= a.x < |g[a.y]| && g[a.y][a.x] == 0
    requires forall a :: a in t <==> a.kind == kind && a.y == m - 1 && 0 <= a.x < |g[m - 1]| && g[m - 1][a.x] == 0
    requires RowMajorSorted(s) && RowMajorSorted(t)
    ensures forall a :: a in s + t <==> a.kind == kind && 0 <= a.y < m && 0 <= a.x < |g[a.y]| && g[a.y][a.x] == 0
    ensures RowMajorSorted(s + t)
  {
    forall i, j | 0 <= i < |s| && 0 <= j < |t|
      ensures RowMajorBefore(s[i], t[j])
    {
      assert s[i] in s && t[j] in t;
    }
    ConcatSorted(s, t);
  }

  lemma ConcatSorted(s: seq<GameAction>, t: seq<GameAction>)
    requires RowMajorSorted(s) && RowMajorSorted(t)
    requires forall i, j :: 0 <= i < |s| && 0 <= j < |t| ==> RowMajorBefore(s[i], t[j])
    ensures RowMajorSorted(s + t)
  {
    var u := s + t;
    forall i, j | 0 <= i < j < |u| ensures RowMajorBefore(u[i], u[j]) {
      if j < |s| {
        assert u[i] == s[i] && u[j] == s[j];
      } else if i >= |s| {
        assert u[i] == t[i - |s|] && u[j] == t[j - |s|];
      } else {
        assert u[i] == s[i] && u[j] == t[j - |s|];
      }
    }
  }

  /** The agents' move list holds exactly the free edges, each once, rows before cols,
      each kind row-major. */
  lemma RowMajorMovesSpec(b: Board)
    requires WellShaped(b)
    ensures forall a :: a in RowMajorMoves(b) <==> Unclaimed(b, a)
    ensures RowMajorSorted(RowMajorMoves(b))
  {
    var s := RowMajorZeros(b.rowStatus, Row, |b.rowStatus|);
    var t := RowMajorZeros(b.colStatus, Col, |b.colStatus|);
    RowMajorZerosSpec(b.rowStatus, Row, |b.rowStatus|);
    RowMajorZerosSpec(b.colStatus, Col, |b.colStatus|);
    assert forall i, j :: 0 <= i < |s| && 0 <= j < |t| ==> RowMajorBefore(s[i], t[j]) by {
      forall i, j | 0 <= i < |s| && 0 <= j < |t| ensures RowMajorBefore(s[i], t[j]) {
        assert s[i] in s && t[j] in t;
      }
    }
    ConcatSorted(s, t);
  }

  function Elems<T>(s: seq<T>): set<T> { set x | x in s }

  lemma ElemsConcat<T>(s: seq<T>, u: seq<T>)
    ensures Elems(s + u) == Elems(s) + Elems(u)
  {
    forall p | p in Elems(s + u)
      ensures p in Elems(s) + Elems(u)
    {
      var k :| 0 <= k < |s + u| && (s + u)[k] == p;
      if k >= |s| {
        assert u[k - |s|] == p;
      }
    }
  }

  /** A sequence without repeated elements has as many elements as its set. */
  lemma {:induction false} DistinctCard<T>(s: seq<T>)
    requires forall i, j :: 0 <= i < j < |s| ==> s[i] != s[j]
    ensures |Elems(s)| == |s|
  {
    if |s| > 0 {
      var t := s[..|s| - 1];
      DistinctCard(t);
      assert Elems(s) == Elems(t) + {s[|s| - 1]};
      assert s[|s| - 1] !in Elems(t);
    }
  }

  lemma SortedDistinct(s: seq<GameAction>)
    requires RowMajorSorted(s)
    ensures forall i, j :: 0 <= i < j < |s| ==> s[i] != s[j]
  {
  }

  /** A non-terminal board has a move, and a terminal one has none. */
  lemma TerminalIffNoMoves(b: Board)
    requires Valid(b)
    ensures IsTerminal(b) <==> RowMajorMoves(b) == []
  {
    if IsTerminal(b) {
      TerminalHasNoMoves(b);
    } else {
      OpenHasMove(b);
    }
  }

  /** A finished board has no free edge to list. */
  lemma TerminalHasNoMoves(b: Board)
    requires WellShaped(b) && IsTerminal(b)
    ensures RowMajorMoves(b) == []
  {
    var m := RowMajorMoves(b);
    RowMajorMovesSpec(b);
    assert Elems(m) == {};
    SortedDistinct(m);
    DistinctCard(m);
  }

  /** An unfinished legal board lists a free edge. */
  lemma OpenHasMove(b: Board)
    requires Valid(b) && !IsTerminal(b)
    ensures RowMajorMoves(b) != []
  {
    var a: GameAction;
    if !AllOnes(b.rowStatus) {
      var i, j :| 0 <= i < |b.rowStatus| && 0 <= j < |b.rowStatus[i]| && b.rowStatus[i][j] != 1;
      a := GameAction(Row, j, i);
    } else {
      var i, j :| 0 <= i < |b.colStatus| && 0 <= j < |b.colStatus[i]| && b.colStatus[i][j] != 1;
      a := GameAction(Col, j, i);
    }
    assert Unclaimed(b, a);
    RowMajorMovesSpec(b);
    assert a in RowMajorMoves(b);
  }

  lemma ClaimShape(b: Board, a: GameAction)
    requires WellShaped(b) && InRange(b, a)
    ensures WellShaped(Claim(b, a)) && Height(Claim(b, a)) == Height(b) && Width(Claim(b, a)) == Width(b)
  {
  }

  /** After a claim the free edges are the old ones without the claimed edge. */
  lemma ClaimUnclaimed(b: Board, a: GameAction, e: GameAction)
    requires WellShaped(b) && InRange(b, a)
    ensures Unclaimed(Claim(b, a), e) <==> Unclaimed(b, e) && e != a
  {
  }

  /** The move list has no repeats, so it is as long as its set of moves. */
  lemma MovesCard(b: Board)
    requires WellShaped(b)
    ensures |Elems(RowMajorMoves(b))| == NumUnclaimed(b)
  {
    RowMajorMovesSpec(b);
    SortedDistinct(RowMajorMoves(b));
    DistinctCard(RowMajorMoves(b));
  }

  lemma ClaimMoves(b: Board, a: GameAction)
    requires WellShaped(b) && InRange(b, a)
    ensures WellShaped(Claim(b, a))
    ensures Elems(RowMajorMoves(Claim(b, a))) == Elems(RowMajorMoves(b)) - {a}
  {
    var c := Claim(b, a);
    ClaimShape(b, a);
    RowMajorMovesSpec(b);
    RowMajorMovesSpec(c);
    forall e ensures e in RowMajorMoves(c) <==> e in RowMajorMoves(b) && e != a {
      ClaimUnclaimed(b, a, e);
    }
  }

  /** Claiming a free edge removes exactly that edge from the move list; every board with the
      claimed edge grids has that move list, whatever its boxes and turn. */
  lemma ClaimDropsOne(b: Board, a: GameAction, c: Board)
    requires WellShaped(b) && Unclaimed(b, a)
    requires c.rowStatus == Claim(b, a).rowStatus && c.colStatus == Claim(b, a).colStatus
    ensures NumUnclaimed(c) == NumUnclaimed(b) - 1
    ensures a !in RowMajorMoves(c)
    ensures forall e :: e in RowMajorMoves(c) <==> e in RowMajorMoves(b) && e != a
  {
    var c' := Claim(b, a);
    assert RowMajorMoves(c) == RowMajorMoves(c');
    ClaimMoves(b, a);
    RowMajorMovesSpec(b);
    assert a in Elems(RowMajorMoves(b));
    MovesCard(b);
    MovesCard(c');
    forall e ensures e in RowMajorMoves(c) <==> e in RowMajorMoves(b) && e != a {
      assert e in RowMajorMoves(c') <==> e in Elems(RowMajorMoves(c'));
      assert e in RowMajorMoves(b) <==> e in Elems(RowMajorMoves(b));
    }
  }

  /** The agents' transition on a free edge removes exactly that edge from the move list. */
  lemma ShiftDropsOne(b: Board, a: GameAction, up: bool)
    requires WellShaped(b) && Unclaimed(b, a)
    ensures NumUnclaimed(Shift(b, a, up)) == NumUnclaimed(b) - 1
    ensures forall e :: e in RowMajorMoves(Shift(b, a, up)) <==> e in RowMajorMoves(b) && e != a
  {
    ClaimDropsOne(b, a, Shift(b, a, up));
  }

  /** Every entry of the move list is a free edge. */
  lemma MoveAt(b: Board, k: nat)
    requires WellShaped(b) && k < NumUnclaimed(b)
    ensures Unclaimed(b, RowMajorMoves(b)[k])
  {
    RowMajorMovesSpec(b);
    assert RowMajorMoves(b)[k] in RowMajorMoves(b);
  }

  /** The k-th move of the agents' move list, and the board after it. */
  function ChildOf(b: Board, k: nat, up: bool): (c: Board)
    requires WellShaped(b) && k < NumUnclaimed(b)
    ensures WellShaped(c) && Height(c) == Height(b) && Width(c) == Width(b)
    ensures NumUnclaimed(c) == NumUnclaimed(b) - 1
    ensures Valid(b) ==> Valid(c)
  {
    MoveAt(b, k);
    ShiftDropsOne(b, RowMajorMoves(b)[k], up);
    ShiftValid(b, RowMajorMoves(b)[k], up);
    Shift(b, RowMajorMoves(b)[k], up)
  }

  /** The agents' shared enumeration: nested loops over the edge grids, appending each free
      edge as it is met. */
  method CollectMoves(b: Board) returns (moves: seq<GameAction>)
    requires WellShaped(b)
    ensures moves == RowMajorMoves(b)
    ensures forall a :: a in moves <==> Unclaimed(b, a)
    ensures RowMajorSorted(moves)
  {
    moves := [];
    var y := 0;
    while y < |b.rowStatus|
      invariant 0 <= y <= |b.rowStatus|
      invariant moves == RowMajorZeros(b.rowStatus, Row, y)
    {
      var x := 0;
      while x < |b.rowStatus[0]|
        invariant 0 <= x <= |b.rowStatus[y]|
        invariant moves == RowMajorZeros(b.rowStatus, Row, y) + LineZeros(b.rowStatus[y], Row, y, x)
      {
        if b.rowStatus[y][x] == 0 {
          moves := moves + [GameAction(Row, x, y)];
        }
        x := x + 1;
      }
      assert RowMajorZeros(b.rowStatus, Row, y + 1) ==
        RowMajorZeros(b.rowStatus, Row, y) + LineZeros(b.rowStatus[y], Row, y, |b.rowStatus[y]|);
      y := y + 1;
    }
    ghost var rows := moves;
    y := 0;
    while y < |b.colStatus|
      invariant 0 <= y <= |b.colStatus|
      invariant moves == rows + RowMajorZeros(b.colStatus, Col, y)
    {
      var x := 0;
      while x < |b.colStatus[0]|
        invariant 0 <= x <= |b.colStatus[y]|
        invariant moves == rows + RowMajorZeros(b.colStatus, Col, y) + LineZeros(b.colStatus[y], Col, y, x)
      {
        if b.colStatus[y][x] == 0 {
          moves := moves + [GameAction(Col, x, y)];
        }
        x := x + 1;
      }
      assert RowMajorZeros(b.colStatus, Col, y + 1) ==
        RowMajorZeros(b.colStatus, Col, y) + LineZeros(b.colStatus[y], Col, y, |b.colStatus[y]|);
      y := y + 1;
    }
    RowMajorMovesSpec(b);
  }

  /* ---------------- Claimed sides of a box ---------------- */

  /** The number of taken sides of box (i, j): top, bottom, left and right edge. */
  function Sides(b: Board, i: int, j: int): int
    requires WellShaped(b) && IsBox(b, i, j)
  {
    b.rowStatus[i][j] + b.rowStatus[i + 1][j] + b.colStatus[i][j] + b.colStatus[i][j + 1]
  }

  /** Every box's magnitude is its number of taken sides. */
  predicate Consistent(b: Board)
  {
    WellShaped(b) && forall i, j :: 0 <= i < Height(b) && 0 <= j < Width(b) ==> Abs(b.boardStatus[i][j]) == Sides(b, i, j)
  }

  /** Claiming a free edge adds one taken side to exactly the boxes it borders. */
  lemma SidesAfterClaim(b: Board, a: GameAction, i: int, j: int)
    requires WellShaped(b) && Unclaimed(b, a) && IsBox(b, i, j)
    ensures WellShaped(Claim(b, a))
    ensures Sides(Claim(b, a), i, j) == Sides(b, i, j) + (if Adjacent(a, i, j) then 1 else 0)
  {
  }

  /** An h x w grid of zeros. */
  function Zeros(h: nat, w: nat): (g: Grid)
    ensures IsGrid(g, h, w)
  {
    seq(h, _ => seq(w, _ => 0))
  }

  function EmptyBoard(h: nat, w: nat, player1Turn: bool): (r: Board)
    ensures WellShaped(r) && Height(r) == h && Width(r) == w
  {
    Board(Zeros(h, w), Zeros(h + 1, w), Zeros(h, w + 1), player1Turn)
  }

  lemma EmptyBoardConsistent(h: nat, w: nat, t: bool)
    ensures Valid(EmptyBoard(h, w, t)) && Consistent(EmptyBoard(h, w, t))
  {
  }
}
