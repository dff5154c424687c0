/** The game-state object: three integer buffers updated in place, the side to move, and the
    flag that move application raises when a box is completed. Box values count taken sides,
    signed by the side that drew the latest one (4: player 2's box, -4: player 1's box). */
module GameStates {
  import opened Boards

  /** -1 while player 1 moves, 1 while player 2 moves. */
  function Modifier(player1Turn: bool): int { if player1Turn then -1 else 1 }

  /** One more taken side for box (i, j), signed by the mover. */
  function Bump(g: Grid, i: nat, j: nat, m: int): Grid
    requires i < |g| && j < |g[i]|
  {
    SetCell(g, i, j, (Abs(g[i][j]) + 1) * m)
  }

  /** The effect of drawing an edge: the edge becomes 1 and each box it borders gains a
      side, signed by the side to move; the turn is left alone. */
  function Apply(b: Board, a: GameAction): (r: Board)
    requires WellShaped(b) && InRange(b, a)
    ensures WellShaped(r) && Height(r) == Height(b) && Width(r) == Width(b)
    ensures r.rowStatus == Claim(b, a).rowStatus && r.colStatus == Claim(b, a).colStatus
    ensures r.player1Turn == b.player1Turn
  {
    var m := Modifier(b.player1Turn);
    var g := b.boardStatus;
    var g1 :=
      if a.kind == Row then (if a.y < Height(b) then Bump(g, a.y, a.x, m) else g)
      else (if a.x < Width(b) then Bump(g, a.y, a.x, m) else g);
    var g2 :=
      if a.kind == Row then (if a.y >= 1 then Bump(g1, a.y - 1, a.x, m) else g1)
      else (if a.x >= 1 then Bump(g1, a.y, a.x - 1, m) else g1);
    Claim(b, a).(boardStatus := g2)
  }

  /** Each box the edge borders gains a side signed by the mover; the other boxes keep
      their values. */
  lemma ApplyBoxes(b: Board, a: GameAction)
    requires WellShaped(b) && InRange(b, a)
    ensures forall i, j :: IsBox(b, i, j) ==>
      Apply(b, a).boardStatus[i][j] ==
        if Adjacent(a, i, j) then (Abs(b.boardStatus[i][j]) + 1) * Modifier(b.player1Turn)
        else b.boardStatus[i][j]
  {
  }

  /** Drawing the edge brings some box it borders to magnitude 4, that is, a box it borders
      had magnitude 3 (the magnitude only ever grows by one). */
  ghost predicate Completes(b: Board, a: GameAction)
  {
    exists i, j :: 0 <= i < |b.boardStatus| && 0 <= j < |b.boardStatus[i]| && Adjacent(a, i, j) &&
      Abs(b.boardStatus[i][j]) == 3
  }

  lemma BumpMagnitude(v: int, player1Turn: bool)
    ensures Abs((Abs(v) + 1) * Modifier(player1Turn)) == Abs(v) + 1
  {
  }

  /** The new magnitude of every box the edge borders is one more than before. */
  lemma ApplyMagnitudes(b: Board, a: GameAction, i: int, j: int)
    requires WellShaped(b) && InRange(b, a) && IsBox(b, i, j) && Adjacent(a, i, j)
    ensures Abs(Apply(b, a).boardStatus[i][j]) == Abs(b.boardStatus[i][j]) + 1
  {
    ApplyBoxes(b, a);
    BumpMagnitude(b.boardStatus[i][j], b.player1Turn);
  }

  /** The successor state: the move applied, then the turn handed over. */
  function Successor(b: Board, a: GameAction): Board
    requires WellShaped(b) && InRange(b, a)
  {
    Apply(b, a).(player1Turn := !b.player1Turn)
  }

  /** The scoring test of the move code: one of the (at most two) boxes the edge borders had
      magnitude 3, so it now has magnitude 4. */
  function Scores(b: Board, a: GameAction): bool
    requires WellShaped(b) && InRange(b, a)
  {
    match a.kind
    case Row =>
      (a.y < Height(b) && Abs(b.boardStatus[a.y][a.x]) == 3) ||
      (a.y >= 1 && Abs(b.boardStatus[a.y - 1][a.x]) == 3)
    case Col =>
      (a.x < Width(b) && Abs(b.boardStatus[a.y][a.x]) == 3) ||
      (a.x >= 1 && Abs(b.boardStatus[a.y][a.x - 1]) == 3)
  }

  /** The two-candidate test of the code is exactly "some box the edge borders is completed". */
  lemma ScoresIffCompletes(b: Board, a: GameAction)
    requires WellShaped(b) && InRange(b, a)
    ensures Scores(b, a) <==> Completes(b, a)
  {
    if a.kind == Row {
      if a.y < Height(b) && Abs(b.boardStatus[a.y][a.x]) == 3 {
        assert Adjacent(a, a.y, a.x);
      }
      if a.y >= 1 && Abs(b.boardStatus[a.y - 1][a.x]) == 3 {
        assert Adjacent(a, a.y - 1, a.x);
      }
    } else {
      if a.x < Width(b) && Abs(b.boardStatus[a.y][a.x]) == 3 {
        assert Adjacent(a, a.y, a.x);
      }
      if a.x >= 1 && Abs(b.boardStatus[a.y][a.x - 1]) == 3 {
        assert Adjacent(a, a.y, a.x - 1);
      }
    }
  }

  /** On a consistent board, drawing a free edge keeps every box's magnitude equal to its
      number of taken sides. */
  lemma ApplyConsistent(b: Board, a: GameAction)
    requires Valid(b) && Consistent(b) && Unclaimed(b, a)
    ensures Valid(Apply(b, a)) && Consistent(Apply(b, a))
  {
    var r := Apply(b, a);
    ApplyBoxes(b, a);
    forall i, j | 0 <= i < Height(r) && 0 <= j < Width(r)
      ensures Abs(r.boardStatus[i][j]) == Sides(r, i, j)
    {
      SidesAfterClaim(b, a, i, j);
      assert Sides(r, i, j) == Sides(Claim(b, a), i, j);
      BumpMagnitude(b.boardStatus[i][j], b.player1Turn);
    }
  }

  /** On a consistent board, a free edge completes a box exactly when a box it borders
      already had three taken sides, and that box then has all four. */
  lemma CompletesIffThreeSides(b: Board, a: GameAction)
    requires Valid(b) && Consistent(b) && Unclaimed(b, a)
    ensures Completes(b, a) <==> exists i, j :: IsBox(b, i, j) && Adjacent(a, i, j) && Sides(b, i, j) == 3
    ensures Completes(b, a) <==>
      exists i, j :: IsBox(b, i, j) && Adjacent(a, i, j) && Abs(Apply(b, a).boardStatus[i][j]) == 4
  {
    forall i, j | IsBox(b, i, j) && Adjacent(a, i, j)
      ensures Abs(Apply(b, a).boardStatus[i][j]) == Abs(b.boardStatus[i][j]) + 1
    {
      ApplyMagnitudes(b, a, i, j);
    }
  }

  /** A completed box keeps its value (and so its owner) under every later legal move. */
  lemma CompletedBoxStable(b: Board, a: GameAction, i: int, j: int)
    requires Valid(b) && Consistent(b) && Unclaimed(b, a)
    requires IsBox(b, i, j) && Abs(b.boardStatus[i][j]) == 4
    ensures Apply(b, a).boardStatus[i][j] == b.boardStatus[i][j]
  {
    assert !Adjacent(a, i, j);
  }

  /* ---------------- Column-major move enumeration ---------------- */

  /** The free cells of column x of g, rows 0..m, top to bottom. */
  function ColumnZeros(g: Grid, kind: Kind, x: nat, m: nat): seq<GameAction>
    requires m <= |g| && forall i :: 0 <= i < |g| ==> x < |g[i]|
  {
    if m == 0 then []
    else ColumnZeros(g, kind, x, m - 1) + (if g[m - 1][x] == 0 then [GameAction(kind, x, m - 1)] else [])
  }

  /** The free cells of columns 0..n of a grid w wide, column by column (x outer, y inner). */
  function ColMajorZeros(g: Grid, kind: Kind, w: nat, n: nat): seq<GameAction>
    requires n <= w && forall i :: 0 <= i < |g| ==> |g[i]| == w
  {
    if n == 0 then []
    else ColMajorZeros(g, kind, w, n - 1) + ColumnZeros(g, kind, n - 1, |g|)
  }

  /** The game state's move list: free row edges, then free col edges, each column-major. */
  function ColMajorMoves(b: Board): seq<GameAction>
    requires WellShaped(b)
  {
    ColMajorZeros(b.rowStatus, Row, Width(b), Width(b)) +
    ColMajorZeros(b.colStatus, Col, Width(b) + 1, Width(b) + 1)
  }

  /** Row edges before col edges; within a kind, by x and then by y. */
  predicate ColMajorBefore(a: GameAction, c: GameAction)
  {
    Rank(a.kind) < Rank(c.kind) ||
    (a.kind == c.kind && (a.x < c.x || (a.x == c.x && a.y < c.y)))
  }

  predicate ColMajorSorted(s: seq<GameAction>)
  {
    forall i, j :: 0 <= i < j < |s| ==> ColMajorBefore(s[i], s[j])
  }

  lemma ConcatColSorted(s: seq<GameAction>, t: seq<GameAction>)
    requires ColMajorSorted(s) && ColMajorSorted(t)
    requires forall i, j :: 0 <= i < |s| && 0 <= j < |t| ==> ColMajorBefore(s[i], t[j])
    ensures ColMajorSorted(s + t)
  {
    var u := s + t;
    forall i, j | 0 <= i < j < |u| ensures ColMajorBefore(u[i], u[j]) {
      if j < |s| {
        assert u[i] == s[i] && u[j] == s[j];
      } else if i >= |s| {
        assert u[i] == t[i - |s|] && u[j] == t[j - |s|];
      } else {
        assert u[i] == s[i] && u[j] == t[j - |s|];
      }
    }
  }

  lemma {:induction false} ColumnZerosSpec(g: Grid, kind: Kind, x: nat, m: nat)
    requires m <= |g| && forall i :: 0 <= i < |g| ==> x < |g[i]|
    ensures forall a :: a in ColumnZeros(g, kind, x, m) <==>
      a.kind == kind && a.x == x && 0 <= a.y < m && g[a.y][x] == 0
    ensures ColMajorSorted(ColumnZeros(g, kind, x, m))
  {
    if m > 0 {
      ColumnZerosSpec(g, kind, x, m - 1);
      ColumnStep(g, kind, x, m, ColumnZeros(g, kind, x, m - 1),
                 if g[m - 1][x] == 0 then [GameAction(kind, x, m - 1)] else []);
    }
  }

  /** The free cells of column x in rows 0..m-1 followed by row m - 1's cell when it is free
      are the free cells of the column in rows 0..m, still top to bottom. */
  lemma ColumnStep(g: Grid, kind: Kind, x: nat, m: nat, s: seq<GameAction>, u: seq<GameAction>)
    requires 0 < m <= |g| && forall i :: 0 <= i < |g| ==> x < |g[i]|
    requires forall a :: a in s <==> a.kind == kind && a.x == x && 0 <= a.y < m - 1 && g[a.y][x] == 0
    requires ColMajorSorted(s)
    requires u == if g[m - 1][x] == 0 then [GameAction(kind, x, m - 1)] else []
    ensures forall a :: a in s + u <==> a.kind == kind && a.x == x && 0 <= a.y < m && g[a.y][x] == 0
    ensures ColMajorSorted(s + u)
  {
    if u != [] {
      forall i, j | 0 <= i < |s| && 0 <= j < |u|
        ensures ColMajorBefore(s[i], u[j])
      {
        assert s[i] in s;
      }
      ConcatColSorted(s, u);
    } else {
      assert s + u == s;
    }
  }

  lemma {:induction false} ColMajorZerosSpec(g: Grid, kind: Kind, w: nat, n: nat)
    requires n <= w && forall i :: 0 <= i < |g| ==> |g[i]| == w
    ensures forall a :: a in ColMajorZeros(g, kind, w, n) <==>
      a.kind == kind && 0 <= a.x < n && 0 <= a.y < |g| && g[a.y][a.x] == 0
    ensures ColMajorSorted(ColMajorZeros(g, kind, w, n))
  {
    if n > 0 {
      ColMajorZerosSpec(g, kind, w, n - 1);
      ColumnZerosSpec(g, kind, n - 1, |g|);
      ColMajorStep(g, kind, w, n, ColMajorZeros(g, kind, w, n - 1), ColumnZeros(g, kind, n - 1, |g|));
    }
  }

  /** The free cells of the first n - 1 columns followed by those of column n - 1 are the free
      cells of the first n columns, still in column-major order. */
  lemma ColMajorStep(g: Grid, kind: Kind, w: nat, n: nat, s: seq<GameAction>, t: seq<GameAction>)
    requires 0 < n <= w && forall i :: 0 <= i < |g| ==> |g[i]| == w
    requires forall a :: a in s <==> a.kind == kind && 0 <= a.x < n - 1 && 0 <= a.y < |g| && g[a.y][a.x] == 0
    requires forall a :: a in t <==> a.kind == kind && a.x == n - 1 && 0 <= a.y < |g| && g[a.y][n - 1] == 0
    requires ColMajorSorted(s) && ColMajorSorted(t)
    ensures forall a :: a in s + t <==> a.kind == kind && 0 <= a.x < n && 0 <= a.y < |g| && g[a.y][a.x] == 0
    ensures ColMajorSorted(s + t)
  {
    forall i, j | 0 <= i < |s| && 0 <= j < |t|
      ensures ColMajorBefore(s[i], t[j])
    {
      assert s[i] in s && t[j] in t;
    }
    ConcatColSorted(s, t);
  }

  /** The game state's move list holds exactly the free edges, rows before cols, each kind
      column by column. */
  lemma ColMajorMovesSpec(b: Board)
    requires WellShaped(b)
    ensures forall a :: a in ColMajorMoves(b) <==> Unclaimed(b, a)
    ensures ColMajorSorted(ColMajorMoves(b))
  {
    var w := Width(b);
    var s := ColMajorZeros(b.rowStatus, Row, w, w);
    var t := ColMajorZeros(b.colStatus, Col, w + 1, w + 1);
    ColMajorZerosSpec(b.rowStatus, Row, w, w);
    ColMajorZerosSpec(b.colStatus, Col, w + 1, w + 1);
    assert forall i, j :: 0 <= i < |s| && 0 <= j < |t| ==> ColMajorBefore(s[i], t[j]) by {
      forall i, j | 0 <= i < |s| && 0 <= j < |t| ensures ColMajorBefore(s[i], t[j]) {
        assert s[i] in s && t[j] in t;
      }
    }
    ConcatColSorted(s, t);
  }

  /** The game state's move list is a reordering of the agents' row-major list: the same
      moves, each once in both. */
  lemma ColMajorPermutesRowMajor(b: Board)
    requires WellShaped(b)
    ensures Elems(ColMajorMoves(b)) == Elems(RowMajorMoves(b))
    ensures |ColMajorMoves(b)| == |RowMajorMoves(b)|
  {
    var c := ColMajorMoves(b);
    ColMajorMovesSpec(b);
    RowMajorMovesSpec(b);
    assert Elems(c) == Elems(RowMajorMoves(b));
    assert forall i, j :: 0 <= i < j < |c| ==> c[i] != c[j];
    DistinctCard(c);
    SortedDistinct(RowMajorMoves(b));
    DistinctCard(RowMajorMoves(b));
  }

  /** A successor has one free edge fewer, and the drawn edge is no longer offered. */
  lemma SuccessorDropsMove(b: Board, a: GameAction)
    requires WellShaped(b) && Unclaimed(b, a)
    ensures WellShaped(Successor(b, a))
    ensures |ColMajorMoves(Successor(b, a))| == |ColMajorMoves(b)| - 1
    ensures a !in ColMajorMoves(Successor(b, a))
  {
    var s := Successor(b, a);
    ClaimDropsOne(b, a, s);
    ColMajorMovesSpec(s);
    ColMajorPermutesRowMajor(b);
    ColMajorPermutesRowMajor(s);
  }

  /** On a board whose edges are all 0 or 1, the game is over exactly when no move is left. */
  lemma GameoverIffNoMoves(b: Board)
    requires WellShaped(b)
    ensures Valid(b) ==> (IsTerminal(b) <==> ColMajorMoves(b) == [])
  {
    if Valid(b) {
      ColMajorPermutesRowMajor(b);
      TerminalIffNoMoves(b);
    }
  }

  /** One double loop of get_valid_moves: the free cells of an edge buffer, x outer, y inner. */
  method ScanColumns(buf: array2<int>, kind: Kind) returns (ms: seq<GameAction>)
    ensures ms == ColMajorZeros(Contents(buf), kind, buf.Length1, buf.Length1)
  {
    ghost var g := Contents(buf);
    ms := [];
    var x := 0;
    while x < buf.Length1
      invariant 0 <= x <= buf.Length1
      invariant ms == ColMajorZeros(g, kind, buf.Length1, x)
    {
      var y := 0;
      while y < buf.Length0
        invariant 0 <= y <= buf.Length0
        invariant ms == ColMajorZeros(g, kind, buf.Length1, x) + ColumnZeros(g, kind, x, y)
      {
        if buf[y, x] == 0 {
          ms := ms + [GameAction(kind, x, y)];
        }
        y := y + 1;
      }
      x := x + 1;
    }
  }

  /** The game state of game_state.py. */
  class GameState {
    const boardStatus: array2<int>
    const rowStatus: array2<int>
    const colStatus: array2<int>
    var player1Turn: bool
    var pointsScored: bool

    /** Three distinct buffers with the shapes of one board. */
    ghost predicate Valid()
    {
      && boardStatus != rowStatus && boardStatus != colStatus && rowStatus != colStatus
      && rowStatus.Length0 == boardStatus.Length0 + 1 && rowStatus.Length1 == boardStatus.Length1
      && colStatus.Length0 == boardStatus.Length0 && colStatus.Length1 == boardStatus.Length1 + 1
    }

    /** The board the buffers currently hold. */
    function Snapshot(): (b: Board)
      reads this`player1Turn, boardStatus, rowStatus, colStatus
      requires Valid()
      ensures WellShaped(b) && Height(b) == boardStatus.Length0 && Width(b) == boardStatus.Length1
    {
      Board(Contents(boardStatus), Contents(rowStatus), Contents(colStatus), player1Turn)
    }

    /** Keeps the given buffers (no copy). The scoring flag starts lowered. */
    constructor (boardStatus: array2<int>, rowStatus: array2<int>, colStatus: array2<int>, player1Turn: bool)
      ensures this.boardStatus == boardStatus && this.rowStatus == rowStatus && this.colStatus == colStatus
      ensures this.player1Turn == player1Turn && !pointsScored
    {
      this.boardStatus := boardStatus;
      this.rowStatus := rowStatus;
      this.colStatus := colStatus;
      this.player1Turn := player1Turn;
      pointsScored := false;
    }

    /** Copies the buffers into a new state, applies the move there and hands the turn over. */
    method GenerateSuccessor(action: GameAction) returns (newState: GameState)
      requires Valid() && InRange(Snapshot(), action)
      ensures fresh(newState) && fresh(newState.boardStatus) && fresh(newState.rowStatus) && fresh(newState.colStatus)
      ensures newState.Valid() && newState.Snapshot() == Successor(Snapshot(), action)
      ensures newState.pointsScored == Scores(Snapshot(), action)
    {
      newState := Copy();
      newState.ApplyAction(action);
      newState.SetTurn(!player1Turn);
    }


    /** A new state over copies of the three buffers, with the same side to move. */
    method Copy() returns (c: GameState)
      requires Valid()
      ensures fresh(c) && fresh(c.boardStatus) && fresh(c.rowStatus) && fresh(c.colStatus)
      ensures c.Valid() && c.Snapshot() == Snapshot() && !c.pointsScored
    {
      var bs := CopyBuffer(boardStatus);
      var rs := CopyBuffer(rowStatus);
      var cs := CopyBuffer(colStatus);
      c := new GameState(bs, rs, cs, player1Turn);
    }

    /** Hands the move to the given side; the buffers and the scoring flag stay as they are. */
    method SetTurn(player1Turn: bool)
      requires Valid()
      modifies this`player1Turn
      ensures Valid() && Snapshot() == old(Snapshot()).(player1Turn := player1Turn)
    {
      this.player1Turn := player1Turn;
    }

    /** Every edge is taken. */
    function IsGameover(): (over: bool)
      reads this, boardStatus, rowStatus, colStatus
      requires Valid()
      ensures over <==> IsTerminal(Snapshot())
      ensures Boards.Valid(Snapshot()) ==> (over <==> ColMajorMoves(Snapshot()) == [])
    {
      GameoverIffNoMoves(Snapshot());
      AllOnesContents(rowStatus);
      AllOnesContents(colStatus);
      (forall i, j :: 0 <= i < rowStatus.Length0 && 0 <= j < rowStatus.Length1 ==> rowStatus[i, j] == 1) &&
      (forall i, j :: 0 <= i < colStatus.Length0 && 0 <= j < colStatus.Length1 ==> colStatus[i, j] == 1)
    }

    /** The free edges, row edges first, each kind scanned column by column. */
    method GetValidMoves() returns (validMoves: seq<GameAction>)
      requires Valid()
      ensures validMoves == ColMajorMoves(Snapshot())
      ensures forall a :: a in validMoves <==> Unclaimed(Snapshot(), a)
      ensures ColMajorSorted(validMoves)
    {
      var rows := ScanColumns(rowStatus, Row);
      var cols := ScanColumns(colStatus, Col);
      validMoves := rows + cols;
      ColMajorMovesSpec(Snapshot());
    }

    /** Draws the edge in place: the edge buffer cell becomes 1, each bordering box gains a
        side signed by the mover, and the scoring flag is raised when one reaches 4. */
    method ApplyAction(action: GameAction)
      requires Valid() && InRange(Snapshot(), action)
      modifies this`pointsScored, boardStatus, rowStatus, colStatus
      ensures Valid()
      ensures Snapshot() == Apply(old(Snapshot()), action)
      ensures pointsScored == (old(pointsScored) || Scores(old(Snapshot()), action))
    {
      var x, y := action.x, action.y;
      var playerModifier := if player1Turn then -1 else 1;
      if action.kind == Row {
        DrawRow(x, y, playerModifier);
      } else {
        DrawCol(x, y, playerModifier);
      }
    }

    /** The "row" branch of ApplyAction. */
    method DrawRow(x: int, y: int, playerModifier: int)
      requires Valid() && 0 <= y < rowStatus.Length0 && 0 <= x < rowStatus.Length1
      requires playerModifier == Modifier(player1Turn)
      modifies this`pointsScored, boardStatus, rowStatus
      ensures Valid()
      ensures Snapshot() == Apply(old(Snapshot()), GameAction(Row, x, y))
      ensures pointsScored == (old(pointsScored) || Scores(old(Snapshot()), GameAction(Row, x, y)))
    {
      ghost var b := Snapshot();
      ghost var r := Apply(b, GameAction(Row, x, y));
      ApplyBoxes(b, GameAction(Row, x, y));
      Store(rowStatus, y, x, 1);
      if y < boardStatus.Length0 {
        TakeSide(y, x, playerModifier);
      }
      if y >= 1 {
        TakeSide(y - 1, x, playerModifier);
      }
      ContentsFromCells(boardStatus, r.boardStatus);
    }

    /** The "col" branch of ApplyAction. */
    method DrawCol(x: int, y: int, playerModifier: int)
      requires Valid() && 0 <= y < colStatus.Length0 && 0 <= x < colStatus.Length1
      requires playerModifier == Modifier(player1Turn)
      modifies this`pointsScored, boardStatus, colStatus
      ensures Valid()
      ensures Snapshot() == Apply(old(Snapshot()), GameAction(Col, x, y))
      ensures pointsScored == (old(pointsScored) || Scores(old(Snapshot()), GameAction(Col, x, y)))
    {
      ghost var b := Snapshot();
      ghost var r := Apply(b, GameAction(Col, x, y));
      ApplyBoxes(b, GameAction(Col, x, y));
      Store(colStatus, y, x, 1);
      if x < boardStatus.Length1 {
        TakeSide(y, x, playerModifier);
      }
      if x >= 1 {
        TakeSide(y, x - 1, playerModifier);
      }
      ContentsFromCells(boardStatus, r.boardStatus);
    }

    /** One more taken side for box (i, j), signed by the mover; the scoring flag goes up when
        the box reaches magnitude 4. */
    method TakeSide(i: int, j: int, playerModifier: int)
      requires Valid() && 0 <= i < boardStatus.Length0 && 0 <= j < boardStatus.Length1
      requires playerModifier == Modifier(player1Turn)
      modifies this`pointsScored, boardStatus
      ensures Valid()
      ensures boardStatus[i, j] == (Abs(old(boardStatus[i, j])) + 1) * playerModifier
      ensures forall k, l :: 0 <= k < boardStatus.Length0 && 0 <= l < boardStatus.Length1 && (k != i || l != j) ==>
        boardStatus[k, l] == old(boardStatus[k, l])
      ensures pointsScored == (old(pointsScored) || Abs(old(boardStatus[i, j])) == 3)
    {
      BumpMagnitude(boardStatus[i, j], player1Turn);
      boardStatus[i, j] := (Abs(boardStatus[i, j]) + 1) * playerModifier;
      if Abs(boardStatus[i, j]) == 4 {
        pointsScored := true;
      }
    }
  }
}
