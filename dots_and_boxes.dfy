/** The match driver of dots_and_boxes.py: it owns the board buffers of the game being played,
    applies the moves the players hand in, keeps the mover after a completed box, tallies the
    finished games and resets the board for the next one. */
module Driver {
  import opened Boards
  import opened GameStates

  /** The three entries of the driver's win tally: player 1, player 2 and a draw. */
  datatype Outcome = Player1Wins | Player2Wins | Tie

  /** Every value the driver keeps between two calls: the board (with the side to move), the
      scoring flag, who opened the current game, how many games are still to play, and the
      tally. */
  datatype Session = Session(board: Board, pointsScored: bool, player1Starts: bool, gamesNum: int,
                             winnerScores: map<Outcome, int>)

  predicate HasTally(s: Session)
  {
    s.winnerScores.Keys == {Player1Wins, Player2Wins, Tie}
  }

  /** The board of a game on an n x n dot grid. */
  predicate SquareOf(b: Board, n: int)
  {
    WellShaped(b) && Height(b) == n - 1 && Width(b) == n - 1
  }

  /** Player 1 owns the -4 boxes and player 2 the +4 boxes; more boxes wins. */
  function Winner(b: Board): Outcome
  {
    var player1Score := |BoxesWith(b, -4)|;
    var player2Score := |BoxesWith(b, 4)|;
    if player1Score > player2Score then Player1Wins
    else if player2Score > player1Score then Player2Wins
    else Tie
  }

  /** Starting the next game: with games left, a zeroed n x n dot board, one game fewer, the
      other player opens, and the opener moves first; with none left, nothing changes. */
  function PlaySpec(s: Session, n: int): Session
    requires n >= 1
  {
    if s.gamesNum <= 0 then s
    else Session(EmptyBoard(n - 1, n - 1, s.player1Starts), false, !s.player1Starts, s.gamesNum - 1,
                 s.winnerScores)
  }

  /** An effective update up to the game-over test: the move applied as the game state applies
      it, the mover kept after a completed box and handed over otherwise, the flag lowered. */
  function Move(s: Session, a: GameAction): Session
    requires WellShaped(s.board) && InRange(s.board, a)
  {
    var scored := s.pointsScored || Scores(s.board, a);
    var b := Apply(s.board, a);
    s.(board := b.(player1Turn := if scored then b.player1Turn else !b.player1Turn), pointsScored := false)
  }

  /** A move whose board and scoring flag are known: the turn passes unless a box was closed. */
  lemma MoveOf(s: Session, a: GameAction, b: Board, scored: bool)
    requires WellShaped(s.board) && InRange(s.board, a)
    requires b == Apply(s.board, a) && scored == (s.pointsScored || Scores(s.board, a))
    ensures Move(s, a) == s.(board := b.(player1Turn := if scored then b.player1Turn else !b.player1Turn), pointsScored := false)
  {
  }

  /** One more win for the winner of the board. */
  function Tally(s: Session): Session
    requires HasTally(s)
  {
    var w := Winner(s.board);
    s.(winnerScores := s.winnerScores[w := s.winnerScores[w] + 1])
  }

  /** After a move: on a finished board, the tally and the next game. */
  function Finish(s: Session, n: int): Session
    requires WellShaped(s.board) && HasTally(s) && n >= 1
  {
    if IsTerminal(s.board) then PlaySpec(Tally(s), n) else s
  }

  /** What one call of update does: a move on a free edge of a known type, nothing otherwise. */
  function UpdateSpec(s: Session, input: Option<Kind>, x: int, y: int, n: int): Session
    requires WellShaped(s.board) && HasTally(s) && n >= 1
    requires input.Some? ==> InRange(s.board, GameAction(input.value, x, y))
  {
    if input.Some? && Unclaimed(s.board, GameAction(input.value, x, y)) then
      Finish(Move(s, GameAction(input.value, x, y)), n)
    else s
  }

  /* ---------------- What an update promises ---------------- */

  /** A falsy or unknown input type, or an edge already taken, leaves everything as it was. */
  lemma UpdateIgnored(s: Session, input: Option<Kind>, x: int, y: int, n: int)
    requires WellShaped(s.board) && HasTally(s) && n >= 1
    requires input.Some? ==> InRange(s.board, GameAction(input.value, x, y))
    requires input.None? || !Unclaimed(s.board, GameAction(input.value, x, y))
    ensures UpdateSpec(s, input, x, y, n) == s
  {
  }

  /** An effective update that does not end the game is exactly the move. */
  lemma UpdateMoves(s: Session, a: GameAction, n: int)
    requires WellShaped(s.board) && HasTally(s) && n >= 1 && Unclaimed(s.board, a)
    requires !IsTerminal(Move(s, a).board)
    ensures UpdateSpec(s, Some(a.kind), a.x, a.y, n) == Move(s, a)
  {
  }

  /** Turn retention: with the flag lowered beforehand, the mover keeps the turn exactly when
      the edge completes a box (some bordering box had three sides); the flag is lowered again. */
  lemma TurnRetention(s: Session, a: GameAction)
    requires Boards.Valid(s.board) && Consistent(s.board) && Unclaimed(s.board, a) && !s.pointsScored
    ensures Move(s, a).board.player1Turn == s.board.player1Turn <==> Completes(s.board, a)
    ensures Move(s, a).board.player1Turn == s.board.player1Turn <==>
      exists i, j :: IsBox(s.board, i, j) && Adjacent(a, i, j) && Sides(s.board, i, j) == 3
    ensures !Move(s, a).pointsScored
  {
    ScoresIffCompletes(s.board, a);
    CompletesIffThreeSides(s.board, a);
  }

  /** Each effective update takes exactly one more edge, and the edge it takes is no longer free. */
  lemma MoveClaimsOne(s: Session, a: GameAction)
    requires WellShaped(s.board) && Unclaimed(s.board, a)
    ensures NumUnclaimed(Move(s, a).board) == NumUnclaimed(s.board) - 1
    ensures !Unclaimed(Move(s, a).board, a)
  {
    ClaimDropsOne(s.board, a, Move(s, a).board);
    RowMajorMovesSpec(Move(s, a).board);
  }

  /** When the move ends the game, exactly one tally entry grows, by one: the winner's. */
  lemma TallyOnGameOver(s: Session, a: GameAction, n: int)
    requires WellShaped(s.board) && HasTally(s) && n >= 1 && Unclaimed(s.board, a)
    requires IsTerminal(Move(s, a).board)
    ensures HasTally(UpdateSpec(s, Some(a.kind), a.x, a.y, n))
    ensures forall o :: o in s.winnerScores ==>
      UpdateSpec(s, Some(a.kind), a.x, a.y, n).winnerScores[o] ==
        s.winnerScores[o] + (if o == Winner(Move(s, a).board) then 1 else 0)
  {
  }

  /** Who wins: player 1 with more -4 boxes, player 2 with more +4 boxes, a draw otherwise; the
      three verdicts exclude each other. */
  lemma WinnerSpec(b: Board)
    ensures Winner(b) == Player1Wins <==> |BoxesWith(b, -4)| > |BoxesWith(b, 4)|
    ensures Winner(b) == Player2Wins <==> |BoxesWith(b, 4)| > |BoxesWith(b, -4)|
    ensures Winner(b) == Tie <==> |BoxesWith(b, 4)| == |BoxesWith(b, -4)|
    ensures Winner(b) == Player2Wins <==> Material(b) > 0
  {
  }

  /** A move keeps every edge 0 or 1 and every box's magnitude equal to its taken sides. */
  lemma MoveKeepsConsistent(s: Session, a: GameAction)
    requires Boards.Valid(s.board) && Consistent(s.board) && Unclaimed(s.board, a)
    ensures Boards.Valid(Move(s, a).board) && Consistent(Move(s, a).board)
  {
    ApplyConsistent(s.board, a);
    var r := Apply(s.board, a);
    assert Move(s, a).board == r.(player1Turn := Move(s, a).board.player1Turn);
  }

  /** So does the tally and reset that follow a finished game. */
  lemma FinishKeepsConsistent(s: Session, n: int)
    requires Boards.Valid(s.board) && Consistent(s.board) && HasTally(s) && n >= 1
    ensures Boards.Valid(Finish(s, n).board) && Consistent(Finish(s, n).board)
    ensures HasTally(Finish(s, n))
  {
    if IsTerminal(s.board) && s.gamesNum > 0 {
      EmptyBoardConsistent(n - 1, n - 1, s.player1Starts);
      assert Finish(s, n).board == EmptyBoard(n - 1, n - 1, s.player1Starts);
    }
  }

  /** Hence every update keeps the board consistent, through the move and the reset. */
  lemma UpdateKeepsConsistent(s: Session, input: Option<Kind>, x: int, y: int, n: int)
    requires Boards.Valid(s.board) && Consistent(s.board) && HasTally(s) && n >= 1
    requires input.Some? ==> InRange(s.board, GameAction(input.value, x, y))
    ensures Boards.Valid(UpdateSpec(s, input, x, y, n).board) && Consistent(UpdateSpec(s, input, x, y, n).board)
    ensures HasTally(UpdateSpec(s, input, x, y, n))
  {
    if input.Some? && Unclaimed(s.board, GameAction(input.value, x, y)) {
      var a := GameAction(input.value, x, y);
      MoveKeepsConsistent(s, a);
      FinishKeepsConsistent(Move(s, a), n);
    }
  }

  /** A reset hands the first move of consecutive games to alternate players. */
  lemma PlayAlternates(s: Session, n: int)
    requires n >= 1 && s.gamesNum >= 2
    ensures PlaySpec(PlaySpec(s, n), n).board.player1Turn != PlaySpec(s, n).board.player1Turn
    ensures PlaySpec(PlaySpec(s, n), n).gamesNum == s.gamesNum - 2
  {
  }

  /** A reset board has every edge free and no box taken. */
  lemma PlayResets(s: Session, n: int)
    requires n >= 1 && s.gamesNum >= 1
    ensures SquareOf(PlaySpec(s, n).board, n)
    ensures Boards.Valid(PlaySpec(s, n).board) && Consistent(PlaySpec(s, n).board)
    ensures forall a :: InRange(PlaySpec(s, n).board, a) ==> Unclaimed(PlaySpec(s, n).board, a)
    ensures Material(PlaySpec(s, n).board) == 0
  {
    var b := PlaySpec(s, n).board;
    EmptyBoardConsistent(n - 1, n - 1, s.player1Starts);
    assert BoxesWith(b, 4) == {} && BoxesWith(b, -4) == {};
  }

  /** One more taken side for box (i, j), signed by the player modifier; full tells whether the
      box now has magnitude 4. */
  method AddSide(bs: array2<int>, i: int, j: int, playerModifier: int) returns (full: bool)
    requires 0 <= i < bs.Length0 && 0 <= j < bs.Length1 && (playerModifier == 1 || playerModifier == -1)
    modifies bs
    ensures bs[i, j] == (Abs(old(bs[i, j])) + 1) * playerModifier
    ensures forall k, l :: 0 <= k < bs.Length0 && 0 <= l < bs.Length1 && (k != i || l != j) ==> bs[k, l] == old(bs[k, l])
    ensures full <==> Abs(old(bs[i, j])) == 3
  {
    BumpMagnitude(bs[i, j], playerModifier == -1);
    bs[i, j] := (Abs(bs[i, j]) + 1) * playerModifier;
    full := Abs(bs[i, j]) == 4;
  }

  /** The "row" case of update_board on buffers holding board b: the box below the edge (when
      the edge is not on the bottom border), the edge, then the box above it (when there is one). */
  method UpdateRow(bs: array2<int>, rs: array2<int>, ghost b: Board, numberOfDots: int, x: int, y: int,
                    playerModifier: int)
    returns (full: bool)
    requires bs != rs && SquareOf(b, numberOfDots) && InRange(b, GameAction(Row, x, y))
    requires Contents(bs) == b.boardStatus && Contents(rs) == b.rowStatus
    requires playerModifier == Modifier(b.player1Turn)
    modifies bs, rs
    ensures Contents(bs) == Apply(b, GameAction(Row, x, y)).boardStatus
    ensures Contents(rs) == Apply(b, GameAction(Row, x, y)).rowStatus
    ensures full == Scores(b, GameAction(Row, x, y))
  {
    ghost var r := Apply(b, GameAction(Row, x, y));
    ApplyBoxes(b, GameAction(Row, x, y));
    var full1, full2 := false, false;
    if y < numberOfDots - 1 && x < numberOfDots - 1 {
      full1 := AddSide(bs, y, x, playerModifier);
    }
    Store(rs, y, x, 1);
    if y >= 1 {
      full2 := AddSide(bs, y - 1, x, playerModifier);
    }
    full := full1 || full2;
    ContentsFromCells(bs, r.boardStatus);
  }

  /** The "col" case of update_board: the box right of the edge (when the edge is not on the
      right border), the edge, then the box left of it (when there is one). */
  method UpdateCol(bs: array2<int>, cs: array2<int>, ghost b: Board, numberOfDots: int, x: int, y: int,
                    playerModifier: int)
    returns (full: bool)
    requires bs != cs && SquareOf(b, numberOfDots) && InRange(b, GameAction(Col, x, y))
    requires Contents(bs) == b.boardStatus && Contents(cs) == b.colStatus
    requires playerModifier == Modifier(b.player1Turn)
    modifies bs, cs
    ensures Contents(bs) == Apply(b, GameAction(Col, x, y)).boardStatus
    ensures Contents(cs) == Apply(b, GameAction(Col, x, y)).colStatus
    ensures full == Scores(b, GameAction(Col, x, y))
  {
    ghost var r := Apply(b, GameAction(Col, x, y));
    ApplyBoxes(b, GameAction(Col, x, y));
    var full1, full2 := false, false;
    if y < numberOfDots - 1 && x < numberOfDots - 1 {
      full1 := AddSide(bs, y, x, playerModifier);
    }
    Store(cs, y, x, 1);
    if x >= 1 {
      full2 := AddSide(bs, y, x - 1, playerModifier);
    }
    full := full1 || full2;
    ContentsFromCells(bs, r.boardStatus);
  }

  /* ---------------- The driver object ---------------- */

  /** The three numpy buffers of the game being played. play allocates new ones; update
      writes into them. */
  class Buffers {
    const boardStatus: array2<int>
    const rowStatus: array2<int>
    const colStatus: array2<int>

    /** Three distinct buffers shaped for an n x n dot board. */
    ghost predicate Valid(n: int)
    {
      && n >= 1
      && boardStatus != rowStatus && boardStatus != colStatus && rowStatus != colStatus
      && boardStatus.Length0 == n - 1 && boardStatus.Length1 == n - 1
      && rowStatus.Length0 == n && rowStatus.Length1 == n - 1
      && colStatus.Length0 == n - 1 && colStatus.Length1 == n
    }

    /** The zeroed buffers of np.zeros for an n x n dot board. */
    constructor Zero(n: int)
      requires n >= 1
      ensures Valid(n) && fresh(boardStatus) && fresh(rowStatus) && fresh(colStatus)
      ensures Contents(boardStatus) == Zeros(n - 1, n - 1)
      ensures Contents(rowStatus) == Zeros(n, n - 1)
      ensures Contents(colStatus) == Zeros(n - 1, n)
    {
      boardStatus := new int[n - 1, n - 1]((i, j) => 0);
      rowStatus := new int[n, n - 1]((i, j) => 0);
      colStatus := new int[n - 1, n]((i, j) => 0);
      new;
      ContentsFromCells(boardStatus, Zeros(n - 1, n - 1));
      ContentsFromCells(rowStatus, Zeros(n, n - 1));
      ContentsFromCells(colStatus, Zeros(n - 1, n));
    }
  }

  /** Dots_and_Boxes of dots_and_boxes.py, without its renderer and players. */
  class DotsAndBoxes {
    const numberOfDots: int
    var buffers: Buffers
    var player1Turn: bool
    var player1Starts: bool
    var pointsScored: bool
    var gamesNum: int
    var winnerScores: map<Outcome, int>

    /** Buffers shaped for numberOfDots x numberOfDots dots, and a full tally. */
    ghost predicate Valid()
      reads this`buffers, this`winnerScores
    {
      buffers.Valid(numberOfDots) && winnerScores.Keys == {Player1Wins, Player2Wins, Tie}
    }

    function Snapshot(): (b: Board)
      reads this`buffers, this`winnerScores, this`player1Turn
      reads buffers.boardStatus, buffers.rowStatus, buffers.colStatus
      requires Valid()
      ensures SquareOf(b, numberOfDots)
    {
      Board(Contents(buffers.boardStatus), Contents(buffers.rowStatus), Contents(buffers.colStatus), player1Turn)
    }

    function State(): (s: Session)
      reads this`buffers, this`winnerScores, this`player1Turn, this`pointsScored, this`player1Starts, this`gamesNum
      reads buffers.boardStatus, buffers.rowStatus, buffers.colStatus
      requires Valid()
      ensures s.board == Snapshot() && HasTally(s)
    {
      Session(Snapshot(), pointsScored, player1Starts, gamesNum, winnerScores)
    }

    /** A driver for gamesNum games on an n x n dot grid with an empty tally; player 1 opens the
        first game. */
    constructor (gamesNum: int, numberOfDots: int)
      requires numberOfDots >= 1
      ensures Valid()
      ensures State() == Session(EmptyBoard(numberOfDots - 1, numberOfDots - 1, true), false, true, gamesNum,
                                 map[Player1Wins := 0, Player2Wins := 0, Tie := 0])
    {
      this.numberOfDots := numberOfDots;
      this.gamesNum := gamesNum;
      player1Starts := true;
      winnerScores := map[Player1Wins := 0, Player2Wins := 0, Tie := 0];
      pointsScored := false;
      player1Turn := true;
      buffers := new Buffers.Zero(numberOfDots);
    }

    /** The board reset of play: with games left, a new game; with none, nothing changes. */
    method Play()
      requires Valid()
      modifies this
      ensures Valid() && State() == PlaySpec(old(State()), numberOfDots)
    {
      if gamesNum <= 0 {
        return;
      }
      StartGame();
    }

    /** Three zeroed buffers, one game fewer, the opener swapped and the new opener to move. */
    method StartGame()
      requires Valid()
      modifies this
      ensures Valid()
      ensures Snapshot() == EmptyBoard(numberOfDots - 1, numberOfDots - 1, old(player1Starts))
      ensures gamesNum == old(gamesNum) - 1 && player1Starts == !old(player1Starts)
      ensures !pointsScored && winnerScores == old(winnerScores)
    {
      gamesNum := gamesNum - 1;
      buffers := new Buffers.Zero(numberOfDots);
      pointsScored := false;
      player1Starts := !player1Starts;
      player1Turn := !player1Starts;
    }

    /** An edge counts as occupied unless the type is known and its buffer holds 0 there. */
    function IsGridOccupied(input: Option<Kind>, x: int, y: int): (occupied: bool)
      reads this, buffers.boardStatus, buffers.rowStatus, buffers.colStatus
      requires Valid()
      requires input.Some? ==> InRange(Snapshot(), GameAction(input.value, x, y))
      ensures !occupied <==> input.Some? && Unclaimed(Snapshot(), GameAction(input.value, x, y))
    {
      var rowFree := input == Some(Row) && buffers.rowStatus[y, x] == 0;
      var colFree := input == Some(Col) && buffers.colStatus[y, x] == 0;
      !(rowFree || colFree)
    }

    /** update_board: each bordering box gains a side signed by the mover, the edge becomes 1,
        and the scoring flag goes up when a box reaches magnitude 4. */
    method UpdateBoard(kind: Kind, x: int, y: int)
      requires Valid() && InRange(Snapshot(), GameAction(kind, x, y))
      modifies this`pointsScored, buffers.boardStatus, buffers.rowStatus, buffers.colStatus
      ensures Valid()
      ensures Snapshot() == Apply(old(Snapshot()), GameAction(kind, x, y))
      ensures pointsScored == (old(pointsScored) || Scores(old(Snapshot()), GameAction(kind, x, y)))
    {
      var playerModifier := 1;
      if player1Turn {
        playerModifier := -1;
      }
      var bs, rs, cs := buffers.boardStatus, buffers.rowStatus, buffers.colStatus;
      var b := Board(Contents(bs), Contents(rs), Contents(cs), player1Turn);
      var full := false;
      if kind == Row {
        full := UpdateRow(bs, rs, b, numberOfDots, x, y, playerModifier);
      } else {
        full := UpdateCol(bs, cs, b, numberOfDots, x, y, playerModifier);
      }
      if full {
        pointsScored := true;
      }
    }

    /** Every edge is taken. */
    function IsGameover(): (over: bool)
      reads this, buffers.boardStatus, buffers.rowStatus, buffers.colStatus
      requires Valid()
      ensures over <==> IsTerminal(Snapshot())
    {
      var rs, cs := buffers.rowStatus, buffers.colStatus;
      AllOnesContents(rs);
      AllOnesContents(cs);
      (forall i, j :: 0 <= i < rs.Length0 && 0 <= j < rs.Length1 ==> rs[i, j] == 1) &&
      (forall i, j :: 0 <= i < cs.Length0 && 0 <= j < cs.Length1 ==> cs[i, j] == 1)
    }

    /** update: a move on a free edge of a known type, the turn rule, and on a finished board
        the tally and the next game. */
    method Update(input: Option<Kind>, x: int, y: int)
      requires Valid()
      requires input.Some? ==> InRange(Snapshot(), GameAction(input.value, x, y))
      modifies this, buffers.boardStatus, buffers.rowStatus, buffers.colStatus
      ensures Valid() && State() == UpdateSpec(old(State()), input, x, y, numberOfDots)
    {
      if input.Some? && !IsGridOccupied(input, x, y) {
        ghost var s0 := State();
        MakeMove(GameAction(input.value, x, y));
        ghost var s1 := State();
        assert s1 == Move(s0, GameAction(input.value, x, y));
        if IsGameover() {
          RecordResult();
          ghost var s2 := State();
          assert s2 == Tally(s1);
          Play();
          assert State() == PlaySpec(s2, numberOfDots);
        }
      }
    }

    /** The effective part of update before the game-over test. */
    method MakeMove(a: GameAction)
      requires Valid() && InRange(Snapshot(), a)
      modifies this`pointsScored, this`player1Turn, buffers.boardStatus, buffers.rowStatus, buffers.colStatus
      ensures Valid() && State() == Move(old(State()), a)
    {
      ghost var s := State();
      UpdateBoard(a.kind, a.x, a.y);
      ghost var b := Snapshot();
      MoveOf(s, a, b, pointsScored);
      player1Turn := if !pointsScored then !player1Turn else player1Turn;
      pointsScored := false;
      assert Snapshot() == b.(player1Turn := player1Turn);
    }

    /** The tally of a finished game: one more win for the side with more boxes, or a draw. */
    method RecordResult()
      requires Valid()
      modifies this`winnerScores
      ensures Valid()
      ensures State() == Tally(old(State()))
    {
      var player1Score := |BoxesWith(Snapshot(), -4)|;
      var player2Score := |BoxesWith(Snapshot(), 4)|;
      var w := if player1Score > player2Score then Player1Wins
               else if player2Score > player1Score then Player2Wins
               else Tie;
      winnerScores := winnerScores[w := winnerScores[w] + 1];
    }
  }
}
