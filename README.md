# Dots-and-Boxes engine, modelled and verified in Dafny

This project models a Python Dots-and-Boxes engine. An n-dot game has three integer grids:
- `board_status`: the (n-1) x (n-1) boxes. Each box holds its number of taken sides, signed by whoever drew them; +-4 is a completed box.
- `row_status`: the n x (n-1) horizontal edges.
- `col_status`: the (n-1) x n vertical edges.

Edges are 0 (free) or 1 (taken). The game also tracks the side to move.

The model covers three groups of code:
- The authoritative game state and the match driver, which apply moves and keep the mover after a completed box.
- The structural heuristics.
- Five players:
  - a depth-limited alpha-beta agent;
  - an expectimax agent;
  - a Monte Carlo tree search agent;
  - two alpha-beta players built on a copy-and-write `result` transition and a chain/loop structure scan.

Modules follow the source files:

| module | file | models |
|---|---|---|
| `Boards` | boards.dfy | `GameAction`, the board value, free edges, the agents' row-major move list and copy-and-write transition, box counts |
| `Search` | search.dfy | extended integers (+-inf), fail-soft windows, prefix maxima/minima, sums and means over `real` |
| `GameStates` | game_state.dfy | `GameState` as a class over `array2<int>` buffers, with its in-place `_apply_action` |
| `Driver` | dots_and_boxes.dfy | `Dots_and_Boxes` as a class, specified against values of a `Session` datatype |
| `Heuristics` | heuristics.dfy | the functions of heurestics.py |
| `AlphaBetaAgent` | alpha_beta_agent.dfy | `AlphaBetaPlayer` |
| `ExpectimaxAgent` | expectimax_agent.dfy | `ExpectimaxPlayer` |
| `MonteCarloAgent` | monte_carlo_agent.dfy | `MCTSNode` and `MCTSPlayer`, as classes on the heap |
| `ResultSearch` | result_search.dfy | the `alpha_beta`/`result` pair that ProAlphaBeta and newAlphaBeta share |
| `Structures` | structures.dfy | the structure scan the same two players share |
| `ProAlphaBeta` | pro_alpha_beta.dfy | ProAlphaBeta's evaluation |
| `NewAlphaBeta` | new_alpha_beta.dfy | newAlphaBeta's root loop |

The agents' move listings (`get_possible_actions` in the alpha-beta, expectimax and Monte Carlo agents, `get_all_possible_actions_legal` in ProAlphaBeta and newAlphaBeta) are one routine copied into each file. The model defines it once, as `Boards.CollectMoves`; each agent's member is a call of it.

Each agent's sign convention for box updates is kept as written; the model does not unify them:
- The authoritative transition makes player 1's boxes negative.
- The alpha-beta and expectimax agents add +1 for the maximizing side.
- The MCTS agent adds +1 for player 1.
- `result` signs by the side to move *after* the move.

Python's numpy buffers, which are updated in place, are `array2<int>` fields. Every method that changes them is proved equal to a function on board values. The searches' loops are methods whose results are tied to recursive reference definitions (minimax, expectimax, prefix maxima). The properties the source promises are proved about those definitions.

Environment inputs become parameters:
- Python's `random` is an injected `Random` object, a linear congruential generator.
- UCB1's `sqrt(log(N)/n)` is a caller-supplied function `explore`.
- The players' depth and the number of simulations are arguments.

## Model

| member | source | states |
|---|---|---|
| Boards.CollectMoves | players/alpha_beta_agent.py:90-107 | the agents' enumeration returns exactly `RowMajorMoves(b)`: each free edge once, row edges before col edges, each kind in row-major order |
| Boards.RowMajorMovesSpec | players/alpha_beta_agent.py:97-105 | an action is in the agents' move list iff it names a free edge, and the list is strictly sorted rows-then-cols, row-major |
| Boards.TerminalIffNoMoves | players/alpha_beta_agent.py:109-113 | on a board whose edges are 0 or 1, `is_terminal` (every edge 1) holds iff the move list is empty |
| Boards.TerminalHasNoMoves | players/alpha_beta_agent.py:109-113 | a finished board has no free edge to list |
| Boards.OpenHasMove | players/expectimax_agent.py:106-110 | an unfinished board with 0/1 edges lists at least one move |
| Boards.MovesCard | players/alpha_beta_agent.py:90-107 | the move list has no repeats: its length equals the size of its set of moves |
| Boards.Shift | players/alpha_beta_agent.py:55-88 | the agents' copy-and-write transition yields a board of the same shape, with the named edge set to 1 and every other edge kept, and `player1_turn` negated |
| Boards.ShiftBoxes | players/alpha_beta_agent.py:65-79 | under that transition each box the edge borders changes by exactly +1 (up) or -1, and every other box is unchanged |
| Boards.ShiftValid | players/alpha_beta_agent.py:67-75 | the transition keeps every edge 0 or 1 |
| Boards.ShiftDropsOne | players/alpha_beta_agent.py:67-79 | after the transition on a free edge there is exactly one free edge fewer, and the list is the old one without that edge |
| Boards.ClaimDropsOne | players/alpha_beta_agent.py:68-75 | claiming a free edge removes exactly that edge from the move list, whatever the boxes and turn |
| Boards.ClaimUnclaimed | players/alpha_beta_agent.py:68-75 | after a claim an edge is free iff it was free before and is not the claimed one |
| Boards.ClaimMoves | players/alpha_beta_agent.py:68-75 | claiming an edge keeps the board's shape and removes exactly that edge from the set of listed moves |
| Boards.LineZerosSpec | players/alpha_beta_agent.py:98-100 | one row's inner loop lists exactly the free cells of that row, in increasing x |
| Boards.RowMajorZerosSpec | players/alpha_beta_agent.py:97-105 | one double loop lists exactly the free cells of a grid, sorted row-major |
| Boards.ChildOf | players/alpha_beta_agent.py:30-31 | the board after the k-th move has the same shape, one free edge fewer, and 0/1 edges when the parent has them |
| Boards.MoveAt | players/alpha_beta_agent.py:30 | every entry of the move list names a free edge |
| Boards.Material | heurestics.py:56-60 | `score_diff`, and the agents' `evaluate`: the number of boxes at 4 minus the number at -4 |
| Boards.IsTerminal | players/alpha_beta_agent.py:109-113 | the game is over when every row edge and every column edge is 1 |
| Boards.MaterialBound | players/alpha_beta_agent.py:115-122 | `evaluate` (count of +4 boxes minus count of -4 boxes) is at most the number of boxes in absolute value |
| Boards.BoxesCard | players/alpha_beta_agent.py:120-121 | the board has rows x cols boxes |
| Boards.AdjacentCount | game_state.py:68-88 | a row edge borders 1 box on the top or bottom border and 2 inside; likewise a col edge on the left or right border |
| Boards.SidesAfterClaim | game_state.py:11-13 | claiming a free edge adds one taken side to exactly the boxes it borders |
| Boards.CopyBuffer | game_state.py:34-39 | `copy()` gives a fresh buffer with the same contents |
| Boards.Store | game_state.py:69 | a single-cell store changes that cell of the buffer's contents and nothing else |
| Boards.EmptyBoard | dots_and_boxes.py:26-28 | the zeroed board has the shapes (n-1)x(n-1), n x (n-1) and (n-1) x n |
| Boards.EmptyBoardConsistent | dots_and_boxes.py:26-28 | the zeroed board has 0/1 edges and every box's magnitude equal to its taken sides |
| GameStates.Apply | game_state.py:60-88 | drawing an edge gives a board of the same shape with exactly that edge set to 1, every other edge kept, and the turn left alone |
| GameStates.ApplyBoxes | game_state.py:65-88 | each bordering box becomes (abs(old) + 1) times the modifier (-1 when player 1 moves); every other box keeps its value |
| GameStates.ApplyMagnitudes | game_state.py:70-88 | every bordering box's magnitude grows by exactly one |
| GameStates.ApplyConsistent | game_state.py:11-13 | on a board whose box magnitudes equal their taken sides, drawing a free edge keeps that true and keeps the edges 0/1 |
| GameStates.ScoresIffCompletes | game_state.py:72-88 | the two candidate tests of `_apply_action` raise the flag iff some bordering box reaches magnitude 4 |
| GameStates.CompletesIffThreeSides | game_state.py:70-88 | on a consistent board a free edge completes a box iff a bordering box had three taken sides, and that box then has magnitude 4 |
| GameStates.CompletedBoxStable | game_state.py:11-13 | a completed box keeps its value, and so its owner, under every later legal move |
| GameStates.GameState.constructor | game_state.py:27-31 | the new state keeps the given buffers (no copy) and turn |
| GameStates.GameState.Snapshot | game_state.py:27-31 | the board the buffers hold has the shape of the box buffer |
| GameStates.GameState.ApplyAction | game_state.py:60-88 | the buffers now hold `Apply(old board, action)`; `pointsScored` is raised iff it was up or a bordering box reaches magnitude 4, otherwise left alone |
| GameStates.GameState.DrawRow | game_state.py:68-77 | the "row" branch: the buffers hold the applied board; the flag is raised iff a bordering box reaches 4 |
| GameStates.GameState.DrawCol | game_state.py:79-88 | the "col" branch, likewise |
| GameStates.GameState.TakeSide | game_state.py:71-73 | one box becomes (abs(old) + 1) * modifier and all others stay; the flag goes up iff the old magnitude was 3 |
| GameStates.GameState.GenerateSuccessor | game_state.py:33-42 | a fresh state over fresh buffers holds the applied board with the turn negated (no turn retention); the original buffers are untouched |
| GameStates.GameState.Copy | game_state.py:34-39 | fresh buffers with the same contents and the same side to move |
| GameStates.GameState.SetTurn | game_state.py:41 | only the side to move changes |
| GameStates.GameState.IsGameover | game_state.py:44-45 | true iff every row and col entry is 1, and on 0/1 edges iff `get_valid_moves` is empty |
| GameStates.GameoverIffNoMoves | game_state.py:44-58 | on a board with 0/1 edges the game is over iff no valid move is left |
| GameStates.GameState.GetValidMoves | game_state.py:48-58 | returns `ColMajorMoves` of the current board: every free edge exactly once, rows before cols, x outer and y inner |
| GameStates.ScanColumns | game_state.py:50-53 | one double loop of `get_valid_moves` yields the free cells of a buffer in column-major order |
| GameStates.ColMajorMovesSpec | game_state.py:48-58 | an action is in the state's move list iff it names a free edge, and the list is sorted rows-then-cols, column-major |
| GameStates.ColumnZerosSpec | game_state.py:51-53 | one column's inner loop lists exactly the free cells of that column, in increasing y |
| GameStates.ColMajorZerosSpec | game_state.py:50-57 | one double loop lists exactly the free cells of a grid, sorted column-major |
| GameStates.ColMajorPermutesRowMajor | game_state.py:48-58 | the state's list and the agents' list hold the same moves, each once, so one is a reordering of the other |
| GameStates.SuccessorDropsMove | game_state.py:33-58 | after `generate_successor` on a free edge the valid-move count drops by exactly 1 and that edge is no longer offered |
| Driver.DotsAndBoxes.constructor | dots_and_boxes.py:7-19 | a driver for `games_num` games with an empty three-entry tally; player 1 is recorded as opener |
| Driver.Buffers.Zero | dots_and_boxes.py:26-28 | three fresh buffers of `np.zeros` of the shapes (n-1)x(n-1), n x (n-1) and (n-1) x n |
| Driver.DotsAndBoxes.State | dots_and_boxes.py:7-19 | the driver's fields as a session value, whose board is square for the dot count and whose tally has its three entries |
| Driver.DotsAndBoxes.Play | dots_and_boxes.py:21-32 | the session changes as `PlaySpec`: with games left, a new game; with none, nothing changes |
| Driver.DotsAndBoxes.StartGame | dots_and_boxes.py:25-32 | three zeroed buffers of the three shapes, one game fewer, `player1_starts` toggled, `player1_turn` set to its negation, flag lowered, tally kept |
| Driver.PlayResets | dots_and_boxes.py:25-32 | a reset board is square for the dot count, has every edge free, no box taken and score difference 0 |
| Driver.PlayAlternates | dots_and_boxes.py:31-32 | two consecutive resets hand the first move to different players and use up two games |
| Driver.DotsAndBoxes.IsGridOccupied | dots_and_boxes.py:43-53 | false iff the type is "row" or "col" and the named entry of that buffer is 0 |
| Driver.DotsAndBoxes.UpdateBoard | dots_and_boxes.py:69-93 | the buffers hold `Apply(old board, edge)`: the edge is 1, each bordering box gains a side signed -1 for player 1; the flag goes up iff a box reaches 4 |
| Driver.UpdateRow | dots_and_boxes.py:76-86 | the "row" case on the buffers: box contents and row edges as `Apply`, and the returned flag iff a box reaches 4 |
| Driver.UpdateCol | dots_and_boxes.py:76-93 | the "col" case, likewise |
| Driver.AddSide | dots_and_boxes.py:77-79 | one box becomes (abs(old) + 1) * modifier, others stay; reports whether the old magnitude was 3 |
| Driver.DotsAndBoxes.IsGameover | dots_and_boxes.py:94-95 | true iff every edge is taken |
| Driver.DotsAndBoxes.Update | dots_and_boxes.py:102-124 | the session changes exactly as `UpdateSpec`: move, turn rule, then tally and next game when the board is full |
| Driver.DotsAndBoxes.MakeMove | dots_and_boxes.py:103-109 | an effective update before the game-over test: the board as `Apply`, the mover kept iff a box was completed, the flag lowered |
| Driver.DotsAndBoxes.RecordResult | dots_and_boxes.py:111-119 | the tally of a finished game as `Tally`: one more win for the side with more boxes, or one more tie |
| Driver.UpdateIgnored | dots_and_boxes.py:103 | a falsy or unknown type, or an occupied edge, leaves board, turn, flag, games and tally unchanged |
| Driver.UpdateMoves | dots_and_boxes.py:103-109 | an effective update that does not end the game is exactly the move |
| Driver.MoveOf | dots_and_boxes.py:103-109 | an effective move gives the applied board, with the turn passed iff no box was closed and the flag lowered |
| Driver.TurnRetention | dots_and_boxes.py:108-109 | after an effective update `player1_turn` is unchanged iff the edge completed a box (some bordering box had three sides); the flag is lowered |
| Driver.MoveClaimsOne | dots_and_boxes.py:82-89 | each effective update takes exactly one more edge |
| Driver.TallyOnGameOver | dots_and_boxes.py:111-119 | when the move ends the game exactly one of the three tally entries grows, by one, the winner's |
| Driver.WinnerSpec | dots_and_boxes.py:112-119 | player 1 wins with more -4 boxes, player 2 with more +4 boxes, a tie otherwise; player 2 wins iff the score difference is positive |
| Driver.MoveKeepsConsistent | dots_and_boxes.py:69-109 | a move keeps the edges 0/1 and every box's magnitude equal to its taken sides |
| Driver.FinishKeepsConsistent | dots_and_boxes.py:111-121 | so do the tally and reset after a finished game |
| Driver.UpdateKeepsConsistent | dots_and_boxes.py:102-124 | every update keeps the board consistent and keeps the tally's three entries |
| Heuristics.IsEndgame | heurestics.py:6-11 | true iff no box has value 1 or -1 |
| Heuristics.EndgameIffNoSingleSide | heurestics.py:6-11 | on a consistent board the endgame test says no box has exactly one taken side |
| Heuristics.CheckForFreeBoxes | heurestics.py:26-53 | no answer when no box is at +-3; otherwise the first free side (top, bottom, left, right) of the last +-3 box in row-major order, position (0, 0) included |
| Heuristics.LastThreeInSpec | heurestics.py:28-31 | the scan finds nothing iff no box is at +-3; what it finds is a +-3 box with no later +-3 box in row-major order |
| Heuristics.FreeSideSpec | heurestics.py:33-53 | the side returned is a free edge of the box; nothing is returned only when all four sides are taken |
| Heuristics.LastThreeInRow | heurestics.py:28-31 | the column found in a row is a +-3 box |
| Heuristics.LastThreeInRowSpec | heurestics.py:28-31 | a row yields nothing iff it has no +-3 box, and otherwise the last one |
| Heuristics.FreeSideOfThree | heurestics.py:33-53 | on a consistent board a +-3 box has exactly one free side, and that side is the one returned |
| Heuristics.FreeBoxesSpec | heurestics.py:26-53 | on a consistent board the answer is empty iff no box is at +-3, and otherwise a free edge bordering the last such box |
| Heuristics.DoubleCrossEvaluation | heurestics.py:72-87 | the score is 5 times the number of +-3 boxes counted row by row that pass `is_chain_opportunity` |
| Heuristics.DoubleCrossSpec | heurestics.py:72-87 | that count is the size of the set of +-3 boxes with at least two +-3 neighbours, at most the number of boxes, and 0 when no +-3 box exists |
| Heuristics.NeighbourThreesCard | heurestics.py:115-131 | the neighbour count of `is_chain_opportunity` is the number of orthogonal +-3 neighbours |
| Heuristics.ChainOpportunity | heurestics.py:115-131 | true iff the box has at least two orthogonal neighbours at +-3, that is, iff the set of those neighbours has two elements or more |
| Heuristics.NeighbourThrees | heurestics.py:120-129 | a box has at most four +-3 neighbours |
| Heuristics.ThreeNeighboursSpec | heurestics.py:122-129 | that neighbour set holds exactly the orthogonal +-3 boxes |
| Heuristics.ChainLengthDfs | heurestics.py:95-112 | 0 and no change when the start is visited or not +-3; otherwise the start is added and the count is the number of newly visited boxes (at most rows x cols). Those boxes are all +-3, every +-3 neighbour of one of them ends up visited, and they can be listed from the start so that each borders an earlier one, so an orthogonal path of +-3 boxes joins each to the start |
| Heuristics.FillFrom | heurestics.py:98-112 | the same guarantees once the guard has passed: the start and the four neighbour calls' additions, in that order, list a connected set of +-3 boxes closed under +-3 neighbours |
| Heuristics.FillStep | heurestics.py:101-112 | the start followed by the four calls' additions is connected, +-3 and closed under +-3 neighbours |
| Heuristics.Neighbour | heurestics.py:103-110 | one guarded recursive call: the same guarantees for a neighbour on the board |
| Heuristics.ConnectedConcat | heurestics.py:101-112 | a connected list followed by a connected list whose head borders the first keeps every box bordering an earlier one |
| Heuristics.ComponentUnique | heurestics.py:90-112 | two connected, +-3, closed lists with the same first box hold the same boxes, so the fill's result is the start's +-3 component |
| Heuristics.DetectChainLength | heurestics.py:90-92 | the count is at most the number of boxes and 0 iff the start box is not +-3; it is the number of boxes of `component`, which for a +-3 start begins at the start, is connected through orthogonal steps, holds only +-3 boxes and holds every +-3 neighbour of its boxes: the start's +-3 component |
| Heuristics.CommonLineAsWritten | heurestics.py:139-154 | false unless the boxes share a row or a column and differ; in a row it reads `col_status[y][min x]`, in a column `row_status[min y][x]` |
| Heuristics.CommonLineAsWrittenSymmetric | heurestics.py:139-154 | the test as written is symmetric in its two boxes |
| Heuristics.CommonLineAsWrittenReadsOuterEdge | heurestics.py:143-152 | on a two-box row whose only taken edge is the left border, the test as written reports a common line although the shared edge is free |
| Heuristics.CommonLine | heurestics.py:139-154 | the intended test is false unless the boxes share a row or a column and differ |
| Heuristics.CommonLineSpec | heurestics.py:139-142 | the intended test is symmetric, and for neighbouring boxes it holds iff the edge both boxes border is taken |
| Heuristics.SharedEdgeSpec | heurestics.py:139-142 | the edge named for two neighbouring boxes borders both, and no other edge does |
| Heuristics.ChainOf2s | heurestics.py:134-136 | true iff the box is at +-2 and the common-line test as written holds; then the two boxes share a row or a column and differ |
| Heuristics.FillNeighbours | heurestics.py:175-187 | at most four boxes are pushed, each on the board, unvisited and at +-2 |
| Heuristics.FillNeighboursSpec | heurestics.py:175-187 | a box is pushed iff it is an unvisited orthogonal neighbour for which `is_chain_of_2s` holds coming from the popped box; every other such neighbour is already visited |
| Heuristics.ChainDfs | heurestics.py:161-191 | the count is the number of cells newly marked; nothing changes when the start was visited, and otherwise the start is marked; every newly marked box is the start or a +-2 box; listed in marking order they start at the start and each continues a chain of 2s from an earlier one; every box the fill can continue into from a newly marked box ends up marked |
| Heuristics.DfsVisit | heurestics.py:171-189 | marking an unvisited popped box and pushing its neighbours keeps the dfs facts and marks one cell more |
| Heuristics.ScanBox | heurestics.py:197-199 | a fill from an unvisited +-3 box, keeping the larger count, keeps the scan's facts one box further |
| Heuristics.ScanRowBoxes | heurestics.py:196-199 | one row of the scan keeps the scan's facts from the row's start to the next row's start |
| Heuristics.ChainLen | heurestics.py:157-201 | 0 iff no box is at +-3; 1 iff some box is at +-3 and no +-3 box has a neighbour that continues a chain of 2s from it; never more than rows x cols; `start_box` takes no part |
| Heuristics.BackCross | heurestics.py:14-22 | 1000 when `is_endgame` holds, some box is at +-3 and no +-3 box has a neighbour that continues a chain of 2s; otherwise the score difference |
| Heuristics.ChainThroughOuterEdge | heurestics.py:14-22 | on the 2 x 2 board with boxes [[3, 2], [3, 0]] the +-3 box (0, 0) continues into its +-2 neighbour only through the common-line test as written, so `chain_len` is not 1 and `backCross` gives the score difference; the shared edge is free |
| AlphaBetaAgent.GetPossibleActions | players/alpha_beta_agent.py:90-107 | the free edges in the agents' row-major order; a call of `Boards.CollectMoves` |
| AlphaBetaAgent.AlphaBetaSearch | players/alpha_beta_agent.py:18-53 | at depth 0 or terminal: no move and the score difference; otherwise, for a non-empty window, a fail-soft bound on minimax that is exact strictly inside the window; a returned move is a free edge, and for an exact value the first move whose child has that value |
| AlphaBetaAgent.MaxLevel | players/alpha_beta_agent.py:27-39 | fail-soft for the maximum child value; no move only with value -inf; a move is free and the first best |
| AlphaBetaAgent.MinLevel | players/alpha_beta_agent.py:41-53 | the mirror image for the minimum child value |
| AlphaBetaAgent.SearchChild | players/alpha_beta_agent.py:31-32 | the child's search is fail-soft for the k-th child's minimax value under the level's current window |
| AlphaBetaAgent.GetAction | players/alpha_beta_agent.py:14-16 | with the window (-inf, +inf): no move at depth 0 or terminal; otherwise a free edge that is the first to reach the exact minimax value |
| AlphaBetaAgent.MaxChoosesChild | players/alpha_beta_agent.py:27-39 | a maximizing level's value is at least every child's value and equals one of them |
| AlphaBetaAgent.ChildValues | players/alpha_beta_agent.py:29-32 | one child value per free edge |
| AlphaBetaAgent.ChildValueAt | players/alpha_beta_agent.py:30-32 | the k-th child value is the minimax value, one level shallower and for the other side, of the board after the k-th move |
| AlphaBetaAgent.MinChoosesChild | players/alpha_beta_agent.py:41-53 | a minimizing level's value is at most every child's value and equals one of them |
| AlphaBetaAgent.MinimaxBound | players/alpha_beta_agent.py:115-122 | every minimax value on a legal board is finite and at most the number of boxes in absolute value |
| Search.FullWindow | players/alpha_beta_agent.py:15 | with the window (-inf, +inf) a fail-soft result is the exact value |
| Search.MaxStep | players/alpha_beta_agent.py:33-36 | one maximizing step keeps the running maximum fail-soft for the true prefix maximum, and a strict improvement inside the window is exact |
| Search.MinStep | players/alpha_beta_agent.py:47-50 | the mirror image for a minimizing step |
| Search.MaxCut | players/alpha_beta_agent.py:37-38 | stopping once beta <= alpha keeps the result fail-soft for the value over all children |
| Search.MinCut | players/alpha_beta_agent.py:51-52 | the mirror image for the alpha cut-off |
| Search.PrefixMaxSpec | players/alpha_beta_agent.py:33-34 | the prefix maximum bounds every earlier value and is one of them |
| Search.PrefixMinSpec | players/alpha_beta_agent.py:47-48 | the prefix minimum likewise |
| Search.PrefixMaxMono | players/alpha_beta_agent.py:33-34 | the running maximum never decreases over the children |
| Search.PrefixMinMono | players/alpha_beta_agent.py:47-48 | the running minimum never increases |
| Search.MaxScanStep | players/alpha_beta_agent.py:30-38 | a child searched with the narrowed window keeps the maximizing loop's invariant: a strictly larger result becomes the running maximum and its move, and raises alpha |
| Search.MinScanStep | players/alpha_beta_agent.py:44-52 | the mirror image for the minimizing loop |
| Search.MaxScanCut | players/alpha_beta_agent.py:37-38 | a maximizing loop stopped once beta <= alpha is already fail-soft for the maximum over all children |
| Search.MinScanCut | players/alpha_beta_agent.py:51-52 | the mirror image for the minimizing loop |
| Search.TabulateAt | players/alpha_beta_agent.py:30 | the child-value list for the moves in order holds the k-th child's value at k |
| Search.RMaxSpec | players/expectimax_agent.py:36-41 | the real maximum bounds every earlier value and is one of them |
| Search.RMinSpec | players/expectimax_agent.py:44-52 | the real minimum is at most every earlier value |
| Search.RMaxScanStep | players/expectimax_agent.py:36-41 | one pass of the max loop keeps the first move of largest value |
| Search.BoundsOfRMinMax | players/expectimax_agent.py:32-52 | values in [lo, hi] put their maximum and minimum in [lo, hi] |
| Search.DivBetween | players/expectimax_agent.py:51 | a sum between n * lo and n * hi divided by n > 0 lies in [lo, hi] |
| Search.MeanBetween | players/expectimax_agent.py:46-51 | the mean of a non-empty sequence lies between its minimum and its maximum |
| Search.SumBounds | players/expectimax_agent.py:46-50 | k values in [lo, hi] sum to between k * lo and k * hi |
| ExpectimaxAgent.CollectMovesOf | players/expectimax_agent.py:87-104 | the free edges in the agents' row-major order; a call of `Boards.CollectMoves` |
| ExpectimaxAgent.ExpectimaxSearch | players/expectimax_agent.py:21-52 | the value is the expectimax value; a move is returned iff this is a max level below the depth limit on an unfinished board, and it is the first move of largest value |
| ExpectimaxAgent.MaxNode | players/expectimax_agent.py:32-42 | the largest child value, with the first move reaching it |
| ExpectimaxAgent.ChanceNode | players/expectimax_agent.py:44-52 | the mean of all child values, every move visited, no move returned |
| ExpectimaxAgent.SearchChild | players/expectimax_agent.py:37-38 | the child's search returns the k-th child's expectimax value |
| ExpectimaxAgent.GetAction | players/expectimax_agent.py:16-19 | a move iff the depth is non-zero and the board unfinished; it is a free edge and the first of largest expectimax value |
| ExpectimaxAgent.ChanceBetween | players/expectimax_agent.py:44-52 | a chance level below the limit has at least one move (no division by zero), and its value lies between the least and the largest child value |
| ExpectimaxAgent.MaxChoosesChild | players/expectimax_agent.py:32-42 | a max level's value is at least every child's value and equals one of them |
| ExpectimaxAgent.ExpectedValues | players/expectimax_agent.py:35-50 | one child value per free edge |
| ExpectimaxAgent.ExpectedAt | players/expectimax_agent.py:36-49 | the k-th value is the expectimax value, one level shallower and of the other kind, of the board after the k-th move |
| ExpectimaxAgent.ExpectimaxBound | players/expectimax_agent.py:112-119 | every expectimax value lies between minus and plus the number of boxes, the range of the evaluation |
| MonteCarloAgent.MCTSNode.constructor | players/monte_carlo_agent.py:14-19 | the node has the given state and parent, no children, and zero visits and wins |
| MonteCarloAgent.MCTSNode.Expand | players/monte_carlo_agent.py:39-43 | the child is added after the existing ones, which are kept |
| MonteCarloAgent.MCTSNode.BestChild | players/monte_carlo_agent.py:24-37 | none iff there are no children; otherwise the first child of largest UCB1 score, an unvisited child scoring +inf |
| MonteCarloAgent.MCTSNode.MostVisited | players/monte_carlo_agent.py:62 | none iff there are no children; otherwise the first child with the most visits |
| MonteCarloAgent.GetPossibleActions | players/monte_carlo_agent.py:148-164 | the free edges in the agents' row-major order; a call of `Boards.CollectMoves` |
| MonteCarloAgent.EvaluateTerminalState | players/monte_carlo_agent.py:172-185 | the outcome is 1 iff there are more +4 than -4 boxes, -1 iff fewer, and 0 iff equal |
| MonteCarloAgent.Untried | players/monte_carlo_agent.py:77-78 | with actions compared by identity the untried list holds exactly the possible actions, whatever the children |
| MonteCarloAgent.ExpansionMayRepeat | players/monte_carlo_agent.py:21-22 | an edge that already has a child is offered again, so a node can count as fully expanded while an edge has no child |
| MonteCarloAgent.Selection | players/monte_carlo_agent.py:65-71 | the node reached is in the tree, descends from the start, and is finished or not fully expanded |
| MonteCarloAgent.Expansion | players/monte_carlo_agent.py:73-88 | exactly one fresh child is appended, with parent the node, no children and zero tallies, for a free edge; existing children are kept and the tree stays well formed |
| MonteCarloAgent.PickUntried | players/monte_carlo_agent.py:77-81 | the random pick among the untried actions is a free edge |
| MonteCarloAgent.TreeGrows | players/monte_carlo_agent.py:85-86 | hanging a fresh childless node for a free edge under a node with fewer children than free edges keeps the tree well formed |
| MonteCarloAgent.Simulation | players/monte_carlo_agent.py:90-103 | the playout reaches a finished board after exactly as many moves as there were free edges, each a free edge, and the reward is that board's outcome |
| MonteCarloAgent.Backpropagation | players/monte_carlo_agent.py:105-113 | every node from the start up to the root gains one visit and the reward, negated at each level up; no other node changes |
| MonteCarloAgent.Alternate | players/monte_carlo_agent.py:112 | the reward seen i levels up is the reward or its negation, and the reward itself at even distances |
| MonteCarloAgent.AlternateStep | players/monte_carlo_agent.py:112 | one level up negates the reward |
| MonteCarloAgent.PathEnd | players/monte_carlo_agent.py:109-113 | the parent chain ends at the root |
| MonteCarloAgent.Path | players/monte_carlo_agent.py:109-113 | the chain that backpropagation walks starts at the node itself |
| MonteCarloAgent.PathShape | players/monte_carlo_agent.py:109-113 | along the chain the depths count down by one, each entry's parent is the next, and the last is the root |
| MonteCarloAgent.PathNext | players/monte_carlo_agent.py:113 | each entry's parent is the next entry, and no node appears twice on the chain |
| MonteCarloAgent.PathInTree | players/monte_carlo_agent.py:109-113 | every node on the chain of a tree node is in the tree |
| MonteCarloAgent.PathParent | players/monte_carlo_agent.py:113 | the parent of each entry of the chain is the next entry |
| MonteCarloAgent.Round | players/monte_carlo_agent.py:55-59 | one simulation keeps the tree well formed, gives the root one more visit, and leaves a root in play with a child |
| MonteCarloAgent.RunSimulations | players/monte_carlo_agent.py:52-59 | after k simulations the root has k visits, and a child iff k > 0 and the board is in play |
| MonteCarloAgent.GetAction | players/monte_carlo_agent.py:51-63 | a move iff at least one simulation ran on a board in play; it is a free edge and the action of the first most visited root child |
| MonteCarloAgent.Random.Choice | players/monte_carlo_agent.py:81 | the choice is an index into the list |
| MonteCarloAgent.Random.constructor | players/monte_carlo_agent.py:81 | the generator starts from the caller's seed |
| MonteCarloAgent.Actions | players/monte_carlo_agent.py:77-78 | the actions of the child list, in order |
| ResultSearch.Result | players/ProAlphaBeta.py:188-210 | a copied board with the edge set to 1, the turn negated, and each bordering box moved by +1 when the new side to move is player 1, -1 otherwise |
| ResultSearch.GetAllPossibleActionsLegal | players/ProAlphaBeta.py:174-186 | the free edges, rows before cols, row-major; a call of `Boards.CollectMoves` |
| ResultSearch.AlphaBeta | players/ProAlphaBeta.py:147-168 | at depth 0 or terminal the evaluation; otherwise, for a non-empty window, fail-soft for minimax under that evaluation, so exact for (-inf, +inf) |
| ResultSearch.MaxLevel | players/ProAlphaBeta.py:151-159 | fail-soft for the maximum child value under the window |
| ResultSearch.MinLevel | players/ProAlphaBeta.py:160-168 | fail-soft for the minimum child value under the window |
| ResultSearch.SearchChild | players/ProAlphaBeta.py:154 | the child's search is fail-soft for the k-th child's value under the level's current window |
| ResultSearch.FullWindowIsMinimax | players/newAlphaBeta.py:67-88 | with the full window `alpha_beta` is exactly depth-limited minimax |
| ResultSearch.ChildValues | players/ProAlphaBeta.py:151-168 | one child value per free edge |
| ResultSearch.ChildValueAt | players/ProAlphaBeta.py:153-165 | the k-th child value is the minimax value, one level shallower and of the other kind, of `result` after the k-th move |
| ResultSearch.MinimaxFinite | players/newAlphaBeta.py:67-88 | on a legal board every minimax value is finite |
| ResultSearch.MinimaxWithin | players/newAlphaBeta.py:67-88 | when every evaluation lies in [lo, hi], so does every minimax value |
| ProAlphaBeta.NearlyCompletedBoxes | players/ProAlphaBeta.py:91-103 | the count of boxes equal to +3 (not -3), negated on player 1's turn |
| ProAlphaBeta.ThreesCounted | players/ProAlphaBeta.py:94-97 | the row-by-row count is the number of +3 boxes |
| ProAlphaBeta.ThreeFlags | players/ProAlphaBeta.py:94-97 | the +3 flags form a grid of the board's shape |
| ProAlphaBeta.OthersLeft | players/ProAlphaBeta.py:105-113 | a side's completed boxes and the +3 boxes together are at most the number of boxes |
| ProAlphaBeta.ScaledBound | players/ProAlphaBeta.py:113 | scaling a bounded penalty by k scales its bound by k |
| ProAlphaBeta.NearlyCompletedSpec | players/ProAlphaBeta.py:91-103 | the penalty is <= 0 on player 1's turn and >= 0 otherwise, at most the number of boxes in size, and 0 iff no box is at +3 |
| ProAlphaBeta.Evaluate | players/ProAlphaBeta.py:110-113 | `_evaluate`: the score difference plus the number of box rows squared times the number of nearly completed boxes |
| ProAlphaBeta.EvaluateBound | players/ProAlphaBeta.py:105-113 | `_evaluate` lies within n * (1 + rows^2) of 0 for n boxes |
| ProAlphaBeta.PenaltyOutweighsScore | players/ProAlphaBeta.py:110-113 | on a square board one +3 box outweighs the whole score difference: the evaluation is negative on player 1's turn and positive otherwise |
| ProAlphaBeta.MinimaxBound | players/ProAlphaBeta.py:147-168 | minimax under `_evaluate` on a legal board is finite and within the evaluation's bound |
| Structures.IsPartOfStructure | players/ProAlphaBeta.py:255-270 | true iff the box is at +-2 for "chain" or +-3 for "loop"; false for any other type |
| Structures.GetStructureNeighbors | players/ProAlphaBeta.py:297-318 | exactly the orthogonal neighbours of the kind, all on the board, with no edge test |
| Structures.NeighboursInOrder | players/ProAlphaBeta.py:308-317 | the neighbours come above, below, left, right |
| Structures.Probe | players/ProAlphaBeta.py:308-317 | one probe yields the box iff it is on the board and of the kind |
| Structures.NeighboursIff | players/ProAlphaBeta.py:297-318 | the four probes find exactly the boxes of the kind next to the box |
| Structures.ProbesInOrder | players/ProAlphaBeta.py:308-317 | the four probes come above, below, left, right |
| Structures.RankedAppend | players/ProAlphaBeta.py:308-317 | appending a probe of a later direction keeps that order |
| Structures.ExploreStructure | players/ProAlphaBeta.py:272-295 | the structure is empty unless the start is an unvisited box of the kind, and then starts with it; its boxes are distinct, of the kind, newly visited and connected; every box of the kind next to one of them ends up visited |
| Structures.StructureBound | players/ProAlphaBeta.py:272-295 | a structure has at most as many boxes as the board |
| Structures.Pushed | players/ProAlphaBeta.py:289-293 | the neighbours pushed on the stack are boxes next to the structure, as the boxes already there are |
| Structures.SkipStep | players/ProAlphaBeta.py:286-288 | a popped box that is visited or not of the kind is dropped and the loop invariant kept |
| Structures.AddStep | players/ProAlphaBeta.py:286-293 | a popped unvisited box of the kind joins the structure and the visited set, its neighbours are pushed, and the loop invariant is kept |
| Structures.ClosedAdd | players/ProAlphaBeta.py:287-293 | every box of the kind next to the structure stays visited or on the stack |
| Structures.FindStructures | players/ProAlphaBeta.py:236-253 | the structures found are the 4-connected components of the boxes of the kind: pairwise disjoint, non-empty, each starting at its first box in scan order, and together all the boxes of the kind |
| Structures.VisitBox | players/ProAlphaBeta.py:248-252 | one box of the scan keeps the partition-so-far invariant |
| Structures.StepSkip | players/ProAlphaBeta.py:248 | the scan moves past a box that starts no structure |
| Structures.StepFound | players/ProAlphaBeta.py:248-252 | the scan moves past a box that starts a structure, the explored structure appended |
| Structures.DisjointAppend | players/ProAlphaBeta.py:250-252 | a newly explored structure shares no box with the earlier ones and starts after each of them |
| Structures.FreshDisjoint | players/ProAlphaBeta.py:250-252 | an earlier structure shares no box with a newly visited one |
| Structures.ClosedInside | players/ProAlphaBeta.py:250-252 | a structure explored next to closed structures is itself closed under neighbours of the kind |
| Structures.VisitedClosed | players/ProAlphaBeta.py:246-252 | a box of the kind next to a visited box is visited |
| Structures.StartsFirst | players/ProAlphaBeta.py:250-252 | each structure's first box is its earliest in scan order |
| Structures.CoverFound | players/ProAlphaBeta.py:248-252 | once the box is explored every box of the kind before the next position is visited |
| Structures.NextRow | players/ProAlphaBeta.py:246-247 | the end of a row is the start of the next |
| Structures.ScanDone | players/ProAlphaBeta.py:236-253 | at the end of the scan the structures split the boxes of the kind |
| Structures.ComponentBoxes | players/ProAlphaBeta.py:236-253 | every box of a structure lies on the board |
| Structures.GetUnclaimedEdges | players/ProAlphaBeta.py:320-340 | exactly the free sides of the box, in the order top, bottom, left, right |
| Structures.EatSquareFromStructure | players/ProAlphaBeta.py:212-234 | none iff there is no structure or no box of the first one has a free side; otherwise the first free side of the first such box, a free edge |
| Structures.FirstFreeSide | players/ProAlphaBeta.py:227-234 | the loop over one structure: none iff no box has a free side, otherwise the first free side of the first box that has one |
| NewAlphaBeta.GetAction | players/newAlphaBeta.py:22-34 | the first move of largest root value, none iff every root value is -inf, and a move whenever the board is legal and unfinished |
| NewAlphaBeta.RootValues | players/newAlphaBeta.py:27-28 | one root value per free edge |
| NewAlphaBeta.RootValueAt | players/newAlphaBeta.py:28 | the root value of move k is the minimax value at the full depth `self.depth` (not depth - 1), as a minimizing level, of the board after move k |
| NewAlphaBeta.RootStep | players/newAlphaBeta.py:28-32 | one pass of the root loop keeps the first best move and raises alpha to it |
| NewAlphaBeta.RootHasMove | players/newAlphaBeta.py:22-34 | on a legal unfinished board some root value is finite, so a move is returned |
| NewAlphaBeta.RootIsOneDeeper | players/newAlphaBeta.py:28 | the root loop's best value is the maximizing minimax value at depth + 1 |
| NewAlphaBeta.RootValuesBound | players/newAlphaBeta.py:58-65 | every root value is finite and at most the number of boxes in absolute value |

## Left out

- The renderers, `main.py`, the human and Q-learning players and the player interfaces with their timers are not part of this model.
- The driver's renderer calls (`mark_box`, `make_edge`, `display_*`, `refresh_board`, `restart_game`) are left out, as are `turn`, `player_turn` and `click`. The event-loop recursion `update` -> `play` -> `turn` is cut at the board reset: `Update` applies `PlaySpec` after a finished game.
- Driver.DotsAndBoxes.constructor: the tally keys are the three `Outcome` values instead of strings built from the player names. Those strings are distinct because of their "player1_"/"player2_" prefixes.
- `print` calls are left out. So is `chain_length_evaluation` (heurestics.py:63-69), which returns 0 or an implicit None.
- `GameState` defines no `evaluate_looney_state`, `looney_value`, `chain_lengths`, `independents` or `score_so_far`. Both players' `evaluate` functions read `state.looney_value` before anything else (players/ProAlphaBeta.py:142, players/newAlphaBeta.py:60), so as written every leaf of `alpha_beta` raises AttributeError. newAlphaBeta's `get_action` first calls `is_broken_chain_or_loop` (players/newAlphaBeta.py:17), which calls `state.evaluate_looney_state()` (players/newAlphaBeta.py:38), so every call of it raises too. ResultSearch.AlphaBeta, ProAlphaBeta.MinimaxBound and NewAlphaBeta.GetAction therefore model these players as if `evaluate` were the non-looney fallback `_evaluate`; the looney branch of `evaluate`, `is_broken_chain_or_loop` and `take_free_move` are left out.
- NewAlphaBeta.GetAction: models the root loop (players/newAlphaBeta.py:22-34) only, not the looney test before it.
- `ProAlphaBeta.get_action` and `ProAlphaBeta.alpha_beta_search` are left out. The search calls `state.get_valid_moves(state)`, which passes one argument too many, and its leaf is the looney `evaluate`. The free-box scan at its head is the same code as heurestics.py's and is modelled once, as `Heuristics.CheckForFreeBoxes`.
- MonteCarloAgent.MCTSNode.BestChild: the exploration term `sqrt(log(N)/n)` is a caller-supplied function over (int, int) -> real. `math.log(0)` on an unvisited parent is therefore not modelled.
- MonteCarloAgent.Random.Choice: `random.choice` is a deterministic linear congruential generator the caller seeds; only "an index into the list" is promised.
- MonteCarloAgent.Selection: its contract does not name which child each step takes. Each step is `BestChild`, whose contract does.
- MonteCarloAgent.MCTSNode.MostVisited: Python's `max` over an empty child list raises ValueError; the model returns None there.
- MonteCarloAgent.Untried: the identity-based dictionary test is modelled as written, so an untried action may repeat an edge that already has a child. The child list is a sequence of (action, node) pairs that may repeat an edge.
- Heuristics.ChainDfs: the stack's last-in-first-out order is not stated; the contract lists the newly marked boxes in marking order, each joined to an earlier one, and states that the fill is closed.
- Structures.ExploreStructure: the order of the boxes after the first is not stated; only start-first, connectedness and closure are.
- Boards.SetCell: its contract states only the preserved length; the stores that use it are specified through `Contents` and the buffer methods.
- NewAlphaBeta.RootIsOneDeeper and NewAlphaBeta.RootChoice: both follow from the definitions without proof steps.
- The searches require a well-shaped board, and the expectimax and Monte Carlo models also require every edge to be 0 or 1. On any other board the Python code would index out of range, or divide by zero where a non-terminal board has no 0 edge.
- GameStates.GameState.constructor: it also sets `pointsScored` to false, an attribute `__init__` (game_state.py:27-31) never creates; in the source it exists only once `_apply_action` has completed a box and set it to True (game_state.py:73-88), and nothing on `GameState` reads it.
- Integer widths: numpy's int64/float64 cells are unbounded integers here. Expectimax values are exact `real`s rather than floats.

## Findings

| source | as written | input that shows it | evidently intended | confidence | as-written member | corrected member |
|---|---|---|---|---|---|---|
| heurestics.py:139-154 | for boxes in one row it reads `col_status[y][min(x1, x2)]`, and for boxes in one column `row_status[min(y1, y2)][x]`. That is the far (left or top) edge of the first box, not the edge the two boxes share. `is_chain_of_2s`, and through it `chain_len` and `backCross`, use this test; the model keeps it there as written (`Heuristics.CommonLineAsWritten`) so that they agree with the code. | Board with boxes [[0, 0]], rows [[0, 0], [0, 0]], cols [[1, 0, 0]] and boxes (0, 0) and (0, 1): only the left border is taken, yet the test answers True | read the shared edge `col_status[y][max(x1, x2)]` / `row_status[max(y1, y2)][x]` | high (not executed) | Heuristics.CommonLineAsWrittenReadsOuterEdge, Heuristics.ChainThroughOuterEdge | Heuristics.CommonLineSpec |
