# Connect Four engine: a Dafny model

This project models the engine of a Connect Four web worker.
- **Board.** 7 columns of 6 cells. Row 0 is the top row, and a piece falls to the lowest empty row of its column.
- **Game state.** The board, the player to move, and the genetic weights of the evaluation function.
- **Evaluation.** A static score, positive when Player1 is ahead. It is made of weighted terms: centre control, threats, piece count, mobility, vertical and horizontal control, defence, and a positional table.
- **`AI`.** A depth-limited minimax with alpha-beta pruning and a transposition table. A root procedure first takes an immediate win, then blocks an immediate loss, and otherwise searches every move and ranks the evaluations.
- **`HeuristicAI`.** The same immediate-win and block checks, followed by a one-ply evaluation of every move.
- **Feature encoding.** 100 values clamped to [-10, 10] that describe a position for a learned model.
- **Worker adapters.** They turn a request body into a game state, and copy the engine's move evaluations into the response records.

Each part of the model takes the same form as the code it models.
- **Pure rules are functions on values** (module `Rules`, `Play`, `Evaluation`, `Search`; module `Symmetry` proves that the evaluation is colour-symmetric and 0 on the empty board):
  - the board, `Player` and `Cell`;
  - win detection, valid moves and the result of a move;
  - the evaluation function;
  - the search, as a function `Search` on (table, counters, state, depth, alpha, beta).
- **Stateful objects are classes** whose methods loop and update fields, as the source does:
  - `Game.GameState` has fields board, currentPlayer and geneticParams;
  - `Engine.AI` has the transposition table and two counters;
  - `Engine.HeuristicAI` has a node counter.

  Each method is proved equal to the function that specifies it. The properties are proved about those functions.

The transposition table is keyed by the (board, player to move) pair, and each entry keeps an evaluation and a depth. Scores are `Score = NegInf | Finite(int) | PosInf`. The two infinities stand for the source's `f32::NEG_INFINITY` and `f32::INFINITY` starting values of alpha, beta and the best score.

Two behaviours of the source look unintended. They are modelled as coded:
- **The block check at worker/rust_ai_core/src/lib.rs:720-753.** It picks the first column after which the OPPONENT has an immediate winning reply. It does not pick the column that takes away such a reply. `BestMoveBlockAsWritten` states this.
- **The transposition table store.** The value a node returns after an alpha-beta cut-off is stored as if it were exact. The stored value is then reused at any depth up to the stored depth. `Search.RepeatIsHit` and `Search.MissIsStored` state this.

## Model

| member | source | states |
|---|---|---|
| Rules.Player.Opponent | worker/rust_ai_core/src/lib.rs:29-34 | the opponent is always the other player |
| Rules.FromPlayer | worker/rust_ai_core/src/lib.rs:46-51 | a player's cell is never empty |
| Rules.ToPlayer | worker/rust_ai_core/src/lib.rs:53-59 | a cell has no owner exactly when it is empty |
| Rules.CellConversionsRoundTrip | worker/rust_ai_core/src/lib.rs:29-59 | to_player inverts from_player on occupied cells; opponent is an involution; the two players have different cells |
| Rules.EmptyBoard | worker/rust_ai_core/src/lib.rs:70-88 | every cell of a fresh board is empty |
| Rules.LowestEmptyRow | worker/rust_ai_core/src/lib.rs:185-192 | ROWS exactly when the column is full; otherwise an empty cell with only occupied cells below it |
| Rules.DropLandsOnStack | worker/rust_ai_core/src/lib.rs:161-183 | on a settled board, the piece lands on top of the column's stack and no other cell changes |
| Rules.ValidMoves | worker/rust_ai_core/src/lib.rs:147-155 | at most 7 moves, each a column index |
| Rules.ValidMovesSpec | worker/rust_ai_core/src/lib.rs:147-159 | the valid moves are exactly the playable columns, in ascending order |
| Rules.ValidMovesOfEmptyBoard | worker/rust_ai_core/src/lib.rs:147-155 | on the empty board the valid moves are the columns 0..6 in order |
| Rules.CountMeansLine | worker/rust_ai_core/src/lib.rs:210-247 | from an owned cell, count_in_direction reaches 4 exactly when four of the player's pieces lie in a row through that cell on that axis |
| Rules.CheckWinAtMeansFourInRow | worker/rust_ai_core/src/lib.rs:194-208 | check_win_at holds exactly when some axis has four in a row through the cell |
| Rules.WinnerIsFirstWinningCell | worker/rust_ai_core/src/lib.rs:133-145 | no winner exactly when no cell wins; otherwise the winner owns the first winning cell in scan order |
| Rules.WinnerMeansFourInRow | worker/rust_ai_core/src/lib.rs:133-145 | there is a winner exactly when some player has four in a row, and the winner has one |
| Rules.EmptyBoardIsOpen | worker/rust_ai_core/src/lib.rs:110-131 | the empty board has no winner, is not a draw and is not over |
| Rules.DrawIffTopRowFull | worker/rust_ai_core/src/lib.rs:118-120 | a draw exactly when every column's top cell is occupied |
| Params.Truncate | worker/rust_ai_core/src/lib.rs:311-318 | truncation toward zero of a weight |
| Params.AsI32 | worker/rust_ai_core/src/lib.rs:311-318 | the `as i32` cast saturates at the i32 bounds and is the truncation between them |
| Params.DefaultWeights | worker/rust_ai_core/src/genetic_params.rs:29-46 | the default weights cast to 1, 2, 0, 0, 1, 1 and 1 |
| Play.MakeMove | worker/rust_ai_core/src/lib.rs:161-183 | succeeds exactly when the column is playable; otherwise fails with "Invalid column" for a column past 6 and "Column is full" for a full one |
| Play.MakeMoveDropsPiece | worker/rust_ai_core/src/lib.rs:161-183 | on any board, floating pieces included, a successful move fills the lowest empty cell of the column with the mover's piece, changes no other cell, keeps the weights and passes the turn; a settled board stays settled |
| Play.NewGameIsSettled | worker/rust_ai_core/src/lib.rs:70-108 | a new game is settled and not over |
| Evaluation.TallyZero | worker/rust_ai_core/src/lib.rs:361-409 | a positively weighted tally is never negative, and is 0 exactly when the player has no piece in the columns tallied |
| Evaluation.PiecesCountZero | worker/rust_ai_core/src/lib.rs:361-409 | pieces_count, center_control_score and position_score are never negative; pieces_count is 0 exactly without pieces, and then the other two are also 0 |
| Evaluation.DefaultPositionBalance | worker/rust_ai_core/src/lib.rs:280-306 | with the default weights the genetic position loop equals position_score(Player1) - position_score(Player2) |
| Evaluation.ControlZeroIffNoPieces | worker/rust_ai_core/src/lib.rs:580-610 | vertical and horizontal control are 0 exactly when the player has no piece |
| Evaluation.ThreatValue | worker/rust_ai_core/src/lib.rs:438-495 | a line is worth 0..1000, and 1000 exactly when it is four long |
| Evaluation.DropThreat | worker/rust_ai_core/src/lib.rs:411-436 | one column's threat is 0..10000 |
| Evaluation.ThreatScore | worker/rust_ai_core/src/lib.rs:411-436 | threat_score is between 0 and 70000 |
| Evaluation.ImmediateWinCounts | worker/rust_ai_core/src/lib.rs:411-436 | a column where a drop wins at once puts 10000 or more into threat_score |
| Evaluation.MobilityBelow | worker/rust_ai_core/src/lib.rs:558-578 | the mobility terms are between 0 and 7000 per column |
| Evaluation.DropDefence | worker/rust_ai_core/src/lib.rs:612-643 | a column's defensive value is never negative |
| Evaluation.EvaluateWithGeneticParams | worker/rust_ai_core/src/lib.rs:265-359 | win_score for a Player1 winner, loss_score for a Player2 winner, 0 for a draw, otherwise `WeightedSum`: each feature of Player1 minus that of Player2, times the weight cast to i32 (its value on the empty board is `Symmetry.EvaluateEmptyBoard`) |
| Evaluation.Evaluate | worker/rust_ai_core/src/lib.rs:249-263 | 10000 for a Player1 winner, -10000 for a Player2 winner, 0 for a draw, otherwise the same `WeightedSum` (colour symmetry is `Symmetry.EvaluateSwap`) |
| Evaluation.EvaluatorsAgree | worker/rust_ai_core/src/lib.rs:249-359 | the two evaluators agree on every position without a winner, and on every position when the win and loss scores are ±10000 |
| Symmetry.SwapInvolution | worker/rust_ai_core/src/lib.rs:39-59 | recolouring every piece twice gives the board back |
| Symmetry.CheckWinAtSwap | worker/rust_ai_core/src/lib.rs:194-247 | on the recoloured board check_win_at finds the opponent's line exactly where it found the player's |
| Symmetry.GetWinnerSwap | worker/rust_ai_core/src/lib.rs:133-145 | the recoloured board's winner is the opponent of the original winner, and there is none when there was none |
| Symmetry.ValidMovesSwap | worker/rust_ai_core/src/lib.rs:118-159 | recolouring changes neither the valid moves nor whether the game is drawn |
| Symmetry.DropSwap | worker/rust_ai_core/src/lib.rs:161-192 | the opponent's drop on the recoloured board is the recoloured drop, into the same row |
| Symmetry.TallySwap | worker/rust_ai_core/src/lib.rs:361-409 | every per-cell tally (pieces, centre, position) of a player is the opponent's tally on the recoloured board |
| Symmetry.ThreatScoreSwap | worker/rust_ai_core/src/lib.rs:411-495 | threat_score is colour-blind: the opponent scores on the recoloured board what the player scored |
| Symmetry.MobilityScoreSwap | worker/rust_ai_core/src/lib.rs:558-578 | mobility_score is colour-blind when the mover is recoloured too |
| Symmetry.DefensiveScoreSwap | worker/rust_ai_core/src/lib.rs:612-643 | defensive_score is colour-blind: the opponent blocks on the recoloured board exactly what the player blocked |
| Symmetry.WeightedSumSwap | worker/rust_ai_core/src/lib.rs:265-359 | recolouring the position and the mover negates the weighted sum, for any weights |
| Symmetry.EvaluateSwap | worker/rust_ai_core/src/lib.rs:249-263 | evaluate is antisymmetric: recolouring the position and the mover negates the score |
| Symmetry.EvaluateWithGeneticParamsSwap | worker/rust_ai_core/src/lib.rs:265-359 | evaluate_with_genetic_params is antisymmetric whenever loss_score is -win_score |
| Symmetry.SumIgnoresMover | worker/rust_ai_core/src/lib.rs:329-334 | the mover enters the weighted sum only through the mobility term |
| Symmetry.EmptyBoardSwapSum | worker/rust_ai_core/src/lib.rs:558-578 | on the empty board the recoloured state has the same weighted sum, since mobility is 0 there |
| Symmetry.WeightedSumEmptyBoard | worker/rust_ai_core/src/lib.rs:265-359 | every weighted term cancels on the empty board |
| Symmetry.EvaluateEmptyBoard | worker/rust_ai_core/src/lib.rs:249-359 | the empty board evaluates to 0 under both evaluators, for every weights and either player to move |
| Symmetry.FeatureAxisSwap | worker/rust_ai_core/src/features.rs:160-207 | one axis of the feature threat scan is worth the same for the opponent on the recoloured board |
| Symmetry.FeatureCellThreatSwap | worker/rust_ai_core/src/features.rs:160-207 | a cell's feature threat is colour-blind |
| Symmetry.FeatureThreatColumnSwap | worker/rust_ai_core/src/features.rs:145-212 | one column's feature threats are colour-blind |
| Symmetry.FeatureThreatColumnsSwap | worker/rust_ai_core/src/features.rs:145-212 | the feature threats of the first columns are colour-blind |
| Symmetry.FeatureThreatScoreSwap | worker/rust_ai_core/src/features.rs:145-212 | the feature encoding's threat_score is colour-blind |
| Symmetry.TrialColumnSwap | worker/rust_ai_core/src/features.rs:214-228 | a trial move into a column succeeds in the recoloured state exactly when in the original, and scores the same for the opponent |
| Symmetry.TrialThreatsSwap | worker/rust_ai_core/src/features.rs:214-228 | the trial-move threat totals are colour-blind when the mover is recoloured too |
| Symmetry.FeatureMobilitySwap | worker/rust_ai_core/src/features.rs:214-304 | the feature encoding's mobility_score and blocking_score are colour-blind |
| Game.GameState.New | worker/rust_ai_core/src/lib.rs:70-88 | an empty board, the given first player and the default weights |
| Game.GameState.WithGeneticParams | worker/rust_ai_core/src/lib.rs:90-108 | an empty board, the given first player and the given weights |
| Game.GameState.Clone | worker/rust_ai_core/src/lib.rs:63-67 | a fresh object with the same value |
| Game.GameState.GetValidMoves | worker/rust_ai_core/src/lib.rs:147-155 | the loop returns the valid moves |
| Game.GameState.GetLowestEmptyRow | worker/rust_ai_core/src/lib.rs:185-192 | the loop returns the lowest empty row |
| Game.GameState.MakeMove | worker/rust_ai_core/src/lib.rs:161-183 | Ok exactly when the move is legal, and the new state is the move's result; on an error the message matches and the state is unchanged |
| Game.GameState.CountInDirection | worker/rust_ai_core/src/lib.rs:210-247 | the two scanning loops compute `Rules.CountInDirection`, the run through the cell |
| Game.GameState.CheckWinAt | worker/rust_ai_core/src/lib.rs:194-208 | the direction loop decides `Rules.CheckWinAt` |
| Game.GameState.CheckWinAtTest | worker/rust_ai_core/src/lib.rs:497-541 | the board-parameter copy decides the same predicate |
| Game.GameState.GetWinner | worker/rust_ai_core/src/lib.rs:133-145 | the cell scan returns `Rules.GetWinner`, the owner of the first winning cell |
| Game.GameState.HasWinner | worker/rust_ai_core/src/lib.rs:114-116 | has_winner |
| Game.GameState.IsDraw | worker/rust_ai_core/src/lib.rs:118-120 | `Rules.IsDraw`: no valid move is left |
| Game.GameState.IsGameOver | worker/rust_ai_core/src/lib.rs:110-112 | is_game_over |
| Game.GameState.IsEmptyBoard | worker/rust_ai_core/src/lib.rs:122-131 | the scan decides whether every cell is empty |
| Game.GameState.PositionScore | worker/rust_ai_core/src/lib.rs:361-382 | the nested loops compute position_score |
| Game.GameState.CenterControlScore | worker/rust_ai_core/src/lib.rs:384-397 | the loops compute the centre columns' height tally |
| Game.GameState.PiecesCount | worker/rust_ai_core/src/lib.rs:399-409 | the loops count the player's pieces |
| Game.GameState.CountThreatsAt | worker/rust_ai_core/src/lib.rs:438-495 | the direction loop adds up the line values, the run of 1 included |
| Game.GameState.ThreatScore | worker/rust_ai_core/src/lib.rs:411-436 | the column loop with trial drops computes threat_score |
| Game.GameState.MobilityScore | worker/rust_ai_core/src/lib.rs:558-578 | trial moves on clones compute `Evaluation.MobilityScore`, 0 on the empty board |
| Game.GameState.VerticalControlScore | worker/rust_ai_core/src/lib.rs:580-594 | the column walks compute vertical control |
| Game.GameState.HorizontalControlScore | worker/rust_ai_core/src/lib.rs:596-610 | the row walks compute horizontal control |
| Game.GameState.DefensiveScore | worker/rust_ai_core/src/lib.rs:612-643 | the trial drops compute `Evaluation.DefensiveScore` (colour-blind by `Symmetry.DefensiveScoreSwap`) |
| Game.GameState.EvaluateWithGeneticParams | worker/rust_ai_core/src/lib.rs:265-359 | the method computes `Evaluation.EvaluateWithGeneticParams`, its terms summed in source order |
| Game.GameState.Evaluate | worker/rust_ai_core/src/lib.rs:249-263 | the method computes `Evaluation.Evaluate` |
| Search.Max | worker/rust_ai_core/src/lib.rs:876-884 | the larger of two scores |
| Search.Min | worker/rust_ai_core/src/lib.rs:876-884 | the smaller of two scores |
| Search.LeTotalOrder | worker/rust_ai_core/src/lib.rs:818-897 | the score order is a total order |
| Search.Search | worker/rust_ai_core/src/lib.rs:818-897 | after the search the state's key is stored with at least the requested depth and the returned score; no key is lost; the counters only grow; a table of finite values stays finite and the score is finite |
| Search.Children | worker/rust_ai_core/src/lib.rs:869-886 | the child loop never returns a score worse than the best so far; it keeps the table keys and finiteness |
| Search.RepeatIsHit | worker/rust_ai_core/src/lib.rs:821-826 | a repeated search of a searched state, at any smaller depth and any window, is a cache hit that returns the first result, cut-off values included |
| Search.MissIsStored | worker/rust_ai_core/src/lib.rs:888-894 | a miss stores the returned score at the requested depth |
| Search.FirstWinningMoveNone | worker/rust_ai_core/src/lib.rs:697-717 | the win scan finds nothing exactly when no move wins at once |
| Search.FirstWinningMoveIndex | worker/rust_ai_core/src/lib.rs:697-717 | the win scan returns a winning move, and no earlier move wins |
| Search.FirstBlockMoveNone | worker/rust_ai_core/src/lib.rs:720-753 | the block scan finds nothing exactly when no move leaves the opponent a winning reply |
| Search.FirstBlockMoveIndex | worker/rust_ai_core/src/lib.rs:720-753 | the block scan returns the first move after which the opponent has a winning reply |
| Search.BlockMoveLeavesWin | worker/rust_ai_core/src/lib.rs:720-753 | after the chosen block the opponent is to move and has a valid winning reply |
| Search.FirstBlockIsLeastColumn | worker/rust_ai_core/src/lib.rs:720-753 | on ascending moves, the block scan picks the least column that leaves a winning reply |
| Search.RootScan | worker/rust_ai_core/src/lib.rs:755-787 | the root loop keeps the table keys, and with a finite table every evaluation is finite |
| Search.RootScanCovers | worker/rust_ai_core/src/lib.rs:755-787 | with only legal moves, one evaluation per move, in order, each a "drop" |
| Search.ChooseKeepsChoice | worker/rust_ai_core/src/lib.rs:772-783 | if no evaluation is better than the best so far, the choice stays |
| Search.ChooseFindsFirstBest | worker/rust_ai_core/src/lib.rs:772-783 | otherwise the choice is the first evaluation with the best score |
| Search.Insert | worker/rust_ai_core/src/lib.rs:789-794 | sorting insertion is a permutation |
| Search.SortEvals | worker/rust_ai_core/src/lib.rs:789-794 | the sort is a permutation of the evaluations |
| Search.SortEvalsSorted | worker/rust_ai_core/src/lib.rs:789-794 | the sort orders the scores, descending for Player1 and ascending for Player2 |
| Search.SortedHeadIsFirstBest | worker/rust_ai_core/src/lib.rs:789-794 | a stable sort puts the first best evaluation at the head |
| Search.BestMoveTakesWin | worker/rust_ai_core/src/lib.rs:697-717 | with two or more moves, the least winning column is played at once |
| Search.BestMoveBlockAsWritten | worker/rust_ai_core/src/lib.rs:720-753 | with no win, the chosen column is the least one that leaves the opponent a winning reply, with no search |
| Search.RankedChoice | worker/rust_ai_core/src/lib.rs:772-794 | the chosen column is that of the sorted list's head, and both are the first best evaluation |
| Search.BestMoveFullSearchCovers | worker/rust_ai_core/src/lib.rs:755-794 | a full search returns a permutation of one "drop" evaluation per valid move, in column order before sorting |
| Search.BestMoveFullSearchRanks | worker/rust_ai_core/src/lib.rs:755-815 | a full search returns the evaluations sorted for the mover, headed by the first best one, which is the chosen move |
| Search.BestMoveKeepsTable | worker/rust_ai_core/src/lib.rs:678-816 | get_best_move never drops a stored position, and from a table of finite values it keeps the table finite and returns only finite scores |
| Search.EvalScanCovers | worker/rust_ai_core/src/lib.rs:977-1009 | the one-ply loop gives one finite "drop" evaluation per legal move, in order |
| Search.HeuristicFullSearch | worker/rust_ai_core/src/lib.rs:905-1014 | the heuristic returns a permutation sorted descending, headed by the first highest score, and chooses the first best move for the mover |
| Engine.WinScan | worker/rust_ai_core/src/lib.rs:697-717 | the loop over clones returns `Search.FirstWinningMove`, the first move that wins at once |
| Engine.BlockScan | worker/rust_ai_core/src/lib.rs:720-753 | the nested loop over clones returns `Search.FirstBlockMove`, the first move after which the opponent has a winning reply |
| Engine.AI.constructor | worker/rust_ai_core/src/lib.rs:662-668 | an empty table and zero counters, so `Valid()` (only finite scores stored) holds |
| Engine.AI.TableSize | worker/rust_ai_core/src/lib.rs:670-672 | the number of stored entries |
| Engine.AI.ClearTranspositionTable | worker/rust_ai_core/src/lib.rs:674-676 | the table is emptied, `Valid()` holds and the counters are kept |
| Engine.AI.Minimax | worker/rust_ai_core/src/lib.rs:818-897 | the score, table and counters the recursive method leaves are those of `Search.Search` on the old table and counters |
| Engine.AI.Expand | worker/rust_ai_core/src/lib.rs:852-894 | the expanding branch of minimax leaves what `Search.Search` gives for a position that is not cached, not a leaf and not over |
| Engine.AI.ChildLoop | worker/rust_ai_core/src/lib.rs:869-886 | the child loop with its pruning leaves what `Search.Children` gives from the worst score |
| Engine.AI.Visit | worker/rust_ai_core/src/lib.rs:870-885 | one iteration of the child loop: either a cut-off with the result of `Search.Children`, or the new window and best score from which `Search.Children` of the remaining moves continues |
| Engine.AI.GetBestMove | worker/rust_ai_core/src/lib.rs:678-816 | keeps `Valid()`; the returned move, the evaluations, the table and the counters are those of `Search.BestMove(old(table), state, depth)`; no stored position is lost and every returned score is finite |
| Engine.AI.RootSearch | worker/rust_ai_core/src/lib.rs:755-787 | the root loop returns the evaluations of `Search.RootScan` and the choice `Search.Choose` makes from them, and leaves the scan's table and counters |
| Engine.AI.RootStep | worker/rust_ai_core/src/lib.rs:756-786 | one root iteration advances `Search.RootScan` by one move and keeps `Search.Choose` of what remains |
| Engine.AI.RootVisit | worker/rust_ai_core/src/lib.rs:756-771 | one root move is tried on a clone and searched from the full window, as `Search.RootScan` does for the first move |
| Engine.EvalMove | worker/rust_ai_core/src/lib.rs:978-990 | a move is tried on a clone and given the static evaluation of the resulting state, or skipped when `Play.MakeMove` rejects it |
| Engine.Track | worker/rust_ai_core/src/lib.rs:772-783 | the best score and move change only on a strictly better score, as in `Search.Choose` |
| Engine.OnePly | worker/rust_ai_core/src/lib.rs:977-1009 | the one-ply loop returns `Search.EvalScan` of the moves and the choice `Search.Choose` makes from them, starting from the first move |
| Engine.OnePlyStep | worker/rust_ai_core/src/lib.rs:978-1008 | one one-ply iteration advances `Search.EvalScan` by one move and keeps `Search.Choose` of what remains |
| Engine.HeuristicAI.constructor | worker/rust_ai_core/src/lib.rs:901-903 | the node counter is 0 |
| Engine.HeuristicAI.GetBestMove | worker/rust_ai_core/src/lib.rs:905-1014 | the returned move and evaluations are those of `Search.HeuristicBest(state)`, and the counter is reset |
| Engine.HeuristicAI.ClearNodesEvaluated | worker/rust_ai_core/src/lib.rs:1016-1018 | the counter is 0 |
| Features.LineValue | worker/rust_ai_core/src/features.rs:145-212 | a line is worth 0..1000, 1000 exactly when it is four long, and nothing when shorter than 2 |
| Features.CellThreat | worker/rust_ai_core/src/features.rs:145-212 | a cell's threat is at most 1000 per direction |
| Features.ThreatColumns | worker/rust_ai_core/src/features.rs:145-212 | threat_score is never negative and is bounded |
| Features.TrialThreats | worker/rust_ai_core/src/features.rs:214-228 | the trial-move totals are never negative |
| Features.CellValue | worker/rust_ai_core/src/features.rs:16-26 | an occupancy value is 1, -1 or 0 |
| Features.Clamp | worker/rust_ai_core/src/features.rs:104-107 | a value is clamped to [-10, 10], is unchanged inside and saturates outside |
| Features.CenterControl | worker/rust_ai_core/src/features.rs:128-143 | the loops compute the weighted centre tally |
| Features.HeightAdvantage | worker/rust_ai_core/src/features.rs:306-317 | the loops compute the height tally |
| Features.MaterialBalance | worker/rust_ai_core/src/features.rs:319-323 | Player2's pieces minus Player1's |
| Features.CellThreats | worker/rust_ai_core/src/features.rs:160-207 | the direction loop computes a cell's threat |
| Features.Threats | worker/rust_ai_core/src/features.rs:145-212 | the loops compute threat_score |
| Features.TrialMoves | worker/rust_ai_core/src/features.rs:214-228 | trial moves on clones add up the threat scores |
| Features.Mobility | worker/rust_ai_core/src/features.rs:214-228 | mobility_score |
| Features.Blocking | worker/rust_ai_core/src/features.rs:289-304 | blocking_score, the opponent's trial threats |
| Features.DiagonalWalk | worker/rust_ai_core/src/features.rs:262-287 | one diagonal walk |
| Features.DiagonalControl | worker/rust_ai_core/src/features.rs:262-287 | the loops compute diagonal_control_score |
| Features.PositionalAdvantage | worker/rust_ai_core/src/features.rs:325-331 | (0.3 x centre + 0.2 x height + 0.5 x threat score) / 100, the function `PositionalAdvantageScore` |
| Features.Endgame | worker/rust_ai_core/src/features.rs:333-345 | threat score / 1000 once more than three quarters of the board is full, the positional advantage before that (`EndgameEvaluation`) |
| Features.StrategicCounts | worker/rust_ai_core/src/features.rs:28-102 | the strategic values, in source order |
| Features.WriteCells | worker/rust_ai_core/src/features.rs:13-26 | slots 0..41 hold the occupancy of column-major cells, and slots 42..99 keep their old values |
| Features.WriteCounts | worker/rust_ai_core/src/features.rs:28-102 | slots 42..64 hold the strategic values and the rest are 0 |
| Features.ClampAll | worker/rust_ai_core/src/features.rs:104-107 | every slot is clamped |
| Features.FromGameState | worker/rust_ai_core/src/features.rs:12-110 | the returned vector is `Encode(state)`: slots 0..41 the occupancy, 42..64 the strategic values, 65..99 zero, each clamped (its properties are the lemmas below) |
| Features.EncodeInRange | worker/rust_ai_core/src/features.rs:104-110 | the encoding has 100 values, all in [-10, 10] |
| Features.OccupancySlot | worker/rust_ai_core/src/features.rs:16-26 | slot col * 6 + row holds the cell's occupancy |
| Features.EmptyBoardOccupancy | worker/rust_ai_core/src/features.rs:360-368 | on the empty board the occupancy slots are all 0 |
| Features.ZeroTail | worker/rust_ai_core/src/features.rs:12-110 | slots 65..99 are 0 |
| Features.PieceSlots | worker/rust_ai_core/src/features.rs:28-40 | slots 44 and 45 hold the clamped piece counts and slot 60 the clamped material balance |
| Features.FewPiecesSlot | worker/rust_ai_core/src/features.rs:371-382 | with at most 10 Player1 pieces, slot 44 is that count exactly |
| Features.ThreatScoreWithoutPieces | worker/rust_ai_core/src/features.rs:145-212 | threat_score is 0 for a player with no piece on the board |
| Features.DiagonalZeroIffNoPieces | worker/rust_ai_core/src/features.rs:262-287 | diagonal control is 0 exactly when the player has no piece |
| Features.ControlScoresZeroIffNoPieces | worker/rust_ai_core/src/features.rs:230-287 | vertical, horizontal and diagonal control are each 0 exactly when the player has no piece |
| Worker.ParsePlayer | worker/src/lib.rs:171-175 | Player1 exactly for the token "Player1", Player2 for any other |
| Worker.ParseCell | worker/src/lib.rs:181-185 | "Player1" and "Player2" give the pieces, every other token an empty cell |
| Worker.ConvertRequestToGameState | worker/src/lib.rs:168-191 | a fresh game state whose value is `Convert(request)`: the request's board clipped to 7 x 6, its player and the default weights |
| Worker.RequestRoundTrip | worker/src/lib.rs:168-191 | every board and player come back unchanged from a request that describes them |
| Worker.ClippedEntriesIgnored | worker/src/lib.rs:178-188 | for every request, ragged ones included, cutting it down to seven columns of at most six tokens (`Clip`) does not change the state it describes |
| Worker.MissingCellsEmpty | worker/src/lib.rs:178-188 | a cell the request leaves out is empty |
| Worker.EmptyRequest | worker/src/lib.rs:168-191 | an empty board list gives the empty board |
| Worker.FloatingPieceAccepted | worker/src/lib.rs:178-188 | a piece with nothing under it is accepted as it stands: there is no gravity check |
| Worker.FromMoveEvaluation | worker/src/lib.rs:54-62 | the response record copies column, score and move type |
| Worker.CopyIsBijection | worker/src/lib.rs:47-62 | the copy and its inverse undo each other |
| Worker.ConvertEvaluations | worker/src/lib.rs:113-114 | one copied record per evaluation, in order |

## Left out

- Floating point. The genetic weights and the feature values are exact reals. `Params.Truncate` and `Params.AsI32` model the `as i32` casts. Rounding in f32/f64 arithmetic is not modelled.
- Integer widths. Scores and intermediate sums are unbounded integers. The i32 arithmetic in the evaluation cannot overflow for Connect Four boards with realistic weights, and that is not proved. The u32 node and hit counters are unbounded.
- Engine.AI.GetBestMove: the root's `depth - 1` at worker/rust_ai_core/src/lib.rs:766 is u8 arithmetic. `Search.ChildDepth` models it as the wrap of depth 0 to 255 that a release build performs. A build with overflow checks (a debug or test build) panics there at depth 0 instead, and that panic is not modelled.
- Engine.AI.Minimax: inside minimax the depth is a `nat` that only recurses while it is positive, so the u8 subtraction at worker/rust_ai_core/src/lib.rs:871 never wraps.
- Engine.AI.Minimax: the `valid_moves.is_empty()` branch at worker/rust_ai_core/src/lib.rs:855-857 is dead, because a board with no valid moves is a draw and returns earlier. The model has no such branch.
- Play.MakeMove: the `row >= ROWS` error at worker/rust_ai_core/src/lib.rs:172-174 is dead after the column check, and it is not modelled.
- The transposition key. The source hashes the board and the player with a `DefaultHasher` into a u64. The model keys the table by the (board, player) pair itself, so it has no hash collisions.
- Randomness. `GameState::new` draws the first player at random, and the model takes that draw as the `first` parameter. `GameState.WithGeneticParams` and `Worker.ConvertRequestToGameState` take it in the same way. Random and mutated genetic parameters are not modelled.
- Logging. The wasm console output at worker/rust_ai_core/src/lib.rs:796-813 and the debug prints have no effect on the result and are left out.
- Search: alpha-beta pruning is modelled as coded. That the pruned search returns the plain minimax value, and that the cache does not change the result, are not proved. Given the cache store described above, neither holds in general.
- Engine.AI.Expand, Engine.AI.RootStep, Engine.AI.Visit, Engine.AI.RootVisit, Engine.OnePlyStep and Engine.Track are pieces of single source functions. They are split off so that each proof stays small.
- Features: `pieces_count`, `vertical_control_score` and `horizontal_control_score` in features.rs are the same code as the GameState methods of the same names. They are modelled by those methods and by `Evaluation`'s functions.
- Features.FewPiecesSlot: the test `test_threat_score_features` at worker/rust_ai_core/src/features.rs:397-411 reads slot 44 as the "threat score feature index" (line 409). Slot 44 actually holds Player1's piece count; threat scores are in slots 46 and 47. The model states what the slot holds.
- The HTTP handler, CORS, JSON parsing and the response timings of worker/src/lib.rs are left out, as is `handle_health`. Only the two conversions and the evaluation map at worker/src/lib.rs:113-114 are modelled.
- The genetic algorithm's mutation and file I/O, training, self-play, MCTS, the neural-network AI, the Python scripts and the test files are not part of this model.
