/**
 * Colour symmetry of the rules and of the evaluation. Swapping the colour of
 * every piece and the player to move turns each feature of one player into
 * the same feature of the other. So the
 * evaluation changes sign, and the empty board, which is its own colour
 * swap, evaluates to 0 under every choice of weights.
 */
module Symmetry {
  import opened Wrappers
  import opened Rules
  import opened Params
  import opened Play
  import opened Evaluation
  import Features

  /** A cell with its piece recoloured. */
  function SwapCell(x: Cell): (y: Cell)
    ensures y == Empty <==> x == Empty
  {
    match x
    case Empty => Empty
    case Player1 => Cell.Player2
    case Player2 => Cell.Player1
  }

  /** The board with every piece recoloured. */
  function Swap(b: Board): (b': Board)
    ensures forall c, r | InBounds(c, r) :: b'[c][r] == SwapCell(b[c][r])
  {
    seq(COLS, c requires 0 <= c < COLS => seq(ROWS, r requires 0 <= r < ROWS => SwapCell(b[c][r])))
  }

  /** The state with every piece recoloured and the other player to move. */
  function SwapState(s: State): State {
    State(Swap(s.board), s.current.Opponent(), s.params)
  }

  function OpponentOf(w: Option<Player>): Option<Player> {
    match w
    case None => None
    case Some(p) => Some(p.Opponent())
  }

  /** In the recoloured board, the opponent owns exactly the cells `p` owned. */
  lemma SwapCellOwner(x: Cell, p: Player)
    ensures SwapCell(x) == FromPlayer(p.Opponent()) <==> x == FromPlayer(p)
  {
  }

  /** Recolouring twice gives the board back. */
  lemma SwapInvolution(b: Board)
    ensures Swap(Swap(b)) == b
  {
    SameCells(Swap(Swap(b)), b);
  }

  lemma SwapEmptyBoard()
    ensures Swap(EmptyBoard()) == EmptyBoard()
  {
    SameCells(Swap(EmptyBoard()), EmptyBoard());
  }

  // ---------------------------------------------------------------------------
  // Scans and wins

  lemma {:induction false} RunSwap(b: Board, c: int, r: int, dc: int, dr: int, p: Player)
    requires IsStep(dc, dr)
    ensures Run(Swap(b), c, r, dc, dr, p.Opponent()) == Run(b, c, r, dc, dr, p)
    decreases Budget(c, dc, COLS) + Budget(r, dr, ROWS)
  {
    OwnsSwap(b, c, r, p);
    if Owns(b, c, r, p) {
      RunSwap(b, c + dc, r + dr, dc, dr, p);
    }
  }

  lemma OwnsSwap(b: Board, c: int, r: int, p: Player)
    ensures Owns(Swap(b), c, r, p.Opponent()) == Owns(b, c, r, p)
  {
    if InBounds(c, r) {
      SwapCellOwner(b[c][r], p);
    }
  }

  lemma {:induction false} RunBlockedSwap(b: Board, c: int, r: int, dc: int, dr: int, p: Player)
    requires IsStep(dc, dr)
    ensures RunBlocked(Swap(b), c, r, dc, dr, p.Opponent()) == RunBlocked(b, c, r, dc, dr, p)
    decreases Budget(c, dc, COLS) + Budget(r, dr, ROWS)
  {
    if InBounds(c, r) {
      SwapCellOwner(b[c][r], p);
      if b[c][r] == FromPlayer(p) {
        RunBlockedSwap(b, c + dc, r + dr, dc, dr, p);
      }
    }
  }

  /** A run forward from (c1, r1) and one backward from (c2, r2), with their blocked ends, agree after recolouring. */
  lemma RunsSwap(b: Board, p: Player, c1: int, r1: int, c2: int, r2: int, dc: int, dr: int)
    requires IsStep(dc, dr)
    ensures IsStep(-dc, -dr)
    ensures Run(Swap(b), c1, r1, dc, dr, p.Opponent()) + Run(Swap(b), c2, r2, -dc, -dr, p.Opponent())
         == Run(b, c1, r1, dc, dr, p) + Run(b, c2, r2, -dc, -dr, p)
    ensures RunBlocked(Swap(b), c1, r1, dc, dr, p.Opponent()) + RunBlocked(Swap(b), c2, r2, -dc, -dr, p.Opponent())
         == RunBlocked(b, c1, r1, dc, dr, p) + RunBlocked(b, c2, r2, -dc, -dr, p)
  {
    RunSwap(b, c1, r1, dc, dr, p);
    RunSwap(b, c2, r2, -dc, -dr, p);
    RunBlockedSwap(b, c1, r1, dc, dr, p);
    RunBlockedSwap(b, c2, r2, -dc, -dr, p);
  }

  lemma CountInDirectionSwap(b: Board, col: int, row: int, dc: int, dr: int, p: Player)
    requires IsStep(dc, dr)
    ensures CountInDirection(Swap(b), col, row, dc, dr, p.Opponent()) == CountInDirection(b, col, row, dc, dr, p)
  {
    RunsSwap(b, p, col + dc, row + dr, col - dc, row - dr, dc, dr);
  }

  lemma {:induction false} WinAlongFromSwap(b: Board, col: int, row: int, p: Player, k: nat)
    ensures WinAlongFrom(Swap(b), col, row, p.Opponent(), k) == WinAlongFrom(b, col, row, p, k)
    decreases 4 - k
  {
    if k < 4 {
      DirectionsAreSteps();
      CountInDirectionSwap(b, col, row, Directions[k].0, Directions[k].1, p);
      WinAlongFromSwap(b, col, row, p, k + 1);
    }
  }

  /** check_win_at sees the opponent's line on the recoloured board exactly where it saw `p`'s. */
  lemma CheckWinAtSwap(b: Board, col: int, row: int, p: Player)
    ensures CheckWinAt(Swap(b), col, row, p.Opponent()) == CheckWinAt(b, col, row, p)
  {
    WinAlongFromSwap(b, col, row, p, 0);
  }

  lemma WinsAtSwap(b: Board, c: int, r: int)
    ensures WinsAt(Swap(b), c, r) == WinsAt(b, c, r)
  {
    if InBounds(c, r) && b[c][r] != Empty {
      var p := ToPlayer(b[c][r]).value;
      assert ToPlayer(Swap(b)[c][r]).value == p.Opponent();
      CheckWinAtSwap(b, c, r, p);
    }
  }

  lemma {:induction false} WinnerFromSwap(b: Board, col: int, row: int)
    requires 0 <= col <= COLS && 0 <= row <= ROWS
    ensures WinnerFrom(Swap(b), col, row) == OpponentOf(WinnerFrom(b, col, row))
    decreases COLS - col, ROWS - row
  {
    if col < COLS {
      if row == ROWS {
        WinnerFromSwap(b, col + 1, 0);
      } else {
        WinsAtSwap(b, col, row);
        if !WinsAt(b, col, row) {
          WinnerFromSwap(b, col, row + 1);
        }
      }
    }
  }

  /** The recoloured board has the recoloured winner. */
  lemma GetWinnerSwap(b: Board)
    ensures GetWinner(Swap(b)) == OpponentOf(GetWinner(b))
  {
    WinnerFromSwap(b, 0, 0);
  }

  lemma {:induction false} ValidMovesBelowSwap(b: Board, n: int)
    requires 0 <= n <= COLS
    ensures ValidMovesBelow(Swap(b), n) == ValidMovesBelow(b, n)
  {
    if n > 0 {
      ValidMovesBelowSwap(b, n - 1);
    }
  }

  /** Recolouring changes neither the legal moves nor whether the game is drawn. */
  lemma ValidMovesSwap(b: Board)
    ensures ValidMoves(Swap(b)) == ValidMoves(b)
    ensures IsDraw(Swap(b)) == IsDraw(b)
  {
    ValidMovesBelowSwap(b, COLS);
  }

  lemma {:induction false} LowestEmptyRowBelowSwap(b: Board, col: int, n: int)
    requires 0 <= col < COLS && 0 <= n <= ROWS
    ensures LowestEmptyRowBelow(Swap(b), col, n) == LowestEmptyRowBelow(b, col, n)
  {
    if n > 0 {
      LowestEmptyRowBelowSwap(b, col, n - 1);
    }
  }

  /** A drop of the opponent on the recoloured board is the recoloured drop of `p`. */
  lemma DropSwap(b: Board, col: int, p: Player)
    requires CanPlaceInColumn(b, col)
    ensures CanPlaceInColumn(Swap(b), col)
    ensures LowestEmptyRow(Swap(b), col) == LowestEmptyRow(b, col)
    ensures Drop(Swap(b), col, p.Opponent()) == Swap(Drop(b, col, p))
  {
    LowestEmptyRowBelowSwap(b, col, ROWS);
    SameCells(Drop(Swap(b), col, p.Opponent()), Swap(Drop(b, col, p)));
  }

  // ---------------------------------------------------------------------------
  // The evaluation terms

  lemma {:induction false} TallyColumnSwap(b: Board, p: Player, w: Weighting, col: int, n: int)
    requires 0 <= col < COLS && 0 <= n <= ROWS
    ensures TallyColumn(Swap(b), p.Opponent(), w, col, n) == TallyColumn(b, p, w, col, n)
  {
    if n > 0 {
      SwapCellOwner(b[col][n - 1], p);
      TallyColumnSwap(b, p, w, col, n - 1);
    }
  }

  /** Every per-cell tally of `p` is the opponent's tally on the recoloured board. */
  lemma {:induction false} TallySwap(b: Board, p: Player, w: Weighting, lo: int, hi: int)
    requires 0 <= lo <= hi <= COLS
    ensures TallyColumns(Swap(b), p.Opponent(), w, lo, hi) == TallyColumns(b, p, w, lo, hi)
  {
    if hi > lo {
      TallySwap(b, p, w, lo, hi - 1);
      TallyColumnSwap(b, p, w, hi - 1, ROWS);
    }
  }

  /** `b'` has a piece of `q` exactly where `b` has one of `p`. */
  ghost predicate SameOwnership(b: Board, p: Player, b': Board, q: Player) {
    forall c, r | InBounds(c, r) :: (b'[c][r] == FromPlayer(q)) == (b[c][r] == FromPlayer(p))
  }

  lemma SwapOwnership(b: Board, p: Player)
    ensures SameOwnership(b, p, Swap(b), p.Opponent())
  {
    forall c, r | InBounds(c, r)
      ensures (Swap(b)[c][r] == FromPlayer(p.Opponent())) == (b[c][r] == FromPlayer(p))
    {
      SwapCellOwner(b[c][r], p);
    }
  }

  /** A walk sees only where the player's pieces are. */
  lemma {:induction false} WalkSame(b: Board, p: Player, b': Board, q: Player, c: int, r: int, dc: int, dr: int, cons: nat)
    requires IsStep(dc, dr) && SameOwnership(b, p, b', q)
    ensures Walk(b', q, c, r, dc, dr, cons) == Walk(b, p, c, r, dc, dr, cons)
    decreases Budget(c, dc, COLS) + Budget(r, dr, ROWS)
  {
    if InBounds(c, r) {
      var k := Streak(b, p, c, r, cons);
      BudgetShrinks(c, r, dc, dr);
      WalkSame(b, p, b', q, c + dc, r + dr, dc, dr, k);
      WalkStepSame(b, p, b', q, c, r, dc, dr, cons);
    }
  }

  /** The streak after visiting (c, r). */
  function Streak(b: Board, p: Player, c: int, r: int, cons: nat): nat
    requires InBounds(c, r)
  {
    if b[c][r] == FromPlayer(p) then cons + 1 else 0
  }

  /** One step of a walk: equal streaks at (c, r) and equal remaining walks give equal walks. */
  lemma WalkStepSame(b: Board, p: Player, b': Board, q: Player, c: int, r: int, dc: int, dr: int, cons: nat)
    requires IsStep(dc, dr) && SameOwnership(b, p, b', q) && InBounds(c, r)
    requires Walk(b', q, c + dc, r + dr, dc, dr, Streak(b, p, c, r, cons))
          == Walk(b, p, c + dc, r + dr, dc, dr, Streak(b, p, c, r, cons))
    ensures Walk(b', q, c, r, dc, dr, cons) == Walk(b, p, c, r, dc, dr, cons)
  {
    assert Streak(b', q, c, r, cons) == Streak(b, p, c, r, cons);
  }

  lemma BudgetShrinks(c: int, r: int, dc: int, dr: int)
    requires IsStep(dc, dr) && InBounds(c, r)
    ensures Budget(c + dc, dc, COLS) + Budget(r + dr, dr, ROWS) < Budget(c, dc, COLS) + Budget(r, dr, ROWS)
  {
  }

  lemma WalkSwap(b: Board, p: Player, c: int, r: int, dc: int, dr: int, cons: nat)
    requires IsStep(dc, dr)
    ensures Walk(Swap(b), p.Opponent(), c, r, dc, dr, cons) == Walk(b, p, c, r, dc, dr, cons)
  {
    SwapOwnership(b, p);
    WalkSame(b, p, Swap(b), p.Opponent(), c, r, dc, dr, cons);
  }

  lemma {:induction false} ColumnWalksSwap(b: Board, p: Player, n: int)
    requires 0 <= n <= COLS
    ensures ColumnWalks(Swap(b), p.Opponent(), n) == ColumnWalks(b, p, n)
  {
    if n > 0 {
      ColumnWalksSwap(b, p, n - 1);
      WalkSwap(b, p, n - 1, 0, 0, 1, 0);
    }
  }

  lemma {:induction false} RowWalksSwap(b: Board, p: Player, n: int)
    requires 0 <= n <= ROWS
    ensures RowWalks(Swap(b), p.Opponent(), n) == RowWalks(b, p, n)
  {
    if n > 0 {
      RowWalksSwap(b, p, n - 1);
      WalkSwap(b, p, 0, n - 1, 1, 0, 0);
    }
  }

  lemma AxisThreatSwap(b: Board, col: int, row: int, dc: int, dr: int, p: Player)
    requires IsStep(dc, dr)
    ensures AxisThreat(Swap(b), col, row, dc, dr, p.Opponent()) == AxisThreat(b, col, row, dc, dr, p)
  {
    RunsSwap(b, p, col, row, col - dc, row - dr, dc, dr);
  }

  lemma {:induction false} ThreatsPrefixSwap(b: Board, col: int, row: int, p: Player, k: int)
    requires 0 <= k <= 4
    ensures ThreatsPrefix(Swap(b), col, row, p.Opponent(), k) == ThreatsPrefix(b, col, row, p, k)
  {
    if k > 0 {
      DirectionsAreSteps();
      ThreatsPrefixSwap(b, col, row, p, k - 1);
      AxisThreatSwap(b, col, row, Directions[k - 1].0, Directions[k - 1].1, p);
    }
  }

  /** count_threats_at of the opponent on the recoloured board is that of `p`. */
  lemma CountThreatsAtSwap(b: Board, col: int, row: int, p: Player)
    ensures CountThreatsAt(Swap(b), col, row, p.Opponent()) == CountThreatsAt(b, col, row, p)
  {
    ThreatsPrefixSwap(b, col, row, p, 4);
  }

  lemma DropThreatSwap(b: Board, col: int, p: Player)
    requires CanPlaceInColumn(b, col)
    ensures CanPlaceInColumn(Swap(b), col)
    ensures DropThreat(Swap(b), col, p.Opponent()) == DropThreat(b, col, p)
  {
    DropSwap(b, col, p);
    var row := LowestEmptyRow(b, col);
    CheckWinAtSwap(Drop(b, col, p), col, row, p);
    CountThreatsAtSwap(Drop(b, col, p), col, row, p);
  }

  lemma {:induction false} ThreatScoreBelowSwap(b: Board, p: Player, n: int)
    requires 0 <= n <= COLS
    ensures ThreatScoreBelow(Swap(b), p.Opponent(), n) == ThreatScoreBelow(b, p, n)
  {
    if n > 0 {
      ThreatScoreBelowSwap(b, p, n - 1);
      if CanPlaceInColumn(b, n - 1) {
        DropThreatSwap(b, n - 1, p);
      }
    }
  }

  /** threat_score is colour-blind: the opponent on the recoloured board scores what `p` scored. */
  lemma ThreatScoreSwap(b: Board, p: Player)
    ensures ThreatScore(Swap(b), p.Opponent()) == ThreatScore(b, p)
  {
    ThreatScoreBelowSwap(b, p, COLS);
  }

  lemma DropDefenceSwap(b: Board, col: int, p: Player)
    requires CanPlaceInColumn(b, col)
    ensures CanPlaceInColumn(Swap(b), col)
    ensures DropDefence(Swap(b), col, p.Opponent()) == DropDefence(b, col, p)
  {
    DropSwap(b, col, p);
    var row, o := LowestEmptyRow(b, col), p.Opponent();
    assert p.Opponent().Opponent() == p;
    CheckWinAtSwap(Drop(b, col, p), col, row, o);
    CountThreatsAtSwap(b, col, row, o);
    CountThreatsAtSwap(Drop(b, col, p), col, row, o);
  }

  lemma {:induction false} DefensiveBelowSwap(b: Board, p: Player, n: int)
    requires 0 <= n <= COLS
    ensures DefensiveBelow(Swap(b), p.Opponent(), n) == DefensiveBelow(b, p, n)
  {
    if n > 0 {
      DefensiveBelowSwap(b, p, n - 1);
      if CanPlaceInColumn(b, n - 1) {
        DropDefenceSwap(b, n - 1, p);
      }
    }
  }

  /**
   * defensive_score is colour-blind: on the recoloured board the opponent
   * blocks exactly what `p` blocked.
   */
  lemma DefensiveScoreSwap(b: Board, p: Player)
    ensures DefensiveScore(Swap(b), p.Opponent()) == DefensiveScore(b, p)
  {
    DefensiveBelowSwap(b, p, COLS);
  }

  lemma {:induction false} MobilityBelowSwap(b: Board, mover: Player, p: Player, n: int)
    requires 0 <= n <= COLS
    ensures MobilityBelow(Swap(b), mover.Opponent(), p.Opponent(), n) == MobilityBelow(b, mover, p, n)
  {
    if n > 0 {
      MobilityBelowSwap(b, mover, p, n - 1);
      MobilityColumnSwap(b, mover, p, n - 1);
    }
  }

  /** One column's trial move scores alike on the recoloured board. */
  lemma MobilityColumnSwap(b: Board, mover: Player, p: Player, col: int)
    requires 0 <= col < COLS
    ensures CanPlaceInColumn(Swap(b), col) == CanPlaceInColumn(b, col)
    ensures CanPlaceInColumn(b, col) ==>
      ThreatScore(Drop(Swap(b), col, mover.Opponent()), p.Opponent()) == ThreatScore(Drop(b, col, mover), p)
  {
    assert Swap(b)[col][0] == SwapCell(b[col][0]);
    if CanPlaceInColumn(b, col) {
      DropSwap(b, col, mover);
      ThreatScoreSwap(Drop(b, col, mover), p);
    }
  }

  lemma MobilityScoreSwap(b: Board, mover: Player, p: Player)
    ensures MobilityScore(Swap(b), mover.Opponent(), p.Opponent()) == MobilityScore(b, mover, p)
  {
    MobilityBelowSwap(b, mover, p, COLS);
    assert IsEmptyBoard(Swap(b)) <==> IsEmptyBoard(b);
  }

  // ---------------------------------------------------------------------------
  // The evaluation

  /** Swapping both players negates every weighted term, so the weighted sum changes sign. */
  lemma WeightedSumSwap(s: State)
    ensures WeightedSum(SwapState(s)) == -WeightedSum(s)
  {
    var b, w := s.board, s.params;
    var p1, p2 := Player.Player1, Player.Player2;
    TallySwap(b, p1, Position(w), 0, COLS);
    TallySwap(b, p2, Position(w), 0, COLS);
    TallySwap(b, p1, Height, 2, 5);
    TallySwap(b, p2, Height, 2, 5);
    TallySwap(b, p1, One, 0, COLS);
    TallySwap(b, p2, One, 0, COLS);
    ThreatScoreSwap(b, p1);
    ThreatScoreSwap(b, p2);
    MobilityScoreSwap(b, s.current, p1);
    MobilityScoreSwap(b, s.current, p2);
    ColumnWalksSwap(b, p1, COLS);
    ColumnWalksSwap(b, p2, COLS);
    RowWalksSwap(b, p1, ROWS);
    RowWalksSwap(b, p2, ROWS);
    DefensiveScoreSwap(b, p1);
    DefensiveScoreSwap(b, p2);
  }

  /** The evaluation is colour-symmetric: recolouring the position negates evaluate. */
  lemma EvaluateSwap(s: State)
    ensures Evaluate(SwapState(s)) == -Evaluate(s)
  {
    GetWinnerSwap(s.board);
    ValidMovesSwap(s.board);
    WeightedSumSwap(s);
  }

  /**
   * The same holds for evaluate_with_genetic_params whenever the loss score
   * is the negated win score, as in the default weights.
   */
  lemma EvaluateWithGeneticParamsSwap(s: State)
    requires s.params.lossScore == -s.params.winScore
    ensures EvaluateWithGeneticParams(SwapState(s)) == -EvaluateWithGeneticParams(s)
  {
    GetWinnerSwap(s.board);
    ValidMovesSwap(s.board);
    WeightedSumSwap(s);
  }

  /** The mover enters the weighted sum only through the mobility terms. */
  lemma SumIgnoresMover(b: Board, p: Player, q: Player, w: GeneticParams)
    requires MobilityScore(b, p, Player.Player1) == MobilityScore(b, q, Player.Player1)
    requires MobilityScore(b, p, Player.Player2) == MobilityScore(b, q, Player.Player2)
    ensures WeightedSum(State(b, p, w)) == WeightedSum(State(b, q, w))
  {
  }

  /**
   * On the empty board mobility is 0 whoever moves, so the recoloured state
   * has the same weighted sum.
   */
  lemma EmptyBoardSwapSum(s: State)
    requires s.board == EmptyBoard()
    ensures WeightedSum(SwapState(s)) == WeightedSum(s)
  {
    SwapEmptyBoard();
    var b, p, w := s.board, s.current, s.params;
    assert SwapState(s) == State(b, p.Opponent(), w);
    assert s == State(b, p, w);
    assert IsEmptyBoard(b);
    SumIgnoresMover(b, p.Opponent(), p, w);
  }

  /** The empty board evaluates to 0 under every weights and with either player to move. */
  lemma EvaluateEmptyBoard(s: State)
    requires s.board == EmptyBoard()
    ensures Evaluate(s) == 0 && EvaluateWithGeneticParams(s) == 0
  {
    WeightedSumEmptyBoard(s);
    EmptyBoardIsOpen();
    OpenGameScore(s);
  }

  /** While the game is open both evaluators return the weighted sum. */
  lemma OpenGameScore(s: State)
    requires !IsGameOver(s.board)
    ensures Evaluate(s) == WeightedSum(s) && EvaluateWithGeneticParams(s) == WeightedSum(s)
  {
  }

  /** Every weighted term cancels on the empty board. */
  lemma WeightedSumEmptyBoard(s: State)
    requires s.board == EmptyBoard()
    ensures WeightedSum(s) == 0
  {
    WeightedSumSwap(s);
    EmptyBoardSwapSum(s);
    SelfNegationIsZero(WeightedSum(s), WeightedSum(SwapState(s)));
  }

  lemma SelfNegationIsZero(x: int, y: int)
    requires y == -x && y == x
    ensures x == 0
  {
  }

  // ---------------------------------------------------------------------------
  // The threat, mobility and blocking counts of the feature encoding

  lemma FeatureAxisSwap(b: Board, col: int, row: int, dc: int, dr: int, p: Player)
    requires IsStep(dc, dr)
    ensures Features.AxisValue(Swap(b), col, row, dc, dr, p.Opponent()) == Features.AxisValue(b, col, row, dc, dr, p)
  {
    RunsSwap(b, p, col + dc, row + dr, col - dc, row - dr, dc, dr);
    CountInDirectionSwap(b, col, row, dc, dr, p);
  }

  lemma {:induction false} FeatureCellThreatSwap(b: Board, col: int, row: int, p: Player, k: int)
    requires 0 <= k <= 4
    ensures Features.CellThreat(Swap(b), col, row, p.Opponent(), k) == Features.CellThreat(b, col, row, p, k)
  {
    if k > 0 {
      DirectionsAreSteps();
      FeatureCellThreatSwap(b, col, row, p, k - 1);
      FeatureAxisSwap(b, col, row, Directions[k - 1].0, Directions[k - 1].1, p);
    }
  }

  lemma {:induction false} FeatureThreatColumnSwap(b: Board, p: Player, col: int, n: int)
    requires 0 <= col < COLS && 0 <= n <= ROWS
    ensures Features.ThreatColumn(Swap(b), p.Opponent(), col, n) == Features.ThreatColumn(b, p, col, n)
  {
    if n > 0 {
      FeatureThreatColumnSwap(b, p, col, n - 1);
      SwapCellOwner(b[col][n - 1], p);
      FeatureCellThreatSwap(b, col, n - 1, p, 4);
    }
  }

  lemma {:induction false} FeatureThreatColumnsSwap(b: Board, p: Player, n: int)
    requires 0 <= n <= COLS
    ensures Features.ThreatColumns(Swap(b), p.Opponent(), n) == Features.ThreatColumns(b, p, n)
  {
    if n > 0 {
      FeatureThreatColumnsSwap(b, p, n - 1);
      FeatureThreatColumnSwap(b, p, n - 1, ROWS);
    }
  }

  /** The feature encoding's threat_score is colour-blind. */
  lemma FeatureThreatScoreSwap(b: Board, p: Player)
    ensures Features.ThreatScore(Swap(b), p.Opponent()) == Features.ThreatScore(b, p)
  {
    FeatureThreatColumnsSwap(b, p, COLS);
  }

  /** One column's trial move scores alike in the recoloured state. */
  lemma TrialColumnSwap(s: State, p: Player, col: int)
    requires 0 <= col < COLS
    ensures CanPlaceInColumn(SwapState(s).board, col) == CanPlaceInColumn(s.board, col)
    ensures CanPlaceInColumn(s.board, col) ==>
      Play.MakeMove(SwapState(s), col).Ok? && Play.MakeMove(s, col).Ok? &&
      Features.ThreatScore(Play.MakeMove(SwapState(s), col).value.board, p.Opponent())
        == Features.ThreatScore(Play.MakeMove(s, col).value.board, p)
  {
    assert Swap(s.board)[col][0] == SwapCell(s.board[col][0]);
    if CanPlaceInColumn(s.board, col) {
      DropSwap(s.board, col, s.current);
      FeatureThreatScoreSwap(Drop(s.board, col, s.current), p);
    }
  }

  lemma {:induction false} TrialThreatsSwap(s: State, p: Player, n: int)
    requires 0 <= n <= COLS
    ensures Features.TrialThreats(SwapState(s), p.Opponent(), n) == Features.TrialThreats(s, p, n)
  {
    if n > 0 {
      TrialThreatsSwap(s, p, n - 1);
      TrialColumnSwap(s, p, n - 1);
    }
  }

  /** The feature encoding's mobility and blocking counts are colour-blind. */
  lemma FeatureMobilitySwap(s: State, p: Player)
    ensures Features.MobilityScore(SwapState(s), p.Opponent()) == Features.MobilityScore(s, p)
    ensures Features.BlockingScore(SwapState(s), p.Opponent()) == Features.BlockingScore(s, p)
  {
    TrialThreatsSwap(s, p, COLS);
    TrialThreatsSwap(s, p.Opponent(), COLS);
  }
}
