/**
 * The static evaluator as functions of a value state.
 *
 * Every feature of evaluate_with_genetic_params is computed for Player1 and
 * for Player2 and enters the score as (Player1 feature - Player2 feature) x
 * truncated weight, so positive scores favour Player1. The source computes
 * each feature with accumulator loops; the methods of class GameState
 * (module Game) are those loops, proved equal to the functions here.
 */
module Evaluation {
  import opened Wrappers
  import opened Rules
  import opened Params
  import opened Play

  // ---------------------------------------------------------------------------
  // Per-cell tallies: the sum of a weight over the cells a player owns

  /** The per-cell weights used by the counting loops. */
  datatype Weighting =
    | One                        // pieces_count
    | Height                     // 6 - row: center_control_score, height_advantage_score
    | CenterColumn               // 3 in column 3, 2 in columns 2 and 4 (features.rs)
    | Fixed                      // position_score: 100/50/10/1 by column, times 6 - row
    | Position(params: GeneticParams)  // the positional term of evaluate_with_genetic_params

  /** The hard-coded column values of position_score. */
  function FixedColumnValue(col: int): int {
    if col == 3 then 100
    else if col == 2 || col == 4 then 50
    else if col == 1 || col == 5 then 10
    else 1
  }

  /**
   * The f64 product `column_value * (ROWS - row) * row_height_weight`, cast to
   * i32. The first product is of two integers and is exact in f64, so it is
   * taken as an integer product here.
   */
  function PositionTerm(params: GeneticParams, col: int, row: int): int {
    AsI32((ColumnValue(params, col) * (ROWS - row)) as real * params.rowHeightWeight)
  }

  function WeightOf(w: Weighting, col: int, row: int): int {
    match w
    case One => 1
    case Height => ROWS - row
    case CenterColumn => if col == 3 then 3 else if col == 2 || col == 4 then 2 else 1
    case Fixed => FixedColumnValue(col) * (ROWS - row)
    case Position(params) => PositionTerm(params, col, row)
  }

  /** The weight of `p`'s cells among rows 0 .. n-1 of column `col`. */
  function TallyColumn(b: Board, p: Player, w: Weighting, col: int, n: int): int
    requires 0 <= col < COLS && 0 <= n <= ROWS
  {
    if n == 0 then 0
    else TallyColumn(b, p, w, col, n - 1) + (if b[col][n - 1] == FromPlayer(p) then WeightOf(w, col, n - 1) else 0)
  }

  /** The weight of `p`'s cells in columns lo .. hi-1. */
  function TallyColumns(b: Board, p: Player, w: Weighting, lo: int, hi: int): int
    requires 0 <= lo <= hi <= COLS
  {
    if hi == lo then 0 else TallyColumns(b, p, w, lo, hi - 1) + TallyColumn(b, p, w, hi - 1, ROWS)
  }

  /** `p` has no piece on the board. */
  predicate NoPieces(b: Board, p: Player) {
    forall c, r | 0 <= c < COLS && 0 <= r < ROWS :: b[c][r] != FromPlayer(p)
  }

  lemma {:induction false} TallyColumnZero(b: Board, p: Player, w: Weighting, col: int, n: int)
    requires 0 <= col < COLS && 0 <= n <= ROWS
    requires forall r | 0 <= r < ROWS :: WeightOf(w, col, r) > 0
    ensures TallyColumn(b, p, w, col, n) >= 0
    ensures TallyColumn(b, p, w, col, n) == 0 <==> forall r | 0 <= r < n :: b[col][r] != FromPlayer(p)
  {
    if n > 0 {
      TallyColumnZero(b, p, w, col, n - 1);
    }
  }

  /** With positive weights a tally is non-negative, and zero exactly when `p` owns no cell in the range. */
  lemma {:induction false} TallyZero(b: Board, p: Player, w: Weighting, lo: int, hi: int)
    requires 0 <= lo <= hi <= COLS
    requires forall c, r | lo <= c < hi && 0 <= r < ROWS :: WeightOf(w, c, r) > 0
    ensures TallyColumns(b, p, w, lo, hi) >= 0
    ensures TallyColumns(b, p, w, lo, hi) == 0 <==>
      forall c, r | lo <= c < hi && 0 <= r < ROWS :: b[c][r] != FromPlayer(p)
  {
    if hi > lo {
      TallyZero(b, p, w, lo, hi - 1);
      TallyColumnZero(b, p, w, hi - 1, ROWS);
    }
  }

  lemma {:induction false} TallyColumnSame(b: Board, p: Player, w1: Weighting, w2: Weighting, col: int, n: int)
    requires 0 <= col < COLS && 0 <= n <= ROWS
    requires forall r | 0 <= r < ROWS :: WeightOf(w1, col, r) == WeightOf(w2, col, r)
    ensures TallyColumn(b, p, w1, col, n) == TallyColumn(b, p, w2, col, n)
  {
    if n > 0 {
      TallyColumnSame(b, p, w1, w2, col, n - 1);
    }
  }

  /** Tallies under pointwise equal weights are equal. */
  lemma {:induction false} TallySame(b: Board, p: Player, w1: Weighting, w2: Weighting, lo: int, hi: int)
    requires 0 <= lo <= hi <= COLS
    requires forall c, r | lo <= c < hi && 0 <= r < ROWS :: WeightOf(w1, c, r) == WeightOf(w2, c, r)
    ensures TallyColumns(b, p, w1, lo, hi) == TallyColumns(b, p, w2, lo, hi)
  {
    if hi > lo {
      TallySame(b, p, w1, w2, lo, hi - 1);
      TallyColumnSame(b, p, w1, w2, hi - 1, ROWS);
    }
  }

  /** pieces_count. */
  function PiecesCount(b: Board, p: Player): int {
    TallyColumns(b, p, One, 0, COLS)
  }

  /** lib.rs center_control_score: 6 - row for each piece in columns 2, 3 and 4. */
  function CenterControlScore(b: Board, p: Player): int {
    TallyColumns(b, p, Height, 2, 5)
  }

  /** position_score: the column value times 6 - row over the player's pieces. */
  function PositionScore(b: Board, p: Player): int {
    TallyColumns(b, p, Fixed, 0, COLS)
  }

  /** The positional term of evaluate_with_genetic_params: Player1's weights minus Player2's. */
  function PositionBalance(b: Board, params: GeneticParams): int {
    TallyColumns(b, Player.Player1, Position(params), 0, COLS) - TallyColumns(b, Player.Player2, Position(params), 0, COLS)
  }

  /** The piece count is zero exactly when the player has no piece, and the other tallies are then zero too. */
  lemma PiecesCountZero(b: Board, p: Player)
    ensures PiecesCount(b, p) >= 0 && CenterControlScore(b, p) >= 0 && PositionScore(b, p) >= 0
    ensures PiecesCount(b, p) == 0 <==> NoPieces(b, p)
    ensures NoPieces(b, p) ==> CenterControlScore(b, p) == 0 && PositionScore(b, p) == 0
  {
    TallyZero(b, p, One, 0, COLS);
    TallyZero(b, p, Height, 2, 5);
    TallyZero(b, p, Fixed, 0, COLS);
  }

  lemma {:induction false} FixedProductBounds(c: int, h: int)
    requires 1 <= h <= ROWS
    ensures 1 <= FixedColumnValue(c) * h <= 600
  {
    if c == 3 {
      assert FixedColumnValue(c) * h == 100 * h;
    } else if c == 2 || c == 4 {
      assert FixedColumnValue(c) * h == 50 * h;
    } else if c == 1 || c == 5 {
      assert FixedColumnValue(c) * h == 10 * h;
    }
  }

  /** Under the default weights the f64 product is an exact small integer, so the cast keeps it. */
  lemma {:induction false} DefaultPositionTerm(c: int, r: int)
    requires 0 <= c < COLS && 0 <= r < ROWS
    ensures WeightOf(Position(Default()), c, r) == WeightOf(Fixed, c, r)
  {
    var n := FixedColumnValue(c) * (ROWS - r);
    assert ColumnValue(Default(), c) == FixedColumnValue(c);
    FixedProductBounds(c, ROWS - r);
    assert Truncate(n as real * 1.0) == n;
  }

  /** With the default weights the positional term is position_score(Player1) - position_score(Player2). */
  lemma DefaultPositionBalance(b: Board)
    ensures PositionBalance(b, Default()) == PositionScore(b, Player.Player1) - PositionScore(b, Player.Player2)
  {
    forall c, r | 0 <= c < COLS && 0 <= r < ROWS
      ensures WeightOf(Position(Default()), c, r) == WeightOf(Fixed, c, r)
    {
      DefaultPositionTerm(c, r);
    }
    TallySame(b, Player.Player1, Position(Default()), Fixed, 0, COLS);
    TallySame(b, Player.Player2, Position(Default()), Fixed, 0, COLS);
  }

  // ---------------------------------------------------------------------------
  // Running streaks: vertical, horizontal and diagonal control

  /**
   * The walk from (c, r) in steps of (dc, dr) to the edge of the board, where
   * `consecutive` counts the current streak of `p`'s cells and is added to the
   * score after every cell; `cons` is the streak before (c, r).
   */
  function Walk(b: Board, p: Player, c: int, r: int, dc: int, dr: int, cons: nat): nat
    requires IsStep(dc, dr)
    decreases Budget(c, dc, COLS) + Budget(r, dr, ROWS)
  {
    if !InBounds(c, r) then 0
    else
      var k := if b[c][r] == FromPlayer(p) then cons + 1 else 0;
      k + Walk(b, p, c + dc, r + dr, dc, dr, k)
  }

  /** The sum of the walks down columns 0 .. n-1. */
  function ColumnWalks(b: Board, p: Player, n: int): nat
    requires 0 <= n <= COLS
  {
    if n == 0 then 0 else ColumnWalks(b, p, n - 1) + Walk(b, p, n - 1, 0, 0, 1, 0)
  }

  /** The sum of the walks along rows 0 .. n-1. */
  function RowWalks(b: Board, p: Player, n: int): nat
    requires 0 <= n <= ROWS
  {
    if n == 0 then 0 else RowWalks(b, p, n - 1) + Walk(b, p, 0, n - 1, 1, 0, 0)
  }

  /** vertical_control_score. */
  function VerticalControlScore(b: Board, p: Player): nat {
    ColumnWalks(b, p, COLS)
  }

  /** horizontal_control_score. */
  function HorizontalControlScore(b: Board, p: Player): nat {
    RowWalks(b, p, ROWS)
  }

  /** Without pieces of `p` every walk adds nothing. */
  lemma {:induction false} WalkWithoutPieces(b: Board, p: Player, c: int, r: int, dc: int, dr: int, cons: nat)
    requires IsStep(dc, dr) && NoPieces(b, p)
    ensures Walk(b, p, c, r, dc, dr, cons) == 0
    decreases Budget(c, dc, COLS) + Budget(r, dr, ROWS)
  {
    if InBounds(c, r) {
      WalkWithoutPieces(b, p, c + dc, r + dr, dc, dr, 0);
    }
  }

  /** A walk that adds nothing passes no piece of `p`, starting with its first cell. */
  lemma WalkZeroStart(b: Board, p: Player, c: int, r: int, dc: int, dr: int, cons: nat)
    requires IsStep(dc, dr) && InBounds(c, r) && Walk(b, p, c, r, dc, dr, cons) == 0
    ensures b[c][r] != FromPlayer(p) && Walk(b, p, c + dc, r + dr, dc, dr, 0) == 0
  {
  }

  lemma {:induction false} ColumnWalkZero(b: Board, p: Player, c: int, r: int)
    requires 0 <= c < COLS && 0 <= r <= ROWS && Walk(b, p, c, r, 0, 1, 0) == 0
    ensures forall r' | r <= r' < ROWS :: b[c][r'] != FromPlayer(p)
    decreases ROWS - r
  {
    if r < ROWS {
      WalkZeroStart(b, p, c, r, 0, 1, 0);
      ColumnWalkZero(b, p, c, r + 1);
    }
  }

  lemma {:induction false} RowWalkZero(b: Board, p: Player, c: int, r: int)
    requires 0 <= c <= COLS && 0 <= r < ROWS && Walk(b, p, c, r, 1, 0, 0) == 0
    ensures forall c' | c <= c' < COLS :: b[c'][r] != FromPlayer(p)
    decreases COLS - c
  {
    if c < COLS {
      WalkZeroStart(b, p, c, r, 1, 0, 0);
      RowWalkZero(b, p, c + 1, r);
    }
  }

  lemma {:induction false} ColumnWalksZero(b: Board, p: Player, n: int)
    requires 0 <= n <= COLS
    ensures ColumnWalks(b, p, n) == 0 <==> forall c, r | 0 <= c < n && 0 <= r < ROWS :: b[c][r] != FromPlayer(p)
  {
    if n > 0 {
      ColumnWalksZero(b, p, n - 1);
      if Walk(b, p, n - 1, 0, 0, 1, 0) == 0 {
        ColumnWalkZero(b, p, n - 1, 0);
      } else {
        var col := n - 1;
        if forall r | 0 <= r < ROWS :: b[col][r] != FromPlayer(p) {
          ColumnWalkFree(b, p, col, 0, 0);
        }
      }
    }
  }

  /** A column walk over cells none of which is `p`'s adds nothing. */
  lemma {:induction false} ColumnWalkFree(b: Board, p: Player, c: int, r: int, cons: nat)
    requires 0 <= c < COLS && 0 <= r <= ROWS
    requires forall r' | r <= r' < ROWS :: b[c][r'] != FromPlayer(p)
    ensures Walk(b, p, c, r, 0, 1, cons) == 0
    decreases ROWS - r
  {
    if r < ROWS {
      ColumnWalkFree(b, p, c, r + 1, 0);
    }
  }

  /** A row walk over cells none of which is `p`'s adds nothing. */
  lemma {:induction false} RowWalkFree(b: Board, p: Player, c: int, r: int, cons: nat)
    requires 0 <= c <= COLS && 0 <= r < ROWS
    requires forall c' | c <= c' < COLS :: b[c'][r] != FromPlayer(p)
    ensures Walk(b, p, c, r, 1, 0, cons) == 0
    decreases COLS - c
  {
    if c < COLS {
      RowWalkFree(b, p, c + 1, r, 0);
    }
  }

  lemma {:induction false} RowWalksZero(b: Board, p: Player, n: int)
    requires 0 <= n <= ROWS
    ensures RowWalks(b, p, n) == 0 <==> forall c, r | 0 <= c < COLS && 0 <= r < n :: b[c][r] != FromPlayer(p)
  {
    if n > 0 {
      RowWalksZero(b, p, n - 1);
      if Walk(b, p, 0, n - 1, 1, 0, 0) == 0 {
        RowWalkZero(b, p, 0, n - 1);
      } else {
        var row := n - 1;
        if forall c | 0 <= c < COLS :: b[c][row] != FromPlayer(p) {
          RowWalkFree(b, p, 0, row, 0);
        }
      }
    }
  }

  /** The vertical and horizontal control scores are zero exactly when the player has no piece. */
  lemma ControlZeroIffNoPieces(b: Board, p: Player)
    ensures VerticalControlScore(b, p) == 0 <==> NoPieces(b, p)
    ensures HorizontalControlScore(b, p) == 0 <==> NoPieces(b, p)
  {
    ColumnWalksZero(b, p, COLS);
    RowWalksZero(b, p, ROWS);
  }

  // ---------------------------------------------------------------------------
  // Threat counts

  /**
   * Whether the run of `p` starting at (c, r) in steps of (dc, dr) ends on an
   * occupied cell of the board (1) or on an empty cell or the edge (0).
   */
  function RunBlocked(b: Board, c: int, r: int, dc: int, dr: int, p: Player): (n: nat)
    requires IsStep(dc, dr)
    ensures n <= 1
    decreases Budget(c, dc, COLS) + Budget(r, dr, ROWS)
  {
    if !InBounds(c, r) then 0
    else if b[c][r] == FromPlayer(p) then RunBlocked(b, c + dc, r + dr, dc, dr, p)
    else if b[c][r] != Empty then 1
    else 0
  }

  /** The score count_threats_at gives a line of `consecutive` cells with `blocked` occupied ends. */
  function ThreatValue(consecutive: int, blocked: int): (v: int)
    ensures 0 <= v <= 1000
    ensures consecutive == 4 <==> v == 1000
  {
    if consecutive == 4 then 1000
    else if consecutive == 3 then (if blocked == 0 then 100 else 10)
    else if consecutive == 2 then (if blocked == 0 then 10 else 1)
    else if consecutive == 1 then (if blocked == 0 then 1 else 0)
    else 0
  }

  /**
   * One axis of count_threats_at: the run of `p` from (col, row) itself
   * forwards plus the run from the cell behind it backwards, and how many of
   * the two runs end on an occupied cell.
   */
  function AxisThreat(b: Board, col: int, row: int, dc: int, dr: int, p: Player): int
    requires IsStep(dc, dr)
  {
    ThreatValue(
      Run(b, col, row, dc, dr, p) + Run(b, col - dc, row - dr, -dc, -dr, p),
      RunBlocked(b, col, row, dc, dr, p) + RunBlocked(b, col - dc, row - dr, -dc, -dr, p))
  }

  /** The threats of the first k axes. */
  function ThreatsPrefix(b: Board, col: int, row: int, p: Player, k: int): (t: int)
    requires 0 <= k <= 4
    ensures 0 <= t <= 1000 * k
  {
    DirectionsAreSteps();
    if k == 0 then 0
    else ThreatsPrefix(b, col, row, p, k - 1) + AxisThreat(b, col, row, Directions[k - 1].0, Directions[k - 1].1, p)
  }

  /** count_threats_at: the axis scores summed over the four axes. */
  function CountThreatsAt(b: Board, col: int, row: int, p: Player): int {
    ThreatsPrefix(b, col, row, p, 4)
  }

  /**
   * threat_score's value of a drop of `p` into `col`: 10000 when the piece
   * completes a line of four, its count_threats_at otherwise.
   */
  function DropThreat(b: Board, col: int, p: Player): (t: int)
    requires CanPlaceInColumn(b, col)
    ensures 0 <= t <= 10000
  {
    var row := LowestEmptyRow(b, col);
    var t := Drop(b, col, p);
    if CheckWinAt(t, col, row, p) then 10000 else CountThreatsAt(t, col, row, p)
  }

  /** threat_score over the columns below n. */
  function ThreatScoreBelow(b: Board, p: Player, n: int): (t: int)
    requires 0 <= n <= COLS
    ensures 0 <= t <= 10000 * n
  {
    if n == 0 then 0
    else ThreatScoreBelow(b, p, n - 1) + (if CanPlaceInColumn(b, n - 1) then DropThreat(b, n - 1, p) else 0)
  }

  /** lib.rs threat_score: the drop value summed over the playable columns. */
  function ThreatScore(b: Board, p: Player): (t: int)
    ensures 0 <= t <= 70000
  {
    ThreatScoreBelow(b, p, COLS)
  }

  /** A column where `p` completes four in a row adds the immediate-win value 10000 to threat_score. */
  lemma {:induction false} ImmediateWinCounts(b: Board, p: Player, col: int, n: int)
    requires 0 <= col < n <= COLS && CanPlaceInColumn(b, col)
    requires CheckWinAt(Drop(b, col, p), col, LowestEmptyRow(b, col), p)
    ensures ThreatScoreBelow(b, p, n) >= 10000
  {
    if col < n - 1 {
      ImmediateWinCounts(b, p, col, n - 1);
    }
  }

  // ---------------------------------------------------------------------------
  // Mobility and defence

  /** The mobility terms of the columns below n: the mover `mover` tries each column. */
  function MobilityBelow(b: Board, mover: Player, p: Player, n: int): (m: int)
    requires 0 <= n <= COLS
    ensures 0 <= m <= 7000 * n
  {
    if n == 0 then 0
    else
      MobilityBelow(b, mover, p, n - 1)
      + (if CanPlaceInColumn(b, n - 1) then ThreatScore(Drop(b, n - 1, mover), p) / 10 else 0)
  }

  /**
   * lib.rs mobility_score: for each playable column, a trial move by the
   * player to move followed by threat_score of `p`, divided by 10; 0 on the
   * empty board. (threat_score is never negative, so the euclidean division
   * here agrees with the source's truncating one.)
   */
  function MobilityScore(b: Board, mover: Player, p: Player): int {
    if IsEmptyBoard(b) then 0 else MobilityBelow(b, mover, p, COLS)
  }

  /**
   * defensive_score's value of a drop of `p` into `col`: 5000 when the
   * opponent's lines through the landing cell reach four, otherwise 100 per
   * point by which the piece lowers the opponent's count_threats_at there.
   */
  function DropDefence(b: Board, col: int, p: Player): (d: int)
    requires CanPlaceInColumn(b, col)
    ensures d >= 0
  {
    var row := LowestEmptyRow(b, col);
    var t := Drop(b, col, p);
    var o := p.Opponent();
    if CheckWinAt(t, col, row, o) then 5000
    else
      var before := CountThreatsAt(b, col, row, o);
      var after := CountThreatsAt(t, col, row, o);
      if after < before then (before - after) * 100 else 0
  }

  function DefensiveBelow(b: Board, p: Player, n: int): (d: int)
    requires 0 <= n <= COLS
    ensures d >= 0
  {
    if n == 0 then 0
    else DefensiveBelow(b, p, n - 1) + (if CanPlaceInColumn(b, n - 1) then DropDefence(b, n - 1, p) else 0)
  }

  /** defensive_score. */
  function DefensiveScore(b: Board, p: Player): int {
    DefensiveBelow(b, p, COLS)
  }

  // ---------------------------------------------------------------------------
  // The evaluation

  /** One weighted feature: Player1's value minus Player2's, each times the truncated weight. */
  function Balance(x1: int, x2: int, weight: real): int {
    x1 * AsI32(weight) - x2 * AsI32(weight)
  }

  /** The weighted sum evaluate_with_genetic_params returns when the game is not over. */
  function WeightedSum(s: State): int {
    var b, w := s.board, s.params;
    var p1, p2 := Player.Player1, Player.Player2;
    PositionBalance(b, w)
    + Balance(CenterControlScore(b, p1), CenterControlScore(b, p2), w.centerControlWeight)
    + Balance(ThreatScore(b, p1), ThreatScore(b, p2), w.threatWeight)
    + Balance(PiecesCount(b, p1), PiecesCount(b, p2), w.pieceCountWeight)
    + Balance(MobilityScore(b, s.current, p1), MobilityScore(b, s.current, p2), w.mobilityWeight)
    + Balance(VerticalControlScore(b, p1), VerticalControlScore(b, p2), w.verticalControlWeight)
    + Balance(HorizontalControlScore(b, p1), HorizontalControlScore(b, p2), w.horizontalControlWeight)
    + Balance(DefensiveScore(b, p1), DefensiveScore(b, p2), w.defensiveWeight)
  }

  /**
   * evaluate_with_genetic_params: the weights' win or loss score when there is
   * a winner, 0 on a draw, the weighted sum otherwise.
   */
  function EvaluateWithGeneticParams(s: State): (v: int)
    ensures GetWinner(s.board) == Some(Player.Player1) ==> v == s.params.winScore
    ensures GetWinner(s.board) == Some(Player.Player2) ==> v == s.params.lossScore
    ensures !HasWinner(s.board) && IsDraw(s.board) ==> v == 0
    ensures !IsGameOver(s.board) ==> v == WeightedSum(s)
  {
    var w := GetWinner(s.board);
    if w == Some(Player.Player1) then s.params.winScore
    else if w == Some(Player.Player2) then s.params.lossScore
    else if IsDraw(s.board) then 0
    else WeightedSum(s)
  }

  /**
   * evaluate: exactly +10000 when Player1 has won and -10000 when Player2 has
   * won, whatever the weights say; 0 on a draw; the weighted sum otherwise.
   */
  function Evaluate(s: State): (v: int)
    ensures GetWinner(s.board) == Some(Player.Player1) ==> v == 10000
    ensures GetWinner(s.board) == Some(Player.Player2) ==> v == -10000
    ensures !HasWinner(s.board) && IsDraw(s.board) ==> v == 0
    ensures !IsGameOver(s.board) ==> v == WeightedSum(s)
  {
    var w := GetWinner(s.board);
    if w == Some(Player.Player1) then 10000
    else if w == Some(Player.Player2) then -10000
    else if IsDraw(s.board) then 0
    else EvaluateWithGeneticParams(s)
  }

  /** The two evaluators agree when nobody has won, and whenever the weights' win and loss scores are the hard-coded ones. */
  lemma EvaluatorsAgree(s: State)
    ensures !HasWinner(s.board) ==> Evaluate(s) == EvaluateWithGeneticParams(s)
    ensures s.params.winScore == 10000 && s.params.lossScore == -10000 ==> Evaluate(s) == EvaluateWithGeneticParams(s)
  {
    match GetWinner(s.board)
    case None =>
    case Some(p) =>
      if p == Player.Player1 {
      } else {
      }
  }
}
