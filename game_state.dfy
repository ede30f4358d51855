/**
 * GameState: the board, the player to move and the weights, updated in place
 * by make_move. The read-only operations are the source's scan and
 * accumulator loops; each is proved to compute the function of the same name
 * in module Rules or Evaluation.
 */
module Game {
  import opened Wrappers
  import opened Rules
  import opened Params
  import opened Play
  import opened Evaluation

  /**
   * The scan loop shared by count_in_direction, check_win_at_test and
   * count_threats_at: walk from (c0, r0) in steps of (dc, dr) while the cell
   * is on the board and `p`'s; count the cells and note whether the walk
   * stopped on an occupied cell of the board.
   */
  method ScanRun(b: Board, c0: int, r0: int, dc: int, dr: int, p: Player) returns (n: nat, blocked: nat)
    requires IsStep(dc, dr)
    ensures n == Run(b, c0, r0, dc, dr, p)
    ensures blocked == RunBlocked(b, c0, r0, dc, dr, p)
  {
    var c, r := c0, r0;
    n, blocked := 0, 0;
    while 0 <= c < COLS && 0 <= r < ROWS
      invariant n + Run(b, c, r, dc, dr, p) == Run(b, c0, r0, dc, dr, p)
      invariant RunBlocked(b, c, r, dc, dr, p) == RunBlocked(b, c0, r0, dc, dr, p)
      invariant blocked == 0
      decreases Budget(c, dc, COLS) + Budget(r, dr, ROWS)
    {
      if b[c][r] == FromPlayer(p) {
        n := n + 1;
        c, r := c + dc, r + dr;
      } else {
        if b[c][r] != Empty {
          blocked := blocked + 1;
        }
        break;
      }
    }
  }

  /** The nested loops of the counting helpers: the weight of `p`'s cells in columns lo .. hi-1. */
  method Tally(b: Board, p: Player, w: Weighting, lo: int, hi: int) returns (score: int)
    requires 0 <= lo <= hi <= COLS
    ensures score == TallyColumns(b, p, w, lo, hi)
  {
    score := 0;
    for col := lo to hi
      invariant score == TallyColumns(b, p, w, lo, col)
    {
      for row := 0 to ROWS
        invariant score == TallyColumns(b, p, w, lo, col) + TallyColumn(b, p, w, col, row)
      {
        if b[col][row] == FromPlayer(p) {
          score := score + WeightOf(w, col, row);
        }
      }
    }
  }

  /**
   * The positional loop of evaluate_with_genetic_params: each cell of
   * Player1 adds, and each cell of Player2 subtracts, its column value times
   * its height times the row-height weight, truncated to i32.
   */
  method PositionLoop(b: Board, w: GeneticParams) returns (score: int)
    ensures score == PositionBalance(b, w)
  {
    var p1, p2 := Player.Player1, Player.Player2;
    score := 0;
    for col := 0 to COLS
      invariant score == TallyColumns(b, p1, Position(w), 0, col) - TallyColumns(b, p2, Position(w), 0, col)
    {
      for row := 0 to ROWS
        invariant score == TallyColumns(b, p1, Position(w), 0, col) + TallyColumn(b, p1, Position(w), col, row)
                           - TallyColumns(b, p2, Position(w), 0, col) - TallyColumn(b, p2, Position(w), col, row)
      {
        match b[col][row]
        case Player1 =>
          score := score + PositionTerm(w, col, row);
        case Player2 =>
          score := score - PositionTerm(w, col, row);
        case Empty =>
      }
    }
  }

  /** The two scans of count_in_direction on an explicit board. */
  method CountAlong(b: Board, col: int, row: int, dc: int, dr: int, p: Player) returns (count: nat)
    requires IsStep(dc, dr)
    ensures count == Rules.CountInDirection(b, col, row, dc, dr, p)
  {
    var ahead, _ := ScanRun(b, col + dc, row + dr, dc, dr, p);
    var behind, _ := ScanRun(b, col - dc, row - dr, -dc, -dr, p);
    count := 1 + ahead + behind;
  }

  /** One axis of count_threats_at: the run from the cell forwards and the run behind it, with their blocked ends. */
  method AxisThreatScan(b: Board, col: int, row: int, dc: int, dr: int, p: Player) returns (threat: int)
    requires IsStep(dc, dr)
    ensures threat == AxisThreat(b, col, row, dc, dr, p)
  {
    var ahead, blockedAhead := ScanRun(b, col, row, dc, dr, p);
    var behind, blockedBehind := ScanRun(b, col - dc, row - dr, -dc, -dr, p);
    threat := ThreatValue(ahead + behind, blockedAhead + blockedBehind);
  }

  class GameState {
    var board: Board
    var currentPlayer: Player
    var geneticParams: GeneticParams

    /** The state as a value: what clone copies. */
    function Value(): State
      reads this
    {
      State(board, currentPlayer, geneticParams)
    }

    /** GameState::new with the first player given (the source draws it at random). */
    constructor New(first: Player)
      ensures Value() == NewGame(first, Default())
    {
      board := EmptyBoard();
      currentPlayer := first;
      geneticParams := Default();
    }

    /** GameState::with_genetic_params with the first player given. */
    constructor WithGeneticParams(params: GeneticParams, first: Player)
      ensures Value() == NewGame(first, params)
    {
      board := EmptyBoard();
      currentPlayer := first;
      geneticParams := params;
    }

    constructor FromValue(v: State)
      ensures Value() == v
    {
      board := v.board;
      currentPlayer := v.current;
      geneticParams := v.params;
    }

    /** clone: a fresh object holding the same value. */
    method Clone() returns (s: GameState)
      ensures fresh(s) && s.Value() == Value()
    {
      s := new GameState.FromValue(Value());
    }

    // -------------------------------------------------------------------------
    // Moves

    /** get_valid_moves. */
    method GetValidMoves() returns (moves: seq<int>)
      ensures moves == ValidMoves(board)
    {
      moves := [];
      for col := 0 to COLS
        invariant moves == ValidMovesBelow(board, col)
      {
        if Rules.CanPlaceInColumn(board, col) {
          moves := moves + [col];
        }
      }
    }

    /** get_lowest_empty_row: scan the column from the bottom row up. */
    method GetLowestEmptyRow(col: int) returns (row: int)
      requires 0 <= col < COLS
      ensures row == LowestEmptyRow(board, col)
    {
      var r := ROWS;
      while r > 0
        invariant 0 <= r <= ROWS
        invariant LowestEmptyRow(board, col) == LowestEmptyRowBelow(board, col, r)
      {
        r := r - 1;
        if board[col][r] == Empty {
          return r;
        }
      }
      return ROWS;
    }

    /**
     * make_move: on success the board and the player to move are those of
     * Play.MakeMove; on failure it returns that function's error and nothing
     * changes.
     */
    method MakeMove(col: U8) returns (result: Result<(), string>)
      modifies this
      ensures result.Ok? <==> Play.MakeMove(old(Value()), col).Ok?
      ensures result.Ok? ==> Value() == Play.MakeMove(old(Value()), col).value
      ensures result.Err? ==> result.error == Play.MakeMove(old(Value()), col).error && Value() == old(Value())
    {
      if col >= COLS {
        return Err(INVALID_COLUMN);
      }
      if !Rules.CanPlaceInColumn(board, col) {
        return Err(COLUMN_FULL);
      }
      var row := GetLowestEmptyRow(col);
      if row >= ROWS {
        return Err(COLUMN_FULL);
      }
      board := board[col := board[col][row := FromPlayer(currentPlayer)]];
      currentPlayer := currentPlayer.Opponent();
      return Ok(());
    }

    // -------------------------------------------------------------------------
    // Win detection and the end of the game

    /** count_in_direction. */
    method CountInDirection(col: int, row: int, dc: int, dr: int, p: Player) returns (count: nat)
      requires IsStep(dc, dr)
      ensures count == Rules.CountInDirection(board, col, row, dc, dr, p)
    {
      count := CountAlong(board, col, row, dc, dr, p);
    }

    /** check_win_at: some axis through (col, row) counts four or more. */
    method CheckWinAt(col: int, row: int, p: Player) returns (win: bool)
      ensures win == Rules.CheckWinAt(board, col, row, p)
    {
      DirectionsAreSteps();
      for k := 0 to 4
        invariant Rules.CheckWinAt(board, col, row, p) == WinAlongFrom(board, col, row, p, k)
      {
        var count := CountInDirection(col, row, Directions[k].0, Directions[k].1, p);
        if count >= 4 {
          return true;
        }
      }
      return false;
    }

    /** check_win_at_test: the same scan on an explicit board. */
    method CheckWinAtTest(b: Board, col: int, row: int, p: Player) returns (win: bool)
      ensures win == Rules.CheckWinAt(b, col, row, p)
    {
      DirectionsAreSteps();
      for k := 0 to 4
        invariant Rules.CheckWinAt(b, col, row, p) == WinAlongFrom(b, col, row, p, k)
      {
        var count := CountAlong(b, col, row, Directions[k].0, Directions[k].1, p);
        if count >= 4 {
          return true;
        }
      }
      return false;
    }

    /** get_winner: the column-major scan for the first occupied cell that wins for its owner. */
    method GetWinner() returns (winner: Option<Player>)
      ensures winner == Rules.GetWinner(board)
    {
      for col := 0 to COLS
        invariant Rules.GetWinner(board) == WinnerFrom(board, col, 0)
      {
        for row := 0 to ROWS
          invariant Rules.GetWinner(board) == WinnerFrom(board, col, row)
        {
          var owner := ToPlayer(board[col][row]);
          if owner.Some? {
            var win := CheckWinAt(col, row, owner.value);
            if win {
              return owner;
            }
          }
        }
      }
      return None;
    }

    /** has_winner. */
    method HasWinner() returns (h: bool)
      ensures h == Rules.HasWinner(board)
    {
      var w := GetWinner();
      h := w.Some?;
    }

    /** is_draw: no valid move is left. */
    method IsDraw() returns (d: bool)
      ensures d == Rules.IsDraw(board)
    {
      var moves := GetValidMoves();
      d := |moves| == 0;
    }

    /** is_game_over. */
    method IsGameOver() returns (over: bool)
      ensures over == Rules.IsGameOver(board)
    {
      var h := HasWinner();
      if h {
        return true;
      }
      over := IsDraw();
    }

    /** is_empty_board. */
    method IsEmptyBoard() returns (e: bool)
      ensures e == Rules.IsEmptyBoard(board)
    {
      for col := 0 to COLS
        invariant forall c, r | 0 <= c < col && 0 <= r < ROWS :: board[c][r] == Empty
      {
        for row := 0 to ROWS
          invariant forall r | 0 <= r < row :: board[col][r] == Empty
        {
          if board[col][row] != Empty {
            return false;
          }
        }
      }
      return true;
    }

    // -------------------------------------------------------------------------
    // Evaluation helpers

    /** position_score. */
    method PositionScore(p: Player) returns (score: int)
      ensures score == Evaluation.PositionScore(board, p)
    {
      score := Tally(board, p, Fixed, 0, COLS);
    }

    /** center_control_score: columns 2, 3 and 4. */
    method CenterControlScore(p: Player) returns (score: int)
      ensures score == Evaluation.CenterControlScore(board, p)
    {
      score := Tally(board, p, Height, 2, 5);
    }

    /** pieces_count. */
    method PiecesCount(p: Player) returns (count: int)
      ensures count == Evaluation.PiecesCount(board, p)
    {
      count := Tally(board, p, One, 0, COLS);
    }

    /** count_threats_at: the four axes through (col, row) on an explicit board. */
    method CountThreatsAt(b: Board, col: int, row: int, p: Player) returns (total: int)
      ensures total == Evaluation.CountThreatsAt(b, col, row, p)
    {
      DirectionsAreSteps();
      total := 0;
      for k := 0 to 4
        invariant total == ThreatsPrefix(b, col, row, p, k)
      {
        var threat := AxisThreatScan(b, col, row, Directions[k].0, Directions[k].1, p);
        total := total + threat;
      }
    }

    /** threat_score: a trial drop of `p` into each playable column. */
    method ThreatScore(p: Player) returns (score: int)
      ensures score == Evaluation.ThreatScore(board, p)
    {
      score := 0;
      for col := 0 to COLS
        invariant score == ThreatScoreBelow(board, p, col)
      {
        if Rules.CanPlaceInColumn(board, col) {
          var row := GetLowestEmptyRow(col);
          if row < ROWS {
            var testBoard := board[col := board[col][row := FromPlayer(p)]];
            var win := CheckWinAtTest(testBoard, col, row, p);
            if win {
              score := score + 10000;
            } else {
              var threat := CountThreatsAt(testBoard, col, row, p);
              score := score + threat;
            }
          }
        }
      }
    }

    /** mobility_score: threat_score of `p` after a trial move by the player to move, over 10; 0 on the empty board. */
    method MobilityScore(p: Player) returns (mobility: int)
      ensures mobility == Evaluation.MobilityScore(board, currentPlayer, p)
    {
      mobility := 0;
      for col := 0 to COLS
        invariant mobility == MobilityBelow(board, currentPlayer, p, col)
      {
        if Rules.CanPlaceInColumn(board, col) {
          var testState := Clone();
          var moved := testState.MakeMove(col);
          if moved.Ok? {
            var threat := testState.ThreatScore(p);
            mobility := mobility + threat / 10;
          }
        }
      }
      var empty := IsEmptyBoard();
      if empty {
        return 0;
      }
    }

    /** vertical_control_score: the running streak down each column, summed. */
    method VerticalControlScore(p: Player) returns (score: int)
      ensures score == Evaluation.VerticalControlScore(board, p)
    {
      score := 0;
      for col := 0 to COLS
        invariant score == ColumnWalks(board, p, col)
      {
        var consecutive: nat := 0;
        for row := 0 to ROWS
          invariant ColumnWalks(board, p, col) + Walk(board, p, col, 0, 0, 1, 0)
                    == score + Walk(board, p, col, row, 0, 1, consecutive)
        {
          if board[col][row] == FromPlayer(p) {
            consecutive := consecutive + 1;
          } else {
            consecutive := 0;
          }
          score := score + consecutive;
        }
      }
    }

    /** horizontal_control_score: the running streak along each row, summed. */
    method HorizontalControlScore(p: Player) returns (score: int)
      ensures score == Evaluation.HorizontalControlScore(board, p)
    {
      score := 0;
      for row := 0 to ROWS
        invariant score == RowWalks(board, p, row)
      {
        var consecutive: nat := 0;
        for col := 0 to COLS
          invariant RowWalks(board, p, row) + Walk(board, p, 0, row, 1, 0, 0)
                    == score + Walk(board, p, col, row, 1, 0, consecutive)
        {
          if board[col][row] == FromPlayer(p) {
            consecutive := consecutive + 1;
          } else {
            consecutive := 0;
          }
          score := score + consecutive;
        }
      }
    }

    /** defensive_score: what a trial drop of `p` takes away from the opponent at the landing cell. */
    method DefensiveScore(p: Player) returns (score: int)
      ensures score == Evaluation.DefensiveScore(board, p)
    {
      var opponent := p.Opponent();
      score := 0;
      for col := 0 to COLS
        invariant score == DefensiveBelow(board, p, col)
      {
        if Rules.CanPlaceInColumn(board, col) {
          var row := GetLowestEmptyRow(col);
          var testBoard := board[col := board[col][row := FromPlayer(p)]];
          var win := CheckWinAtTest(testBoard, col, row, opponent);
          if win {
            score := score + 5000;
          } else {
            var before := CountThreatsAt(board, col, row, opponent);
            var after := CountThreatsAt(testBoard, col, row, opponent);
            if after < before {
              score := score + (before - after) * 100;
            }
          }
        }
      }
    }

    // -------------------------------------------------------------------------
    // Evaluation

    /** evaluate_with_genetic_params. */
    method EvaluateWithGeneticParams() returns (score: int)
      ensures score == Evaluation.EvaluateWithGeneticParams(Value())
    {
      var winner := GetWinner();
      if winner == Some(Player.Player1) {
        return geneticParams.winScore;
      } else if winner == Some(Player.Player2) {
        return geneticParams.lossScore;
      }
      var draw := IsDraw();
      if draw {
        return 0;
      }
      var w := geneticParams;
      var p1, p2 := Player.Player1, Player.Player2;
      score := PositionLoop(board, w);
      var center1 := CenterControlScore(p1);
      var center2 := CenterControlScore(p2);
      var centerWeight := AsI32(w.centerControlWeight);
      score := score + center1 * centerWeight - center2 * centerWeight;
      var threat1 := ThreatScore(p1);
      var threat2 := ThreatScore(p2);
      var threatWeight := AsI32(w.threatWeight);
      score := score + threat1 * threatWeight - threat2 * threatWeight;
      var pieces1 := PiecesCount(p1);
      var pieces2 := PiecesCount(p2);
      var pieceWeight := AsI32(w.pieceCountWeight);
      score := score + pieces1 * pieceWeight - pieces2 * pieceWeight;
      var mobility1 := MobilityScore(p1);
      var mobility2 := MobilityScore(p2);
      var mobilityWeight := AsI32(w.mobilityWeight);
      score := score + mobility1 * mobilityWeight - mobility2 * mobilityWeight;
      var vertical1 := VerticalControlScore(p1);
      var vertical2 := VerticalControlScore(p2);
      var verticalWeight := AsI32(w.verticalControlWeight);
      score := score + vertical1 * verticalWeight - vertical2 * verticalWeight;
      var horizontal1 := HorizontalControlScore(p1);
      var horizontal2 := HorizontalControlScore(p2);
      var horizontalWeight := AsI32(w.horizontalControlWeight);
      score := score + horizontal1 * horizontalWeight - horizontal2 * horizontalWeight;
      var defensive1 := DefensiveScore(p1);
      var defensive2 := DefensiveScore(p2);
      var defensiveWeight := AsI32(w.defensiveWeight);
      score := score + defensive1 * defensiveWeight - defensive2 * defensiveWeight;
      assert score == WeightedSum(Value());
    }

    /** evaluate: the hard-coded win and loss scores, 0 on a draw, the weighted evaluation otherwise. */
    method Evaluate() returns (score: int)
      ensures score == Evaluation.Evaluate(Value())
    {
      var winner := GetWinner();
      if winner == Some(Player.Player1) {
        return 10000;
      } else if winner == Some(Player.Player2) {
        return -10000;
      }
      var draw := IsDraw();
      if draw {
        return 0;
      }
      score := EvaluateWithGeneticParams();
    }
  }
}
