/**
 * GameFeatures::from_game_state: the 100-slot input of the learned
 * evaluators. Slots 0 .. 41 hold the board column by column, slots 42 .. 64
 * the 23 strategic counts of both players, the rest are zero, and every slot
 * is clamped to [-10, 10]. The f32 slots are modelled as exact reals.
 *
 * pieces_count, vertical_control_score and horizontal_control_score of this
 * file are the same code as the GameState methods of those names, and are
 * modelled by them.
 */
module Features {
  import opened Wrappers
  import opened Rules
  import opened Play
  import opened Evaluation
  import opened Game

  const SIZE: int := 100
  /** The occupancy slots: one per cell. */
  const CELLS: int := 42
  /** The first slot after the 23 strategic ones. */
  const TAIL: int := 65

  // ---------------------------------------------------------------------------
  // The counting helpers

  /** center_control_score of this file: 3 per piece in column 3, 2 per piece in columns 2 and 4. */
  function CenterControlScore(b: Board, p: Player): int {
    TallyColumns(b, p, CenterColumn, 2, 5)
  }

  /** height_advantage_score: 6 - row over the player's pieces. */
  function HeightAdvantageScore(b: Board, p: Player): int {
    TallyColumns(b, p, Height, 0, COLS)
  }

  /** material_balance_score: Player2's pieces minus Player1's. */
  function MaterialBalanceScore(b: Board): int {
    PiecesCount(b, Player.Player2) - PiecesCount(b, Player.Player1)
  }

  /**
   * The score threat_score gives one axis through a piece: `consecutive`
   * counts the piece and both runs beside it, `blocked` the occupied cells
   * that end them. A lone piece, and a line longer than four, score nothing.
   */
  function LineValue(consecutive: int, blocked: int): (v: int)
    ensures 0 <= v <= 1000
    ensures consecutive == 4 <==> v == 1000
    ensures consecutive < 2 || consecutive > 4 ==> v == 0
  {
    if consecutive == 4 then 1000
    else if consecutive == 3 then (if blocked == 0 then 100 else 10)
    else if consecutive == 2 then (if blocked == 0 then 10 else 1)
    else 0
  }

  /** One axis through (col, row): the runs start beside the piece, on both sides. */
  function AxisValue(b: Board, col: int, row: int, dc: int, dr: int, p: Player): int
    requires IsStep(dc, dr)
  {
    LineValue(
      CountInDirection(b, col, row, dc, dr, p),
      RunBlocked(b, col + dc, row + dr, dc, dr, p) + RunBlocked(b, col - dc, row - dr, -dc, -dr, p))
  }

  /** The first k axes through (col, row). */
  function CellThreat(b: Board, col: int, row: int, p: Player, k: int): (t: int)
    requires 0 <= k <= 4
    ensures 0 <= t <= 1000 * k
  {
    DirectionsAreSteps();
    if k == 0 then 0
    else CellThreat(b, col, row, p, k - 1) + AxisValue(b, col, row, Directions[k - 1].0, Directions[k - 1].1, p)
  }

  /** The threats of `p`'s pieces among rows 0 .. n-1 of column `col`. */
  function ThreatColumn(b: Board, p: Player, col: int, n: int): (t: int)
    requires 0 <= col < COLS && 0 <= n <= ROWS
    ensures 0 <= t <= 4000 * n
  {
    if n == 0 then 0
    else ThreatColumn(b, p, col, n - 1) + (if b[col][n - 1] == FromPlayer(p) then CellThreat(b, col, n - 1, p, 4) else 0)
  }

  /** The threats of `p`'s pieces in columns 0 .. n-1. */
  function ThreatColumns(b: Board, p: Player, n: int): (t: int)
    requires 0 <= n <= COLS
    ensures 0 <= t <= 24000 * n
  {
    if n == 0 then 0 else ThreatColumns(b, p, n - 1) + ThreatColumn(b, p, n - 1, ROWS)
  }

  /** threat_score of this file: the four axes through every piece of `p`. */
  function ThreatScore(b: Board, p: Player): int {
    ThreatColumns(b, p, COLS)
  }

  /**
   * The trial moves of mobility_score and blocking_score over columns
   * 0 .. n-1: the player to move drops into each playable column and the
   * threat_score of `p` after it, over 10, is added.
   */
  function TrialThreats(s: State, p: Player, n: int): (m: int)
    requires 0 <= n <= COLS
    ensures m >= 0
  {
    if n == 0 then 0
    else
      var col := n - 1;
      TrialThreats(s, p, n - 1)
        + (if CanPlaceInColumn(s.board, col) then
             match Play.MakeMove(s, col)
             case Ok(next) => ThreatScore(next.board, p) / 10
             case Err(_) => 0
           else 0)
  }

  /** mobility_score of this file: the player's own threats after each trial move. */
  function MobilityScore(s: State, p: Player): int {
    TrialThreats(s, p, COLS)
  }

  /** blocking_score: the opponent's threats after each trial move. */
  function BlockingScore(s: State, p: Player): int {
    TrialThreats(s, p.Opponent(), COLS)
  }

  /** The walks along both diagonal directions that start at (c, r). */
  function DiagonalsFrom(b: Board, p: Player, c: int, r: int): nat {
    Walk(b, p, c, r, 1, 1, 0) + Walk(b, p, c, r, 1, -1, 0)
  }

  /** The diagonal walks starting in rows 0 .. n-1 of column `c`. */
  function DiagonalColumn(b: Board, p: Player, c: int, n: int): nat
    requires 0 <= n <= ROWS
  {
    if n == 0 then 0 else DiagonalColumn(b, p, c, n - 1) + DiagonalsFrom(b, p, c, n - 1)
  }

  /** The diagonal walks starting in columns 0 .. n-1. */
  function DiagonalColumns(b: Board, p: Player, n: int): nat
    requires 0 <= n <= COLS
  {
    if n == 0 then 0 else DiagonalColumns(b, p, n - 1) + DiagonalColumn(b, p, n - 1, ROWS)
  }

  /** diagonal_control_score: a walk in both diagonal directions from every cell, each adding its running streak. */
  function DiagonalControlScore(b: Board, p: Player): nat {
    DiagonalColumns(b, p, COLS)
  }

  /** positional_advantage_score: 0.3 center + 0.2 height + 0.5 threat, over 100. */
  function PositionalAdvantageScore(b: Board, p: Player): real {
    (CenterControlScore(b, p) as real * 0.3 + HeightAdvantageScore(b, p) as real * 0.2
      + ThreatScore(b, p) as real * 0.5) / 100.0
  }

  /** More than three quarters of the 42 cells (integer division: 31) hold a piece. */
  predicate IsEndgame(b: Board) {
    PiecesCount(b, Player.Player1) + PiecesCount(b, Player.Player2) > ROWS * COLS * 3 / 4
  }

  /** endgame_evaluation: threat_score over 1000 in the endgame, the positional score before it. */
  function EndgameEvaluation(b: Board, p: Player): real {
    if IsEndgame(b) then ThreatScore(b, p) as real / 1000.0 else PositionalAdvantageScore(b, p)
  }

  // ---------------------------------------------------------------------------
  // The vector

  /** An occupancy slot: 0 for an empty cell, 1 for Player1, -1 for Player2. */
  function CellValue(c: Cell): (v: real)
    ensures -1.0 <= v <= 1.0
  {
    match c
    case Empty => 0.0
    case Player1 => 1.0
    case Player2 => -1.0
  }

  /** The 23 strategic counts, in the order from_game_state writes them. */
  function Strategic(s: State): seq<real> {
    var b, p1, p2 := s.board, Player.Player1, Player.Player2;
    [ CenterControlScore(b, p1) as real, CenterControlScore(b, p2) as real,
      PiecesCount(b, p1) as real, PiecesCount(b, p2) as real,
      ThreatScore(b, p1) as real, ThreatScore(b, p2) as real,
      MobilityScore(s, p1) as real, MobilityScore(s, p2) as real,
      VerticalControlScore(b, p1) as real, VerticalControlScore(b, p2) as real,
      HorizontalControlScore(b, p1) as real, HorizontalControlScore(b, p2) as real,
      DiagonalControlScore(b, p1) as real, DiagonalControlScore(b, p2) as real,
      BlockingScore(s, p1) as real, BlockingScore(s, p2) as real,
      HeightAdvantageScore(b, p1) as real, HeightAdvantageScore(b, p2) as real,
      MaterialBalanceScore(b) as real,
      PositionalAdvantageScore(b, p1), PositionalAdvantageScore(b, p2),
      EndgameEvaluation(b, p1), EndgameEvaluation(b, p2) ]
  }

  /** Slot i before clamping: a cell, a strategic count or zero. */
  function RawSlot(s: State, i: int): real
    requires 0 <= i < SIZE
  {
    if i < CELLS then CellValue(s.board[i / ROWS][i % ROWS])
    else if i < TAIL then Strategic(s)[i - CELLS]
    else 0.0
  }

  /** f32::max(-10.0) followed by f32::min(10.0). */
  function Clamp(x: real): (r: real)
    ensures -10.0 <= r <= 10.0
    ensures -10.0 <= x <= 10.0 ==> r == x
    ensures x < -10.0 ==> r == -10.0
    ensures x > 10.0 ==> r == 10.0
  {
    var lo := if x < -10.0 then -10.0 else x;
    if lo > 10.0 then 10.0 else lo
  }

  /** The feature vector of a state. */
  function Encode(s: State): seq<real> {
    seq(SIZE, i requires 0 <= i < SIZE => Clamp(RawSlot(s, i)))
  }

  datatype GameFeatures = GameFeatures(features: seq<real>)

  // ---------------------------------------------------------------------------
  // The loops

  /** center_control_score of this file. */
  method CenterControl(state: GameState, p: Player) returns (score: int)
    ensures score == CenterControlScore(state.board, p)
  {
    score := Tally(state.board, p, CenterColumn, 2, 5);
  }

  /** height_advantage_score. */
  method HeightAdvantage(state: GameState, p: Player) returns (score: int)
    ensures score == HeightAdvantageScore(state.board, p)
  {
    score := Tally(state.board, p, Height, 0, COLS);
  }

  /** material_balance_score. */
  method MaterialBalance(state: GameState) returns (balance: int)
    ensures balance == MaterialBalanceScore(state.board)
  {
    var p1 := state.PiecesCount(Player.Player1);
    var p2 := state.PiecesCount(Player.Player2);
    balance := p2 - p1;
  }

  /** One axis through a piece: a run scan on each side of it. */
  method AxisScan(b: Board, col: int, row: int, dc: int, dr: int, p: Player) returns (v: int)
    requires IsStep(dc, dr)
    ensures v == AxisValue(b, col, row, dc, dr, p)
  {
    var ahead, blockedAhead := ScanRun(b, col + dc, row + dr, dc, dr, p);
    var behind, blockedBehind := ScanRun(b, col - dc, row - dr, -dc, -dr, p);
    v := LineValue(1 + ahead + behind, blockedAhead + blockedBehind);
  }

  /** The four axes through one piece. */
  method CellThreats(b: Board, col: int, row: int, p: Player) returns (threats: int)
    ensures threats == CellThreat(b, col, row, p, 4)
  {
    DirectionsAreSteps();
    threats := 0;
    for k := 0 to 4
      invariant threats == CellThreat(b, col, row, p, k)
    {
      var v := AxisScan(b, col, row, Directions[k].0, Directions[k].1, p);
      threats := threats + v;
    }
  }

  /** threat_score of this file on an explicit board. */
  method Threats(b: Board, p: Player) returns (threats: int)
    ensures threats == ThreatScore(b, p)
  {
    threats := 0;
    for col := 0 to COLS
      invariant threats == ThreatColumns(b, p, col)
    {
      for row := 0 to ROWS
        invariant threats == ThreatColumns(b, p, col) + ThreatColumn(b, p, col, row)
      {
        if b[col][row] == FromPlayer(p) {
          var t := CellThreats(b, col, row, p);
          threats := threats + t;
        }
      }
    }
  }

  /** The trial-move loop of mobility_score (with `p` the player) and blocking_score (with `p` the opponent). */
  method TrialMoves(state: GameState, p: Player) returns (total: int)
    ensures total == TrialThreats(state.Value(), p, COLS)
  {
    var s := state.Value();
    total := 0;
    for col := 0 to COLS
      invariant total == TrialThreats(s, p, col)
    {
      if Rules.CanPlaceInColumn(state.board, col) {
        var testState := state.Clone();
        var moved := testState.MakeMove(col);
        if moved.Ok? {
          var threats := Threats(testState.board, p);
          total := total + threats / 10;
        }
      }
    }
  }

  /** mobility_score of this file. */
  method Mobility(state: GameState, p: Player) returns (mobility: int)
    ensures mobility == MobilityScore(state.Value(), p)
  {
    mobility := TrialMoves(state, p);
  }

  /** blocking_score. */
  method Blocking(state: GameState, p: Player) returns (blocks: int)
    ensures blocks == BlockingScore(state.Value(), p)
  {
    blocks := TrialMoves(state, p.Opponent());
  }

  /** One walk of diagonal_control_score, from (c0, r0) to the edge in steps of (1, dr). */
  method DiagonalWalk(b: Board, p: Player, c0: int, r0: int, dr: int) returns (score: nat)
    requires 0 <= c0 && (dr == 1 || dr == -1)
    ensures score == Walk(b, p, c0, r0, 1, dr, 0)
  {
    var c, r := c0, r0;
    var consecutive: nat := 0;
    score := 0;
    while c < COLS && 0 <= r < ROWS
      invariant 0 <= c
      invariant score + Walk(b, p, c, r, 1, dr, consecutive) == Walk(b, p, c0, r0, 1, dr, 0)
      decreases COLS - c
    {
      consecutive := if b[c][r] == FromPlayer(p) then consecutive + 1 else 0;
      score := score + consecutive;
      c, r := c + 1, r + dr;
    }
  }

  /** diagonal_control_score. */
  method DiagonalControl(state: GameState, p: Player) returns (score: nat)
    ensures score == DiagonalControlScore(state.board, p)
  {
    var b := state.board;
    score := 0;
    for col := 0 to COLS
      invariant score == DiagonalColumns(b, p, col)
    {
      for row := 0 to ROWS
        invariant score == DiagonalColumns(b, p, col) + DiagonalColumn(b, p, col, row)
      {
        var up := DiagonalWalk(b, p, col, row, 1);
        var down := DiagonalWalk(b, p, col, row, -1);
        score := score + up + down;
      }
    }
  }

  /** positional_advantage_score. */
  method PositionalAdvantage(state: GameState, p: Player) returns (score: real)
    ensures score == PositionalAdvantageScore(state.board, p)
  {
    var center := CenterControl(state, p);
    var height := HeightAdvantage(state, p);
    var threats := Threats(state.board, p);
    score := (center as real * 0.3 + height as real * 0.2 + threats as real * 0.5) / 100.0;
  }

  /** endgame_evaluation. */
  method Endgame(state: GameState, p: Player) returns (score: real)
    ensures score == EndgameEvaluation(state.board, p)
  {
    var p1 := state.PiecesCount(Player.Player1);
    var p2 := state.PiecesCount(Player.Player2);
    if p1 + p2 > ROWS * COLS * 3 / 4 {
      var threats := Threats(state.board, p);
      score := threats as real / 1000.0;
    } else {
      score := PositionalAdvantage(state, p);
    }
  }

  /** The 23 strategic counts, computed in the order from_game_state writes them. */
  method StrategicCounts(state: GameState) returns (counts: seq<real>)
    ensures counts == Strategic(state.Value())
  {
    var p1, p2 := Player.Player1, Player.Player2;
    var center1 := CenterControl(state, p1);
    var center2 := CenterControl(state, p2);
    var pieces1 := state.PiecesCount(p1);
    var pieces2 := state.PiecesCount(p2);
    var threat1 := Threats(state.board, p1);
    var threat2 := Threats(state.board, p2);
    var mobility1 := Mobility(state, p1);
    var mobility2 := Mobility(state, p2);
    var vertical1 := state.VerticalControlScore(p1);
    var vertical2 := state.VerticalControlScore(p2);
    var horizontal1 := state.HorizontalControlScore(p1);
    var horizontal2 := state.HorizontalControlScore(p2);
    var diagonal1 := DiagonalControl(state, p1);
    var diagonal2 := DiagonalControl(state, p2);
    var blocking1 := Blocking(state, p1);
    var blocking2 := Blocking(state, p2);
    var height1 := HeightAdvantage(state, p1);
    var height2 := HeightAdvantage(state, p2);
    var material := MaterialBalance(state);
    var positional1 := PositionalAdvantage(state, p1);
    var positional2 := PositionalAdvantage(state, p2);
    var endgame1 := Endgame(state, p1);
    var endgame2 := Endgame(state, p2);
    counts := [ center1 as real, center2 as real, pieces1 as real, pieces2 as real,
                threat1 as real, threat2 as real, mobility1 as real, mobility2 as real,
                vertical1 as real, vertical2 as real, horizontal1 as real, horizontal2 as real,
                diagonal1 as real, diagonal2 as real, blocking1 as real, blocking2 as real,
                height1 as real, height2 as real, material as real,
                positional1, positional2, endgame1, endgame2 ];
  }

  /** The occupancy part of from_game_state: the cells column by column into slots 0 .. 41. */
  method WriteCells(state: GameState, features: array<real>)
    requires features.Length == SIZE
    modifies features
    ensures forall i | 0 <= i < CELLS :: features[i] == RawSlot(state.Value(), i)
    ensures forall i | CELLS <= i < SIZE :: features[i] == old(features[i])
  {
    ghost var s := state.Value();
    var idx := 0;
    for col := 0 to COLS
      invariant idx == col * ROWS
      invariant forall i | 0 <= i < idx :: features[i] == RawSlot(s, i)
      invariant forall i | idx <= i < SIZE :: features[i] == old(features[i])
    {
      for row := 0 to ROWS
        invariant idx == col * ROWS + row
        invariant forall i | 0 <= i < idx :: features[i] == RawSlot(s, i)
        invariant forall i | idx <= i < SIZE :: features[i] == old(features[i])
      {
        SlotOfCell(col, row);
        features[idx] := CellValue(state.board[col][row]);
        idx := idx + 1;
      }
    }
  }

  /** The rest of the writes: the 23 counts into slots 42 .. 64, zeros up to 100. */
  method WriteCounts(state: GameState, features: array<real>)
    requires features.Length == SIZE
    requires forall i | 0 <= i < CELLS :: features[i] == RawSlot(state.Value(), i)
    modifies features
    ensures forall i | 0 <= i < SIZE :: features[i] == RawSlot(state.Value(), i)
  {
    ghost var s := state.Value();
    var counts := StrategicCounts(state);
    var idx := CELLS;
    for k := 0 to |counts|
      invariant idx == CELLS + k
      invariant forall i | 0 <= i < idx :: features[i] == RawSlot(s, i)
    {
      features[idx] := counts[k];
      idx := idx + 1;
    }
    while idx < SIZE
      invariant TAIL <= idx <= SIZE
      invariant forall i | 0 <= i < idx :: features[i] == RawSlot(s, i)
    {
      features[idx] := 0.0;
      idx := idx + 1;
    }
  }

  /** The final pass of from_game_state: every slot clamped to [-10, 10]. */
  method ClampAll(features: array<real>)
    modifies features
    ensures forall j | 0 <= j < features.Length :: features[j] == Clamp(old(features[j]))
  {
    for i := 0 to features.Length
      invariant forall j | 0 <= j < i :: features[j] == Clamp(old(features[j]))
      invariant forall j | i <= j < features.Length :: features[j] == old(features[j])
    {
      var x := features[i];
      var lo := if x < -10.0 then -10.0 else x;
      features[i] := if lo > 10.0 then 10.0 else lo;
    }
  }

  /**
   * from_game_state: the slots are written in order (the cells column by
   * column, the strategic counts, zeros up to 100), then each slot is
   * clamped to [-10, 10].
   */
  method FromGameState(state: GameState) returns (f: GameFeatures)
    ensures f.features == Encode(state.Value())
  {
    var features := new real[SIZE](_ => 0.0);
    WriteCells(state, features);
    WriteCounts(state, features);
    ClampAll(features);
    f := GameFeatures(features[..]);
  }

  // ---------------------------------------------------------------------------
  // Properties

  /** Cell (col, row) is slot col * 6 + row. */
  lemma SlotOfCell(col: int, row: int)
    requires 0 <= col < COLS && 0 <= row < ROWS
    ensures 0 <= col * ROWS + row < CELLS
    ensures (col * ROWS + row) / ROWS == col && (col * ROWS + row) % ROWS == row
  {
  }

  /** The vector has 100 slots, each in [-10, 10]. */
  lemma EncodeInRange(s: State)
    ensures |Encode(s)| == SIZE
    ensures forall i | 0 <= i < SIZE :: -10.0 <= Encode(s)[i] <= 10.0
  {
  }

  /** Slot col * 6 + row is 1, -1 or 0 for a piece of Player1, of Player2 or an empty cell. */
  lemma OccupancySlot(s: State, col: int, row: int)
    requires 0 <= col < COLS && 0 <= row < ROWS
    ensures 0 <= col * ROWS + row < CELLS
    ensures Encode(s)[col * ROWS + row] == CellValue(s.board[col][row])
  {
    SlotOfCell(col, row);
  }

  /** On the empty board the 42 occupancy slots are 0. */
  lemma EmptyBoardOccupancy(s: State)
    requires s.board == EmptyBoard()
    ensures forall i | 0 <= i < CELLS :: Encode(s)[i] == 0.0
  {
    forall i | 0 <= i < CELLS ensures Encode(s)[i] == 0.0 {
      OccupancySlot(s, i / ROWS, i % ROWS);
    }
  }

  /** Slots 65 .. 99 are 0. */
  lemma ZeroTail(s: State)
    ensures forall i | TAIL <= i < SIZE :: Encode(s)[i] == 0.0
  {
  }

  /** Slots 44 and 45 are the clamped piece counts, slot 60 the clamped material balance. */
  lemma PieceSlots(s: State)
    ensures Encode(s)[44] == Clamp(PiecesCount(s.board, Player.Player1) as real)
    ensures Encode(s)[45] == Clamp(PiecesCount(s.board, Player.Player2) as real)
    ensures Encode(s)[60] == Clamp((PiecesCount(s.board, Player.Player2) - PiecesCount(s.board, Player.Player1)) as real)
  {
  }

  /** Up to ten pieces, slot 44 holds Player1's count exactly. */
  lemma FewPiecesSlot(s: State)
    requires PiecesCount(s.board, Player.Player1) <= 10
    ensures Encode(s)[44] == PiecesCount(s.board, Player.Player1) as real
  {
    PieceSlots(s);
    TallyNonNegative(s.board, Player.Player1, 0, COLS);
  }

  /** The piece count is never negative. */
  lemma {:induction false} TallyNonNegative(b: Board, p: Player, lo: int, hi: int)
    requires 0 <= lo <= hi <= COLS
    ensures TallyColumns(b, p, One, lo, hi) >= 0
    decreases hi - lo
  {
    if hi > lo {
      TallyNonNegative(b, p, lo, hi - 1);
      ColumnTallyNonNegative(b, p, hi - 1, ROWS);
    }
  }

  lemma {:induction false} ColumnTallyNonNegative(b: Board, p: Player, col: int, n: int)
    requires 0 <= col < COLS && 0 <= n <= ROWS
    ensures TallyColumn(b, p, One, col, n) >= 0
  {
    if n > 0 {
      ColumnTallyNonNegative(b, p, col, n - 1);
    }
  }

  /** Without pieces of `p` every diagonal walk adds nothing. */
  lemma {:induction false} DiagonalColumnsWithoutPieces(b: Board, p: Player, n: int)
    requires 0 <= n <= COLS && NoPieces(b, p)
    ensures DiagonalColumns(b, p, n) == 0
  {
    if n > 0 {
      DiagonalColumnsWithoutPieces(b, p, n - 1);
      DiagonalColumnWithoutPieces(b, p, n - 1, ROWS);
    }
  }

  lemma {:induction false} DiagonalColumnWithoutPieces(b: Board, p: Player, c: int, n: int)
    requires 0 <= n <= ROWS && NoPieces(b, p)
    ensures DiagonalColumn(b, p, c, n) == 0
  {
    if n > 0 {
      DiagonalColumnWithoutPieces(b, p, c, n - 1);
      WalkWithoutPieces(b, p, c, n - 1, 1, 1, 0);
      WalkWithoutPieces(b, p, c, n - 1, 1, -1, 0);
    }
  }

  /** A zero diagonal sum over the first n columns means no piece of `p` in them. */
  lemma {:induction false} DiagonalColumnsZero(b: Board, p: Player, n: int)
    requires 0 <= n <= COLS && DiagonalColumns(b, p, n) == 0
    ensures forall c, r | 0 <= c < n && 0 <= r < ROWS :: b[c][r] != FromPlayer(p)
  {
    if n > 0 {
      DiagonalColumnsZero(b, p, n - 1);
      DiagonalColumnZero(b, p, n - 1, ROWS);
    }
  }

  lemma {:induction false} DiagonalColumnZero(b: Board, p: Player, c: int, n: int)
    requires 0 <= c < COLS && 0 <= n <= ROWS && DiagonalColumn(b, p, c, n) == 0
    ensures forall r | 0 <= r < n :: b[c][r] != FromPlayer(p)
  {
    if n > 0 {
      DiagonalColumnZero(b, p, c, n - 1);
      WalkZeroStart(b, p, c, n - 1, 1, 1, 0);
    }
  }

  /** diagonal_control_score is zero exactly when the player has no piece. */
  lemma {:induction false} ThreatColumnsWithoutPieces(b: Board, p: Player, n: int)
    requires 0 <= n <= COLS && NoPieces(b, p)
    ensures ThreatColumns(b, p, n) == 0
  {
    if n > 0 {
      ThreatColumnsWithoutPieces(b, p, n - 1);
      ThreatColumnWithoutPieces(b, p, n - 1, ROWS);
    }
  }

  lemma {:induction false} ThreatColumnWithoutPieces(b: Board, p: Player, col: int, n: int)
    requires 0 <= col < COLS && 0 <= n <= ROWS && NoPieces(b, p)
    ensures ThreatColumn(b, p, col, n) == 0
  {
    if n > 0 {
      ThreatColumnWithoutPieces(b, p, col, n - 1);
      assert b[col][n - 1] != FromPlayer(p);
    }
  }

  /** threat_score only looks at the player's own pieces: without one it is 0. */
  lemma ThreatScoreWithoutPieces(b: Board, p: Player)
    requires NoPieces(b, p)
    ensures ThreatScore(b, p) == 0
  {
    ThreatColumnsWithoutPieces(b, p, COLS);
  }

  lemma DiagonalZeroIffNoPieces(b: Board, p: Player)
    ensures DiagonalControlScore(b, p) == 0 <==> NoPieces(b, p)
  {
    if NoPieces(b, p) {
      DiagonalColumnsWithoutPieces(b, p, COLS);
    }
    if DiagonalControlScore(b, p) == 0 {
      DiagonalColumnsZero(b, p, COLS);
    }
  }

  /** All three control scores are zero exactly when the player has no piece; none is ever negative. */
  lemma ControlScoresZeroIffNoPieces(b: Board, p: Player)
    ensures VerticalControlScore(b, p) == 0 <==> NoPieces(b, p)
    ensures HorizontalControlScore(b, p) == 0 <==> NoPieces(b, p)
    ensures DiagonalControlScore(b, p) == 0 <==> NoPieces(b, p)
  {
    ControlZeroIffNoPieces(b, p);
    DiagonalZeroIffNoPieces(b, p);
  }
}
