/**
 * The board model and the win detector of the Connect Four engine, as values.
 *
 * The board is indexed `b[col][row]` with 7 columns and 6 rows; row 0 is the
 * top row and row 5 the bottom row, so a dropped piece falls towards row 5.
 * Everything here is a pure function of the board: the class `GameState`
 * (module Game) implements the same operations with loops and in-place
 * updates and is proved equal to these definitions.
 */
module Rules {
  import opened Wrappers

  const ROWS: int := 6
  const COLS: int := 7

  /** The source's `u8`, used for columns and search depths. */
  type U8 = x: int | 0 <= x < 256

  datatype Player = Player1 | Player2 {
    /** The other player. */
    function Opponent(): (q: Player)
      ensures q != this
    {
      match this
      case Player1 => Player.Player2
      case Player2 => Player.Player1
    }
  }

  datatype Cell = Empty | Player1 | Player2

  /** The cell that holds a piece of `p`. */
  function FromPlayer(p: Player): (c: Cell)
    ensures c != Empty
  {
    match p
    case Player1 => Cell.Player1
    case Player2 => Cell.Player2
  }

  /** The owner of a cell, if any. */
  function ToPlayer(c: Cell): (r: Option<Player>)
    ensures r.None? <==> c == Empty
  {
    match c
    case Empty => None
    case Player1 => Some(Player.Player1)
    case Player2 => Some(Player.Player2)
  }

  /** FromPlayer and ToPlayer are inverse on the occupied cells, and Opponent is an involution. */
  lemma CellConversionsRoundTrip(p: Player, c: Cell)
    ensures ToPlayer(FromPlayer(p)) == Some(p)
    ensures c != Empty ==> FromPlayer(ToPlayer(c).value) == c
    ensures p.Opponent().Opponent() == p
    ensures FromPlayer(p) != FromPlayer(p.Opponent())
  {
  }

  // ---------------------------------------------------------------------------
  // The board

  predicate IsBoard(b: seq<seq<Cell>>) {
    |b| == COLS && forall c | 0 <= c < COLS :: |b[c]| == ROWS
  }

  /** A 7 x 6 grid of cells, `b[col][row]`. */
  type Board = b: seq<seq<Cell>> | IsBoard(b) witness seq(COLS, _ => seq(ROWS, _ => Empty))

  predicate InBounds(c: int, r: int) {
    0 <= c < COLS && 0 <= r < ROWS
  }

  /** The board of a fresh game: every cell is empty. */
  function EmptyBoard(): (b: Board)
    ensures forall c, r | InBounds(c, r) :: b[c][r] == Empty
  {
    seq(COLS, _ => seq(ROWS, _ => Empty))
  }

  /** The board after the single write `board[col][row] = x`. */
  function Place(b: Board, col: int, row: int, x: Cell): (b': Board)
    requires InBounds(col, row)
    ensures b'[col][row] == x
    ensures forall c, r | InBounds(c, r) && (c != col || r != row) :: b'[c][r] == b[c][r]
  {
    b[col := b[col][row := x]]
  }

  /** Two boards with the same cells are the same board. */
  lemma SameCells(a: Board, b: Board)
    requires forall c, r | InBounds(c, r) :: a[c][r] == b[c][r]
    ensures a == b
  {
    forall c | 0 <= c < COLS ensures a[c] == b[c] {
      assert forall r | 0 <= r < ROWS :: a[c][r] == b[c][r];
    }
  }

  /** No floating pieces: in every column, each cell below an occupied cell is occupied. */
  ghost predicate Settled(b: Board) {
    forall c, r1, r2 | 0 <= c < COLS && 0 <= r1 < r2 < ROWS :: b[c][r1] != Empty ==> b[c][r2] != Empty
  }

  /** `p` owns the in-bounds cell (c, r). */
  predicate Owns(b: Board, c: int, r: int, p: Player) {
    InBounds(c, r) && b[c][r] == FromPlayer(p)
  }

  /** The whole board is empty (is_empty_board). */
  predicate IsEmptyBoard(b: Board) {
    forall c, r | 0 <= c < COLS && 0 <= r < ROWS :: b[c][r] == Empty
  }

  // ---------------------------------------------------------------------------
  // Legal moves

  /** A piece can be dropped into `col`: the column exists and its top cell is empty. */
  predicate CanPlaceInColumn(b: Board, col: int) {
    0 <= col < COLS && b[col][0] == Empty
  }

  /**
   * The scan of rows n-1, n-2, ..., 0 of `col` for the first empty cell, or
   * ROWS when all of them are occupied: the largest empty row below n.
   */
  function LowestEmptyRowBelow(b: Board, col: int, n: int): (row: int)
    requires 0 <= col < COLS && 0 <= n <= ROWS
    ensures row == ROWS ==> forall r | 0 <= r < n :: b[col][r] != Empty
    ensures row != ROWS ==> 0 <= row < n && b[col][row] == Empty
    ensures row != ROWS ==> forall r | row < r < n :: b[col][r] != Empty
    decreases n
  {
    if n == 0 then ROWS
    else if b[col][n - 1] == Empty then n - 1
    else LowestEmptyRowBelow(b, col, n - 1)
  }

  /** get_lowest_empty_row: the bottom-most empty row of `col`, or ROWS if the column is full. */
  function LowestEmptyRow(b: Board, col: int): (row: int)
    requires 0 <= col < COLS
    ensures row == ROWS <==> forall r | 0 <= r < ROWS :: b[col][r] != Empty
    ensures row != ROWS ==> 0 <= row < ROWS && b[col][row] == Empty
    ensures row != ROWS ==> forall r | row < r < ROWS :: b[col][r] != Empty
  {
    LowestEmptyRowBelow(b, col, ROWS)
  }

  /** The board after a successful make_move of `p` into `col`. */
  function Drop(b: Board, col: int, p: Player): (b': Board)
    requires CanPlaceInColumn(b, col)
  {
    Place(b, col, LowestEmptyRow(b, col), FromPlayer(p))
  }

  /**
   * On a board without floating pieces, a drop into a playable column puts the
   * piece directly on top of the column's stack, changes no other cell, and
   * leaves no floating piece.
   */
  lemma DropLandsOnStack(b: Board, col: int, p: Player)
    requires Settled(b) && CanPlaceInColumn(b, col)
    ensures var row, b' := LowestEmptyRow(b, col), Drop(b, col, p);
      && 0 <= row < ROWS
      && b'[col][row] == FromPlayer(p)
      && (forall r | 0 <= r < row :: b'[col][r] == Empty)
      && (forall r | row < r < ROWS :: b'[col][r] == b[col][r] != Empty)
      && (forall c, r | InBounds(c, r) && (c != col || r != row) :: b'[c][r] == b[c][r])
      && Settled(b')
  {
    var row, b' := LowestEmptyRow(b, col), Drop(b, col, p);
    forall r1, r2 | 0 <= r1 < r2 < ROWS && b'[col][r1] != Empty
      ensures b'[col][r2] != Empty
    {
      assert r1 >= row;
    }
  }

  /** The columns below n whose top cell is empty, in ascending order. */
  function ValidMovesBelow(b: Board, n: int): (moves: seq<int>)
    requires 0 <= n <= COLS
    ensures forall i | 0 <= i < |moves| :: 0 <= moves[i] < n
    ensures |moves| <= n
  {
    if n == 0 then []
    else ValidMovesBelow(b, n - 1) + (if CanPlaceInColumn(b, n - 1) then [n - 1] else [])
  }

  /** get_valid_moves: the playable columns in ascending order (see ValidMovesSpec). */
  function ValidMoves(b: Board): (moves: seq<int>)
    ensures |moves| <= COLS
    ensures forall i | 0 <= i < |moves| :: 0 <= moves[i] < COLS
  {
    ValidMovesBelow(b, COLS)
  }

  lemma {:induction false} ValidMovesBelowSpec(b: Board, n: int)
    requires 0 <= n <= COLS
    ensures var moves := ValidMovesBelow(b, n);
      (forall c :: c in moves <==> 0 <= c < n && CanPlaceInColumn(b, c))
      && (forall i, j | 0 <= i < j < |moves| :: moves[i] < moves[j])
  {
    if n > 0 {
      ValidMovesBelowSpec(b, n - 1);
    }
  }

  /** The valid moves are exactly the playable columns, strictly ascending. */
  lemma ValidMovesSpec(b: Board)
    ensures forall c :: c in ValidMoves(b) <==> CanPlaceInColumn(b, c)
    ensures forall i, j | 0 <= i < j < |ValidMoves(b)| :: ValidMoves(b)[i] < ValidMoves(b)[j]
  {
    ValidMovesBelowSpec(b, COLS);
  }

  lemma {:induction false} OpenColumnsAreMoves(b: Board, n: int)
    requires 0 <= n <= COLS
    requires forall c | 0 <= c < n :: b[c][0] == Empty
    ensures ValidMovesBelow(b, n) == seq(n, i => i)
  {
    if n > 0 {
      OpenColumnsAreMoves(b, n - 1);
    }
  }

  /** On the empty board every column is a legal move. */
  lemma ValidMovesOfEmptyBoard()
    ensures ValidMoves(EmptyBoard()) == [0, 1, 2, 3, 4, 5, 6]
  {
    OpenColumnsAreMoves(EmptyBoard(), COLS);
  }

  // ---------------------------------------------------------------------------
  // Win detection

  /** A step of one cell in one of the eight directions. */
  predicate IsStep(dc: int, dr: int) {
    -1 <= dc <= 1 && -1 <= dr <= 1 && (dc != 0 || dr != 0)
  }

  /** Cells left along one axis before the walk leaves the board (termination measure). */
  function Budget(x: int, d: int, size: int): nat {
    if d > 0 then (if x < size then size - x else 0)
    else if d < 0 then (if x >= 0 then x + 1 else 0)
    else 0
  }

  /**
   * The number of contiguous cells of `p` met when walking from (c, r) in steps
   * of (dc, dr), stopping at the first cell that is off the board or not `p`'s:
   * one of the scan loops of count_in_direction.
   */
  function Run(b: Board, c: int, r: int, dc: int, dr: int, p: Player): nat
    requires IsStep(dc, dr)
    decreases Budget(c, dc, COLS) + Budget(r, dr, ROWS)
  {
    if Owns(b, c, r, p) then 1 + Run(b, c + dc, r + dr, dc, dr, p) else 0
  }

  /** count_in_direction: the seed cell plus the runs of `p` on both sides of it. */
  function CountInDirection(b: Board, col: int, row: int, dc: int, dr: int, p: Player): nat
    requires IsStep(dc, dr)
  {
    1 + Run(b, col + dc, row + dr, dc, dr, p) + Run(b, col - dc, row - dr, -dc, -dr, p)
  }

  /** The four axes scanned by the win detector: horizontal, vertical and the two diagonals. */
  const Directions: seq<(int, int)> := [(1, 0), (0, 1), (1, 1), (1, -1)]

  lemma DirectionsAreSteps()
    ensures |Directions| == 4
    ensures forall i | 0 <= i < 4 :: IsStep(Directions[i].0, Directions[i].1)
  {
  }

  /** Some axis from index `k` on counts at least four. */
  predicate WinAlongFrom(b: Board, col: int, row: int, p: Player, k: nat)
    decreases 4 - k
  {
    k < 4 && (CountInDirection(b, col, row, Directions[k].0, Directions[k].1, p) >= 4
              || WinAlongFrom(b, col, row, p, k + 1))
  }

  /**
   * check_win_at (and check_win_at_test, which is the same scan on an explicit
   * board): some axis through (col, row) counts four or more.
   */
  predicate CheckWinAt(b: Board, col: int, row: int, p: Player) {
    WinAlongFrom(b, col, row, p, 0)
  }

  /** The cell (c, r) is occupied and wins for its owner. */
  predicate WinsAt(b: Board, c: int, r: int) {
    InBounds(c, r) && b[c][r] != Empty && CheckWinAt(b, c, r, ToPlayer(b[c][r]).value)
  }

  /** The column-major scan of get_winner, starting at cell (col, row). */
  function WinnerFrom(b: Board, col: int, row: int): Option<Player>
    requires 0 <= col <= COLS && 0 <= row <= ROWS
    decreases COLS - col, ROWS - row
  {
    if col == COLS then None
    else if row == ROWS then WinnerFrom(b, col + 1, 0)
    else if WinsAt(b, col, row) then ToPlayer(b[col][row])
    else WinnerFrom(b, col, row + 1)
  }

  /** get_winner: the owner of the first winning cell in column-major order. */
  function GetWinner(b: Board): Option<Player> {
    WinnerFrom(b, 0, 0)
  }

  predicate HasWinner(b: Board) {
    GetWinner(b).Some?
  }

  /** is_draw: no legal move is left. */
  predicate IsDraw(b: Board) {
    ValidMoves(b) == []
  }

  /** is_game_over: a winner or a draw. */
  predicate IsGameOver(b: Board) {
    HasWinner(b) || IsDraw(b)
  }

  /** Cell (c1, r1) comes before (c2, r2) in the column-major scan order. */
  predicate Before(c1: int, r1: int, c2: int, r2: int) {
    c1 < c2 || (c1 == c2 && r1 < r2)
  }

  /** No cell from (col, row) on in scan order wins. */
  ghost predicate NoWinFrom(b: Board, col: int, row: int) {
    forall c, r | InBounds(c, r) && !Before(c, r, col, row) :: !WinsAt(b, c, r)
  }

  /** (c, r) is the first winning cell from (col, row) on in scan order. */
  ghost predicate FirstWinFrom(b: Board, col: int, row: int, c: int, r: int) {
    && InBounds(c, r) && !Before(c, r, col, row) && WinsAt(b, c, r)
    && forall c', r' | InBounds(c', r') && !Before(c', r', col, row) && Before(c', r', c, r) :: !WinsAt(b, c', r')
  }

  lemma {:induction false} WinnerFromNone(b: Board, col: int, row: int)
    requires 0 <= col <= COLS && 0 <= row <= ROWS
    ensures WinnerFrom(b, col, row).None? <==> NoWinFrom(b, col, row)
    decreases COLS - col, ROWS - row
  {
    if col == COLS {
    } else if row == ROWS {
      WinnerFromNone(b, col + 1, 0);
      assert NoWinFrom(b, col, row) <==> NoWinFrom(b, col + 1, 0);
    } else if WinsAt(b, col, row) {
    } else {
      WinnerFromNone(b, col, row + 1);
      assert NoWinFrom(b, col, row) <==> NoWinFrom(b, col, row + 1);
    }
  }

  lemma {:induction false} WinnerFromCell(b: Board, col: int, row: int) returns (c: int, r: int)
    requires 0 <= col <= COLS && 0 <= row <= ROWS
    requires WinnerFrom(b, col, row).Some?
    ensures FirstWinFrom(b, col, row, c, r)
    ensures b[c][r] == FromPlayer(WinnerFrom(b, col, row).value)
    decreases COLS - col, ROWS - row
  {
    if row == ROWS {
      c, r := WinnerFromCell(b, col + 1, 0);
    } else if WinsAt(b, col, row) {
      c, r := col, row;
    } else {
      c, r := WinnerFromCell(b, col, row + 1);
    }
  }

  /**
   * get_winner returns Some(p) exactly when some cell wins for its owner, and
   * then p owns the first such cell in column-major order.
   */
  lemma WinnerIsFirstWinningCell(b: Board)
    ensures GetWinner(b).None? <==> forall c, r | InBounds(c, r) :: !WinsAt(b, c, r)
    ensures GetWinner(b).Some? ==>
      exists c, r ::
        && InBounds(c, r) && WinsAt(b, c, r) && b[c][r] == FromPlayer(GetWinner(b).value)
        && forall c', r' | InBounds(c', r') && Before(c', r', c, r) :: !WinsAt(b, c', r')
  {
    WinnerFromNone(b, 0, 0);
    if GetWinner(b).Some? {
      var c, r := WinnerFromCell(b, 0, 0);
      assert FirstWinFrom(b, 0, 0, c, r);
    }
  }

  // ---------------------------------------------------------------------------
  // An independent description of a win: four in a row

  /** Four cells of `p` starting at (c, r) and stepping by (dc, dr). */
  predicate Line(b: Board, c: int, r: int, dc: int, dr: int, p: Player) {
    && Owns(b, c, r, p) && Owns(b, c + dc, r + dr, p)
    && Owns(b, c + 2 * dc, r + 2 * dr, p) && Owns(b, c + 3 * dc, r + 3 * dr, p)
  }

  /** A line of four cells of `p` on axis (dc, dr) passes through (c, r). */
  predicate LineThrough(b: Board, c: int, r: int, dc: int, dr: int, p: Player) {
    || Line(b, c, r, dc, dr, p)
    || Line(b, c - dc, r - dr, dc, dr, p)
    || Line(b, c - 2 * dc, r - 2 * dr, dc, dr, p)
    || Line(b, c - 3 * dc, r - 3 * dr, dc, dr, p)
  }

  /** `p` has four in a row somewhere on the board, on one of the four axes. */
  ghost predicate HasFour(b: Board, p: Player) {
    exists c, r, i | InBounds(c, r) && 0 <= i < 4 :: Line(b, c, r, Directions[i].0, Directions[i].1, p)
  }

  /** Through a cell of `p`, an axis counts four or more exactly when a line of four passes there. */
  /** A line of four named by its four cells. */
  lemma LineCells(b: Board, x0: int, y0: int, x1: int, y1: int, x2: int, y2: int, x3: int, y3: int,
                  dc: int, dr: int, p: Player)
    requires x1 == x0 + dc && y1 == y0 + dr && x2 == x1 + dc && y2 == y1 + dr && x3 == x2 + dc && y3 == y2 + dr
    ensures Line(b, x0, y0, dc, dr, p) == (Owns(b, x0, y0, p) && Owns(b, x1, y1, p) && Owns(b, x2, y2, p) && Owns(b, x3, y3, p))
  {
    assert x0 + 2 * dc == x2 && y0 + 2 * dr == y2;
    assert x0 + 3 * dc == x3 && y0 + 3 * dr == y3;
  }

  /** The first three cells of a run, named. */
  lemma RunCells(b: Board, x0: int, y0: int, x1: int, y1: int, x2: int, y2: int, dc: int, dr: int, p: Player)
    requires IsStep(dc, dr)
    requires x1 == x0 + dc && y1 == y0 + dr && x2 == x1 + dc && y2 == y1 + dr
    ensures Run(b, x0, y0, dc, dr, p) >= 1 <==> Owns(b, x0, y0, p)
    ensures Run(b, x0, y0, dc, dr, p) >= 2 <==> Owns(b, x0, y0, p) && Owns(b, x1, y1, p)
    ensures Run(b, x0, y0, dc, dr, p) >= 3 <==> Owns(b, x0, y0, p) && Owns(b, x1, y1, p) && Owns(b, x2, y2, p)
  {
    if Owns(b, x0, y0, p) && Owns(b, x1, y1, p) {
      assert Run(b, x0, y0, dc, dr, p) == 2 + Run(b, x2, y2, dc, dr, p);
    }
  }

  /** Through a cell of `p`, an axis counts four or more exactly when a line of four passes there. */
  lemma CountMeansLine(b: Board, c: int, r: int, dc: int, dr: int, p: Player)
    requires IsStep(dc, dr) && Owns(b, c, r, p)
    ensures CountInDirection(b, c, r, dc, dr, p) >= 4 <==> LineThrough(b, c, r, dc, dr, p)
  {
    var a1, b1 := c + dc, r + dr;
    var a2, b2 := a1 + dc, b1 + dr;
    var a3, b3 := a2 + dc, b2 + dr;
    var m1, n1 := c - dc, r - dr;
    var m2, n2 := c - 2 * dc, r - 2 * dr;
    var m3, n3 := c - 3 * dc, r - 3 * dr;
    RunCells(b, a1, b1, a2, b2, a3, b3, dc, dr, p);
    RunCells(b, m1, n1, m2, n2, m3, n3, -dc, -dr, p);
    LineCells(b, c, r, a1, b1, a2, b2, a3, b3, dc, dr, p);
    LineCells(b, m1, n1, c, r, a1, b1, a2, b2, dc, dr, p);
    LineCells(b, m2, n2, m1, n1, c, r, a1, b1, dc, dr, p);
    LineCells(b, m3, n3, m2, n2, m1, n1, c, r, dc, dr, p);
  }

  lemma {:induction false} WinAlongFromMeansLine(b: Board, c: int, r: int, p: Player, k: nat)
    requires Owns(b, c, r, p) && k <= 4
    ensures WinAlongFrom(b, c, r, p, k) <==>
      exists i | k <= i < 4 :: LineThrough(b, c, r, Directions[i].0, Directions[i].1, p)
    decreases 4 - k
  {
    if k < 4 {
      CountMeansLine(b, c, r, Directions[k].0, Directions[k].1, p);
      WinAlongFromMeansLine(b, c, r, p, k + 1);
    }
  }

  /** check_win_at at a cell of `p` holds exactly when a line of four of `p` passes through that cell. */
  lemma CheckWinAtMeansFourInRow(b: Board, c: int, r: int, p: Player)
    requires Owns(b, c, r, p)
    ensures CheckWinAt(b, c, r, p) <==>
      exists i | 0 <= i < 4 :: LineThrough(b, c, r, Directions[i].0, Directions[i].1, p)
  {
    WinAlongFromMeansLine(b, c, r, p, 0);
  }

  /** A line of four starting at (c, r) makes (c, r) a winning cell. */
  lemma LineStartWins(b: Board, c: int, r: int, i: int, p: Player)
    requires 0 <= i < 4 && Line(b, c, r, Directions[i].0, Directions[i].1, p)
    ensures WinsAt(b, c, r) && b[c][r] == FromPlayer(p)
  {
    CheckWinAtMeansFourInRow(b, c, r, p);
    assert LineThrough(b, c, r, Directions[i].0, Directions[i].1, p);
    CellConversionsRoundTrip(p, b[c][r]);
  }

  /** A line of four on one of the four axes is four in a row. */
  lemma LineIsFour(b: Board, c: int, r: int, dc: int, dr: int, i: int, p: Player)
    requires 0 <= i < 4 && dc == Directions[i].0 && dr == Directions[i].1 && Line(b, c, r, dc, dr, p)
    ensures HasFour(b, p)
  {
    assert InBounds(c, r);
  }

  /** A line of four through a cell, on one of the four axes, is four in a row. */
  lemma LineThroughIsFour(b: Board, c: int, r: int, dc: int, dr: int, i: int, p: Player)
    requires 0 <= i < 4 && dc == Directions[i].0 && dr == Directions[i].1 && LineThrough(b, c, r, dc, dr, p)
    ensures HasFour(b, p)
  {
    if Line(b, c, r, dc, dr, p) {
      LineIsFour(b, c, r, dc, dr, i, p);
    } else if Line(b, c - dc, r - dr, dc, dr, p) {
      LineIsFour(b, c - dc, r - dr, dc, dr, i, p);
    } else if Line(b, c - 2 * dc, r - 2 * dr, dc, dr, p) {
      LineIsFour(b, c - 2 * dc, r - 2 * dr, dc, dr, i, p);
    } else {
      LineIsFour(b, c - 3 * dc, r - 3 * dr, dc, dr, i, p);
    }
  }

  /** A winning cell lies on a line of four of its owner. */
  lemma WinningCellHasLine(b: Board, c: int, r: int)
    requires WinsAt(b, c, r)
    ensures HasFour(b, ToPlayer(b[c][r]).value)
  {
    var p := ToPlayer(b[c][r]).value;
    CellConversionsRoundTrip(p, b[c][r]);
    CheckWinAtMeansFourInRow(b, c, r, p);
    var i :| 0 <= i < 4 && LineThrough(b, c, r, Directions[i].0, Directions[i].1, p);
    LineThroughIsFour(b, c, r, Directions[i].0, Directions[i].1, i, p);
  }

  /**
   * The win detector agrees with the rule of the game: there is no winner
   * exactly when neither player has four in a row on one of the four axes, and
   * a reported winner has four in a row.
   */
  lemma WinnerMeansFourInRow(b: Board)
    ensures GetWinner(b).None? <==> !HasFour(b, Player.Player1) && !HasFour(b, Player.Player2)
    ensures GetWinner(b).Some? ==> HasFour(b, GetWinner(b).value)
  {
    WinnerIsFirstWinningCell(b);
    if GetWinner(b).Some? {
      var c, r :| InBounds(c, r) && WinsAt(b, c, r) && b[c][r] == FromPlayer(GetWinner(b).value);
      WinningCellHasLine(b, c, r);
      CellConversionsRoundTrip(GetWinner(b).value, b[c][r]);
    } else {
      forall p: Player ensures !HasFour(b, p) {
        if HasFour(b, p) {
          var c, r, i :| InBounds(c, r) && 0 <= i < 4 && Line(b, c, r, Directions[i].0, Directions[i].1, p);
          LineStartWins(b, c, r, i, p);
          assert false;
        }
      }
    }
  }

  /** The empty board has no winner, no draw and is not over. */
  lemma EmptyBoardIsOpen()
    ensures GetWinner(EmptyBoard()).None?
    ensures !IsDraw(EmptyBoard()) && !IsGameOver(EmptyBoard())
  {
    WinnerIsFirstWinningCell(EmptyBoard());
    ValidMovesOfEmptyBoard();
  }

  /** is_draw holds exactly when every column's top cell is occupied. */
  lemma DrawIffTopRowFull(b: Board)
    ensures IsDraw(b) <==> forall c | 0 <= c < COLS :: b[c][0] != Empty
  {
    ValidMovesSpec(b);
    if !IsDraw(b) {
      assert ValidMoves(b)[0] in ValidMoves(b);
    } else {
      forall c | 0 <= c < COLS ensures b[c][0] != Empty {
        assert c !in ValidMoves(b);
      }
    }
  }
}
