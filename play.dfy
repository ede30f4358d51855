/**
 * A game state as a value (what `GameState::clone` copies) and make_move on
 * such values. The class `GameState` (module Game) performs the same move in
 * place and is proved to agree with `MakeMove` here.
 */
module Play {
  import opened Wrappers
  import opened Rules
  import opened Params

  /** The board, the player to move and the evaluation weights. */
  datatype State = State(board: Board, current: Player, params: GeneticParams)

  const INVALID_COLUMN: string := "Invalid column"
  const COLUMN_FULL: string := "Column is full"

  /** A fresh game: the empty board with `first` to move (the source draws `first` at random). */
  function NewGame(first: Player, params: GeneticParams): State {
    State(EmptyBoard(), first, params)
  }

  /**
   * make_move: column 7 or more is an invalid column, a column whose top cell
   * is occupied is full; otherwise the mover's piece lands on the lowest empty
   * row and the turn passes.
   */
  function MakeMove(s: State, col: U8): (r: Result<State, string>)
    ensures r.Ok? <==> CanPlaceInColumn(s.board, col)
    ensures r.Err? ==> r.error == (if col >= COLS then INVALID_COLUMN else COLUMN_FULL)
  {
    if col >= COLS then Err(INVALID_COLUMN)
    else if !CanPlaceInColumn(s.board, col) then Err(COLUMN_FULL)
    else Ok(State(Drop(s.board, col, s.current), s.current.Opponent(), s.params))
  }

  /**
   * A successful move writes the mover's piece at the lowest empty row of the
   * column, changes no other cell, keeps the weights and passes the turn, on
   * any board; a board free of floating pieces stays free of them.
   */
  lemma MakeMoveDropsPiece(s: State, col: U8)
    requires MakeMove(s, col).Ok?
    ensures var s', row := MakeMove(s, col).value, LowestEmptyRow(s.board, col);
      && 0 <= row < ROWS && s.board[col][row] == Empty
      && (forall r | row < r < ROWS :: s.board[col][r] != Empty)
      && s'.board[col][row] == FromPlayer(s.current)
      && (forall c, r | InBounds(c, r) && (c != col || r != row) :: s'.board[c][r] == s.board[c][r])
      && s'.current == s.current.Opponent()
      && s'.params == s.params
      && (Settled(s.board) ==> Settled(s'.board))
  {
    if Settled(s.board) {
      DropLandsOnStack(s.board, col, s.current);
    }
  }

  /** The empty board has no floating pieces, so every reachable board is settled. */
  lemma NewGameIsSettled(first: Player, params: GeneticParams)
    ensures Settled(NewGame(first, params).board)
    ensures !IsGameOver(NewGame(first, params).board)
  {
    EmptyBoardIsOpen();
  }
}
