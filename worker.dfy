/**
 * The web worker's adapters around the engine: the request body is parsed
 * into a GameState, and the engine's move evaluations are copied into the
 * response records. The HTTP handler, CORS, JSON and the timings are not
 * part of this model.
 */
module Worker {
  import opened Rules
  import opened Params
  import opened Play
  import opened Search
  import opened Game

  /** The request body: the board as columns of cell tokens, and the player to move. */
  datatype ConnectFourGameState = ConnectFourGameState(board: seq<seq<string>>, currentPlayer: string)

  const PLAYER1_TOKEN: string := "Player1"
  const PLAYER2_TOKEN: string := "Player2"

  /** The player to move: Player1 exactly for the token "Player1", Player2 for any other string. */
  function ParsePlayer(token: string): (p: Player)
    ensures p == Player.Player1 <==> token == PLAYER1_TOKEN
    ensures p == Player.Player2 <==> token != PLAYER1_TOKEN
  {
    if token == PLAYER1_TOKEN then Player.Player1 else Player.Player2
  }

  /** A cell token: "Player1" and "Player2" name the pieces, every other string is an empty cell. */
  function ParseCell(token: string): (c: Cell)
    ensures c == Cell.Player1 <==> token == PLAYER1_TOKEN
    ensures c == Cell.Player2 <==> token == PLAYER2_TOKEN
    ensures c == Empty <==> token != PLAYER1_TOKEN && token != PLAYER2_TOKEN
  {
    if token == PLAYER1_TOKEN then Cell.Player1
    else if token == PLAYER2_TOKEN then Cell.Player2
    else Empty
  }

  /** The request has an entry for (col, row). */
  predicate Supplied(request: ConnectFourGameState, col: int, row: int) {
    0 <= col < |request.board| && 0 <= row < |request.board[col]|
  }

  /** The cell a request gives (col, row): its parsed token, or Empty when it has none. */
  function RequestCell(request: ConnectFourGameState, col: int, row: int): Cell {
    if Supplied(request, col, row) then ParseCell(request.board[col][row]) else Empty
  }

  /** The board a request describes, clipped to 7 x 6, with no gravity check. */
  function RequestBoard(request: ConnectFourGameState): Board {
    seq(COLS, c => seq(ROWS, r => RequestCell(request, c, r)))
  }

  /** The state a request describes: a fresh game's weights, the request's board and player. */
  function Convert(request: ConnectFourGameState): State {
    State(RequestBoard(request), ParsePlayer(request.currentPlayer), Default())
  }

  /**
   * convert_request_to_game_state. GameState::new draws the first player at
   * random; that draw is `first`, and it is overwritten at once.
   */
  method ConvertRequestToGameState(request: ConnectFourGameState, first: Player) returns (g: GameState)
    ensures fresh(g)
    ensures g.Value() == Convert(request)
  {
    g := new GameState.New(first);
    g.currentPlayer := if request.currentPlayer == PLAYER1_TOKEN then Player.Player1 else Player.Player2;
    for col := 0 to |request.board|
      invariant g.currentPlayer == ParsePlayer(request.currentPlayer) && g.geneticParams == Default()
      invariant forall c, r | InBounds(c, r) :: g.board[c][r] == (if c < col then RequestCell(request, c, r) else Empty)
    {
      var column := request.board[col];
      for row := 0 to |column|
        invariant g.currentPlayer == ParsePlayer(request.currentPlayer) && g.geneticParams == Default()
        invariant forall c, r | InBounds(c, r) ::
          g.board[c][r] == (if c < col || (c == col && r < row) then RequestCell(request, c, r) else Empty)
      {
        if col < COLS && row < ROWS {
          var cell := if column[row] == PLAYER1_TOKEN then Cell.Player1
                      else if column[row] == PLAYER2_TOKEN then Cell.Player2
                      else Empty;
          g.board := Place(g.board, col, row, cell);
        }
      }
    }
    SameCells(g.board, RequestBoard(request));
  }

  // ---------------------------------------------------------------------------
  // Properties of the conversion

  /** The token a cell is sent as; an empty cell may be sent as any other string. */
  function CellToken(c: Cell): string {
    match c
    case Empty => ""
    case Player1 => PLAYER1_TOKEN
    case Player2 => PLAYER2_TOKEN
  }

  /** A request that describes the board `b` with `p` to move. */
  function Request(b: Board, p: Player): ConnectFourGameState {
    ConnectFourGameState(
      seq(COLS, c requires 0 <= c < COLS => seq(ROWS, r requires 0 <= r < ROWS => CellToken(b[c][r]))),
      if p == Player.Player1 then PLAYER1_TOKEN else PLAYER2_TOKEN)
  }

  /** Every board and player survive the trip through a request unchanged. */
  lemma RequestRoundTrip(b: Board, p: Player)
    ensures Convert(Request(b, p)) == State(b, p, Default())
  {
    var request := Request(b, p);
    forall c, r | InBounds(c, r) ensures RequestBoard(request)[c][r] == b[c][r] {
      assert Supplied(request, c, r);
    }
    SameCells(RequestBoard(request), b);
  }

  /** The request cut down to the 7 x 6 board: at most seven columns of at most six tokens. */
  function Clip(request: ConnectFourGameState): (clipped: ConnectFourGameState)
    ensures |clipped.board| <= COLS && forall c | 0 <= c < |clipped.board| :: |clipped.board[c]| <= ROWS
  {
    var n := if |request.board| < COLS then |request.board| else COLS;
    ConnectFourGameState(
      seq(n, c requires 0 <= c < n =>
        var column := request.board[c];
        column[..if |column| < ROWS then |column| else ROWS]),
      request.currentPlayer)
  }

  /**
   * Entries outside the 7 x 6 board change nothing, for any request, ragged
   * ones included: extra columns and rows past 6 in any column are ignored.
   */
  lemma ClippedEntriesIgnored(request: ConnectFourGameState)
    ensures Convert(Clip(request)) == Convert(request)
  {
    var clipped := Clip(request);
    forall c, r | InBounds(c, r) ensures RequestBoard(clipped)[c][r] == RequestBoard(request)[c][r] {
      if Supplied(request, c, r) {
        assert Supplied(clipped, c, r);
        assert clipped.board[c][r] == request.board[c][r];
      }
    }
    SameCells(RequestBoard(clipped), RequestBoard(request));
  }

  /** A cell the request does not supply is Empty, whatever the rest of the request says. */
  lemma MissingCellsEmpty(request: ConnectFourGameState, col: int, row: int)
    requires InBounds(col, row) && !Supplied(request, col, row)
    ensures Convert(request).board[col][row] == Empty
  {
  }

  /** The empty request gives the empty board. */
  lemma EmptyRequest(token: string)
    ensures Convert(ConnectFourGameState([], token)).board == EmptyBoard()
  {
    SameCells(RequestBoard(ConnectFourGameState([], token)), EmptyBoard());
  }

  /** No gravity check: a lone piece in the top cell of a column is accepted as it stands. */
  lemma FloatingPieceAccepted()
    ensures !Settled(Convert(ConnectFourGameState([[PLAYER1_TOKEN]], PLAYER1_TOKEN)).board)
  {
    var b := Convert(ConnectFourGameState([[PLAYER1_TOKEN]], PLAYER1_TOKEN)).board;
    assert b[0][0] == Cell.Player1;
    assert b[0][1] == Empty;
  }

  // ---------------------------------------------------------------------------
  // The response records

  /** The response's copy of a MoveEvaluation. */
  datatype MoveEvaluationWasm = MoveEvaluationWasm(column: int, score: Score, moveType: string)

  /** From<&MoveEvaluation> for MoveEvaluationWasm: a copy of the three fields. */
  function FromMoveEvaluation(e: MoveEvaluation): (w: MoveEvaluationWasm)
    ensures w.column == e.column && w.score == e.score && w.moveType == e.moveType
  {
    MoveEvaluationWasm(e.column, e.score, e.moveType)
  }

  /** The inverse copy. */
  function ToMoveEvaluation(w: MoveEvaluationWasm): MoveEvaluation {
    MoveEvaluation(w.column, w.score, w.moveType)
  }

  /** The copy loses nothing and adds nothing: it is a bijection. */
  lemma CopyIsBijection(e: MoveEvaluation, w: MoveEvaluationWasm)
    ensures ToMoveEvaluation(FromMoveEvaluation(e)) == e
    ensures FromMoveEvaluation(ToMoveEvaluation(w)) == w
  {
  }

  /** The evaluations of the response: each one copied, in order. */
  function ConvertEvaluations(evals: seq<MoveEvaluation>): (ws: seq<MoveEvaluationWasm>)
    ensures |ws| == |evals|
    ensures forall i | 0 <= i < |evals| :: ws[i] == FromMoveEvaluation(evals[i])
  {
    if evals == [] then [] else [FromMoveEvaluation(evals[0])] + ConvertEvaluations(evals[1..])
  }
}
