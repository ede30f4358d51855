/**
 * The search of the engine as values: the depth-bounded alpha-beta minimax
 * with its transposition table, the two scans that run before it, the choice
 * of the best root move and the sorting of the root evaluations.
 *
 * The f32 scores of the source are modelled as integers with two explicit
 * sentinels for the infinities the search starts from. The table is keyed by
 * the board and the player to move, which is what the state hash covers.
 */
module Search {
  import opened Wrappers
  import opened Rules
  import opened Play
  import opened Evaluation

  // ---------------------------------------------------------------------------
  // Scores

  /** An f32 score of the search: a finite whole number or one of the two infinities. */
  datatype Score = NegInf | Finite(value: int) | PosInf

  /** The order of f32 on these values. */
  predicate Le(a: Score, b: Score) {
    a.NegInf? || b.PosInf? || (a.Finite? && b.Finite? && a.value <= b.value)
  }

  predicate Lt(a: Score, b: Score) {
    !Le(b, a)
  }

  /** f32::max. */
  function Max(a: Score, b: Score): (m: Score)
    ensures Le(a, m) && Le(b, m) && (m == a || m == b)
  {
    if Le(a, b) then b else a
  }

  /** f32::min. */
  function Min(a: Score, b: Score): (m: Score)
    ensures Le(m, a) && Le(m, b) && (m == a || m == b)
  {
    if Le(a, b) then a else b
  }

  /** `a` is strictly better than `b` for the maximising (Player1) or the minimising (Player2) side. */
  predicate Better(a: Score, b: Score, isMax: bool) {
    if isMax then Lt(b, a) else Lt(a, b)
  }

  /** The worst score for a side: where its running best starts. */
  function Worst(isMax: bool): Score {
    if isMax then NegInf else PosInf
  }

  /** Le is a total order. */
  lemma LeTotalOrder(a: Score, b: Score, c: Score)
    ensures Le(a, a)
    ensures Le(a, b) || Le(b, a)
    ensures Le(a, b) && Le(b, a) ==> a == b
    ensures Le(a, b) && Le(b, c) ==> Le(a, c)
  {
  }

  // ---------------------------------------------------------------------------
  // The transposition table

  /** The cache key: the board and the player to move (the weights are not part of it). */
  type Key = (Board, Player)

  function KeyOf(s: State): Key {
    (s.board, s.current)
  }

  /** A TranspositionEntry: the stored score and the depth it was searched to. */
  datatype Entry = Entry(evaluation: Score, depth: nat)

  type Table = map<Key, Entry>

  /** Every stored score is finite. */
  predicate TableFinite(t: Table) {
    forall k | k in t :: t[k].evaluation.Finite?
  }

  /** The result of a search call: its score, the table after it and the two counters after it. */
  datatype Outcome = Outcome(score: Score, table: Table, nodes: nat, hits: nat)

  /**
   * minimax(state, depth, alpha, beta) with the table `t` and the counters
   * `nodes` and `hits` as they are on entry.
   *
   * A stored entry at least as deep as `depth` is returned as it is and counts
   * a hit. Otherwise a node at depth 0 or whose game is over is evaluated and
   * stored. Otherwise the node counts as evaluated, its children are searched
   * in ascending column order with the window narrowed after each child, and
   * the result is stored at `depth`, overwriting any shallower entry, whether
   * or not the window cut the children short.
   */
  function Search(t: Table, nodes: nat, hits: nat, s: State, depth: nat, alpha: Score, beta: Score): (r: Outcome)
    ensures KeyOf(s) in r.table && r.table[KeyOf(s)].depth >= depth && r.table[KeyOf(s)].evaluation == r.score
    ensures t.Keys <= r.table.Keys
    ensures r.nodes >= nodes && r.hits >= hits
    ensures TableFinite(t) ==> TableFinite(r.table) && r.score.Finite?
    decreases depth, 1, 0
  {
    var key := KeyOf(s);
    if key in t && t[key].depth >= depth then
      Outcome(t[key].evaluation, t, nodes, hits + 1)
    else if depth == 0 || IsGameOver(s.board) then
      var e := Finite(Evaluate(s));
      Outcome(e, t[key := Entry(e, depth)], nodes, hits)
    else
      var moves := ValidMoves(s.board);
      ValidMovesSpec(s.board);
      var isMax := s.current == Player.Player1;
      var r := Children(t, nodes + 1, hits, s, depth - 1, alpha, beta, moves, Worst(isMax), isMax);
      Outcome(r.score, r.table[key := Entry(r.score, depth)], r.nodes, r.hits)
  }

  /**
   * The child loop of minimax over the columns left in `moves`: each column
   * that can be played is searched one level deeper, the running best and the
   * window are updated, and the loop stops once beta <= alpha.
   */
  function Children(t: Table, nodes: nat, hits: nat, s: State, childDepth: nat, alpha: Score, beta: Score,
                    moves: seq<int>, best: Score, isMax: bool): (r: Outcome)
    requires forall i | 0 <= i < |moves| :: 0 <= moves[i] < COLS
    ensures t.Keys <= r.table.Keys
    ensures r.nodes >= nodes && r.hits >= hits
    ensures !Better(best, r.score, isMax)
    ensures TableFinite(t) ==> TableFinite(r.table)
    ensures TableFinite(t) && (best.Finite? || (best == Worst(isMax) && |moves| > 0 && CanPlaceInColumn(s.board, moves[0])))
      ==> r.score.Finite?
    decreases childDepth, 2, |moves|
  {
    if |moves| == 0 then Outcome(best, t, nodes, hits)
    else match Play.MakeMove(s, moves[0])
      case Err(_) => Children(t, nodes, hits, s, childDepth, alpha, beta, moves[1..], best, isMax)
      case Ok(next) =>
        var c := Search(t, nodes, hits, next, childDepth, alpha, beta);
        var best' := if isMax then Max(best, c.score) else Min(best, c.score);
        var alpha' := if isMax then Max(alpha, c.score) else alpha;
        var beta' := if isMax then beta else Min(beta, c.score);
        if Le(beta', alpha') then Outcome(best', c.table, c.nodes, c.hits)
        else Children(c.table, c.nodes, c.hits, s, childDepth, alpha', beta', moves[1..], best', isMax)
  }

  // One-step unfoldings of the search, used by the methods that compute it.

  /** A cache hit returns the stored score and counts the hit. */
  lemma SearchHit(t: Table, nodes: nat, hits: nat, s: State, depth: nat, alpha: Score, beta: Score)
    requires KeyOf(s) in t && t[KeyOf(s)].depth >= depth
    ensures Search(t, nodes, hits, s, depth, alpha, beta) == Outcome(t[KeyOf(s)].evaluation, t, nodes, hits + 1)
  {
  }

  /** An inner node counts itself, searches its children and stores their value at its depth. */
  lemma SearchExpands(t: Table, nodes: nat, hits: nat, s: State, depth: nat, alpha: Score, beta: Score)
    requires !(KeyOf(s) in t && t[KeyOf(s)].depth >= depth)
    requires depth > 0 && !IsGameOver(s.board)
    ensures var isMax := s.current == Player.Player1;
      var r := Children(t, nodes + 1, hits, s, depth - 1, alpha, beta, ValidMoves(s.board), Worst(isMax), isMax);
      Search(t, nodes, hits, s, depth, alpha, beta) == Outcome(r.score, r.table[KeyOf(s) := Entry(r.score, depth)], r.nodes, r.hits)
  {
  }

  /** The child loop with no column left returns the running best. */
  lemma ChildrenDone(t: Table, nodes: nat, hits: nat, s: State, childDepth: nat, alpha: Score, beta: Score, best: Score, isMax: bool)
    ensures Children(t, nodes, hits, s, childDepth, alpha, beta, [], best, isMax) == Outcome(best, t, nodes, hits)
  {
  }

  /** The child loop passes over a column that cannot be played. */
  lemma ChildrenSkip(t: Table, nodes: nat, hits: nat, s: State, childDepth: nat, alpha: Score, beta: Score,
                     moves: seq<int>, best: Score, isMax: bool)
    requires forall i | 0 <= i < |moves| :: 0 <= moves[i] < COLS
    requires |moves| > 0 && Play.MakeMove(s, moves[0]).Err?
    ensures Children(t, nodes, hits, s, childDepth, alpha, beta, moves, best, isMax)
         == Children(t, nodes, hits, s, childDepth, alpha, beta, moves[1..], best, isMax)
  {
  }

  /** The child loop searches a playable column, updates the best and the window, and stops once beta <= alpha. */
  lemma ChildrenVisit(t: Table, nodes: nat, hits: nat, s: State, childDepth: nat, alpha: Score, beta: Score,
                      moves: seq<int>, best: Score, isMax: bool, next: State)
    requires forall i | 0 <= i < |moves| :: 0 <= moves[i] < COLS
    requires |moves| > 0 && Play.MakeMove(s, moves[0]) == Ok(next)
    ensures var c := Search(t, nodes, hits, next, childDepth, alpha, beta);
      var best' := if isMax then Max(best, c.score) else Min(best, c.score);
      var alpha' := if isMax then Max(alpha, c.score) else alpha;
      var beta' := if isMax then beta else Min(beta, c.score);
      Children(t, nodes, hits, s, childDepth, alpha, beta, moves, best, isMax)
        == if Le(beta', alpha') then Outcome(best', c.table, c.nodes, c.hits)
           else Children(c.table, c.nodes, c.hits, s, childDepth, alpha', beta', moves[1..], best', isMax)
  {
  }

  /**
   * Searching a state again, to at most the depth it was searched to and with
   * any window, is a cache hit: it returns the same score and changes nothing
   * but the hit counter.
   */
  lemma RepeatIsHit(t: Table, nodes: nat, hits: nat, s: State, depth: nat, alpha: Score, beta: Score,
                    nodes': nat, hits': nat, depth': nat, alpha': Score, beta': Score)
    requires depth' <= depth
    ensures var r := Search(t, nodes, hits, s, depth, alpha, beta);
      Search(r.table, nodes', hits', s, depth', alpha', beta') == Outcome(r.score, r.table, nodes', hits' + 1)
  {
  }

  /** A search that misses the cache stores its result at the requested depth, overwriting the old entry. */
  lemma MissIsStored(t: Table, nodes: nat, hits: nat, s: State, depth: nat, alpha: Score, beta: Score)
    requires !(KeyOf(s) in t && t[KeyOf(s)].depth >= depth)
    ensures var r := Search(t, nodes, hits, s, depth, alpha, beta);
      r.table[KeyOf(s)] == Entry(r.score, depth) && r.hits >= hits
  {
  }

  /** A node at depth 0 or whose game is over scores its static evaluation, unless the cache holds it. */
  lemma LeafIsEvaluated(t: Table, nodes: nat, hits: nat, s: State, depth: nat, alpha: Score, beta: Score)
    requires !(KeyOf(s) in t && t[KeyOf(s)].depth >= depth)
    requires depth == 0 || IsGameOver(s.board)
    ensures Search(t, nodes, hits, s, depth, alpha, beta)
      == Outcome(Finite(Evaluate(s)), t[KeyOf(s) := Entry(Finite(Evaluate(s)), depth)], nodes, hits)
  {
  }

  // ---------------------------------------------------------------------------
  // Root moves

  /** A MoveEvaluation: the column, its score and how it was found ("win", "block" or "drop"). */
  datatype MoveEvaluation = MoveEvaluation(column: int, score: Score, moveType: string)

  const WIN: string := "win"
  const BLOCK: string := "block"
  const DROP: string := "drop"

  /** The state after `col`, when the column can be played. */
  function After(s: State, col: int): Option<State>
    requires 0 <= col < COLS
  {
    match Play.MakeMove(s, col)
    case Ok(next) => Some(next)
    case Err(_) => None
  }

  /** Playing `col` makes the player to move in `s` the winner. */
  predicate WinsWith(s: State, col: int)
    requires 0 <= col < COLS
  {
    var a := After(s, col);
    a.Some? && HasWinner(a.value.board) && GetWinner(a.value.board) == Some(s.current)
  }

  /** The first column of `moves` that wins at once for the player to move. */
  function FirstWinningMove(s: State, moves: seq<int>): Option<int>
    requires forall i | 0 <= i < |moves| :: 0 <= moves[i] < COLS
  {
    if |moves| == 0 then None
    else if WinsWith(s, moves[0]) then Some(moves[0])
    else FirstWinningMove(s, moves[1..])
  }

  /** The win scan finds nothing exactly when no column of `moves` wins. */
  lemma {:induction false} FirstWinningMoveNone(s: State, moves: seq<int>)
    requires forall i | 0 <= i < |moves| :: 0 <= moves[i] < COLS
    ensures FirstWinningMove(s, moves).None? <==> forall i | 0 <= i < |moves| :: !WinsWith(s, moves[i])
    decreases |moves|
  {
    if |moves| > 0 && !WinsWith(s, moves[0]) {
      assert FirstWinningMove(s, moves) == FirstWinningMove(s, moves[1..]);
      FirstWinningMoveNone(s, moves[1..]);
      assert forall i | 1 <= i < |moves| :: moves[1..][i - 1] == moves[i];
    }
  }

  /** A column the win scan returns is the first winning column of `moves`; `i` is its position. */
  lemma {:induction false} FirstWinningMoveIndex(s: State, moves: seq<int>) returns (i: int)
    requires forall i | 0 <= i < |moves| :: 0 <= moves[i] < COLS
    requires FirstWinningMove(s, moves).Some?
    ensures 0 <= i < |moves| && FirstWinningMove(s, moves).value == moves[i] && WinsWith(s, moves[i])
    ensures forall j | 0 <= j < i :: !WinsWith(s, moves[j])
    decreases |moves|
  {
    if WinsWith(s, moves[0]) {
      i := 0;
    } else {
      assert FirstWinningMove(s, moves) == FirstWinningMove(s, moves[1..]);
      var k := FirstWinningMoveIndex(s, moves[1..]);
      i := k + 1;
      assert moves[i] == moves[1..][k];
      forall j | 0 < j < i ensures !WinsWith(s, moves[j]) {
        assert moves[j] == moves[1..][j - 1];
      }
    }
  }

  /** Some column of `moves` wins at once for the player to move in `s`, searched in order. */
  predicate ReplyWins(s: State, moves: seq<int>)
    requires forall i | 0 <= i < |moves| :: 0 <= moves[i] < COLS
  {
    FirstWinningMove(s, moves).Some?
  }

  /**
   * The condition of the block scan, as written: after `col` the opponent still
   * has a column that wins at once. (The scan promises to block such a reply
   * but tests for its presence.)
   */
  predicate LeavesWinningReply(s: State, col: int)
    requires 0 <= col < COLS
  {
    var a := After(s, col);
    a.Some? && ReplyWins(a.value, ValidMoves(a.value.board))
  }

  /** The column the block scan returns: the first of `moves` after which the opponent can win at once. */
  function FirstBlockMove(s: State, moves: seq<int>): Option<int>
    requires forall i | 0 <= i < |moves| :: 0 <= moves[i] < COLS
  {
    if |moves| == 0 then None
    else if LeavesWinningReply(s, moves[0]) then Some(moves[0])
    else FirstBlockMove(s, moves[1..])
  }

  /** The block scan finds nothing exactly when no column of `moves` leaves a winning reply. */
  lemma {:induction false} FirstBlockMoveNone(s: State, moves: seq<int>)
    requires forall i | 0 <= i < |moves| :: 0 <= moves[i] < COLS
    ensures FirstBlockMove(s, moves).None? <==> forall i | 0 <= i < |moves| :: !LeavesWinningReply(s, moves[i])
    decreases |moves|
  {
    if |moves| > 0 && !LeavesWinningReply(s, moves[0]) {
      assert FirstBlockMove(s, moves) == FirstBlockMove(s, moves[1..]);
      FirstBlockMoveNone(s, moves[1..]);
      assert forall i | 1 <= i < |moves| :: moves[1..][i - 1] == moves[i];
    }
  }

  /** A column the block scan returns is the first of `moves` that leaves a winning reply; `i` is its position. */
  lemma {:induction false} FirstBlockMoveIndex(s: State, moves: seq<int>) returns (i: int)
    requires forall i | 0 <= i < |moves| :: 0 <= moves[i] < COLS
    requires FirstBlockMove(s, moves).Some?
    ensures 0 <= i < |moves| && FirstBlockMove(s, moves).value == moves[i] && LeavesWinningReply(s, moves[i])
    ensures forall j | 0 <= j < i :: !LeavesWinningReply(s, moves[j])
    decreases |moves|
  {
    if LeavesWinningReply(s, moves[0]) {
      i := 0;
    } else {
      assert FirstBlockMove(s, moves) == FirstBlockMove(s, moves[1..]);
      var k := FirstBlockMoveIndex(s, moves[1..]);
      i := k + 1;
      assert moves[i] == moves[1..][k];
      forall j | 0 < j < i ensures !LeavesWinningReply(s, moves[j]) {
        assert moves[j] == moves[1..][j - 1];
      }
    }
  }

  /**
   * The block scan as written does not block: the column it returns leaves
   * the opponent an immediate win, with the opponent to move.
   */
  lemma BlockMoveLeavesWin(s: State, moves: seq<int>)
    requires forall i | 0 <= i < |moves| :: 0 <= moves[i] < COLS
    requires FirstBlockMove(s, moves).Some?
    ensures var col := FirstBlockMove(s, moves).value;
      0 <= col < COLS && After(s, col).Some? && After(s, col).value.current == s.current.Opponent()
      && exists reply | reply in ValidMoves(After(s, col).value.board) :: WinsWith(After(s, col).value, reply)
  {
    var b := FirstBlockMoveIndex(s, moves);
    var col := FirstBlockMove(s, moves).value;
    var next := After(s, col).value;
    var replies := ValidMoves(next.board);
    var i := FirstWinningMoveIndex(next, replies);
    assert replies[i] in replies;
  }

  /** The root loop of get_best_move: one "drop" entry per playable column, each searched with a full window. */
  datatype RootOutcome = RootOutcome(evals: seq<MoveEvaluation>, table: Table, nodes: nat, hits: nat)

  function RootScan(t: Table, nodes: nat, hits: nat, s: State, childDepth: nat, moves: seq<int>): (r: RootOutcome)
    requires forall i | 0 <= i < |moves| :: 0 <= moves[i] < COLS
    ensures t.Keys <= r.table.Keys
    ensures TableFinite(t) ==> TableFinite(r.table) && forall i | 0 <= i < |r.evals| :: r.evals[i].score.Finite?
    decreases |moves|
  {
    if |moves| == 0 then RootOutcome([], t, nodes, hits)
    else match Play.MakeMove(s, moves[0])
      case Err(_) => RootScan(t, nodes, hits, s, childDepth, moves[1..])
      case Ok(next) =>
        var c := Search(t, nodes, hits, next, childDepth, NegInf, PosInf);
        var rest := RootScan(c.table, c.nodes, c.hits, s, childDepth, moves[1..]);
        RootOutcome([MoveEvaluation(moves[0], c.score, DROP)] + rest.evals, rest.table, rest.nodes, rest.hits)
  }

  /** The root loop passes over a column that cannot be played. */
  lemma RootScanSkip(t: Table, nodes: nat, hits: nat, s: State, childDepth: nat, moves: seq<int>)
    requires forall i | 0 <= i < |moves| :: 0 <= moves[i] < COLS
    requires |moves| > 0 && Play.MakeMove(s, moves[0]).Err?
    ensures RootScan(t, nodes, hits, s, childDepth, moves) == RootScan(t, nodes, hits, s, childDepth, moves[1..])
  {
  }

  /** The root loop records a playable column with its full-window score. */
  lemma RootScanVisit(t: Table, nodes: nat, hits: nat, s: State, childDepth: nat, moves: seq<int>, next: State)
    requires forall i | 0 <= i < |moves| :: 0 <= moves[i] < COLS
    requires |moves| > 0 && Play.MakeMove(s, moves[0]) == Ok(next)
    ensures var c := Search(t, nodes, hits, next, childDepth, NegInf, PosInf);
      var rest := RootScan(c.table, c.nodes, c.hits, s, childDepth, moves[1..]);
      RootScan(t, nodes, hits, s, childDepth, moves)
        == RootOutcome([MoveEvaluation(moves[0], c.score, DROP)] + rest.evals, rest.table, rest.nodes, rest.hits)
  {
  }

  /** When every column of `moves` can be played, the root loop has one "drop" entry per column, in order. */
  lemma {:induction false} RootScanCovers(t: Table, nodes: nat, hits: nat, s: State, childDepth: nat, moves: seq<int>)
    requires forall i | 0 <= i < |moves| :: 0 <= moves[i] < COLS && CanPlaceInColumn(s.board, moves[i])
    ensures var r := RootScan(t, nodes, hits, s, childDepth, moves);
      |r.evals| == |moves| && forall i | 0 <= i < |moves| :: r.evals[i].column == moves[i] && r.evals[i].moveType == DROP
    decreases |moves|
  {
    if |moves| > 0 {
      var next := Play.MakeMove(s, moves[0]).value;
      var c := Search(t, nodes, hits, next, childDepth, NegInf, PosInf);
      assert forall i | 1 <= i < |moves| :: moves[1..][i - 1] == moves[i];
      RootScanCovers(c.table, c.nodes, c.hits, s, childDepth, moves[1..]);
    }
  }

  /**
   * The best-move bookkeeping of the root loop: the running best score and
   * move are replaced only by a strictly better score.
   */
  function Choose(evals: seq<MoveEvaluation>, best: Score, choice: Option<int>, isMax: bool): Option<int> {
    if |evals| == 0 then choice
    else if Better(evals[0].score, best, isMax) then Choose(evals[1..], evals[0].score, Some(evals[0].column), isMax)
    else Choose(evals[1..], best, choice, isMax)
  }

  /** One step of the bookkeeping. */
  lemma ChooseStep(e: MoveEvaluation, evals: seq<MoveEvaluation>, best: Score, choice: Option<int>, isMax: bool)
    ensures Choose([e] + evals, best, choice, isMax)
      == if Better(e.score, best, isMax) then Choose(evals, e.score, Some(e.column), isMax) else Choose(evals, best, choice, isMax)
  {
    assert ([e] + evals)[1..] == evals;
  }

  /** Index `i` holds the first best score of `evals` for the side. */
  predicate FirstBest(evals: seq<MoveEvaluation>, i: int, isMax: bool) {
    && 0 <= i < |evals|
    && (forall j | 0 <= j < |evals| :: !Better(evals[j].score, evals[i].score, isMax))
    && (forall j | 0 <= j < i :: Better(evals[i].score, evals[j].score, isMax))
  }

  /** The first best entry of the tail is the first best entry of the list when it beats the head. */
  lemma FirstBestBehindHead(evals: seq<MoveEvaluation>, k: int, isMax: bool)
    requires |evals| > 0 && FirstBest(evals[1..], k, isMax) && Better(evals[k + 1].score, evals[0].score, isMax)
    ensures FirstBest(evals, k + 1, isMax)
  {
    var rest := evals[1..];
    assert forall j | 1 <= j < |evals| :: rest[j - 1] == evals[j];
    BetterIsAsymmetric(evals[k + 1].score, evals[0].score, isMax);
  }

  /** The bookkeeping keeps the initial choice when no score beats the initial best. */
  lemma {:induction false} ChooseKeepsChoice(evals: seq<MoveEvaluation>, best: Score, choice: Option<int>, isMax: bool)
    requires forall j | 0 <= j < |evals| :: !Better(evals[j].score, best, isMax)
    ensures Choose(evals, best, choice, isMax) == choice
    decreases |evals|
  {
    if |evals| > 0 {
      assert forall j | 1 <= j < |evals| :: evals[1..][j - 1] == evals[j];
      ChooseKeepsChoice(evals[1..], best, choice, isMax);
    }
  }

  /** When some score beats the initial best, the bookkeeping ends on the column of the first best score. */
  lemma {:induction false} ChooseFindsFirstBest(evals: seq<MoveEvaluation>, best: Score, choice: Option<int>, isMax: bool)
    requires exists j | 0 <= j < |evals| :: Better(evals[j].score, best, isMax)
    ensures exists i :: FirstBest(evals, i, isMax) && Better(evals[i].score, best, isMax)
                     && Choose(evals, best, choice, isMax) == Some(evals[i].column)
    decreases |evals|
  {
    var rest := evals[1..];
    assert forall j | 1 <= j < |evals| :: rest[j - 1] == evals[j];
    var e := evals[0].score;
    if Better(e, best, isMax) {
      if exists j | 0 <= j < |rest| :: Better(rest[j].score, e, isMax) {
        ChooseFindsFirstBest(rest, e, Some(evals[0].column), isMax);
        var k :| FirstBest(rest, k, isMax) && Better(rest[k].score, e, isMax)
                 && Choose(rest, e, Some(evals[0].column), isMax) == Some(rest[k].column);
        BetterIsTransitive(rest[k].score, e, best, isMax);
        FirstBestBehindHead(evals, k, isMax);
      } else {
        ChooseKeepsChoice(rest, e, Some(evals[0].column), isMax);
        assert FirstBest(evals, 0, isMax);
      }
    } else {
      ChooseFindsFirstBest(rest, best, choice, isMax);
      var k :| FirstBest(rest, k, isMax) && Better(rest[k].score, best, isMax)
               && Choose(rest, best, choice, isMax) == Some(rest[k].column);
      NotBetterThenBetter(e, best, rest[k].score, isMax);
      FirstBestBehindHead(evals, k, isMax);
    }
  }

  lemma BetterIsTransitive(a: Score, b: Score, c: Score, isMax: bool)
    requires Better(a, b, isMax) && Better(b, c, isMax)
    ensures Better(a, c, isMax)
  {
  }

  lemma BetterIsAsymmetric(a: Score, b: Score, isMax: bool)
    requires Better(a, b, isMax)
    ensures !Better(b, a, isMax)
  {
  }

  lemma NotBetterThenBetter(a: Score, b: Score, c: Score, isMax: bool)
    requires !Better(a, b, isMax) && Better(c, b, isMax)
    ensures Better(c, a, isMax)
  {
  }

  /** `x` goes before `y` in the sorted list: a better score, or an equal score and a smaller column. */
  predicate Precedes(x: MoveEvaluation, y: MoveEvaluation, descending: bool) {
    Better(x.score, y.score, descending) || (x.score == y.score && x.column < y.column)
  }

  predicate SortedBy(l: seq<MoveEvaluation>, descending: bool) {
    forall i, j | 0 <= i < j < |l| :: Precedes(l[i], l[j], descending)
  }

  predicate ColumnsAscending(l: seq<MoveEvaluation>) {
    forall i, j | 0 <= i < j < |l| :: l[i].column < l[j].column
  }

  /** One step of a stable insertion sort: `x` goes before the first entry whose score is not better. */
  function Insert(x: MoveEvaluation, l: seq<MoveEvaluation>, descending: bool): (r: seq<MoveEvaluation>)
    ensures multiset(r) == multiset(l) + multiset{x}
  {
    if |l| == 0 then [x]
    else if !Better(l[0].score, x.score, descending) then [x] + l
    else
      assert l == [l[0]] + l[1..];
      [l[0]] + Insert(x, l[1..], descending)
  }

  /**
   * sort_by on the scores, descending or ascending. It is stable, so entries
   * with equal scores keep their order.
   */
  function SortEvals(l: seq<MoveEvaluation>, descending: bool): (r: seq<MoveEvaluation>)
    ensures multiset(r) == multiset(l)
  {
    if |l| == 0 then []
    else
      assert l == [l[0]] + l[1..];
      Insert(l[0], SortEvals(l[1..], descending), descending)
  }

  /** An entry that precedes another has a score at least as good. */
  lemma PrecedesIsNotWorse(x: MoveEvaluation, y: MoveEvaluation, descending: bool)
    requires Precedes(x, y, descending)
    ensures !Better(y.score, x.score, descending)
  {
  }

  lemma NotBetterIsTransitive(a: Score, b: Score, c: Score, isMax: bool)
    requires !Better(a, b, isMax) && !Better(b, c, isMax)
    ensures !Better(a, c, isMax)
  {
  }

  lemma ScoresTotal(a: Score, b: Score, descending: bool)
    ensures Better(a, b, descending) || Better(b, a, descending) || a == b
  {
  }

  /** Every entry of a list, as an index. */
  lemma MemberAt(l: seq<MoveEvaluation>, y: MoveEvaluation, m: multiset<MoveEvaluation>) returns (k: int)
    requires m == multiset(l) && y in m
    ensures 0 <= k < |l| && l[k] == y
  {
    k :| 0 <= k < |l| && l[k] == y;
  }

  lemma {:induction false} InsertSorted(x: MoveEvaluation, l: seq<MoveEvaluation>, descending: bool)
    requires SortedBy(l, descending)
    requires forall y | y in l :: x.column < y.column
    ensures SortedBy(Insert(x, l, descending), descending)
    decreases |l|
  {
    if |l| == 0 {
    } else if Better(l[0].score, x.score, descending) {
      var rest := l[1..];
      assert SortedBy(rest, descending) by {
        forall i, j | 0 <= i < j < |rest| ensures Precedes(rest[i], rest[j], descending) {
          assert rest[i] == l[i + 1] && rest[j] == l[j + 1];
        }
      }
      forall y | y in rest ensures x.column < y.column {
        var k :| 0 <= k < |rest| && rest[k] == y;
        assert l[k + 1] == y;
      }
      InsertSorted(x, rest, descending);
      var ins := Insert(x, rest, descending);
      var res := [l[0]] + ins;
      forall i, j | 0 <= i < j < |res| ensures Precedes(res[i], res[j], descending) {
        if i == 0 {
          var y := ins[j - 1];
          assert y in multiset(ins);
          if y != x {
            var k := MemberAt(rest, y, multiset(rest));
            assert l[k + 1] == y;
          }
        } else {
          assert res[i] == ins[i - 1] && res[j] == ins[j - 1];
        }
      }
    } else {
      var res := [x] + l;
      forall i, j | 0 <= i < j < |res| ensures Precedes(res[i], res[j], descending) {
        if i == 0 {
          var y := l[j - 1];
          if j - 1 > 0 {
            PrecedesIsNotWorse(l[0], y, descending);
            NotBetterIsTransitive(y.score, l[0].score, x.score, descending);
          }
          assert y in l;
          ScoresTotal(x.score, y.score, descending);
        } else {
          assert res[i] == l[i - 1] && res[j] == l[j - 1];
        }
      }
    }
  }

  /** The stable sort orders the list by score and, among equal scores, by column. */
  lemma {:induction false} SortEvalsSorted(l: seq<MoveEvaluation>, descending: bool)
    requires ColumnsAscending(l)
    ensures SortedBy(SortEvals(l, descending), descending)
    decreases |l|
  {
    if |l| > 0 {
      var rest := l[1..];
      assert ColumnsAscending(rest) by {
        forall i, j | 0 <= i < j < |rest| ensures rest[i].column < rest[j].column {
          assert rest[i] == l[i + 1] && rest[j] == l[j + 1];
        }
      }
      SortEvalsSorted(rest, descending);
      var sorted := SortEvals(rest, descending);
      forall y | y in sorted ensures l[0].column < y.column {
        assert y in multiset(sorted);
        var k := MemberAt(rest, y, multiset(rest));
        assert l[k + 1] == y;
      }
      InsertSorted(l[0], sorted, descending);
    }
  }

  /**
   * With its scores sorted the same way as the choice is made, the first
   * entry of the sorted list is the first best entry of the original list.
   */
  lemma SortedHeadIsFirstBest(l: seq<MoveEvaluation>, i: int, descending: bool)
    requires ColumnsAscending(l) && FirstBest(l, i, descending)
    ensures |SortEvals(l, descending)| == |l| && SortEvals(l, descending)[0] == l[i]
  {
    SortEvalsSorted(l, descending);
    var sorted := SortEvals(l, descending);
    assert |sorted| == |multiset(sorted)| == |multiset(l)| == |l|;
    var h := sorted[0];
    assert h in multiset(l);
    var m := MemberAt(l, h, multiset(l));
    assert l[i] in multiset(sorted);
    var k := MemberAt(sorted, l[i], multiset(sorted));
    if m != i {
      assert false;
    }
  }

  // ---------------------------------------------------------------------------
  // The move decision

  /** A score from the mover's side: `v` for Player1 and `-v` for Player2. */
  function Signed(s: State, v: int): Score {
    Finite(if s.current == Player.Player1 then v else -v)
  }

  /** `depth - 1` on the u8 search depth, wrapping at 0 as a release build does. */
  function ChildDepth(depth: U8): U8 {
    if depth == 0 then 255 else depth - 1
  }

  /** What get_best_move returns, with the table and the counters it leaves. */
  datatype Decision = Decision(choice: Option<int>, evals: seq<MoveEvaluation>, table: Table, nodes: nat, hits: nat)

  /**
   * AI::get_best_move: both counters restart at 0; no valid move gives
   * nothing, a single valid move is played without evaluation; then the win
   * scan, then the block scan as written, then a full-window search of every
   * valid move, sorted best first for the player to move.
   */
  function BestMove(t: Table, s: State, depth: U8): Decision {
    var moves := ValidMoves(s.board);
    if |moves| == 0 then Decision(None, [], t, 0, 0)
    else if |moves| == 1 then Decision(Some(moves[0]), [], t, 0, 0)
    else match FirstWinningMove(s, moves)
      case Some(col) => Decision(Some(col), [MoveEvaluation(col, Signed(s, 10000), WIN)], t, 0, 0)
      case None =>
        match FirstBlockMove(s, moves)
        case Some(col) => Decision(Some(col), [MoveEvaluation(col, Signed(s, 5000), BLOCK)], t, 0, 0)
        case None =>
          var isMax := s.current == Player.Player1;
          var root := RootScan(t, 0, 0, s, ChildDepth(depth), moves);
          Decision(Choose(root.evals, Worst(isMax), None, isMax), SortEvals(root.evals, isMax), root.table, root.nodes, root.hits)
  }

  /**
   * get_best_move never drops a stored position, and from a table of finite
   * values it leaves a table of finite values and returns finite scores only.
   */
  lemma BestMoveKeepsTable(t: Table, s: State, depth: U8)
    ensures t.Keys <= BestMove(t, s, depth).table.Keys
    ensures TableFinite(t) ==>
      var d := BestMove(t, s, depth);
      TableFinite(d.table) && forall i | 0 <= i < |d.evals| :: d.evals[i].score.Finite?
  {
    var moves, d := ValidMoves(s.board), BestMove(t, s, depth);
    if |moves| >= 2 && FirstWinningMove(s, moves).None? && FirstBlockMove(s, moves).None? && TableFinite(t) {
      var root := RootScan(t, 0, 0, s, ChildDepth(depth), moves);
      assert multiset(d.evals) == multiset(root.evals);
      forall i | 0 <= i < |d.evals| ensures d.evals[i].score.Finite? {
        assert d.evals[i] in multiset(root.evals);
        var j :| 0 <= j < |root.evals| && root.evals[j] == d.evals[i];
      }
    }
  }

  /** With no valid move nothing is chosen; with one valid move it is chosen without evaluation. */
  lemma BestMoveEarlyExits(t: Table, s: State, depth: U8)
    ensures var d, moves := BestMove(t, s, depth), ValidMoves(s.board);
      && (|moves| == 0 ==> d == Decision(None, [], t, 0, 0))
      && (|moves| == 1 ==> d == Decision(Some(moves[0]), [], t, 0, 0))
      && (|moves| == 0 <==> IsDraw(s.board))
  {
  }

  /** The unfolding of BestMove on the win path. */
  lemma BestMoveWinPath(t: Table, s: State, depth: U8)
    requires |ValidMoves(s.board)| >= 2 && FirstWinningMove(s, ValidMoves(s.board)).Some?
    ensures var col := FirstWinningMove(s, ValidMoves(s.board)).value;
      BestMove(t, s, depth) == Decision(Some(col), [MoveEvaluation(col, Signed(s, 10000), WIN)], t, 0, 0)
  {
  }

  /** The unfolding of BestMove on the block path. */
  lemma BestMoveBlockPath(t: Table, s: State, depth: U8)
    requires |ValidMoves(s.board)| >= 2 && FirstWinningMove(s, ValidMoves(s.board)).None?
    requires FirstBlockMove(s, ValidMoves(s.board)).Some?
    ensures var col := FirstBlockMove(s, ValidMoves(s.board)).value;
      BestMove(t, s, depth) == Decision(Some(col), [MoveEvaluation(col, Signed(s, 5000), BLOCK)], t, 0, 0)
  {
  }

  /** The unfolding of BestMove on the full-search path. */
  lemma BestMoveSearchPath(t: Table, s: State, depth: U8)
    requires |ValidMoves(s.board)| >= 2
    requires FirstWinningMove(s, ValidMoves(s.board)).None? && FirstBlockMove(s, ValidMoves(s.board)).None?
    ensures var isMax := s.current == Player.Player1;
      var root := RootScan(t, 0, 0, s, ChildDepth(depth), ValidMoves(s.board));
      BestMove(t, s, depth) == Decision(Choose(root.evals, Worst(isMax), None, isMax), SortEvals(root.evals, isMax), root.table, root.nodes, root.hits)
  {
  }

  /**
   * When some valid move wins at once, the first such column (ascending) is
   * chosen, reported as a single "win" evaluation of 10000 for the mover.
   */
  lemma BestMoveTakesWin(t: Table, s: State, depth: U8, col: int)
    requires |ValidMoves(s.board)| >= 2
    requires col in ValidMoves(s.board) && WinsWith(s, col)
    requires forall c | c in ValidMoves(s.board) && c < col :: !WinsWith(s, c)
    ensures BestMove(t, s, depth) == Decision(Some(col), [MoveEvaluation(col, Signed(s, 10000), WIN)], t, 0, 0)
  {
    var moves := ValidMoves(s.board);
    ValidMovesSpec(s.board);
    var k :| 0 <= k < |moves| && moves[k] == col;
    FirstWinningMoveNone(s, moves);
    var i := FirstWinningMoveIndex(s, moves);
    if i != k {
      assert false;
    }
    BestMoveWinPath(t, s, depth);
  }

  /**
   * When no valid move wins, and some column leaves the opponent a winning
   * reply, the first such column is chosen as a single "block" evaluation
   * of 5000 for the mover; that column does leave the reply open.
   */
  lemma BestMoveBlockAsWritten(t: Table, s: State, depth: U8)
    requires |ValidMoves(s.board)| >= 2
    requires forall c | c in ValidMoves(s.board) :: !WinsWith(s, c)
    requires exists c | c in ValidMoves(s.board) :: LeavesWinningReply(s, c)
    ensures var d := BestMove(t, s, depth);
      && d.choice.Some? && d.evals == [MoveEvaluation(d.choice.value, Signed(s, 5000), BLOCK)]
      && d.choice.value in ValidMoves(s.board) && LeavesWinningReply(s, d.choice.value)
      && (forall c | c in ValidMoves(s.board) && c < d.choice.value :: !LeavesWinningReply(s, c))
      && d.table == t && d.nodes == 0 && d.hits == 0
  {
    var moves := ValidMoves(s.board);
    ValidMovesSpec(s.board);
    FirstWinningMoveNone(s, moves);
    FirstBlockIsLeastColumn(s, moves);
    BestMoveBlockPath(t, s, depth);
  }

  /** Over ascending columns, the block scan's column is the least one that leaves a winning reply. */
  lemma FirstBlockIsLeastColumn(s: State, moves: seq<int>)
    requires forall i | 0 <= i < |moves| :: 0 <= moves[i] < COLS
    requires forall i, j | 0 <= i < j < |moves| :: moves[i] < moves[j]
    requires exists c | c in moves :: LeavesWinningReply(s, c)
    ensures FirstBlockMove(s, moves).Some?
    ensures var col := FirstBlockMove(s, moves).value;
      col in moves && LeavesWinningReply(s, col)
      && forall c | c in moves && c < col :: !LeavesWinningReply(s, c)
  {
    FirstBlockMoveNone(s, moves);
    var i := FirstBlockMoveIndex(s, moves);
    forall c | c in moves && c < moves[i] ensures !LeavesWinningReply(s, c) {
      var k :| 0 <= k < |moves| && moves[k] == c;
    }
  }

  /**
   * The ranking of a complete list of finite scores in column order: the
   * bookkeeping ends on the first best column, the sort is ordered for the
   * side, and for the same side its first entry is that column's entry.
   */
  lemma RankedChoice(evals: seq<MoveEvaluation>, choice: Option<int>, isMax: bool)
    requires |evals| > 0 && ColumnsAscending(evals)
    requires forall i | 0 <= i < |evals| :: evals[i].score.Finite?
    ensures |SortEvals(evals, isMax)| == |evals| && SortedBy(SortEvals(evals, isMax), isMax)
    ensures exists i :: FirstBest(evals, i, isMax) && Choose(evals, Worst(isMax), choice, isMax) == Some(evals[i].column)
                     && SortEvals(evals, isMax)[0] == evals[i]
  {
    SortEvalsSorted(evals, isMax);
    assert Better(evals[0].score, Worst(isMax), isMax);
    ChooseFindsFirstBest(evals, Worst(isMax), choice, isMax);
    var i :| FirstBest(evals, i, isMax) && Better(evals[i].score, Worst(isMax), isMax)
             && Choose(evals, Worst(isMax), choice, isMax) == Some(evals[i].column);
    SortedHeadIsFirstBest(evals, i, isMax);
  }

  /**
   * On the full-search path the list holds one "drop" entry per valid move
   * and nothing else, and a table holding only finite scores stays so.
   */
  lemma BestMoveFullSearchCovers(t: Table, s: State, depth: U8)
    requires |ValidMoves(s.board)| >= 2
    requires FirstWinningMove(s, ValidMoves(s.board)).None? && FirstBlockMove(s, ValidMoves(s.board)).None?
    ensures var d, moves := BestMove(t, s, depth), ValidMoves(s.board);
      var root := RootScan(t, 0, 0, s, ChildDepth(depth), moves);
      && multiset(d.evals) == multiset(root.evals)
      && |root.evals| == |moves|
      && (forall i | 0 <= i < |moves| :: root.evals[i].column == moves[i] && root.evals[i].moveType == DROP)
      && (TableFinite(t) ==> TableFinite(d.table))
  {
    ValidMovesSpec(s.board);
    RootScanCovers(t, 0, 0, s, ChildDepth(depth), ValidMoves(s.board));
    BestMoveSearchPath(t, s, depth);
  }

  /**
   * On the full-search path, with a table holding only finite scores, the
   * list is ordered best first for the mover with ties in column order, and
   * its first entry is the chosen move, the first column with the best score.
   */
  lemma BestMoveFullSearchRanks(t: Table, s: State, depth: U8)
    requires TableFinite(t)
    requires |ValidMoves(s.board)| >= 2
    requires FirstWinningMove(s, ValidMoves(s.board)).None? && FirstBlockMove(s, ValidMoves(s.board)).None?
    ensures var d, isMax := BestMove(t, s, depth), s.current == Player.Player1;
      var root := RootScan(t, 0, 0, s, ChildDepth(depth), ValidMoves(s.board));
      && SortedBy(d.evals, isMax)
      && |d.evals| == |root.evals|
      && exists i :: FirstBest(root.evals, i, isMax) && d.evals[0] == root.evals[i] && d.choice == Some(root.evals[i].column)
  {
    var moves, isMax := ValidMoves(s.board), s.current == Player.Player1;
    var root := RootScan(t, 0, 0, s, ChildDepth(depth), moves);
    ValidMovesSpec(s.board);
    RootScanCovers(t, 0, 0, s, ChildDepth(depth), moves);
    assert ColumnsAscending(root.evals);
    RankedChoice(root.evals, None, isMax);
    BestMoveSearchPath(t, s, depth);
  }

  /** The one-ply loop of HeuristicAI: each playable column scored by the evaluation of the state after it. */
  function EvalScan(s: State, moves: seq<int>): (evals: seq<MoveEvaluation>)
    requires forall i | 0 <= i < |moves| :: 0 <= moves[i] < COLS
    decreases |moves|
  {
    if |moves| == 0 then []
    else match Play.MakeMove(s, moves[0])
      case Err(_) => EvalScan(s, moves[1..])
      case Ok(next) => [MoveEvaluation(moves[0], Finite(Evaluate(next)), DROP)] + EvalScan(s, moves[1..])
  }

  /** One step of the one-ply loop. */
  lemma EvalScanStep(s: State, moves: seq<int>)
    requires forall i | 0 <= i < |moves| :: 0 <= moves[i] < COLS
    requires |moves| > 0
    ensures EvalScan(s, moves) == match Play.MakeMove(s, moves[0])
      case Err(_) => EvalScan(s, moves[1..])
      case Ok(next) => [MoveEvaluation(moves[0], Finite(Evaluate(next)), DROP)] + EvalScan(s, moves[1..])
  {
  }

  /** When every column can be played, the one-ply loop has one finite "drop" entry per column, in order. */
  lemma {:induction false} EvalScanCovers(s: State, moves: seq<int>)
    requires forall i | 0 <= i < |moves| :: 0 <= moves[i] < COLS && CanPlaceInColumn(s.board, moves[i])
    ensures var evals := EvalScan(s, moves);
      |evals| == |moves| && forall i | 0 <= i < |moves| ::
        evals[i].column == moves[i] && evals[i].moveType == DROP && evals[i].score.Finite?
    decreases |moves|
  {
    if |moves| > 0 {
      assert forall i | 1 <= i < |moves| :: moves[1..][i - 1] == moves[i];
      EvalScanCovers(s, moves[1..]);
    }
  }

  /**
   * HeuristicAI::get_best_move: the same early exits and scans, then one ply
   * of static evaluation. The running choice starts at the first valid move,
   * and the list is always sorted in descending order, whoever is to move.
   */
  function HeuristicBest(s: State): (Option<int>, seq<MoveEvaluation>) {
    var moves := ValidMoves(s.board);
    if |moves| == 0 then (None, [])
    else if |moves| == 1 then (Some(moves[0]), [])
    else match FirstWinningMove(s, moves)
      case Some(col) => (Some(col), [MoveEvaluation(col, Signed(s, 10000), WIN)])
      case None =>
        match FirstBlockMove(s, moves)
        case Some(col) => (Some(col), [MoveEvaluation(col, Signed(s, 5000), BLOCK)])
        case None =>
          var isMax := s.current == Player.Player1;
          var evals := EvalScan(s, moves);
          (Choose(evals, Worst(isMax), Some(moves[0]), isMax), SortEvals(evals, true))
  }

  /** The unfolding of HeuristicBest on the one-ply path. */
  lemma HeuristicSearchPath(s: State)
    requires |ValidMoves(s.board)| >= 2
    requires FirstWinningMove(s, ValidMoves(s.board)).None? && FirstBlockMove(s, ValidMoves(s.board)).None?
    ensures var moves, isMax := ValidMoves(s.board), s.current == Player.Player1;
      var evals := EvalScan(s, moves);
      HeuristicBest(s) == (Choose(evals, Worst(isMax), Some(moves[0]), isMax), SortEvals(evals, true))
  {
  }

  /**
   * On the one-ply path the chosen move is the first column with the best
   * evaluation for the mover, and the list is sorted highest first: for
   * Player1 its first entry is the chosen move, for Player2 it is the
   * entry of the first column best for Player1.
   */
  lemma HeuristicFullSearch(s: State)
    requires |ValidMoves(s.board)| >= 2
    requires FirstWinningMove(s, ValidMoves(s.board)).None? && FirstBlockMove(s, ValidMoves(s.board)).None?
    ensures var r, moves, isMax := HeuristicBest(s), ValidMoves(s.board), s.current == Player.Player1;
      var evals := EvalScan(s, moves);
      && multiset(r.1) == multiset(evals)
      && |r.1| == |evals| == |moves| && (forall i | 0 <= i < |moves| :: evals[i].column == moves[i] && evals[i].moveType == DROP)
      && SortedBy(r.1, true)
      && (exists i :: FirstBest(evals, i, isMax) && r.0 == Some(moves[i]))
      && (exists i :: FirstBest(evals, i, true) && r.1[0] == evals[i])
  {
    var moves, isMax := ValidMoves(s.board), s.current == Player.Player1;
    var evals := EvalScan(s, moves);
    ValidMovesSpec(s.board);
    EvalScanCovers(s, moves);
    assert ColumnsAscending(evals);
    RankedChoice(evals, Some(moves[0]), isMax);
    RankedChoice(evals, None, true);
    HeuristicSearchPath(s);
  }
}
