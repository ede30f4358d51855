/**
 * The two engines as objects: AI, the alpha-beta minimax with its
 * transposition table and counters, and HeuristicAI, the one-ply search.
 * Every method is proved to compute the function of module Search that
 * models it, so the properties proved there carry over.
 */
module Engine {
  import opened Wrappers
  import opened Rules
  import opened Play
  import opened Evaluation
  import opened Game
  import opened Search

  /**
   * The immediate-win scan of both get_best_move: each column of `moves` is
   * tried on a copy of the state, and the first after which the mover is the
   * winner is returned.
   */
  method WinScan(state: GameState, moves: seq<int>) returns (r: Option<int>)
    requires forall i | 0 <= i < |moves| :: 0 <= moves[i] < COLS
    ensures r == FirstWinningMove(state.Value(), moves)
  {
    var s := state.Value();
    for i := 0 to |moves|
      invariant FirstWinningMove(s, moves) == FirstWinningMove(s, moves[i..])
    {
      var next := state.Clone();
      var ok := next.MakeMove(moves[i]);
      if ok.Ok? {
        var won := next.HasWinner();
        if won {
          var winner := next.GetWinner();
          if winner == Some(state.currentPlayer) {
            return Some(moves[i]);
          }
        }
      }
      assert moves[i..][1..] == moves[i + 1..];
    }
    return None;
  }

  /**
   * The block scan of both get_best_move, as written: a column is returned
   * when, after it, the opponent (now to move) has a column that wins at
   * once. The inner search over the opponent's replies is the win scan run
   * on the state after the move.
   */
  method BlockScan(state: GameState, moves: seq<int>) returns (r: Option<int>)
    requires forall i | 0 <= i < |moves| :: 0 <= moves[i] < COLS
    ensures r == FirstBlockMove(state.Value(), moves)
  {
    var s := state.Value();
    for i := 0 to |moves|
      invariant FirstBlockMove(s, moves) == FirstBlockMove(s, moves[i..])
    {
      var next := state.Clone();
      var ok := next.MakeMove(moves[i]);
      if ok.Ok? {
        var opponentMoves := next.GetValidMoves();
        var reply := WinScan(next, opponentMoves);
        if reply.Some? {
          return Some(moves[i]);
        }
      }
      assert moves[i..][1..] == moves[i + 1..];
    }
    return None;
  }

  /** The minimax engine: the transposition table and the two counters it reports. */
  class AI {
    var table: Table
    var nodesEvaluated: nat
    var transpositionHits: nat

    /** The table holds finite scores only: the infinities are search bounds, never stored values. */
    ghost predicate Valid()
      reads this
    {
      TableFinite(table)
    }

    /** AI::new: an empty table and both counters at 0. */
    constructor ()
      ensures Valid()
      ensures table == map[] && nodesEvaluated == 0 && transpositionHits == 0
    {
      table := map[];
      nodesEvaluated := 0;
      transpositionHits := 0;
    }

    /** get_transposition_table_size: the number of stored positions. */
    method TableSize() returns (n: nat)
      ensures n == |table|
    {
      n := |table|;
    }

    /** clear_transposition_table: empties the table and leaves the counters. */
    method ClearTranspositionTable()
      modifies this
      ensures Valid()
      ensures table == map[]
      ensures nodesEvaluated == old(nodesEvaluated) && transpositionHits == old(transpositionHits)
    {
      table := map[];
    }

    /**
     * minimax: the cached alpha-beta search of the state `s` to `depth`. The
     * score, the table and both counters it leaves are those of Search.Search.
     */
    method Minimax(s: State, depth: nat, alpha: Score, beta: Score) returns (score: Score)
      modifies this
      ensures Outcome(score, table, nodesEvaluated, transpositionHits)
        == Search.Search(old(table), old(nodesEvaluated), old(transpositionHits), s, depth, alpha, beta)
      decreases depth, 3
    {
      var key := KeyOf(s);
      if key in table && table[key].depth >= depth {
        SearchHit(table, nodesEvaluated, transpositionHits, s, depth, alpha, beta);
        transpositionHits := transpositionHits + 1;
        return table[key].evaluation;
      }
      if depth == 0 || IsGameOver(s.board) {
        LeafIsEvaluated(table, nodesEvaluated, transpositionHits, s, depth, alpha, beta);
        score := Finite(Evaluate(s));
        table := table[key := Entry(score, depth)];
        return;
      }
      score := Expand(s, depth, alpha, beta);
    }

    /** The inner-node path of minimax: count the node, search the children, store their value. */
    method Expand(s: State, depth: nat, alpha: Score, beta: Score) returns (score: Score)
      requires !(KeyOf(s) in table && table[KeyOf(s)].depth >= depth)
      requires depth > 0 && !IsGameOver(s.board)
      modifies this
      ensures Outcome(score, table, nodesEvaluated, transpositionHits)
        == Search.Search(old(table), old(nodesEvaluated), old(transpositionHits), s, depth, alpha, beta)
      decreases depth, 2
    {
      SearchExpands(table, nodesEvaluated, transpositionHits, s, depth, alpha, beta);
      var isMax := s.current == Player.Player1;
      ghost var r := Children(table, nodesEvaluated + 1, transpositionHits, s, depth - 1, alpha, beta,
                              ValidMoves(s.board), Worst(isMax), isMax);
      nodesEvaluated := nodesEvaluated + 1;
      score := ChildLoop(s, depth - 1, alpha, beta, ValidMoves(s.board), isMax);
      assert Outcome(score, table, nodesEvaluated, transpositionHits) == r;
      table := table[KeyOf(s) := Entry(score, depth)];
    }

    /**
     * The child loop of minimax: the columns of `moves` are visited in order
     * until the window closes, and the running best is returned.
     */
    method ChildLoop(s: State, childDepth: nat, alpha: Score, beta: Score, moves: seq<int>, isMax: bool)
      returns (best: Score)
      requires forall i | 0 <= i < |moves| :: 0 <= moves[i] < COLS
      modifies this
      ensures Outcome(best, table, nodesEvaluated, transpositionHits)
        == Children(old(table), old(nodesEvaluated), old(transpositionHits), s, childDepth, alpha, beta, moves, Worst(isMax), isMax)
      decreases childDepth + 1, 1
    {
      ghost var goal := Children(table, nodesEvaluated, transpositionHits, s, childDepth, alpha, beta, moves, Worst(isMax), isMax);
      best := Worst(isMax);
      var a, b := alpha, beta;
      var i := 0;
      while i < |moves|
        invariant 0 <= i <= |moves|
        invariant Children(table, nodesEvaluated, transpositionHits, s, childDepth, a, b, moves[i..], best, isMax) == goal
        decreases |moves| - i
      {
        assert moves[i..][1..] == moves[i + 1..];
        var pruned;
        a, b, best, pruned := Visit(s, childDepth, a, b, best, isMax, moves[i..]);
        if pruned {
          break;
        }
        i := i + 1;
      }
      if i == |moves| {
        assert moves[i..] == [];
        ChildrenDone(table, nodesEvaluated, transpositionHits, s, childDepth, a, b, best, isMax);
      }
    }

    /**
     * One pass of the child loop on the first column of `moves`: a column
     * that can be played is searched with the current window, the best and
     * the window are updated, and `pruned` says whether beta <= alpha now.
     */
    method Visit(s: State, childDepth: nat, alpha: Score, beta: Score, best: Score, isMax: bool, moves: seq<int>)
      returns (alpha': Score, beta': Score, best': Score, pruned: bool)
      requires forall i | 0 <= i < |moves| :: 0 <= moves[i] < COLS
      requires |moves| > 0
      modifies this
      ensures Children(old(table), old(nodesEvaluated), old(transpositionHits), s, childDepth, alpha, beta, moves, best, isMax)
        == if pruned then Outcome(best', table, nodesEvaluated, transpositionHits)
           else Children(table, nodesEvaluated, transpositionHits, s, childDepth, alpha', beta', moves[1..], best', isMax)
      decreases childDepth + 1, 0
    {
      alpha', beta', best', pruned := alpha, beta, best, false;
      match Play.MakeMove(s, moves[0]) {
        case Ok(next) =>
          ChildrenVisit(table, nodesEvaluated, transpositionHits, s, childDepth, alpha, beta, moves, best, isMax, next);
          var childScore := Minimax(next, childDepth, alpha, beta);
          if isMax {
            best' := Max(best, childScore);
            alpha' := Max(alpha, childScore);
          } else {
            best' := Min(best, childScore);
            beta' := Min(beta, childScore);
          }
          pruned := Le(beta', alpha');
        case Err(_) =>
          ChildrenSkip(table, nodesEvaluated, transpositionHits, s, childDepth, alpha, beta, moves, best, isMax);
      }
    }

    /**
     * get_best_move: restarts both counters, applies the early exits and the
     * two scans, then searches every valid column with a full window and
     * returns the chosen column and the evaluations sorted for the mover.
     */
    method GetBestMove(state: GameState, depth: U8) returns (choice: Option<int>, evals: seq<MoveEvaluation>)
      requires Valid()
      modifies this
      ensures Valid()
      ensures var d := BestMove(old(table), state.Value(), depth);
        choice == d.choice && evals == d.evals && table == d.table
        && nodesEvaluated == d.nodes && transpositionHits == d.hits
      ensures old(table).Keys <= table.Keys
      ensures forall i | 0 <= i < |evals| :: evals[i].score.Finite?
    {
      BestMoveKeepsTable(table, state.Value(), depth);
      nodesEvaluated := 0;
      transpositionHits := 0;
      var s := state.Value();
      BestMoveEarlyExits(table, s, depth);
      var moves := state.GetValidMoves();
      if |moves| == 0 {
        return None, [];
      }
      if |moves| == 1 {
        return Some(moves[0]), [];
      }
      var win := WinScan(state, moves);
      if win.Some? {
        BestMoveWinPath(table, s, depth);
        return win, [MoveEvaluation(win.value, Signed(s, 10000), WIN)];
      }
      var block := BlockScan(state, moves);
      if block.Some? {
        BestMoveBlockPath(table, s, depth);
        return block, [MoveEvaluation(block.value, Signed(s, 5000), BLOCK)];
      }
      BestMoveSearchPath(table, s, depth);
      var isMax := state.currentPlayer == Player.Player1;
      choice, evals := RootSearch(state, ChildDepth(depth), moves, isMax);
      evals := SortEvals(evals, isMax);
    }

    /**
     * The root loop of get_best_move: every column of `moves` that can be
     * played gets a "drop" entry with its full-window score, and the first
     * column strictly best for the mover is kept.
     */
    method RootSearch(state: GameState, childDepth: nat, moves: seq<int>, isMax: bool)
      returns (choice: Option<int>, evals: seq<MoveEvaluation>)
      requires forall i | 0 <= i < |moves| :: 0 <= moves[i] < COLS
      modifies this
      ensures var root := RootScan(old(table), old(nodesEvaluated), old(transpositionHits), state.Value(), childDepth, moves);
        && evals == root.evals && choice == Choose(root.evals, Worst(isMax), None, isMax)
        && table == root.table && nodesEvaluated == root.nodes && transpositionHits == root.hits
    {
      ghost var s := state.Value();
      ghost var root := RootScan(table, nodesEvaluated, transpositionHits, s, childDepth, moves);
      var best := Worst(isMax);
      choice := None;
      evals := [];
      for i := 0 to |moves|
        invariant var rest := RootScan(table, nodesEvaluated, transpositionHits, s, childDepth, moves[i..]);
          && root.evals == evals + rest.evals && root.table == rest.table
          && root.nodes == rest.nodes && root.hits == rest.hits
          && Choose(root.evals, Worst(isMax), None, isMax) == Choose(rest.evals, best, choice, isMax)
      {
        assert moves[i..][1..] == moves[i + 1..];
        best, choice, evals := RootStep(state, childDepth, moves[i..], best, choice, evals, isMax);
      }
      assert moves[|moves|..] == [];
    }

    /** One column of the root loop: its entry is appended and the running best updated. */
    method RootStep(state: GameState, childDepth: nat, moves: seq<int>, best: Score, choice: Option<int>,
                    evals: seq<MoveEvaluation>, isMax: bool)
      returns (best': Score, choice': Option<int>, evals': seq<MoveEvaluation>)
      requires forall i | 0 <= i < |moves| :: 0 <= moves[i] < COLS
      requires |moves| > 0
      modifies this
      ensures var before := RootScan(old(table), old(nodesEvaluated), old(transpositionHits), state.Value(), childDepth, moves);
        var after := RootScan(table, nodesEvaluated, transpositionHits, state.Value(), childDepth, moves[1..]);
        && evals + before.evals == evals' + after.evals
        && before.table == after.table && before.nodes == after.nodes && before.hits == after.hits
        && Choose(before.evals, best, choice, isMax) == Choose(after.evals, best', choice', isMax)
    {
      var e := RootVisit(state, childDepth, moves);
      best', choice', evals' := best, choice, evals;
      if e.Some? {
        ghost var rest := RootScan(table, nodesEvaluated, transpositionHits, state.Value(), childDepth, moves[1..]);
        ChooseStep(e.value, rest.evals, best, choice, isMax);
        assert evals + ([e.value] + rest.evals) == (evals + [e.value]) + rest.evals;
        evals' := evals + [e.value];
        best', choice' := Track(best, choice, e.value, isMax);
      }
    }

    /**
     * One pass of the root loop: the first column of `moves` is played on a
     * copy of the state and, when that succeeds, searched with a full window.
     */
    method RootVisit(state: GameState, childDepth: nat, moves: seq<int>) returns (e: Option<MoveEvaluation>)
      requires forall i | 0 <= i < |moves| :: 0 <= moves[i] < COLS
      requires |moves| > 0
      modifies this
      ensures e.Some? ==> e.value.column == moves[0]
      ensures var rest := RootScan(table, nodesEvaluated, transpositionHits, state.Value(), childDepth, moves[1..]);
        RootScan(old(table), old(nodesEvaluated), old(transpositionHits), state.Value(), childDepth, moves)
          == if e.Some? then RootOutcome([e.value] + rest.evals, rest.table, rest.nodes, rest.hits) else rest
    {
      var next := state.Clone();
      var ok := next.MakeMove(moves[0]);
      if ok.Ok? {
        RootScanVisit(table, nodesEvaluated, transpositionHits, state.Value(), childDepth, moves, next.Value());
        var score := Minimax(next.Value(), childDepth, NegInf, PosInf);
        e := Some(MoveEvaluation(moves[0], score, DROP));
      } else {
        RootScanSkip(table, nodesEvaluated, transpositionHits, state.Value(), childDepth, moves);
        e := None;
      }
    }
  }

  /**
   * One pass of the one-ply loop: the column is played on a copy of the
   * state and, when that succeeds, scored by the copy's static evaluation.
   */
  method EvalMove(state: GameState, col: int) returns (e: Option<MoveEvaluation>)
    requires 0 <= col < COLS
    ensures e == match Play.MakeMove(state.Value(), col)
      case Err(_) => None
      case Ok(next) => Some(MoveEvaluation(col, Finite(Evaluate(next)), DROP))
  {
    var next := state.Clone();
    var ok := next.MakeMove(col);
    if ok.Ok? {
      var score := next.Evaluate();
      e := Some(MoveEvaluation(col, Finite(score), DROP));
    } else {
      e := None;
    }
  }

  /**
   * The running best of a root loop: a score strictly better for the side
   * replaces the best so far, and its column becomes the choice.
   */
  method Track(best: Score, choice: Option<int>, e: MoveEvaluation, isMax: bool) returns (best': Score, choice': Option<int>)
    ensures Better(e.score, best, isMax) ==> best' == e.score && choice' == Some(e.column)
    ensures !Better(e.score, best, isMax) ==> best' == best && choice' == choice
  {
    best', choice' := best, choice;
    if isMax {
      if Lt(best, e.score) {
        best', choice' := e.score, Some(e.column);
      }
    } else {
      if Lt(e.score, best) {
        best', choice' := e.score, Some(e.column);
      }
    }
  }

  /**
   * The one-ply loop of HeuristicAI::get_best_move: the entries are those of
   * EvalScan, and the move kept starts at the first valid column and is
   * replaced by each strictly better one.
   */
  method OnePly(state: GameState, moves: seq<int>, isMax: bool) returns (bestMove: int, evals: seq<MoveEvaluation>)
    requires forall i | 0 <= i < |moves| :: 0 <= moves[i] < COLS
    requires |moves| > 0
    ensures evals == EvalScan(state.Value(), moves)
    ensures Some(bestMove) == Choose(EvalScan(state.Value(), moves), Worst(isMax), Some(moves[0]), isMax)
  {
    ghost var s := state.Value();
    ghost var all := EvalScan(s, moves);
    var best, choice := Worst(isMax), Some(moves[0]);
    evals := [];
    for i := 0 to |moves|
      invariant choice.Some?
      invariant all == evals + EvalScan(s, moves[i..])
      invariant Choose(all, Worst(isMax), Some(moves[0]), isMax) == Choose(EvalScan(s, moves[i..]), best, choice, isMax)
    {
      assert moves[i..][1..] == moves[i + 1..];
      best, choice, evals := OnePlyStep(state, moves[i..], best, choice, evals, isMax);
    }
    assert moves[|moves|..] == [];
    bestMove := choice.value;
  }

  /** One column of the one-ply loop: its entry is appended and the running best updated. */
  method OnePlyStep(state: GameState, moves: seq<int>, best: Score, choice: Option<int>, evals: seq<MoveEvaluation>, isMax: bool)
    returns (best': Score, choice': Option<int>, evals': seq<MoveEvaluation>)
    requires forall i | 0 <= i < |moves| :: 0 <= moves[i] < COLS
    requires |moves| > 0
    ensures evals' + EvalScan(state.Value(), moves[1..]) == evals + EvalScan(state.Value(), moves)
    ensures Choose(EvalScan(state.Value(), moves[1..]), best', choice', isMax) == Choose(EvalScan(state.Value(), moves), best, choice, isMax)
    ensures choice.Some? ==> choice'.Some?
  {
    ghost var rest := EvalScan(state.Value(), moves[1..]);
    EvalScanStep(state.Value(), moves);
    var e := EvalMove(state, moves[0]);
    best', choice', evals' := best, choice, evals;
    if e.Some? {
      ChooseStep(e.value, rest, best, choice, isMax);
      assert evals + ([e.value] + rest) == (evals + [e.value]) + rest;
      evals' := evals + [e.value];
      best', choice' := Track(best, choice, e.value, isMax);
    }
  }

  /** The one-ply engine: it only counts nodes, and get_best_move restarts the count. */
  class HeuristicAI {
    var nodesEvaluated: nat

    /** HeuristicAI::new. */
    constructor ()
      ensures nodesEvaluated == 0
    {
      nodesEvaluated := 0;
    }

    /**
     * get_best_move: the early exits and the two scans as in AI, then each
     * valid column scored by the static evaluation of the state after it.
     */
    method GetBestMove(state: GameState) returns (choice: Option<int>, evals: seq<MoveEvaluation>)
      modifies this
      ensures (choice, evals) == HeuristicBest(state.Value())
      ensures nodesEvaluated == 0
    {
      nodesEvaluated := 0;
      var s := state.Value();
      var moves := state.GetValidMoves();
      if |moves| == 0 {
        return None, [];
      }
      if |moves| == 1 {
        return Some(moves[0]), [];
      }
      var win := WinScan(state, moves);
      if win.Some? {
        return win, [MoveEvaluation(win.value, Signed(s, 10000), WIN)];
      }
      var block := BlockScan(state, moves);
      if block.Some? {
        return block, [MoveEvaluation(block.value, Signed(s, 5000), BLOCK)];
      }
      HeuristicSearchPath(s);
      var isMax := state.currentPlayer == Player.Player1;
      var bestMove;
      bestMove, evals := OnePly(state, moves, isMax);
      choice := Some(bestMove);
      evals := SortEvals(evals, true);
    }

    /** clear_nodes_evaluated. */
    method ClearNodesEvaluated()
      modifies this
      ensures nodesEvaluated == 0
    {
      nodesEvaluated := 0;
    }
  }
}
