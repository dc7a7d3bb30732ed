/** The AI's alpha-beta search as a function of board states.  minMax makes each listed
    move on one board, searches the reply, and undoes the move; Search and Loop give the
    outcome of that recursion: the score, whether the move loop ran, whether it was
    cut off, the move it settled on, and the state the board is left in. */
module Minimax {
  import opened Colors
  import opened Moves
  import opened Rules
  import opened States
  import opened Evaluation

  /** The outcome of minMax: the returned score; whether the position was searched
      (not depth 0 and no winner); whether the move loop was cut off; the move the loop
      settled on; and the state the board is left in. */
  datatype Outcome = Outcome(score: int, searched: bool, pruned: bool, best: Option<Move>, exit: State)

  /** The sense of a node: 1 (maximising) when RED is to move, -1 when BLUE is. */
  function SenseOf(who: PieceColor): int {
    if who == RED then 1 else -1
  }

  /** Which sense the reply search runs with: AsWritten as minMax passes it (the
      replies of a maximising node minimise, and so do those of a minimising node), or
      Alternating, the opposite sense at every level. */
  datatype SenseRule = AsWritten | Alternating

  /** The sense of the reply search under rule.  Both rules agree at a maximising
      node; at a minimising node only Alternating maximises. */
  function ChildSense(rule: SenseRule, sense: int): (r: int)
    ensures sense == 1 ==> r == -1
    ensures sense == -1 ==> (r == 1 <==> rule == Alternating)
  {
    if rule == Alternating || sense == 1 then -sense else sense
  }

  /** As written, after a legal BLUE move RED is to move, yet the reply search
      minimises. */
  lemma AsWrittenSenseStuck(s: State, m: Move)
    requires StateValid(s) && s.whoseMove == BLUE && m.Mv? && LegalOn(s.cells, s.whoseMove, m)
    ensures AfterMove(s, m).whoseMove == RED
    ensures ChildSense(AsWritten, SenseOf(s.whoseMove)) == -1 != SenseOf(AfterMove(s, m).whoseMove)
  {
  }

  /** With alternating senses, every node of the search maximises exactly when RED is
      to move, since every move hands the turn to the other player. */
  lemma SenseFollowsMover(s: State, m: Move)
    requires StateValid(s) && m.Mv? && LegalOn(s.cells, s.whoseMove, m)
    ensures ChildSense(Alternating, SenseOf(s.whoseMove)) == SenseOf(AfterMove(s, m).whoseMove)
  {
  }


  /** Every move of moves is a legal non-pass move in s. */
  predicate AllLegal(s: State, moves: seq<Move>) {
    forall k :: 0 <= k < |moves| ==> moves[k].Mv? && LegalOn(s.cells, s.whoseMove, moves[k])
  }

  /** legalMoves lists only legal non-pass moves. */
  lemma ListedAllLegal(s: State)
    requires StateValid(s)
    ensures AllLegal(s, LegalMovesSpec(s.cells, s.whoseMove))
  {
    LegalMovesExact(s.cells, s.whoseMove);
    forall k | 0 <= k < |LegalMovesSpec(s.cells, s.whoseMove)|
      ensures LegalMovesSpec(s.cells, s.whoseMove)[k].Mv?
    {
      assert LegalMovesSpec(s.cells, s.whoseMove)[k] in LegalMovesSpec(s.cells, s.whoseMove);
    }
  }

  /** minMax(board, depth, saveMove, sense, alpha, beta) from state s, with the reply
      senses of rule: a position at depth 0 or with a winner scores StaticScore with
      WINNING_VALUE + depth; any other runs the move loop over legalMoves, starting
      from the score sense * -INFTY.  The board is left in the same position it
      started in. */
  function Search(rule: SenseRule, s: State, depth: nat, sense: int, alpha: int, beta: int): (o: Outcome)
    requires StateValid(s)
    ensures StateValid(o.exit) && SamePosition(o.exit, s)
    ensures o.searched <==> depth > 0 && s.winner.None?
    decreases depth, 1
  {
    if depth == 0 || s.winner.Some? then
      Outcome(StaticScore(s, WINNING_VALUE + depth), false, false, None, s)
    else
      ListedAllLegal(s);
      Loop(rule, s, LegalMovesSpec(s.cells, s.whoseMove), 0, depth, sense, Window(alpha, beta, None, sense * -INFTY))
  }

  /** One move of the loop: make the legal move m, then ReplyFrom the state after it;
      the state left after the undo is in the position of s again. */
  function Reply(rule: SenseRule, s: State, m: Move, depth: nat, sense: int, alpha: int, beta: int): (r: (int, State))
    requires StateValid(s) && depth > 0 && m.Mv? && LegalOn(s.cells, s.whoseMove, m)
    ensures StateValid(r.1) && SamePosition(r.1, s)
    decreases depth, 0, 1
  {
    var t := AfterMove(s, m);
    UndoRestores(s, m, Search(rule, t, depth - 1, ChildSense(rule, sense), alpha, beta).exit);
    ReplyFrom(rule, t, depth, sense, alpha, beta)
  }

  /** From t, the state after a move: search the reply one level shallower with the
      sense rule gives, and undo the move; gives the reply's score and the state left
      after the undo. */
  function ReplyFrom(rule: SenseRule, t: State, depth: nat, sense: int, alpha: int, beta: int): (r: (int, State))
    requires StateValid(t) && depth > 0 && |t.allMoves| > 0 && MoveStart in t.undoStack
    ensures StateValid(r.1)
    decreases depth, 0, 0
  {
    var child := Search(rule, t, depth - 1, ChildSense(rule, sense), alpha, beta);
    (child.score, AfterUndo(child.exit))
  }

  /** The running values of the move loop: the window and the best move and score
      so far. */
  datatype Window = Window(alpha: int, beta: int, best: Option<Move>, bestScore: int)

  /** What one reply does to the loop: cut it off with a score, or go on. */
  datatype Step = Cut(score: int) | Next(w: Window)

  /** A reply scoring response to the move m: when it is strictly better than the best
      score (greater when sense is 1, smaller otherwise), m becomes the best and alpha
      (or beta) moves to the score; the loop is cut off once alpha >= beta. */
  function Consider(sense: int, w: Window, m: Move, response: int): (r: Step)
    ensures r.Next? ==> r.w.best == w.best || r.w.best == Some(m)
    ensures r.Cut? ==> r.score == response
    ensures r.Next? ==> (sense == 1 ==> response <= r.w.bestScore) && (sense != 1 ==> r.w.bestScore <= response)
    ensures sense == 1 ==>
      (r.Cut? ==> w.bestScore < response && (w.alpha < w.beta ==> w.beta <= response)) &&
      (r.Next? ==> r.w.beta == w.beta && w.alpha <= r.w.alpha && w.bestScore <= r.w.bestScore &&
                   (w.alpha < w.beta ==> r.w.alpha < r.w.beta) && (w.bestScore < w.beta ==> r.w.bestScore < r.w.beta))
    ensures sense != 1 ==>
      (r.Cut? ==> response < w.bestScore && (w.alpha < w.beta ==> response <= w.alpha)) &&
      (r.Next? ==> r.w.alpha == w.alpha && r.w.beta <= w.beta && r.w.bestScore <= w.bestScore &&
                   (w.alpha < w.beta ==> r.w.alpha < r.w.beta) && (w.alpha < w.bestScore ==> r.w.alpha < r.w.bestScore))
  {
    if sense == 1 then
      if response > w.bestScore then
        var a := Max(w.alpha, response);
        if a >= w.beta then Cut(response) else Next(Window(a, w.beta, Some(m), response))
      else Next(w)
    else
      if response < w.bestScore then
        var b := Min(w.beta, response);
        if w.alpha >= b then Cut(response) else Next(Window(w.alpha, b, Some(m), response))
      else Next(w)
  }

  /** The move loop of minMax from the i-th listed move on: each move is made, its reply
      searched and the move undone, and the reply considered; when the list is
      exhausted, the best move is a pass if nothing was listed. */
  function Loop(rule: SenseRule, s: State, moves: seq<Move>, i: nat, depth: nat, sense: int, w: Window): (o: Outcome)
    requires StateValid(s) && depth > 0 && i <= |moves| && AllLegal(s, moves)
    ensures StateValid(o.exit) && SamePosition(o.exit, s) && o.searched
    decreases depth, 0, |moves| - i + 2
  {
    if i == |moves| then
      Outcome(w.bestScore, true, false, if moves == [] then Some(Pass) else w.best, s)
    else
      var r := Reply(rule, s, moves[i], depth, sense, w.alpha, w.beta);
      match Consider(sense, w, moves[i], r.0)
      case Cut(score) => Outcome(score, true, true, Some(moves[i]), r.1)
      case Next(w') => Loop(rule, r.1, moves, i + 1, depth, sense, w')
  }

  /** One turn of the move loop: with the reply to the i-th move scoring response and
      leaving the state exit, the loop either ends cut off with that move, or goes on
      from exit with the considered window. */
  lemma LoopStep(rule: SenseRule, s: State, moves: seq<Move>, i: nat, depth: nat, sense: int, w: Window, response: int, exit: State)
    requires StateValid(s) && depth > 0 && i < |moves| && AllLegal(s, moves)
    requires Reply(rule, s, moves[i], depth, sense, w.alpha, w.beta) == (response, exit)
    ensures StateValid(exit) && SamePosition(exit, s) && AllLegal(exit, moves)
    ensures Consider(sense, w, moves[i], response).Cut? ==>
      Loop(rule, s, moves, i, depth, sense, w) == Outcome(response, true, true, Some(moves[i]), exit)
    ensures Consider(sense, w, moves[i], response).Next? ==>
      Loop(rule, s, moves, i, depth, sense, w) == Loop(rule, exit, moves, i + 1, depth, sense, Consider(sense, w, moves[i], response).w)
  {
  }

  /** What minMax with saveMove stores in _lastFoundMove, as written: the loop's move
      when the loop ran to the end, nothing (None) when it was cut off or the position
      was not searched. */
  function SavedAsWritten(o: Outcome): Option<Option<Move>> {
    if o.searched && !o.pruned then Some(o.best) else None
  }

  /** What minMax with saveMove stores in _lastFoundMove: the loop's move whenever the
      position was searched, also when the loop was cut off. */
  function SavedMove(o: Outcome): Option<Option<Move>> {
    if o.searched then Some(o.best) else None
  }

  /** No move, or one of moves. */
  predicate BestAmong(b: Option<Move>, moves: seq<Move>) {
    b == None || b.value in moves
  }

  /** The move the loop settles on is a pass exactly when nothing was listed, and
      otherwise none or one of the listed moves. */
  lemma {:induction false} LoopBest(rule: SenseRule, s: State, moves: seq<Move>, i: nat, depth: nat, sense: int, w: Window)
    requires StateValid(s) && depth > 0 && i <= |moves| && AllLegal(s, moves) && BestAmong(w.best, moves)
    ensures var o := Loop(rule, s, moves, i, depth, sense, w);
      (moves == [] ==> o.best == Some(Pass)) && (moves != [] ==> BestAmong(o.best, moves))
    decreases |moves| - i, 1
  {
    if i < |moves| {
      var r := Reply(rule, s, moves[i], depth, sense, w.alpha, w.beta);
      LoopStep(rule, s, moves, i, depth, sense, w, r.0, r.1);
      LoopBestStep(rule, r.1, moves, i, depth, sense, w, r.0, Loop(rule, s, moves, i, depth, sense, w));
    }
  }

  /** The rest of LoopBest once the i-th reply scored response and left the state
      exit: o is the loop's outcome, which the reply either cut off with the i-th move
      or left to the rest of the loop from exit. */
  lemma {:induction false} LoopBestStep(rule: SenseRule, exit: State, moves: seq<Move>, i: nat, depth: nat, sense: int, w: Window,
                                        response: int, o: Outcome)
    requires StateValid(exit) && depth > 0 && i < |moves| && AllLegal(exit, moves) && BestAmong(w.best, moves)
    requires Consider(sense, w, moves[i], response).Cut? ==> o.best == Some(moves[i])
    requires Consider(sense, w, moves[i], response).Next? ==>
      o == Loop(rule, exit, moves, i + 1, depth, sense, Consider(sense, w, moves[i], response).w)
    ensures (moves == [] ==> o.best == Some(Pass)) && (moves != [] ==> BestAmong(o.best, moves))
    decreases |moves| - i, 0
  {
    var step := Consider(sense, w, moves[i], response);
    if step.Next? {
      LoopBest(rule, exit, moves, i + 1, depth, sense, step.w);
    }
  }

  /** Cut-off bounds of the move loop.  A maximising loop never returns less than the
      score it started from, returns at least beta when cut off, and below beta when it
      runs to the end from a score below beta; a minimising loop symmetrically with
      alpha. */
  lemma LoopBounds(rule: SenseRule, s: State, moves: seq<Move>, i: nat, depth: nat, sense: int, w: Window)
    requires StateValid(s) && depth > 0 && i <= |moves| && AllLegal(s, moves) && w.alpha < w.beta
    ensures var o := Loop(rule, s, moves, i, depth, sense, w);
      (sense == 1 ==> w.bestScore <= o.score && (o.pruned ==> w.beta <= o.score) &&
                      (!o.pruned && w.bestScore < w.beta ==> o.score < w.beta)) &&
      (sense != 1 ==> o.score <= w.bestScore && (o.pruned ==> o.score <= w.alpha) &&
                      (!o.pruned && w.alpha < w.bestScore ==> w.alpha < o.score))
  {
    if sense == 1 {
      MaxLoopBounds(rule, s, moves, i, depth, w);
    } else {
      MinLoopBounds(rule, s, moves, i, depth, sense, w);
    }
  }

  /** The outcome o of a maximising loop that started from w keeps LoopBounds: no
      less than the starting score, at least beta when cut off, and below beta when
      it ran to the end from a score below beta. */
  predicate MaxBounded(w: Window, o: Outcome) {
    w.bestScore <= o.score && (o.pruned ==> w.beta <= o.score) && (!o.pruned && w.bestScore < w.beta ==> o.score < w.beta)
  }

  /** The outcome o of a minimising loop that started from w keeps LoopBounds. */
  predicate MinBounded(w: Window, o: Outcome) {
    o.score <= w.bestScore && (o.pruned ==> o.score <= w.alpha) && (!o.pruned && w.alpha < w.bestScore ==> w.alpha < o.score)
  }

  /** The maximising half of LoopBounds. */
  lemma {:induction false} MaxLoopBounds(rule: SenseRule, s: State, moves: seq<Move>, i: nat, depth: nat, w: Window)
    requires StateValid(s) && depth > 0 && i <= |moves| && AllLegal(s, moves) && w.alpha < w.beta
    ensures MaxBounded(w, Loop(rule, s, moves, i, depth, 1, w))
    decreases |moves| - i, 1
  {
    if i < |moves| {
      var r := Reply(rule, s, moves[i], depth, 1, w.alpha, w.beta);
      LoopStep(rule, s, moves, i, depth, 1, w, r.0, r.1);
      MaxLoopStep(rule, r.1, moves, i, depth, w, r.0, Loop(rule, s, moves, i, depth, 1, w));
    }
  }

  /** The rest of MaxLoopBounds once the i-th reply scored response and left the state
      exit: o is the loop's outcome, which the reply either cut off or left to the
      rest of the loop from exit. */
  lemma {:induction false} MaxLoopStep(rule: SenseRule, exit: State, moves: seq<Move>, i: nat, depth: nat, w: Window,
                                       response: int, o: Outcome)
    requires StateValid(exit) && depth > 0 && i < |moves| && AllLegal(exit, moves) && w.alpha < w.beta
    requires Consider(1, w, moves[i], response).Cut? ==> o.score == response && o.pruned
    requires Consider(1, w, moves[i], response).Next? ==>
      o == Loop(rule, exit, moves, i + 1, depth, 1, Consider(1, w, moves[i], response).w)
    ensures MaxBounded(w, o)
    decreases |moves| - i, 0
  {
    var step := Consider(1, w, moves[i], response);
    if step.Next? {
      MaxLoopBounds(rule, exit, moves, i + 1, depth, step.w);
    }
    MaxBoundedStep(w, moves[i], response, o, o);
  }

  /** One reply keeps MaxBounded: o is the loop's outcome and rest the outcome of the
      rest of the loop when the reply does not cut it off. */
  lemma MaxBoundedStep(w: Window, m: Move, response: int, o: Outcome, rest: Outcome)
    requires w.alpha < w.beta
    requires Consider(1, w, m, response).Cut? ==> o.score == response && o.pruned
    requires Consider(1, w, m, response).Next? ==> o == rest && MaxBounded(Consider(1, w, m, response).w, rest)
    ensures MaxBounded(w, o)
  {
  }

  /** The minimising half of LoopBounds. */
  lemma {:induction false} MinLoopBounds(rule: SenseRule, s: State, moves: seq<Move>, i: nat, depth: nat, sense: int, w: Window)
    requires StateValid(s) && depth > 0 && i <= |moves| && AllLegal(s, moves) && w.alpha < w.beta && sense != 1
    ensures MinBounded(w, Loop(rule, s, moves, i, depth, sense, w))
    decreases |moves| - i, 1
  {
    if i < |moves| {
      var r := Reply(rule, s, moves[i], depth, sense, w.alpha, w.beta);
      LoopStep(rule, s, moves, i, depth, sense, w, r.0, r.1);
      MinLoopStep(rule, r.1, moves, i, depth, sense, w, r.0, Loop(rule, s, moves, i, depth, sense, w));
    }
  }

  /** The rest of MinLoopBounds, as MaxLoopStep. */
  lemma {:induction false} MinLoopStep(rule: SenseRule, exit: State, moves: seq<Move>, i: nat, depth: nat, sense: int, w: Window,
                                       response: int, o: Outcome)
    requires StateValid(exit) && depth > 0 && i < |moves| && AllLegal(exit, moves) && w.alpha < w.beta && sense != 1
    requires Consider(sense, w, moves[i], response).Cut? ==> o.score == response && o.pruned
    requires Consider(sense, w, moves[i], response).Next? ==>
      o == Loop(rule, exit, moves, i + 1, depth, sense, Consider(sense, w, moves[i], response).w)
    ensures MinBounded(w, o)
    decreases |moves| - i, 0
  {
    var step := Consider(sense, w, moves[i], response);
    if step.Next? {
      MinLoopBounds(rule, exit, moves, i + 1, depth, sense, step.w);
    }
    MinBoundedStep(w, sense, moves[i], response, o, o);
  }

  /** One reply keeps MinBounded, as MaxBoundedStep. */
  lemma MinBoundedStep(w: Window, sense: int, m: Move, response: int, o: Outcome, rest: Outcome)
    requires w.alpha < w.beta && sense != 1
    requires Consider(sense, w, m, response).Cut? ==> o.score == response && o.pruned
    requires Consider(sense, w, m, response).Next? ==> o == rest && MinBounded(Consider(sense, w, m, response).w, rest)
    ensures MinBounded(w, o)
  {
  }

  /** A loop that runs to the end returns a score at least as good, for the searching
      side, as the reply to the move it is considering: no smaller when maximising, no
      greater when minimising. */
  lemma ReplyWithinScore(rule: SenseRule, s: State, moves: seq<Move>, i: nat, depth: nat, sense: int, w: Window)
    requires StateValid(s) && depth > 0 && i < |moves| && AllLegal(s, moves) && w.alpha < w.beta
    ensures var o := Loop(rule, s, moves, i, depth, sense, w);
      var response := Reply(rule, s, moves[i], depth, sense, w.alpha, w.beta).0;
      !o.pruned ==> (sense == 1 ==> response <= o.score) && (sense != 1 ==> o.score <= response)
  {
    var r := Reply(rule, s, moves[i], depth, sense, w.alpha, w.beta);
    LoopStep(rule, s, moves, i, depth, sense, w, r.0, r.1);
    if sense == 1 {
      MaxReplyWithin(rule, s, moves, i, depth, w, r.0, r.1);
    } else {
      MinReplyWithin(rule, s, moves, i, depth, sense, w, r.0, r.1);
    }
  }

  /** The maximising half of ReplyWithinScore, for the reply scoring response and
      leaving the state exit. */
  lemma MaxReplyWithin(rule: SenseRule, s: State, moves: seq<Move>, i: nat, depth: nat, w: Window, response: int, exit: State)
    requires StateValid(s) && depth > 0 && i < |moves| && AllLegal(s, moves) && w.alpha < w.beta
    requires StateValid(exit) && AllLegal(exit, moves)
    requires Consider(1, w, moves[i], response).Next? ==>
      Loop(rule, s, moves, i, depth, 1, w) == Loop(rule, exit, moves, i + 1, depth, 1, Consider(1, w, moves[i], response).w)
    requires Consider(1, w, moves[i], response).Cut? ==> Loop(rule, s, moves, i, depth, 1, w).pruned
    ensures !Loop(rule, s, moves, i, depth, 1, w).pruned ==> response <= Loop(rule, s, moves, i, depth, 1, w).score
  {
    var step := Consider(1, w, moves[i], response);
    if step.Next? {
      MaxLoopBounds(rule, exit, moves, i + 1, depth, step.w);
    }
  }

  /** The minimising half of ReplyWithinScore, for the reply scoring response and
      leaving the state exit. */
  lemma MinReplyWithin(rule: SenseRule, s: State, moves: seq<Move>, i: nat, depth: nat, sense: int, w: Window, response: int, exit: State)
    requires StateValid(s) && depth > 0 && i < |moves| && AllLegal(s, moves) && w.alpha < w.beta && sense != 1
    requires StateValid(exit) && AllLegal(exit, moves)
    requires Consider(sense, w, moves[i], response).Next? ==>
      Loop(rule, s, moves, i, depth, sense, w) == Loop(rule, exit, moves, i + 1, depth, sense, Consider(sense, w, moves[i], response).w)
    requires Consider(sense, w, moves[i], response).Cut? ==> Loop(rule, s, moves, i, depth, sense, w).pruned
    ensures !Loop(rule, s, moves, i, depth, sense, w).pruned ==> Loop(rule, s, moves, i, depth, sense, w).score <= response
  {
    var step := Consider(sense, w, moves[i], response);
    if step.Next? {
      MinLoopBounds(rule, exit, moves, i + 1, depth, sense, step.w);
    }
  }

  /** A position that is won, or reached at depth 0, scores with WINNING_VALUE + depth:
      a win found with more depth left, that is sooner, scores further from 0. */
  lemma LeafScore(rule: SenseRule, s: State, depth: nat, sense: int, alpha: int, beta: int)
    requires StateValid(s) && s.winner.Some?
    ensures var o := Search(rule, s, depth, sense, alpha, beta);
      !o.searched && o.best == None
      && (s.winner == Some(RED) ==> o.score == WINNING_VALUE + depth)
      && (s.winner == Some(BLUE) ==> o.score == -(WINNING_VALUE + depth))
      && (s.winner == Some(EMPTY) ==> o.score == 0)
  {
  }

  /** For a searched position the stored move is a pass exactly when legalMoves is
      empty, and otherwise none or a legal move of the side to move. */
  lemma SavedMoveLegal(rule: SenseRule, s: State, depth: nat, sense: int, alpha: int, beta: int)
    requires StateValid(s) && depth > 0 && s.winner.None?
    ensures var o := Search(rule, s, depth, sense, alpha, beta);
      SavedMove(o).Some? &&
      (SavedMove(o).value == Some(Pass) <==> LegalMovesSpec(s.cells, s.whoseMove) == []) &&
      (SavedMove(o).value == None || SavedMove(o).value.value in LegalMovesSpec(s.cells, s.whoseMove) ||
       SavedMove(o).value == Some(Pass))
  {
    ListedAllLegal(s);
    LoopBest(rule, s, LegalMovesSpec(s.cells, s.whoseMove), 0, depth, sense, Window(alpha, beta, None, sense * -INFTY));
    assert Pass !in LegalMovesSpec(s.cells, s.whoseMove);
  }

  /** As written, a searched position stores a move exactly when its loop was not cut
      off; the stored move is then a pass exactly when legalMoves is empty, and
      otherwise none or a legal move of the side to move. */
  lemma SavedAsWrittenLegal(rule: SenseRule, s: State, depth: nat, sense: int, alpha: int, beta: int)
    requires StateValid(s) && depth > 0 && s.winner.None?
    ensures var o := Search(rule, s, depth, sense, alpha, beta);
      (SavedAsWritten(o).Some? <==> !o.pruned) &&
      (LegalMovesSpec(s.cells, s.whoseMove) == [] ==> SavedAsWritten(o) == Some(Some(Pass))) &&
      (SavedAsWritten(o).Some? ==> (SavedAsWritten(o).value == Some(Pass) <==> LegalMovesSpec(s.cells, s.whoseMove) == [])) &&
      (SavedAsWritten(o).Some? && LegalMovesSpec(s.cells, s.whoseMove) != [] ==>
        SavedAsWritten(o).value == None || SavedAsWritten(o).value.value in LegalMovesSpec(s.cells, s.whoseMove))
  {
    var moves := LegalMovesSpec(s.cells, s.whoseMove);
    ListedAllLegal(s);
    assert Pass !in moves;
    LoopBest(rule, s, moves, 0, depth, sense, Window(alpha, beta, None, sense * -INFTY));
    if moves == [] {
      NoMovesScore(rule, s, depth, sense, alpha, beta);
    }
  }

  /** Searched with the full window (-INFTY, INFTY), a position is cut off only by a
      reply scoring INFTY when maximising, or -INFTY when minimising. */
  lemma FullWindowCutoff(rule: SenseRule, s: State, depth: nat, sense: int)
    requires StateValid(s) && depth > 0 && s.winner.None?
    ensures var o := Search(rule, s, depth, sense, -INFTY, INFTY);
      o.pruned ==> (sense == 1 ==> o.score >= INFTY) && (sense != 1 ==> o.score <= -INFTY)
  {
    ListedAllLegal(s);
    LoopBounds(rule, s, LegalMovesSpec(s.cells, s.whoseMove), 0, depth, sense, Window(-INFTY, INFTY, None, sense * -INFTY));
  }

  /** A searched position where the side to move has no listed move scores sense * -INFTY,
      beyond any won position, and stores a pass. */
  lemma NoMovesScore(rule: SenseRule, s: State, depth: nat, sense: int, alpha: int, beta: int)
    requires StateValid(s) && depth > 0 && s.winner.None? && LegalMovesSpec(s.cells, s.whoseMove) == []
    ensures var o := Search(rule, s, depth, sense, alpha, beta);
      o.score == sense * -INFTY && !o.pruned && o.best == Some(Pass)
    ensures sense == 1 ==> Search(rule, s, depth, sense, alpha, beta).score == -INFTY
    ensures sense == -1 ==> Search(rule, s, depth, sense, alpha, beta).score == INFTY
  {
    var w := Window(alpha, beta, None, sense * -INFTY);
    assert Search(rule, s, depth, sense, alpha, beta) == Loop(rule, s, [], 0, depth, sense, w);
    assert Loop(rule, s, [], 0, depth, sense, w) == Outcome(w.bestScore, true, false, Some(Pass), s);
  }

  /** The starting score sense * -INFTY for the two senses. */
  lemma StartScore(sense: int)
    ensures sense == 1 ==> sense * -INFTY == -INFTY
    ensures sense == -1 ==> sense * -INFTY == INFTY
  {
  }

  /** The reply to a move that leaves the opponent, with the game undecided, no listed
      move is searched with the reply sense and scores its starting score: INFTY below
      a maximising node under either rule, and below a minimising node INFTY as written
      but -INFTY when the senses alternate. */
  lemma StalemateReply(rule: SenseRule, s: State, m: Move, depth: nat, sense: int)
    requires StateValid(s) && depth > 1 && m.Mv? && LegalOn(s.cells, s.whoseMove, m)
    requires AfterMove(s, m).winner.None? && LegalMovesSpec(AfterMove(s, m).cells, AfterMove(s, m).whoseMove) == []
    ensures sense == 1 ==> Reply(rule, s, m, depth, sense, -INFTY, INFTY).0 == INFTY
    ensures rule == AsWritten && sense == -1 ==> Reply(rule, s, m, depth, sense, -INFTY, INFTY).0 == INFTY
    ensures rule == Alternating && sense == -1 ==> Reply(rule, s, m, depth, sense, -INFTY, INFTY).0 == -INFTY
  {
    var a := AfterMove(s, m);
    var cs := ChildSense(rule, sense);
    var child := Search(rule, a, depth - 1, cs, -INFTY, INFTY);
    assert Reply(rule, s, m, depth, sense, -INFTY, INFTY).0 == child.score;
    var w := Window(-INFTY, INFTY, None, cs * -INFTY);
    assert child == Loop(rule, a, [], 0, depth - 1, cs, w);
    assert Loop(rule, a, [], 0, depth - 1, cs, w) == Outcome(w.bestScore, true, false, Some(Pass), a);
    StartScore(cs);
  }

  /** The source cuts off a maximising root without storing a move: when the first
      listed move leaves the opponent, with the game undecided, no listed move, the
      reply scores INFTY, the root is cut off with alpha = beta = INFTY, and as written
      nothing is stored, while SavedMove stores that first move.  With alternating
      senses a minimising root is cut off the same way. */
  lemma RootCutoffLosesMove(rule: SenseRule, s: State, depth: nat, sense: int)
    requires StateValid(s) && depth > 1 && s.winner.None? && (sense == 1 || (rule == Alternating && sense == -1))
    requires LegalMovesSpec(s.cells, s.whoseMove) != []
    requires var m := LegalMovesSpec(s.cells, s.whoseMove)[0];
      m.Mv? && LegalOn(s.cells, s.whoseMove, m) &&
      AfterMove(s, m).winner.None? && LegalMovesSpec(AfterMove(s, m).cells, AfterMove(s, m).whoseMove) == []
    ensures var o := Search(rule, s, depth, sense, -INFTY, INFTY);
      SavedAsWritten(o) == None && SavedMove(o) == Some(Some(LegalMovesSpec(s.cells, s.whoseMove)[0]))
  {
    var moves := LegalMovesSpec(s.cells, s.whoseMove);
    var m := moves[0];
    ListedAllLegal(s);
    StalemateReply(rule, s, m, depth, sense);
    var r := Reply(rule, s, m, depth, sense, -INFTY, INFTY);
    var w := Window(-INFTY, INFTY, None, sense * -INFTY);
    StartScore(sense);
    if sense == 1 {
      assert w == Window(-INFTY, INFTY, None, -INFTY) && r.0 == INFTY;
      assert Consider(1, w, m, INFTY) == Cut(INFTY);
    } else {
      assert w == Window(-INFTY, INFTY, None, INFTY) && r.0 == -INFTY;
      assert Consider(-1, w, m, -INFTY) == Cut(-INFTY);
    }
    assert Search(rule, s, depth, sense, -INFTY, INFTY) == Loop(rule, s, moves, 0, depth, sense, w);
    assert Loop(rule, s, moves, 0, depth, sense, w) == Outcome(r.0, true, true, Some(m), r.1);
  }
}
