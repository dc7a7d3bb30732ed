/** The automated player: it lists the legal moves of the side to move, runs the
    alpha-beta search on a copy of the board by making and undoing moves, and reports
    the move that the search stores. */
module Players {
  import opened Colors
  import opened Moves
  import opened Geometry
  import opened Rules
  import opened States
  import opened Evaluation
  import opened Minimax
  import opened Boards

  /** The state a copy of the board starts in (Board(Board)): no winner and an empty
      undo stack. */
  function Copied(s: State): (t: State)
    ensures StateValid(s) ==> StateValid(t) && t.winner.None?
    ensures t.cells == s.cells && t.whoseMove == s.whoseMove && t.counts == s.counts
  {
    s.(winner := None, undoStack := [])
  }

  /** The comparison in minMax's move loop after the reply to m scored response: when
      it beats bestScore (is greater when sense is 1, smaller otherwise), m becomes the
      best move and alpha (or beta) moves to the score, and the loop is cut off once
      alpha >= beta (Consider). */
  method Weigh(sense: int, alpha: int, beta: int, best: Option<Move>, bestScore: int, m: Move, response: int)
    returns (cut: bool, alpha': int, beta': int, best': Option<Move>, bestScore': int)
    ensures cut <==> Consider(sense, Window(alpha, beta, best, bestScore), m, response).Cut?
    ensures cut ==> best' == Some(m) && bestScore' == response
    ensures !cut ==>
      Consider(sense, Window(alpha, beta, best, bestScore), m, response) == Next(Window(alpha', beta', best', bestScore'))
  {
    cut, alpha', beta', best', bestScore' := false, alpha, beta, best, bestScore;
    if sense == 1 {
      if response > bestScore {
        best' := Some(m);
        bestScore' := response;
        alpha' := Max(alpha, bestScore');
        cut := alpha' >= beta';
      }
    } else {
      if response < bestScore {
        best' := Some(m);
        bestScore' := response;
        beta' := Min(beta, bestScore');
        cut := alpha' >= beta';
      }
    }
  }

  /** The move loop of minMax on board has reached the i-th of moves with the running
      values w, and the loop from here on ends in o. */
  ghost predicate Searching(board: Board, moves: seq<Move>, i: nat, depth: nat, sense: int, w: Window, o: Outcome)
    reads board, board.grid, board.counts
  {
    board.Valid() && depth > 0 && i <= |moves| && AllLegal(board.Snap(), moves) &&
    Loop(AsWritten, board.Snap(), moves, i, depth, sense, w) == o
  }

  class AI {
    /** The side this player moves for. */
    const myColor: PieceColor
    /** The move stored by the last search with saveMove set (_lastFoundMove). */
    var lastFoundMove: Option<Move>

    constructor (color: PieceColor)
      ensures myColor == color && lastFoundMove == None
    {
      myColor := color;
      lastFoundMove := None;
    }

    /** findMove(): searches a copy of the board to MAX_DEPTH with the full window
        (-INFTY, INFTY), maximising when this player is RED, and returns the move the
        search stored, or none (null) when the search was cut off.  The board itself is
        left alone.  The move is a pass exactly when the side to move has no listed
        move, and otherwise none or one of the listed moves. */
    method FindMove(board: Board) returns (move: Option<Move>)
      requires board.Valid()
      modifies this`lastFoundMove
      ensures move == lastFoundMove
      ensures var o := Search(AsWritten, Copied(old(board.Snap())), MAX_DEPTH, SenseOf(myColor), -INFTY, INFTY);
        move == if o.pruned then None else o.best
      ensures move == Some(Pass) <==> LegalMovesSpec(old(board.Cells()), old(board.whoseMove)) == []
      ensures move == None || move == Some(Pass) || move.value in LegalMovesSpec(old(board.Cells()), old(board.whoseMove))
    {
      ghost var s := Copied(board.Snap());
      var b := new Board.Copy(board);
      assert b.Snap() == s;
      lastFoundMove := None;
      var sense := if myColor == RED then 1 else -1;
      var _ := MinMax(b, MAX_DEPTH, true, sense, -INFTY, INFTY);
      move := lastFoundMove;
      SavedAsWrittenLegal(AsWritten, s, MAX_DEPTH, sense, -INFTY, INFTY);
    }

    /** minMax(board, depth, saveMove, sense, alpha, beta): the alpha-beta search of
        Search as written, carried out by making each listed move on board, searching
        the reply and undoing the move.  It returns the search's score, leaves the board
        as Search says, and with saveMove stores the move Search settles on when the
        position was searched and its loop was not cut off (SavedAsWritten). */
    method MinMax(board: Board, depth: nat, saveMove: bool, sense: int, alpha: int, beta: int) returns (score: int)
      requires board.Valid()
      modifies this`lastFoundMove, board, board.grid, board.counts
      ensures board.Valid()
      ensures score == Search(AsWritten, old(board.Snap()), depth, sense, alpha, beta).score
      ensures board.Snap() == Search(AsWritten, old(board.Snap()), depth, sense, alpha, beta).exit
      ensures var saved := SavedAsWritten(Search(AsWritten, old(board.Snap()), depth, sense, alpha, beta));
        lastFoundMove == if saveMove && saved.Some? then saved.value else old(lastFoundMove)
      decreases depth, 1, 0
    {
      if depth == 0 || board.winner.Some? {
        return StaticScore(board.Snap(), WINNING_VALUE + depth);
      }
      var possibleMoves := LegalMoves(board);
      ListedAllLegal(board.Snap());
      var best, cut;
      score, best, cut := SearchMoves(board, possibleMoves, depth, sense, alpha, beta);
      if saveMove && !cut {
        lastFoundMove := best;
      }
    }

    /** The rest of minMax once legalMoves has listed possibleMoves: the move loop from
        the score sense * -INFTY, and a pass when nothing was listed (Loop).  It returns
        the score, the move the loop settled on, and whether the loop was cut off, in
        which case minMax returns at once without storing the move. */
    method SearchMoves(board: Board, possibleMoves: seq<Move>, depth: nat, sense: int, alpha: int, beta: int)
      returns (score: int, best: Option<Move>, cut: bool)
      requires board.Valid() && depth > 0 && AllLegal(board.Snap(), possibleMoves)
      modifies this`lastFoundMove, board, board.grid, board.counts
      ensures board.Valid() && lastFoundMove == old(lastFoundMove)
      ensures Loop(AsWritten, old(board.Snap()), possibleMoves, 0, depth, sense, Window(alpha, beta, None, sense * -INFTY))
        == Outcome(score, true, cut, best, board.Snap())
      decreases depth, 0, 3
    {
      ghost var s0 := board.Snap();
      best := None;
      var bestScore := sense * -INFTY;
      var a, b := alpha, beta;
      ghost var o := Loop(AsWritten, s0, possibleMoves, 0, depth, sense, Window(a, b, best, bestScore));
      var i := 0;
      while i < |possibleMoves|
        invariant Searching(board, possibleMoves, i, depth, sense, Window(a, b, best, bestScore), o)
        invariant lastFoundMove == old(lastFoundMove)
      {
        cut, a, b, best, bestScore := Turn(board, possibleMoves, i, depth, sense, a, b, best, bestScore, o);
        if cut {
          assert old(board.Snap()) == s0;
          return bestScore, best, cut;
        }
        i := i + 1;
      }
      if |possibleMoves| == 0 {
        best := Some(Pass);
      }
      assert o == Outcome(bestScore, true, false, best, board.Snap());
      assert old(board.Snap()) == s0;
      score, cut := bestScore, false;
    }

    /** The i-th turn of the move loop with the running values alpha, beta, best and
        bestScore, the loop from here on ending in o: the reply to the i-th listed move
        is searched (Respond) and weighed (Weigh), and the loop either ends cut off with
        that move or goes on from the state left with the new values, as Consider says
        (LoopStep). */
    method Turn(board: Board, moves: seq<Move>, i: nat, depth: nat, sense: int,
                alpha: int, beta: int, best: Option<Move>, bestScore: int, ghost o: Outcome)
      returns (cut: bool, alpha': int, beta': int, best': Option<Move>, bestScore': int)
      requires Searching(board, moves, i, depth, sense, Window(alpha, beta, best, bestScore), o) && i < |moves|
      modifies this`lastFoundMove, board, board.grid, board.counts
      ensures board.Valid() && lastFoundMove == old(lastFoundMove)
      ensures cut ==> o == Outcome(bestScore', true, true, best', board.Snap())
      ensures !cut ==> Searching(board, moves, i + 1, depth, sense, Window(alpha', beta', best', bestScore'), o)
      decreases depth, 0, 2
    {
      ghost var s := board.Snap();
      var response := Respond(board, moves[i], depth, sense, alpha, beta);
      LoopStep(AsWritten, s, moves, i, depth, sense, Window(alpha, beta, best, bestScore), response, board.Snap());
      cut, alpha', beta', best', bestScore' := Weigh(sense, alpha, beta, best, bestScore, moves[i], response);
    }

    /** One pass of the move loop of minMax: make the legal move m, then SearchReply
        (Reply). */
    method Respond(board: Board, m: Move, depth: nat, sense: int, alpha: int, beta: int) returns (response: int)
      requires board.Valid() && depth > 0 && m.Mv? && LegalOn(board.Cells(), board.whoseMove, m)
      modifies this`lastFoundMove, board, board.grid, board.counts
      ensures board.Valid() && lastFoundMove == old(lastFoundMove)
      ensures (response, board.Snap()) == Reply(AsWritten, old(board.Snap()), m, depth, sense, alpha, beta)
      decreases depth, 0, 1
    {
      var _ := board.MakeMove(m);
      response := SearchReply(board, depth, sense, alpha, beta);
    }

    /** After a move: search the reply one level shallower, with the opposite sense
        below a maximising node and the same sense below a minimising one, and undo the
        move (ReplyFrom). */
    method SearchReply(board: Board, depth: nat, sense: int, alpha: int, beta: int) returns (response: int)
      requires board.Valid() && depth > 0 && |board.allMoves| > 0 && MoveStart in board.undoStack
      modifies this`lastFoundMove, board, board.grid, board.counts
      ensures board.Valid() && lastFoundMove == old(lastFoundMove)
      ensures (response, board.Snap()) == ReplyFrom(AsWritten, old(board.Snap()), depth, sense, alpha, beta)
      decreases depth, 0, 0
    {
      ghost var t := board.Snap();
      ghost var child := Search(AsWritten, t, depth - 1, ChildSense(AsWritten, sense), alpha, beta);
      if sense == 1 {
        response := MinMax(board, depth - 1, false, -sense, alpha, beta);
      } else {
        response := MinMax(board, depth - 1, false, sense, alpha, beta);
      }
      assert board.Snap() == child.exit;
      board.Undo();
      assert old(board.Snap()) == t;
    }

    /** legalMoves(board): the squares holding the side to move are collected column by
        column, rows 7 down to 1; from each, the 25 squares within two columns and two
        rows are tried column by column, rows downwards, skipping those left of column
        a or above row 7, and every legal move is kept. */
    method LegalMoves(board: Board) returns (legal: seq<Move>)
      requires board.Valid()
      ensures legal == LegalMovesSpec(board.Cells(), board.whoseMove)
    {
      ghost var g, who := board.Cells(), board.whoseMove;
      var myPieces: seq<(int, int)> := [];
      ghost var k := 0;
      var c := 0;
      while c <= SIDE - 1
        invariant 0 <= c <= SIDE
        invariant k == 7 * c
        invariant myPieces == PiecesUpTo(g, who, k)
      {
        var r := SIDE - 1;
        while r >= 0
          invariant -1 <= r <= SIDE - 1
          invariant k == 7 * c + (6 - r) && 0 <= k <= 49
          invariant myPieces == PiecesUpTo(g, who, k)
        {
          PiecesNext(g, who, c, r, k);
          if board.Get(c, r) == board.whoseMove {
            myPieces := myPieces + [(c, r)];
          }
          k := k + 1;
          r := r - 1;
        }
        c := c + 1;
      }
      PiecesShape(g, who, SIDE * SIDE);
      legal := [];
      var i := 0;
      while i < |myPieces|
        invariant 0 <= i <= |myPieces|
        invariant legal == MovesOf(g, who, myPieces[..i])
      {
        var myCol, myRow := myPieces[i].0, myPieces[i].1;
        assert myPieces[i] in myPieces;
        var found := TargetsFrom(board, myCol, myRow);
        legal := legal + found;
        MovesOfNext(g, who, myPieces, i);
        i := i + 1;
      }
      assert myPieces[..|myPieces|] == myPieces;
    }

    /** The two inner loops of legalMoves for the piece at myCol myRow: the moves kept
        from it, column by column. */
    method TargetsFrom(board: Board, myCol: int, myRow: int) returns (found: seq<Move>)
      requires board.Valid()
      ensures found == Targets(board.Cells(), board.whoseMove, myCol, myRow)
    {
      found := [];
      ghost var g, who := board.Cells(), board.whoseMove;
      var col1 := myCol - 2;
      while col1 < myCol + 3
        invariant myCol - 2 <= col1 <= myCol + 3
        invariant found == ColumnsBefore(g, who, myCol, myRow, col1)
      {
        ColumnsNext(g, who, myCol, myRow, col1);
        var column := TargetsInColumn(board, myCol, myRow, col1, g, who);
        found := found + column;
        col1 := col1 + 1;
      }
    }

    /** The innermost loop of legalMoves: the moves kept in column col1, rows myRow + 2
        down to myRow - 2, skipping squares left of column a or above row 7. */
    method TargetsInColumn(board: Board, myCol: int, myRow: int, col1: int, ghost g: Grid, ghost who: PieceColor)
      returns (column: seq<Move>)
      requires board.Valid() && g == board.Cells() && who == board.whoseMove
      ensures column == ColumnAbove(g, who, myCol, myRow, col1, myRow - 3)
    {
      column := [];
      var row1 := myRow + 2;
      while row1 > myRow - 3
        invariant myRow - 3 <= row1 <= myRow + 2
        invariant column == ColumnAbove(g, who, myCol, myRow, col1, row1)
      {
        ColumnNext(g, who, myCol, myRow, col1, row1);
        if col1 < 0 || row1 > SIDE - 1 {
        } else {
          var ok := board.LegalMove(MoveOf(myCol, myRow, col1, row1));
          KeptIfLegal(g, who, board.totalOpen, board.NumPieces(who), myCol, myRow, col1, row1);
          if ok {
            column := column + [MoveOf(myCol, myRow, col1, row1).value];
          }
        }
        row1 := row1 - 1;
      }
    }
  }
}
