/** The whole state of a board as one value, and what makeMove and undo do to it.  The
    search in the AI is specified over these values, because a position reached after
    an undo is not always the position before the move: undo restores the squares, the
    side to move, the history and the undo stack, but not the open count, the EMPTY
    count, or the jump streak after an extend. */
module States {
  import opened Colors
  import opened Moves
  import opened Geometry
  import opened Rules

  /** Every field of a board. */
  datatype State = State(cells: Grid, counts: seq<int>, whoseMove: PieceColor, numJumps: int, totalOpen: int,
                         winner: Option<PieceColor>, allMoves: seq<Move>, undoStack: seq<UndoEntry>)

  /** The shape every board keeps: four counts, a blocked border, a player to move and
      undo records on the board. */
  ghost predicate StateValid(s: State) {
    |s.counts| == 4 && BorderBlocked(s.cells) && IsPlayer(s.whoseMove) && RecordsOnBoard(s.undoStack)
  }

  /** numPieces(c) of a state. */
  function Pieces(s: State, c: PieceColor): int
    requires |s.counts| == 4
  {
    s.counts[Ordinal(c)]
  }

  /** The red and blue counts agree with the squares. */
  ghost predicate CountsMatch(s: State)
    requires |s.counts| == 4
  {
    Pieces(s, RED) == Count(s.cells, RED) && Pieces(s, BLUE) == Count(s.cells, BLUE)
  }

  /** canMove(who) in state s. */
  predicate CanMoveIn(s: State, who: PieceColor)
    requires |s.counts| == 4
  {
    CanMoveSpec(s.cells, s.totalOpen, Pieces(s, who), who)
  }

  /** Four counts that agree colour by colour are equal. */
  lemma CountsByColor(a: seq<int>, b: seq<int>)
    requires |a| == 4 && |b| == 4
    requires a[Ordinal(EMPTY)] == b[Ordinal(EMPTY)] && a[Ordinal(BLOCKED)] == b[Ordinal(BLOCKED)]
    requires a[Ordinal(RED)] == b[Ordinal(RED)] && a[Ordinal(BLUE)] == b[Ordinal(BLUE)]
    ensures a == b
  {
  }

  /** The writes of makeMove for the legal non-pass move m before the hand-over: the
      move joins the history, a move start and the move's records are pushed, the
      squares become Applied, the mover gains the placed piece of an extend and every
      flipped piece, the opponent loses the flipped pieces, an extend closes one open
      square and resets the jump streak, and a jump lengthens it. */
  function Advanced(s: State, m: Move): (a: State)
    requires StateValid(s) && m.Mv? && LegalOn(s.cells, s.whoseMove, m)
    ensures StateValid(a) && |a.allMoves| > 0 && MoveStart in a.undoStack
    ensures a.whoseMove == s.whoseMove && a.winner == s.winner
  {
    var me, opp := s.whoseMove, Opposite(s.whoseMove);
    var ext := if IsExtend(m) then 1 else 0;
    var f := Flips(s.cells, m, me);
    MoveThenUnwind(s.cells, s.undoStack, m, me);
    LegalOriginOnBoard(s.cells, me, m);
    PlacedBorder(s.cells, m, me);
    FlipScanDone(Placed(s.cells, m, me), Index(m.c1, m.r1), me, []);
    State(Applied(s.cells, m, me), MovedCounts(s.counts, me, ext, f), me, if IsExtend(m) then 0 else s.numJumps + 1, s.totalOpen - ext, s.winner,
          s.allMoves + [m], s.undoStack + [MoveStart] + MoveRecords(s.cells, m, me))
  }

  /** The end of makeMove from state a: the opponent is to move, then the winner is
      checked (checkWinner) with the side now to move as the mover. */
  function HandedOver(a: State): (t: State)
    requires StateValid(a)
    ensures StateValid(t) && t.whoseMove == Opposite(a.whoseMove)
    ensures t.cells == a.cells && t.counts == a.counts && t.numJumps == a.numJumps && t.totalOpen == a.totalOpen
    ensures t.allMoves == a.allMoves && t.undoStack == a.undoStack
  {
    var opp := Opposite(a.whoseMove);
    a.(whoseMove := opp,
       winner := WinnerAfter(CanMoveIn(a, opp), CanMoveIn(a, a.whoseMove), a.numJumps,
                             Pieces(a, RED), Pieces(a, BLUE), Pieces(a, opp), opp, a.winner))
  }

  /** The state after the mover of s makes the legal non-pass move m (makeMove). */
  function AfterMove(s: State, m: Move): (t: State)
    requires StateValid(s) && m.Mv? && LegalOn(s.cells, s.whoseMove, m)
    ensures StateValid(t) && |t.allMoves| > 0 && MoveStart in t.undoStack
  {
    HandedOver(Advanced(s, m))
  }

  /** The state after the mover of s passes: a move start is pushed and the opponent is
      to move; the history, the counts and the winner stay as they are. */
  function AfterPass(s: State): (t: State)
    requires StateValid(s)
    ensures StateValid(t) && t.cells == s.cells && t.whoseMove == Opposite(s.whoseMove)
  {
    RecordsOnBoardAppend(s.undoStack, [MoveStart]);
    s.(undoStack := s.undoStack + [MoveStart], whoseMove := Opposite(s.whoseMove))
  }

  /** Counts that agree with the squares still agree after a legal move. */
  lemma AfterMoveMatch(s: State, m: Move)
    requires StateValid(s) && m.Mv? && LegalOn(s.cells, s.whoseMove, m) && CountsMatch(s)
    ensures CountsMatch(AfterMove(s, m))
  {
    MoveKeepsSurplus(s, m, RED);
    MoveKeepsSurplus(s, m, BLUE);
  }

  /** A state whose every field is what makeMove writes before the hand-over is the
      state Advanced says. */
  lemma AdvancedIs(s: State, a: State, m: Move)
    requires StateValid(s) && m.Mv? && LegalOn(s.cells, s.whoseMove, m) && |a.counts| == 4
    requires var me, ext, f := s.whoseMove, (if IsExtend(m) then 1 else 0), Flips(s.cells, m, s.whoseMove);
      && a.cells == Applied(s.cells, m, me) && a.whoseMove == me && a.winner == s.winner
      && Pieces(a, me) == Pieces(s, me) + ext + f && Pieces(a, Opposite(me)) == Pieces(s, Opposite(me)) - f
      && Pieces(a, EMPTY) == Pieces(s, EMPTY) && Pieces(a, BLOCKED) == Pieces(s, BLOCKED)
      && a.numJumps == (if IsExtend(m) then 0 else s.numJumps + 1) && a.totalOpen == s.totalOpen - ext
      && a.allMoves == s.allMoves + [m] && a.undoStack == s.undoStack + [MoveStart] + MoveRecords(s.cells, m, me)
    ensures a == Advanced(s, m)
  {
    CountsMoved(s.counts, a.counts, s.whoseMove, if IsExtend(m) then 1 else 0, Flips(s.cells, m, s.whoseMove));
  }

  /** The counts after the mover me gains ext + f pieces and the opponent loses f. */
  function MovedCounts(n: seq<int>, me: PieceColor, ext: int, f: int): (r: seq<int>)
    requires |n| == 4
    ensures |r| == 4
  {
    n[Ordinal(me) := n[Ordinal(me)] + ext + f][Ordinal(Opposite(me)) := n[Ordinal(Opposite(me))] - f]
  }

  /** Four counts in which the mover me has gained ext + f pieces, the opponent has lost
      f pieces and the other colours are as before are the counts with those two updates. */
  lemma CountsMoved(n: seq<int>, a: seq<int>, me: PieceColor, ext: int, f: int)
    requires |n| == 4 && |a| == 4 && IsPlayer(me)
    requires a[Ordinal(me)] == n[Ordinal(me)] + ext + f && a[Ordinal(Opposite(me))] == n[Ordinal(Opposite(me))] - f
    requires a[Ordinal(EMPTY)] == n[Ordinal(EMPTY)] && a[Ordinal(BLOCKED)] == n[Ordinal(BLOCKED)]
    ensures a == MovedCounts(n, me, ext, f)
  {
    var b := MovedCounts(n, me, ext, f);
    if me == RED {
      CountsByColor(a, b);
    } else {
      CountsByColor(a, b);
    }
  }

  /** The state after undo: the records of the most recent move are replayed, each
      count follows the squares, one is added to the open count per record, and the
      streak shrinks if the last recorded move was a jump. */
  function AfterUndo(s: State): (t: State)
    requires StateValid(s) && |s.allMoves| > 0 && MoveStart in s.undoStack
    ensures StateValid(t)
  {
    var k := LastStart(s.undoStack);
    RecordsOnBoardSlice(s.undoStack, k + 1, |s.undoStack|);
    RecordsOnBoardSlice(s.undoStack, 0, k);
    var seg := TopSegment(s.undoStack);
    var cells := Unwind(s.cells, seg);
    UnwindBorder(s.cells, seg);
    var last := s.allMoves[|s.allMoves| - 1];
    State(cells,
          [Follow(s, cells, EMPTY), Follow(s, cells, BLOCKED), Follow(s, cells, RED), Follow(s, cells, BLUE)],
          Opposite(s.whoseMove), s.numJumps - (if IsJump(last) then 1 else 0), s.totalOpen + |seg|, None,
          s.allMoves[..|s.allMoves| - 1], s.undoStack[..k])
  }

  /** A state whose every field is what undo computes is the state after undo. */
  lemma AfterUndoIs(s: State, t: State)
    requires StateValid(s) && |s.allMoves| > 0 && MoveStart in s.undoStack && |t.counts| == 4
    requires t.cells == Unwind(s.cells, TopSegment(s.undoStack)) && t.whoseMove == Opposite(s.whoseMove)
    requires t.numJumps == s.numJumps - (if IsJump(s.allMoves[|s.allMoves| - 1]) then 1 else 0)
    requires t.totalOpen == s.totalOpen + |TopSegment(s.undoStack)| && t.winner == None
    requires t.allMoves == s.allMoves[..|s.allMoves| - 1] && t.undoStack == s.undoStack[..LastStart(s.undoStack)]
    requires forall c :: Pieces(t, c) - Count(t.cells, c) == Pieces(s, c) - Count(s.cells, c)
    ensures t == AfterUndo(s)
  {
    var a := AfterUndo(s);
    assert Pieces(t, EMPTY) == Pieces(a, EMPTY) && Pieces(t, BLOCKED) == Pieces(a, BLOCKED);
    assert Pieces(t, RED) == Pieces(a, RED) && Pieces(t, BLUE) == Pieces(a, BLUE);
    CountsByColor(t.counts, a.counts);
  }

  /** Two states with the same squares, side to move, history and undo stack. */
  predicate SamePosition(s: State, t: State) {
    s.cells == t.cells && s.whoseMove == t.whoseMove && s.allMoves == t.allMoves && s.undoStack == t.undoStack
  }

  /** Whatever happened in between, undo from a state in the position reached by a legal
      move gives back the position before the move. */
  lemma UndoRestores(s: State, m: Move, e: State)
    requires StateValid(s) && m.Mv? && LegalOn(s.cells, s.whoseMove, m)
    requires StateValid(e) && SamePosition(e, AfterMove(s, m))
    ensures |e.allMoves| > 0 && MoveStart in e.undoStack
    ensures SamePosition(AfterUndo(e), s) && AfterUndo(e).winner == None
  {
    MoveThenUndoRecords(s, m);
  }

  /** The count of c after the squares of s become cells, moving one unit per changed square. */
  function Follow(s: State, cells: Grid, c: PieceColor): int
    requires |s.counts| == 4
  {
    Pieces(s, c) - Count(s.cells, c) + Count(cells, c)
  }

  /** Replaying on-board records keeps the border blocked. */
  lemma {:induction false} UnwindBorder(g: Grid, u: seq<UndoEntry>)
    requires BorderBlocked(g) && RecordsOnBoard(u)
    ensures BorderBlocked(Unwind(g, u))
    decreases |u|
  {
    if u != [] {
      var e := u[|u| - 1];
      RecordsOnBoardSlice(u, 0, |u| - 1);
      UnwindBorder(if e.Saved? then g[e.sq := e.prev] else g, u[..|u| - 1]);
    }
  }

  /** undo after makeMove of a legal non-pass move gives back the squares, the side to
      move, the history and the undo stack, clears the winner, restores the streak
      after a jump, and restores the red and blue counts, so counts that agreed with
      the squares agree again. */
  lemma MoveThenUndo(s: State, m: Move)
    requires StateValid(s) && m.Mv? && LegalOn(s.cells, s.whoseMove, m)
    ensures var t := AfterUndo(AfterMove(s, m));
      && t.cells == s.cells && t.whoseMove == s.whoseMove && t.allMoves == s.allMoves
      && t.undoStack == s.undoStack && t.winner == None
      && (IsJump(m) ==> t.numJumps == s.numJumps)
      && Pieces(t, RED) == Pieces(s, RED) && Pieces(t, BLUE) == Pieces(s, BLUE)
      && (CountsMatch(s) ==> CountsMatch(t))
  {
    MoveThenUndoRecords(s, m);
    MoveThenUndoCount(s, m, RED);
    MoveThenUndoCount(s, m, BLUE);
  }

  /** The record-keeping half of MoveThenUndo. */
  lemma MoveThenUndoRecords(s: State, m: Move)
    requires StateValid(s) && m.Mv? && LegalOn(s.cells, s.whoseMove, m)
    ensures var t := AfterUndo(AfterMove(s, m));
      && t.cells == s.cells && t.whoseMove == s.whoseMove && t.allMoves == s.allMoves
      && t.undoStack == s.undoStack && t.winner == None
      && (IsJump(m) ==> t.numJumps == s.numJumps)
  {
    var a := AfterMove(s, m);
    MoveThenUnwind(s.cells, s.undoStack, m, s.whoseMove);
    assert a.allMoves[..|a.allMoves| - 1] == s.allMoves;
    ExtendOrJump(m);
  }

  /** The count half of MoveThenUndo, for one player c: its count is restored, whether
      or not it agreed with the squares. */
  lemma MoveThenUndoCount(s: State, m: Move, c: PieceColor)
    requires StateValid(s) && m.Mv? && LegalOn(s.cells, s.whoseMove, m) && IsPlayer(c)
    ensures Pieces(AfterUndo(AfterMove(s, m)), c) == Pieces(s, c)
  {
    var a := AfterMove(s, m);
    MoveThenUndoRecords(s, m);
    MoveKeepsSurplus(s, m, c);
    AfterUndoCount(a, c);
  }

  /** A legal move changes a player's count exactly as it changes that player's squares. */
  lemma MoveKeepsSurplus(s: State, m: Move, c: PieceColor)
    requires StateValid(s) && m.Mv? && LegalOn(s.cells, s.whoseMove, m) && IsPlayer(c)
    ensures var a := AfterMove(s, m);
      Pieces(a, c) - Count(a.cells, c) == Pieces(s, c) - Count(s.cells, c)
  {
    MoveCounts(s.cells, m, s.whoseMove, c);
    AfterMoveCount(s, m, c);
  }

  /** makeMove moves the counts as the squares change: the mover gains the placed piece
      of an extend and every flipped piece, the opponent loses the flipped pieces. */
  lemma AfterMoveCount(s: State, m: Move, c: PieceColor)
    requires StateValid(s) && m.Mv? && LegalOn(s.cells, s.whoseMove, m)
    ensures var me, f := s.whoseMove, Flips(s.cells, m, s.whoseMove);
      Pieces(AfterMove(s, m), c) ==
        Pieces(s, c) + (if c == me then (if IsExtend(m) then 1 else 0) + f else 0) - (if c == Opposite(me) then f else 0)
  {
    OrdinalInjective(c, s.whoseMove);
    OrdinalInjective(c, Opposite(s.whoseMove));
  }

  /** undo moves each count by the change in that colour's squares. */
  lemma AfterUndoCount(s: State, c: PieceColor)
    requires StateValid(s) && |s.allMoves| > 0 && MoveStart in s.undoStack
    ensures Pieces(AfterUndo(s), c) == Follow(s, AfterUndo(s).cells, c)
  {
  }
}
