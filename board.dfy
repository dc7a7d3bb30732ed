/** The Ataxx board: an 11-by-11 array of squares with a blocked two-deep border, the
    piece counts, the jump streak, the open-square count, the side to move, the winner,
    the move history and the undo stack, all updated in place. */
module Boards {
  import opened Colors
  import opened Moves
  import opened Geometry
  import opened Rules
  import opened States

  class Board {
    /** The squares, row by row (_board). */
    const grid: array<PieceColor>
    /** Piece counts indexed by Ordinal (_numPieces). */
    const counts: array<int>
    var whoseMove: PieceColor
    /** Consecutive non-extending moves (_numJumps). */
    var numJumps: int
    /** Open-square count consulted by canMove (_totalOpen). */
    var totalOpen: int
    /** The winner, EMPTY for a draw, None while undecided (_winner). */
    var winner: Option<PieceColor>
    /** Non-pass moves since the last clear (_allMoves). */
    var allMoves: seq<Move>
    /** The undo stack (_undoSquares and _undoPieces). */
    var undoStack: seq<UndoEntry>

    ghost predicate Valid()
      reads this, grid, counts
    {
      grid.Length == END_LIN_BOARD && counts.Length == 4 &&
      BorderBlocked(grid[..]) && IsPlayer(whoseMove) && RecordsOnBoard(undoStack)
    }

    /** The squares as a grid value. */
    function Cells(): Grid
      reads this, grid
      requires grid.Length == END_LIN_BOARD
    {
      grid[..]
    }

    /** Every field as one value. */
    function Snap(): State
      reads this, grid, counts
      requires grid.Length == END_LIN_BOARD
    {
      State(Cells(), counts[..], whoseMove, numJumps, totalOpen, winner, allMoves, undoStack)
    }

    /** numPieces(color). */
    function NumPieces(c: PieceColor): int
      reads this, counts
      requires counts.Length == 4
    {
      counts[Ordinal(c)]
    }

    /** The red and blue counts agree with the pieces on the squares. */
    ghost predicate CountsAgree()
      reads this, grid, counts
      requires grid.Length == END_LIN_BOARD && counts.Length == 4
    {
      NumPieces(RED) == Count(Cells(), RED) && NumPieces(BLUE) == Count(Cells(), BLUE)
    }

    /** get(c, r). */
    function Get(c: int, r: int): PieceColor
      reads this, grid
      requires grid.Length == END_LIN_BOARD && InExtended(c) && InExtended(r)
    {
      grid[Index(c, r)]
    }

    /** equals(obj) on two boards: they are equal when every square agrees. */
    function Equals(other: Board): (r: bool)
      reads this, grid, other, other.grid
      requires grid.Length == END_LIN_BOARD && other.grid.Length == END_LIN_BOARD
      ensures r <==> forall i :: 0 <= i < END_LIN_BOARD ==> grid[i] == other.grid[i]
    {
      grid[..] == other.grid[..]
    }

    /** A new board in the start position: every square is blocked, then clear. */
    constructor ()
      ensures Valid() && CountsAgree() && BlocksSymmetric(Cells())
      ensures Cells() == StartCells()
      ensures counts[..] == [SIDE * SIDE, 0, 2, 2]
      ensures whoseMove == RED && numJumps == 0 && totalOpen == SIDE * SIDE - 4
      ensures winner == None && allMoves == [] && undoStack == []
    {
      grid := new PieceColor[END_LIN_BOARD](_ => EMPTY);
      counts := new int[4](_ => 0);
      whoseMove := RED;
      new;
      var pos := 0;
      while pos < END_LIN_BOARD
        invariant 0 <= pos <= END_LIN_BOARD
        invariant forall i :: 0 <= i < pos ==> grid[i] == BLOCKED
        invariant counts[..] == [0, 0, 0, 0]
      {
        grid[pos] := BLOCKED;
        pos := pos + 1;
      }
      Clear();
    }

    /** A board with the squares, counts, history, streak, open count and side to move of
        board0, but with an empty undo stack and no winner (Board(Board)). */
    constructor Copy(board0: Board)
      requires board0.Valid()
      ensures Valid() && fresh(grid) && fresh(counts)
      ensures Cells() == board0.Cells() && counts[..] == board0.counts[..]
      ensures allMoves == board0.allMoves && numJumps == board0.numJumps
      ensures totalOpen == board0.totalOpen && whoseMove == board0.whoseMove
      ensures undoStack == [] && winner == None
    {
      grid := new PieceColor[END_LIN_BOARD](i reads board0, board0.grid => if 0 <= i < board0.grid.Length then board0.grid[i] else BLOCKED);
      counts := new int[4](i reads board0, board0.counts => if 0 <= i < board0.counts.Length then board0.counts[i] else 0);
      allMoves := board0.allMoves;
      numJumps := board0.numJumps;
      totalOpen := board0.totalOpen;
      whoseMove := board0.whoseMove;
      undoStack := [];
      winner := None;
      new;
      assert grid[..] == board0.grid[..];
      assert counts[..] == board0.counts[..];
    }

    /** Reset to the start position.  The border squares are not touched, and the
        BLOCKED count keeps its value. */
    method Clear()
      requires grid.Length == END_LIN_BOARD && counts.Length == 4 && BorderBlocked(Cells())
      modifies this, grid, counts
      ensures Valid() && CountsAgree() && BlocksSymmetric(Cells())
      ensures Cells() == StartCells()
      ensures counts[..] == [SIDE * SIDE, old(counts[1]), 2, 2]
      ensures whoseMove == RED && numJumps == 0 && totalOpen == SIDE * SIDE - 4
      ensures winner == None && allMoves == [] && undoStack == []
    {
      whoseMove := RED;
      PlaceStartPieces();
      ResetCounts();
      allMoves := [];
      numJumps := 0;
      totalOpen := SIDE * SIDE - 4;
      winner := None;
      undoStack := [];
      StartPosition();
    }

    /** The count writes of clear: two pieces each and SIDE * SIDE empty squares; the
        BLOCKED count is not written. */
    method ResetCounts()
      requires counts.Length == 4
      modifies counts
      ensures counts[..] == [SIDE * SIDE, old(counts[1]), 2, 2]
    {
      counts[Ordinal(BLUE)] := 2;
      counts[Ordinal(RED)] := 2;
      counts[Ordinal(EMPTY)] := SIDE * SIDE;
    }

    /** The square writes of clear: empty the playable squares, then place the four
        corner pieces. */
    method PlaceStartPieces()
      requires grid.Length == END_LIN_BOARD && BorderBlocked(Cells())
      modifies grid
      ensures Cells() == StartCells()
    {
      EmptyPlayable();
      ghost var e := Cells();
      assert forall i :: 0 <= i < END_LIN_BOARD ==> e[i] == if Playable(i) then EMPTY else BLOCKED;
      grid[Index(0, 0)] := BLUE;
      grid[Index(0, 6)] := RED;
      grid[Index(6, 0)] := RED;
      grid[Index(6, 6)] := BLUE;
      assert Cells() == e[Index(0, 0) := BLUE][Index(0, 6) := RED][Index(6, 0) := RED][Index(6, 6) := BLUE];
      ClearedIsStart(e);
    }

    /** The square loop of clear: every playable square becomes empty, stepping from the
        last column of a row to the first column of the next. */
    method EmptyPlayable()
      requires grid.Length == END_LIN_BOARD
      modifies grid
      ensures forall i :: 0 <= i < END_LIN_BOARD ==> grid[i] == if Playable(i) then EMPTY else old(grid[i])
    {
      var pos := BEG_PLAY_BOARD;
      ghost var row, col := 2, 2;
      while pos < END_PLAY_BOARD
        invariant 2 <= col <= 8 && 2 <= row <= 9 && (row == 9 ==> col == 2)
        invariant pos == EXTENDED_SIDE * row + col
        invariant forall i :: 0 <= i < END_LIN_BOARD ==>
          grid[i] == (if i < pos && Playable(i) then EMPTY else old(grid[i]))
        decreases 10 - row, 8 - col
      {
        ClearStep(row, col);
        grid[pos] := EMPTY;
        if (pos + 3) % EXTENDED_SIDE == 0 {
          pos := pos + 4;
          row, col := row + 1, 1;
        }
        pos := pos + 1;
        col := col + 1;
      }
    }

    /** canMove(who): the open-count and piece-count early exits, then a scan of the
        5-by-5 block around every square of colour who. */
    method CanMove(who: PieceColor) returns (r: bool)
      requires Valid() && who != BLOCKED
      ensures r == CanMoveSpec(Cells(), totalOpen, NumPieces(who), who)
    {
      if totalOpen == 0 {
        return false;
      }
      if NumPieces(who) == 0 {
        return false;
      }
      var g := Cells();
      var pos := BEG_PLAY_BOARD;
      while pos < END_PLAY_BOARD
        invariant BEG_PLAY_BOARD <= pos <= END_PLAY_BOARD
        invariant forall q :: BEG_PLAY_BOARD <= q < pos && Playable(q) && g[q] == who ==> !EmptyNear(g, q)
      {
        if grid[pos] == who {
          assert Playable(pos);
          var i := pos - BEG_PLAY_BOARD;
          ghost var dc, dr := -2, -2;
          while i <= pos + BEG_PLAY_BOARD
            invariant -2 <= dc <= 2 && -2 <= dr <= 3 && (dr == 3 ==> dc == -2)
            invariant i == Neighbor(pos, dc, dr)
            invariant forall dc', dr' :: -2 <= dc' <= 2 && -2 <= dr' <= 2 && (dr' < dr || (dr' == dr && dc' < dc)) ==>
              0 <= Neighbor(pos, dc', dr') < END_LIN_BOARD && g[Neighbor(pos, dc', dr')] != EMPTY
            decreases 5 * (3 - dr) - dc
          {
            NeighborCoordinates(pos, dc, dr);
            if grid[i] == EMPTY {
              return true;
            }
            if i % EXTENDED_SIDE - 2 == pos % EXTENDED_SIDE {
              i := i + 6;
              dc, dr := -2, dr + 1;
            } else {
              dc := dc + 1;
            }
            i := i + 1;
          }
        }
        pos := pos + 1;
      }
      assert forall q :: 0 <= q < END_LIN_BOARD && Playable(q) ==> BEG_PLAY_BOARD <= q < END_PLAY_BOARD;
      return false;
    }

    /** legalMove(move). */
    method LegalMove(m: Option<Move>) returns (r: bool)
      requires Valid()
      ensures r == LegalSpec(Cells(), whoseMove, totalOpen, NumPieces(whoseMove), m)
    {
      if m.None? {
        return false;
      }
      var mv := m.value;
      if mv.Pass? {
        var can := CanMove(whoseMove);
        if can {
          return false;
        }
        return NumPieces(whoseMove) > 0;
      }
      if mv.c1 > 6 || mv.c1 < 0 || mv.r1 > 6 || mv.r1 < 0 {
        return false;
      }
      if Get(mv.c0, mv.r0) != whoseMove {
        return false;
      }
      if Get(mv.c1, mv.r1) != EMPTY {
        return false;
      }
      return true;
    }
  
    /** canMove as a value of the current state. */
    predicate CanMoveNow(who: PieceColor)
      reads this, grid, counts
      requires grid.Length == END_LIN_BOARD && counts.Length == 4
    {
      CanMoveSpec(Cells(), totalOpen, NumPieces(who), who)
    }

    /** startUndo: mark the beginning of a move on the undo stack. */
    method StartUndo()
      modifies this`undoStack
      ensures undoStack == old(undoStack) + [MoveStart]
    {
      undoStack := undoStack + [MoveStart];
    }

    /** addUndo(sq): record the current colour of square sq. */
    method AddUndo(sq: int)
      requires grid.Length == END_LIN_BOARD && 0 <= sq < END_LIN_BOARD
      modifies this`undoStack
      ensures undoStack == old(undoStack) + [Saved(sq, grid[sq])]
    {
      undoStack := undoStack + [Saved(sq, grid[sq])];
    }

    /** set(sq, v): the undoable write, recording the square's previous colour. */
    method Set(sq: int, v: PieceColor)
      requires grid.Length == END_LIN_BOARD && Playable(sq)
      modifies this`undoStack, grid
      ensures Cells() == old(Cells())[sq := v]
      ensures undoStack == old(undoStack) + [Saved(sq, old(grid[sq]))]
    {
      AddUndo(sq);
      grid[sq] := v;
    }

    /** One step of the flip loop: an opponent piece on pos becomes me, its previous
        colour is recorded, and one unit moves from the opponent's count to mine. */
    method FlipAt(pos: int, me: PieceColor)
      requires grid.Length == END_LIN_BOARD && counts.Length == 4 && 0 <= pos < END_LIN_BOARD && IsPlayer(me)
      requires grid[pos] == Opposite(me) ==> Playable(pos)
      modifies this`undoStack, grid, counts
      ensures var flip := old(grid[pos]) == Opposite(me);
        && Cells() == (if flip then old(Cells())[pos := me] else old(Cells()))
        && undoStack == old(undoStack) + (if flip then [Saved(pos, Opposite(me))] else [])
        && NumPieces(me) == old(NumPieces(me)) + (if flip then 1 else 0)
        && NumPieces(Opposite(me)) == old(NumPieces(Opposite(me))) - (if flip then 1 else 0)
      ensures NumPieces(EMPTY) == old(NumPieces(EMPTY)) && NumPieces(BLOCKED) == old(NumPieces(BLOCKED))
    {
      var opp := Opposite(me);
      if grid[pos] == opp {
        Set(pos, me);
        counts[Ordinal(me)] := counts[Ordinal(me)] + 1;
        counts[Ordinal(opp)] := counts[Ordinal(opp)] - 1;
      }
    }

    /** The board after the flip scan has visited ws, starting from the squares g0, the
        undo stack u0 and the counts n0. */
    ghost predicate Scanned(g0: Grid, u0: seq<UndoEntry>, n0: seq<int>, me: PieceColor, ws: seq<int>)
      reads this, grid, counts
      requires OnGrid(ws) && |n0| == 4
    {
      var opp := Opposite(me);
      grid.Length == END_LIN_BOARD && counts.Length == 4 &&
      Cells() == FlipWrites(g0, ws, me, opp) && undoStack == u0 + FlipRecords(g0, ws, opp) &&
      NumPieces(me) == n0[Ordinal(me)] + CountIn(g0, ws, opp) &&
      NumPieces(opp) == n0[Ordinal(opp)] - CountIn(g0, ws, opp) &&
      NumPieces(EMPTY) == n0[0] && NumPieces(BLOCKED) == n0[1]
    }

    /** One iteration of the flip loop at the k-th square of the scan w = Window3(d). */
    method FlipStep(pos: int, me: PieceColor, ghost g0: Grid, ghost d: int, ghost dc: int, ghost dr: int, ghost k: nat,
                    ghost u0: seq<UndoEntry>, ghost n0: seq<int>)
      requires IsPlayer(me) && BorderBlocked(g0) && |n0| == 4
      requires Playable(d) && -1 <= dc <= 1 && -1 <= dr <= 1 && k == 3 * (dr + 1) + (dc + 1) && pos == Neighbor(d, dc, dr)
      requires Scanned(g0, u0, n0, me, Window3(d)[..k])
      modifies this`undoStack, grid, counts
      ensures Scanned(g0, u0, n0, me, Window3(d)[..k + 1])
    {
      var opp := Opposite(me);
      ghost var w := Window3(d);
      Window3At(d, dc, dr);
      Window3Fresh(d, k);
      FlipScanStep(g0, w, k, me, opp);
      ghost var flip := g0[pos] == opp;
      ghost var recs := FlipRecords(g0, w[..k], opp);
      PushAssoc(u0, recs, if flip then [Saved(pos, opp)] else []);
      FlipAt(pos, me);
    }

    /** The flip loop of makeMove: every opponent piece in the 3-by-3 block around the
        destination d becomes me, one unit moving from the opponent's count to mine,
        and one record per flip is pushed on the undo stack. */
    method FlipNeighbors(d: int, me: PieceColor)
      requires Valid() && Playable(d) && IsPlayer(me)
      modifies this`undoStack, grid, counts
      ensures Valid() && whoseMove == old(whoseMove) && winner == old(winner) && allMoves == old(allMoves)
      ensures numJumps == old(numJumps) && totalOpen == old(totalOpen)
      ensures Cells() == FlipAround(old(Cells()), d, me, Opposite(me))
      ensures undoStack == old(undoStack) + FlipRecords(old(Cells()), Window3(d), Opposite(me))
      ensures NumPieces(me) == old(NumPieces(me)) + CountIn(old(Cells()), Window3(d), Opposite(me))
      ensures NumPieces(Opposite(me)) == old(NumPieces(Opposite(me))) - CountIn(old(Cells()), Window3(d), Opposite(me))
      ensures NumPieces(EMPTY) == old(NumPieces(EMPTY)) && NumPieces(BLOCKED) == old(NumPieces(BLOCKED))
    {
      ghost var g0, u0, n0 := Cells(), undoStack, counts[..];
      FlipScanDone(g0, d, me, u0);
      FlipScan(d, me, g0, u0, n0);
    }

    /** The loop of FlipNeighbors, stated against the squares g0, the undo stack u0 and
        the counts n0 it starts from: the nine squares of the block are visited in
        order, each as FlipStep says. */
    method FlipScan(d: int, me: PieceColor, ghost g0: Grid, ghost u0: seq<UndoEntry>, ghost n0: seq<int>)
      requires grid.Length == END_LIN_BOARD && counts.Length == 4 && Playable(d) && IsPlayer(me)
      requires Cells() == g0 && undoStack == u0 && counts[..] == n0 && BorderBlocked(g0)
      modifies this`undoStack, grid, counts
      ensures Scanned(g0, u0, n0, me, Window3(d)[..9])
    {
      ghost var w := Window3(d);
      assert w[..0] == [];
      var pos := d - 12;
      ghost var k, dc, dr := 0, -1, -1;
      while pos <= d + 12
        invariant -1 <= dc <= 1 && -1 <= dr <= 2 && (dr == 2 ==> dc == -1)
        invariant k == 3 * (dr + 1) + (dc + 1) && pos == Neighbor(d, dc, dr)
        invariant Scanned(g0, u0, n0, me, w[..k])
        decreases 9 - k
      {
        ScanColumn(d, dc, dr);
        ScanAdvance(d, dc, dr);
        FlipStep(pos, me, g0, d, dc, dr, k, u0, n0);
        if pos % EXTENDED_SIDE - 1 == d % EXTENDED_SIDE {
          pos := pos + 8;
          dc, dr := -2, dr + 1;
        }
        pos := pos + 1;
        dc := dc + 1;
        k := k + 1;
      }
      ScanAdvance(d, dc, dr);
    }

    /** The square and counter writes of makeMove before the flip loop: an extend
        places a piece of the mover, counts it, closes one open square and resets the
        jump streak; a jump empties the origin, fills the destination and lengthens
        the streak. */
    method PlacePiece(m: Move)
      requires Valid() && m.Mv? && LegalOn(Cells(), whoseMove, m)
      modifies this`undoStack, this`totalOpen, this`numJumps, grid, counts
      ensures Valid() && whoseMove == old(whoseMove) && winner == old(winner) && allMoves == old(allMoves)
      ensures Cells() == Placed(old(Cells()), m, whoseMove)
      ensures undoStack == old(undoStack) + PlaceRecords(old(Cells()), m)
      ensures numJumps == if IsExtend(m) then 0 else old(numJumps) + 1
      ensures totalOpen == old(totalOpen) - if IsExtend(m) then 1 else 0
      ensures NumPieces(whoseMove) == old(NumPieces(whoseMove)) + if IsExtend(m) then 1 else 0
      ensures NumPieces(Opposite(whoseMove)) == old(NumPieces(Opposite(whoseMove)))
      ensures NumPieces(EMPTY) == old(NumPieces(EMPTY)) && NumPieces(BLOCKED) == old(NumPieces(BLOCKED))
    {
      ghost var g, u := Cells(), undoStack;
      LegalOriginOnBoard(g, whoseMove, m);
      PlaceUndone(g, m, whoseMove);
      PlacedBorder(g, m, whoseMove);
      RecordsOnBoardAppend(u, PlaceRecords(g, m));
      var d := Index(m.c1, m.r1);
      if IsExtend(m) {
        Set(d, whoseMove);
        counts[Ordinal(whoseMove)] := counts[Ordinal(whoseMove)] + 1;
        totalOpen := totalOpen - 1;
        numJumps := 0;
      } else {
        Set(Index(m.c0, m.r0), EMPTY);
        Set(d, whoseMove);
        numJumps := numJumps + 1;
      }
    }

    /** The board part of makeMove for a legal non-pass move: place the piece, then flip
        the opponent pieces around the destination.  The squares become Applied, the
        stack gains MoveRecords, and the counts move by the placed and flipped pieces. */
    method MovePieces(m: Move)
      requires Valid() && m.Mv? && LegalOn(Cells(), whoseMove, m)
      modifies this`undoStack, this`totalOpen, this`numJumps, grid, counts
      ensures Valid() && whoseMove == old(whoseMove) && winner == old(winner) && allMoves == old(allMoves)
      ensures Cells() == Applied(old(Cells()), m, whoseMove)
      ensures undoStack == old(undoStack) + MoveRecords(old(Cells()), m, whoseMove)
      ensures numJumps == if IsExtend(m) then 0 else old(numJumps) + 1
      ensures totalOpen == old(totalOpen) - if IsExtend(m) then 1 else 0
      ensures NumPieces(whoseMove) ==
        old(NumPieces(whoseMove)) + (if IsExtend(m) then 1 else 0) + Flips(old(Cells()), m, whoseMove)
      ensures NumPieces(Opposite(whoseMove)) == old(NumPieces(Opposite(whoseMove))) - Flips(old(Cells()), m, whoseMove)
      ensures NumPieces(EMPTY) == old(NumPieces(EMPTY)) && NumPieces(BLOCKED) == old(NumPieces(BLOCKED))
    {
      ghost var g, u := Cells(), undoStack;
      LegalOriginOnBoard(g, whoseMove, m);
      PlacePiece(m);
      FlipNeighbors(Index(m.c1, m.r1), whoseMove);
      PushAssoc(u, PlaceRecords(g, m), FlipRecords(Placed(g, m, whoseMove), Window3(Index(m.c1, m.r1)), Opposite(whoseMove)));
    }

    /** checkWinner: with neither side able to move, or the jump limit reached, the
        side with more pieces wins (EMPTY on a tie); a side to move that cannot move
        and has no pieces loses; otherwise the winner stays as it was. */
    method CheckWinner()
      requires Valid()
      modifies this`winner
      ensures winner == WinnerAfter(CanMoveNow(whoseMove), CanMoveNow(Opposite(whoseMove)), numJumps,
        NumPieces(RED), NumPieces(BLUE), NumPieces(whoseMove), whoseMove, old(winner))
    {
      var moverCan := CanMove(whoseMove);
      var bothStuck := false;
      if !moverCan {
        var oppCan := CanMove(Opposite(whoseMove));
        bothStuck := !oppCan;
      }
      if bothStuck {
        winner := Some(Decide(NumPieces(RED), NumPieces(BLUE)));
      } else if numJumps == JUMP_LIMIT {
        winner := Some(Decide(NumPieces(RED), NumPieces(BLUE)));
      } else if !moverCan {
        if NumPieces(whoseMove) <= 0 {
          winner := Some(Opposite(whoseMove));
        }
      }
    }

    /** pass: the side to move, which cannot move, hands the move to the opponent; the
        pass is undoable, so it marks a move start on the undo stack. */
    method Pass()
      requires Valid() && !CanMoveNow(whoseMove)
      modifies this`undoStack, this`whoseMove
      ensures Valid()
      ensures undoStack == old(undoStack) + [MoveStart] && whoseMove == Opposite(old(whoseMove))
    {
      StartUndo();
      whoseMove := Opposite(whoseMove);
    }

    /** The non-pass branch of makeMove for a legal move: record it in the history,
        mark a move start, place and flip as MovePieces, hand the move to the opponent
        and check for a winner. */
    method MakeNonPass(m: Move)
      requires Valid() && m.Mv? && LegalOn(Cells(), whoseMove, m)
      modifies this`allMoves, this`undoStack, this`totalOpen, this`numJumps, this`whoseMove, this`winner, grid, counts
      ensures Valid() && Snap() == AfterMove(old(Snap()), m)
    {
      Advance(m);
      HandOver();
    }

    /** The writes of makeMove before the hand-over: the move joins the history, a move
        start is pushed, and the pieces are placed and flipped as MovePieces. */
    method Advance(m: Move)
      requires Valid() && m.Mv? && LegalOn(Cells(), whoseMove, m)
      modifies this`allMoves, this`undoStack, this`totalOpen, this`numJumps, grid, counts
      ensures Valid() && Snap() == Advanced(old(Snap()), m)
    {
      ghost var s0 := Snap();
      BeginMove(m);
      MovePieces(m);
      AdvancedIs(s0, Snap(), m);
    }

    /** The start of makeMove's non-pass branch: the move joins the history and a move
        start is pushed (startUndo). */
    method BeginMove(m: Move)
      requires Valid()
      modifies this`allMoves, this`undoStack
      ensures Valid() && allMoves == old(allMoves) + [m] && undoStack == old(undoStack) + [MoveStart]
      ensures whoseMove == old(whoseMove) && winner == old(winner) && numJumps == old(numJumps) && totalOpen == old(totalOpen)
    {
      allMoves := allMoves + [m];
      StartUndo();
      RecordsOnBoardAppend(old(undoStack), [MoveStart]);
    }

    /** The end of makeMove: the opponent is to move, then the winner is checked. */
    method HandOver()
      requires Valid()
      modifies this`whoseMove, this`winner
      ensures Valid() && Snap() == HandedOver(old(Snap()))
    {
      whoseMove := Opposite(whoseMove);
      CheckWinner();
    }

    /** makeMove(move): an illegal move is refused (the source throws) and changes
        nothing; a pass hands over the move; any other move is recorded in the
        history, placed and flipped as MovePieces, after which the opponent is to move
        and the winner is checked. */
    method MakeMove(m: Move) returns (ok: bool)
      requires Valid()
      modifies this, grid, counts
      ensures Valid()
      ensures ok == old(LegalSpec(Cells(), whoseMove, totalOpen, NumPieces(whoseMove), Some(m)))
      ensures !ok ==> unchanged(this, grid, counts)
      ensures ok && m.Pass? ==> Snap() == AfterPass(old(Snap()))
      ensures ok && m.Mv? ==> Snap() == AfterMove(old(Snap()), m)
    {
      ok := LegalMove(Some(m));
      if !ok {
        return;
      }
      if m.Pass? {
        Pass();
        assert counts[..] == old(counts[..]);
        return;
      }
      MakeNonPass(m);
    }

    /** The undo loop part way through the stack u0: what is left is a prefix of u0,
        replaying its records from position i on gives target, each record popped so
        far has added one to the open count t0, and every colour's count still differs
        from its number of squares by sur. */
    ghost predicate Replaying(u0: seq<UndoEntry>, i: nat, target: Grid, t0: int, sur: seq<int>)
      reads this, grid, counts
    {
      Valid() && i <= |undoStack| <= |u0| && undoStack == u0[..|undoStack|] &&
      RecordsOnBoard(u0[i..|undoStack|]) && Unwind(Cells(), u0[i..|undoStack|]) == target &&
      totalOpen == t0 + (|u0| - |undoStack|) && |sur| == 4 &&
      forall c :: NumPieces(c) - Count(Cells(), c) == sur[Ordinal(c)]
    }

    /** One iteration of the undo loop: the top record is popped, its square gets back
        its previous colour without being recorded, one unit moves from the square's
        current colour to the restored one, and the open count grows by one. */
    method RestoreTop(ghost u0: seq<UndoEntry>, ghost i: nat, ghost target: Grid, ghost t0: int, ghost sur: seq<int>)
      requires Replaying(u0, i, target, t0, sur) && i < |undoStack| && undoStack[|undoStack| - 1].Saved?
      modifies this`undoStack, this`totalOpen, grid, counts
      ensures Replaying(u0, i, target, t0, sur) && |undoStack| == old(|undoStack|) - 1
      ensures var e := old(undoStack[|undoStack| - 1]);
        Cells() == old(Cells())[e.sq := e.prev] && undoStack == old(undoStack[..|undoStack| - 1])
      ensures totalOpen == old(totalOpen) + 1
      ensures forall c :: NumPieces(c) - Count(Cells(), c) == old(NumPieces(c) - Count(Cells(), c))
    {
      var e := undoStack[|undoStack| - 1];
      assert Playable(e.sq);
      UnwindTop(Cells(), u0, i, |undoStack|);
      var cur := grid[e.sq];
      counts[Ordinal(cur)] := counts[Ordinal(cur)] - 1;
      counts[Ordinal(e.prev)] := counts[Ordinal(e.prev)] + 1;
      RecordsOnBoardSlice(undoStack, 0, |undoStack| - 1);
      undoStack := undoStack[..|undoStack| - 1];
      ghost var g := Cells();
      grid[e.sq] := e.prev;
      totalOpen := totalOpen + 1;
      forall c
        ensures Count(Cells(), c) == Count(g, c) - (if cur == c then 1 else 0) + (if e.prev == c then 1 else 0)
      {
        CountUpdate(g, e.sq, e.prev, c);
      }
      forall c
        ensures NumPieces(c) == old(NumPieces(c)) - (if cur == c then 1 else 0) + (if e.prev == c then 1 else 0)
      {
        OrdinalInjective(c, cur);
        OrdinalInjective(c, e.prev);
      }
    }

    /** undo: the side to move flips back, the jump streak shrinks if the last recorded
        move was a jump, that move leaves the history, the winner is cleared, and the
        records of the most recent move are replayed as ReplayLastMove. */
    method Undo()
      requires Valid() && |allMoves| > 0 && MoveStart in undoStack
      modifies this`whoseMove, this`numJumps, this`allMoves, this`winner, this`undoStack, this`totalOpen, grid, counts
      ensures Valid() && Snap() == AfterUndo(old(Snap()))
    {
      ghost var s0 := Snap();
      whoseMove := Opposite(whoseMove);
      if IsJump(allMoves[|allMoves| - 1]) {
        numJumps := numJumps - 1;
      }
      allMoves := allMoves[..|allMoves| - 1];
      winner := None;
      ReplayLastMove();
      AfterUndoIs(s0, Snap());
    }

    /** The loop of undo: the records above the most recent move start are replayed from
        the top down, each adding one to the open count, then the move start is popped. */
    method ReplayLastMove()
      requires Valid() && MoveStart in undoStack
      modifies this`undoStack, this`totalOpen, grid, counts
      ensures Valid()
      ensures Cells() == Unwind(old(Cells()), old(TopSegment(undoStack)))
      ensures undoStack == old(undoStack[..LastStart(undoStack)])
      ensures totalOpen == old(totalOpen) + old(|TopSegment(undoStack)|)
      ensures forall c :: NumPieces(c) - Count(Cells(), c) == old(NumPieces(c) - Count(Cells(), c))
    {
      ghost var u0, g0, t0 := undoStack, Cells(), totalOpen;
      ghost var sur := [NumPieces(EMPTY) - Count(g0, EMPTY), NumPieces(BLOCKED) - Count(g0, BLOCKED),
                        NumPieces(RED) - Count(g0, RED), NumPieces(BLUE) - Count(g0, BLUE)];
      ghost var k0 := LastStart(u0);
      RecordsOnBoardSlice(u0, k0 + 1, |u0|);
      assert u0[k0 + 1..|u0|] == u0[k0 + 1..];
      PopRecords(u0, k0, Unwind(g0, u0[k0 + 1..]), t0, sur);
      LastStartOnly(u0, |undoStack| - 1);
      assert u0[k0 + 1..|undoStack|] == [];
      RecordsOnBoardSlice(undoStack, 0, |undoStack| - 1);
      undoStack := undoStack[..|undoStack| - 1];
    }

    /** The while loop of undo: records are restored from the top of the stack until a
        move start is on top, which is at the latest the move start at k0 of u0. */
    method PopRecords(ghost u0: seq<UndoEntry>, ghost k0: nat, ghost target: Grid, ghost t0: int, ghost sur: seq<int>)
      requires k0 < |undoStack| && k0 < |u0| && u0[k0] == MoveStart && Replaying(u0, k0 + 1, target, t0, sur)
      modifies this`undoStack, this`totalOpen, grid, counts
      ensures k0 < |undoStack| && undoStack[|undoStack| - 1] == MoveStart && Replaying(u0, k0 + 1, target, t0, sur)
    {
      while undoStack[|undoStack| - 1] != MoveStart
        invariant k0 < |undoStack| && Replaying(u0, k0 + 1, target, t0, sur)
        decreases |undoStack|
      {
        RestoreTop(u0, k0 + 1, target, t0, sur);
      }
    }

    /** unrecordedSet(sq, v): a write that is not recorded on the undo stack. */
    method UnrecordedSet(sq: int, v: PieceColor)
      requires grid.Length == END_LIN_BOARD && 0 <= sq < END_LIN_BOARD
      modifies grid
      ensures Cells() == old(Cells())[sq := v]
    {
      grid[sq] := v;
    }

    /** legalBlock(c, r): blocks may be placed only before the first move, and only on
        an empty square of the board. */
    function LegalBlock(c: int, r: int): (ok: bool)
      reads this, grid, counts
      requires Valid() && InExtended(c) && InExtended(r)
      ensures ok <==> |allMoves| == 0 && OnBoard(c) && OnBoard(r) && Get(c, r) == EMPTY
    {
      IndexRoundTrip(Index(c, r));
      if |allMoves| > 0 then false
      else Get(c, r) != BLUE && Get(c, r) != RED && Get(c, r) != BLOCKED
    }

    /** The four unrecorded writes of setBlock: the square and its mirror images
        across column d and row 4 become blocked. */
    method BlockImages(c: int, r: int)
      requires grid.Length == END_LIN_BOARD && OnBoard(c) && OnBoard(r)
      modifies grid
      ensures Cells() == BlockAt(old(Cells()), c, r)
    {
      BlockWrites(Cells(), c, r);
      var distColMid, distRowMid := c - 3, r - 3;
      UnrecordedSet(Index(c, r), BLOCKED);
      UnrecordedSet(Index(c - 2 * distColMid, r), BLOCKED);
      UnrecordedSet(Index(c, r - 2 * distRowMid), BLOCKED);
      UnrecordedSet(Index(c - 2 * distColMid, r - 2 * distRowMid), BLOCKED);
    }

    /** The writes of setBlock for a legal placement: the square and its mirror images
        become blocked, and the counts move by the number of distinct images. */
    method BlockSquares(c: int, r: int)
      requires Valid() && InExtended(c) && InExtended(r) && LegalBlock(c, r)
      modifies this`totalOpen, grid, counts
      ensures Valid()
      ensures Cells() == BlockAt(old(Cells()), c, r)
      ensures var n := |MirrorSquares(c, r)|;
        && NumPieces(BLOCKED) == old(NumPieces(BLOCKED)) + n && NumPieces(EMPTY) == old(NumPieces(EMPTY)) - n
        && totalOpen == old(totalOpen) - n
        && NumPieces(RED) == old(NumPieces(RED)) && NumPieces(BLUE) == old(NumPieces(BLUE))
      ensures old(BlocksSymmetric(Cells())) ==> BlocksSymmetric(Cells())
    {
      ghost var g := Cells();
      MirrorCount(c, r);
      BlockAtBorder(g, c, r);
      if BlocksSymmetric(g) {
        BlockAtSymmetric(g, c, r);
      }
      if c != 3 && r != 3 {
        BlockImages(c, r);
        counts[Ordinal(BLOCKED)] := counts[Ordinal(BLOCKED)] + 4;
        counts[Ordinal(EMPTY)] := counts[Ordinal(EMPTY)] - 4;
        totalOpen := totalOpen - 4;
      } else if c == 3 && r == 3 {
        BlockWrites(g, c, r);
        UnrecordedSet(Index(c, r), BLOCKED);
        counts[Ordinal(BLOCKED)] := counts[Ordinal(BLOCKED)] + 1;
        counts[Ordinal(EMPTY)] := counts[Ordinal(EMPTY)] - 1;
        totalOpen := totalOpen - 1;
      } else {
        BlockImages(c, r);
        counts[Ordinal(BLOCKED)] := counts[Ordinal(BLOCKED)] + 2;
        counts[Ordinal(EMPTY)] := counts[Ordinal(EMPTY)] - 2;
        totalOpen := totalOpen - 2;
      }
    }

    /** setBlock(c, r): an illegal placement is refused (the source throws) and changes
        nothing; otherwise the square and its mirror images across column d and row 4
        become blocked, the BLOCKED count grows and the EMPTY count and open count
        shrink by the number of distinct images (4, 2 on a middle line, 1 at d4), and
        the game is drawn when neither side can then move. */
    method SetBlock(c: int, r: int) returns (ok: bool)
      requires Valid() && InExtended(c) && InExtended(r)
      modifies this`totalOpen, this`winner, grid, counts
      ensures Valid()
      ensures ok == old(LegalBlock(c, r))
      ensures !ok ==> unchanged(this, grid, counts)
      ensures ok ==> Cells() == BlockAt(old(Cells()), c, r)
      ensures ok ==> var n := |MirrorSquares(c, r)|;
        && NumPieces(BLOCKED) == old(NumPieces(BLOCKED)) + n && NumPieces(EMPTY) == old(NumPieces(EMPTY)) - n
        && totalOpen == old(totalOpen) - n
        && NumPieces(RED) == old(NumPieces(RED)) && NumPieces(BLUE) == old(NumPieces(BLUE))
      ensures ok ==> winner == if !CanMoveNow(RED) && !CanMoveNow(BLUE) then Some(EMPTY) else old(winner)
      ensures ok && old(BlocksSymmetric(Cells())) ==> BlocksSymmetric(Cells())
    {
      ok := LegalBlock(c, r);
      if !ok {
        return;
      }
      BlockSquares(c, r);
      var redCan := CanMove(RED);
      var bothStuck := false;
      if !redCan {
        var blueCan := CanMove(BLUE);
        bothStuck := !blueCan;
      }
      if bothStuck {
        winner := Some(EMPTY);
      }
    }
  }
}
