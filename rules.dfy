/** The rules of the board as functions of its contents: the grid is the 121 squares of
    the extended grid, row by row.  The Board class keeps its squares in an array and is
    specified by these functions. */
module Rules {
  import opened Colors
  import opened Moves
  import opened Geometry

  type Grid = g: seq<PieceColor> | |g| == END_LIN_BOARD witness seq(END_LIN_BOARD, _ => BLOCKED)

  /** Number of consecutive non-extending moves that ends the game (JUMP_LIMIT). */
  const JUMP_LIMIT := 25

  /** The border of the extended grid is blocked. */
  ghost predicate BorderBlocked(g: Grid) {
    forall i :: 0 <= i < END_LIN_BOARD && !Playable(i) ==> g[i] == BLOCKED
  }

  /** Number of squares of s holding colour c. */
  function Count(s: seq<PieceColor>, c: PieceColor): (n: nat)
    ensures n <= |s|
  {
    if s == [] then 0 else Count(s[..|s| - 1], c) + (if s[|s| - 1] == c then 1 else 0)
  }

  /** Overwriting one square moves one unit from the old colour's count to the new one's. */
  lemma {:induction false} CountUpdate(s: seq<PieceColor>, i: int, v: PieceColor, c: PieceColor)
    requires 0 <= i < |s|
    ensures Count(s[i := v], c) == Count(s, c) - (if s[i] == c then 1 else 0) + (if v == c then 1 else 0)
  {
    var t := s[i := v];
    if i < |s| - 1 {
      assert t[..|t| - 1] == s[..|s| - 1][i := v];
      CountUpdate(s[..|s| - 1], i, v, c);
    } else {
      assert t[..|t| - 1] == s[..|s| - 1];
    }
  }

  /** A sequence in which colour c occurs exactly at positions i and j holds two of them. */
  lemma {:induction false} CountTwo(s: seq<PieceColor>, c: PieceColor, i: int, j: int)
    requires 0 <= i < j < |s|
    requires forall k :: 0 <= k < |s| ==> (s[k] == c <==> k == i || k == j)
    ensures Count(s, c) == 2
  {
    var n := |s|;
    var k := 0;
    while k < n
      invariant 0 <= k <= n
      invariant Count(s[..k], c) == (if i < k then 1 else 0) + (if j < k then 1 else 0)
    {
      assert s[..k + 1][..k] == s[..k];
      k := k + 1;
    }
    assert s[..n] == s;
  }

  /** Some square within two columns and two rows of the playable square p is empty
      (the 5-by-5 scan of canMove). */
  predicate EmptyNear(g: Grid, p: int)
    requires Playable(p)
  {
    exists dc, dr :: -2 <= dc <= 2 && -2 <= dr <= 2 && 0 <= Neighbor(p, dc, dr) < END_LIN_BOARD &&
      g[Neighbor(p, dc, dr)] == EMPTY
  }

  /** What canMove(who) answers: false when the open count or who's piece count is 0,
      otherwise whether some playable square of colour who has an empty square
      within two columns and two rows. */
  predicate CanMoveSpec(g: Grid, totalOpen: int, pieces: int, who: PieceColor) {
    totalOpen != 0 && pieces != 0 &&
    exists p :: 0 <= p < END_LIN_BOARD && Playable(p) && g[p] == who && EmptyNear(g, p)
  }

  /** Legality of a non-pass move for player who: the destination is on the board, the
      origin holds who and the destination is empty. */
  predicate LegalOn(g: Grid, who: PieceColor, m: Move)
    requires m.Mv?
  {
    OnBoard(m.c1) && OnBoard(m.r1) && g[Index(m.c0, m.r0)] == who && g[Index(m.c1, m.r1)] == EMPTY
  }

  /** What legalMove(move) answers: null is illegal; a pass is legal iff the mover cannot
      move and has a piece; any other move by LegalOn. */
  predicate LegalSpec(g: Grid, who: PieceColor, totalOpen: int, pieces: int, m: Option<Move>) {
    match m
    case None => false
    case Some(mv) =>
      if mv.Pass? then !CanMoveSpec(g, totalOpen, pieces, who) && pieces > 0
      else LegalOn(g, who, mv)
  }

  /** Origin of a legal move lies on the board, because it holds a player's piece. */
  lemma LegalOriginOnBoard(g: Grid, who: PieceColor, m: Move)
    requires BorderBlocked(g) && IsPlayer(who) && m.Mv? && LegalOn(g, who, m)
    ensures OnBoard(m.c0) && OnBoard(m.r0)
    ensures Playable(Index(m.c0, m.r0)) && Playable(Index(m.c1, m.r1))
  {
    IndexRoundTrip(Index(m.c0, m.r0));
  }

  /** Opponent pieces on the squares ws turn into me. */
  function FlipSet(g: Grid, ws: seq<int>, me: PieceColor, opp: PieceColor): Grid
  {
    seq(END_LIN_BOARD, i requires 0 <= i < END_LIN_BOARD => if i in ws && g[i] == opp then me else g[i])
  }

  /** The flip scan over ws as a sequence of writes, one square at a time. */
  function FlipWrites(g: Grid, ws: seq<int>, me: PieceColor, opp: PieceColor): Grid
    requires OnGrid(ws)
  {
    if ws == [] then g
    else
      var h := FlipWrites(g, ws[..|ws| - 1], me, opp);
      var p := ws[|ws| - 1];
      if g[p] == opp then h[p := me] else h
  }

  /** A square the scan does not visit keeps its colour. */
  lemma {:induction false} FlipWritesElsewhere(g: Grid, ws: seq<int>, me: PieceColor, opp: PieceColor, p: int)
    requires OnGrid(ws) && 0 <= p < END_LIN_BOARD && p !in ws
    ensures FlipWrites(g, ws, me, opp)[p] == g[p]
  {
    if ws != [] {
      assert p !in ws[..|ws| - 1];
      FlipWritesElsewhere(g, ws[..|ws| - 1], me, opp, p);
    }
  }

  /** Writing the squares one at a time flips exactly the opponent pieces of ws. */
  lemma {:induction false} FlipWritesIsFlipSet(g: Grid, ws: seq<int>, me: PieceColor, opp: PieceColor)
    requires OnGrid(ws)
    ensures FlipWrites(g, ws, me, opp) == FlipSet(g, ws, me, opp)
  {
    if ws != [] {
      var ws', p := ws[..|ws| - 1], ws[|ws| - 1];
      assert ws == ws' + [p];
      FlipWritesIsFlipSet(g, ws', me, opp);
    }
  }

  /** Opponent pieces in the 3-by-3 block around d turn into me. */
  function FlipAround(g: Grid, d: int, me: PieceColor, opp: PieceColor): Grid
  {
    FlipSet(g, Window3(d), me, opp)
  }

  /** Flipping one more square p, not yet visited, is one conditional write. */
  lemma FlipSetStep(g: Grid, ws: seq<int>, p: int, me: PieceColor, opp: PieceColor)
    requires 0 <= p < END_LIN_BOARD && p !in ws
    ensures FlipSet(g, ws, me, opp)[p] == g[p]
    ensures FlipSet(g, ws + [p], me, opp) ==
      if g[p] == opp then FlipSet(g, ws, me, opp)[p := me] else FlipSet(g, ws, me, opp)
  {
  }

  /** Extending the flip scan by its next square ws[k], not visited before, is one
      conditional write, one conditional record and one conditional count. */
  lemma FlipScanStep(g: Grid, ws: seq<int>, k: int, me: PieceColor, opp: PieceColor)
    requires 0 <= k < |ws| && OnGrid(ws) && ws[k] !in ws[..k]
    ensures FlipWrites(g, ws[..k], me, opp)[ws[k]] == g[ws[k]]
    ensures FlipWrites(g, ws[..k + 1], me, opp) ==
      if g[ws[k]] == opp then FlipWrites(g, ws[..k], me, opp)[ws[k] := me] else FlipWrites(g, ws[..k], me, opp)
    ensures FlipRecords(g, ws[..k + 1], opp) ==
      FlipRecords(g, ws[..k], opp) + if g[ws[k]] == opp then [Saved(ws[k], opp)] else []
    ensures CountIn(g, ws[..k + 1], opp) == CountIn(g, ws[..k], opp) + if g[ws[k]] == opp then 1 else 0
  {
    assert ws[..k + 1] == ws[..k] + [ws[k]];
    assert ws[..k + 1][..k] == ws[..k];
    FlipWritesElsewhere(g, ws[..k], me, opp, ws[k]);
  }

  /** The squares after player me moves the piece of the non-pass move m, before any
      flip: a jump empties the origin, and the destination becomes me. */
  function Placed(g: Grid, m: Move, me: PieceColor): Grid
    requires m.Mv?
  {
    (if IsJump(m) then g[Index(m.c0, m.r0) := EMPTY] else g)[Index(m.c1, m.r1) := me]
  }

  /** The squares after player me makes the non-pass move m: the piece is placed and
      the opponent pieces around the destination flip. */
  function Applied(g: Grid, m: Move, me: PieceColor): Grid
    requires m.Mv?
  {
    FlipAround(Placed(g, m, me), Index(m.c1, m.r1), me, Opposite(me))
  }

  /** Number of opponent pieces that the move m by me flips. */
  function Flips(g: Grid, m: Move, me: PieceColor): nat
    requires m.Mv? && OnBoard(m.c1) && OnBoard(m.r1)
  {
    CountIn(Placed(g, m, me), Window3(Index(m.c1, m.r1)), Opposite(me))
  }

  /** The undo records for placing the piece of the non-pass move m: the origin of a
      jump, then the destination. */
  function PlaceRecords(g: Grid, m: Move): seq<UndoEntry>
    requires m.Mv?
  {
    var o, d := Index(m.c0, m.r0), Index(m.c1, m.r1);
    if IsJump(m) then [Saved(o, g[o]), Saved(d, g[o := EMPTY][d])] else [Saved(d, g[d])]
  }

  /** The undo records makeMove pushes for the non-pass move m by me, after the move
      start: those of placing the piece, then one per flipped piece. */
  function MoveRecords(g: Grid, m: Move, me: PieceColor): seq<UndoEntry>
    requires m.Mv? && OnBoard(m.c1) && OnBoard(m.r1)
  {
    PlaceRecords(g, m) + FlipRecords(Placed(g, m, me), Window3(Index(m.c1, m.r1)), Opposite(me))
  }

  /** Placing the piece of a legal move writes only playable squares, so the border
      stays blocked. */
  lemma PlacedBorder(g: Grid, m: Move, me: PieceColor)
    requires BorderBlocked(g) && IsPlayer(me) && m.Mv? && LegalOn(g, me, m)
    ensures BorderBlocked(Placed(g, m, me))
  {
    LegalOriginOnBoard(g, me, m);
  }

  /** Replaying the records of placing the piece gives back the grid before it. */
  lemma PlaceUndone(g: Grid, m: Move, me: PieceColor)
    requires BorderBlocked(g) && IsPlayer(me) && m.Mv? && LegalOn(g, me, m)
    ensures RecordsOnBoard(PlaceRecords(g, m)) && NoStarts(PlaceRecords(g, m))
    ensures Unwind(Placed(g, m, me), PlaceRecords(g, m)) == g
  {
    LegalOriginOnBoard(g, me, m);
    var o, d := Index(m.c0, m.r0), Index(m.c1, m.r1);
    if IsJump(m) {
      UnwindSet(g, [], o, EMPTY);
      UnwindSet(g[o := EMPTY], [Saved(o, g[o])], d, me);
      assert [] + [Saved(o, g[o])] == [Saved(o, g[o])];
      assert [Saved(o, g[o])] + [Saved(d, g[o := EMPTY][d])] == PlaceRecords(g, m);
    } else {
      UnwindSet(g, [], d, me);
      assert [] + [Saved(d, g[d])] == PlaceRecords(g, m);
    }
  }

  /** Replaying the records a legal move pushes, from the grid the move leaves, gives
      back the grid before the move: undo is the inverse of makeMove on the squares. */
  lemma MoveUndone(g: Grid, m: Move, me: PieceColor)
    requires BorderBlocked(g) && IsPlayer(me) && m.Mv? && LegalOn(g, me, m)
    ensures RecordsOnBoard(MoveRecords(g, m, me)) && NoStarts(MoveRecords(g, m, me))
    ensures Unwind(Applied(g, m, me), MoveRecords(g, m, me)) == g
  {
    LegalOriginOnBoard(g, me, m);
    var d := Index(m.c1, m.r1);
    var p, u := Placed(g, m, me), PlaceRecords(g, m);
    PlaceUndone(g, m, me);
    PlacedBorder(g, m, me);
    Window3Distinct(d);
    FlipUnwind(p, Window3(d), me, Opposite(me), u);
    FlipScanDone(p, d, me, u);
  }

  /** After a legal move pushed on top of the stack u, the move start pushed with it is
      the most recent one, and replaying its records gives back the grid before the
      move while popping them gives back u. */
  lemma MoveThenUnwind(g: Grid, u: seq<UndoEntry>, m: Move, me: PieceColor)
    requires BorderBlocked(g) && IsPlayer(me) && m.Mv? && LegalOn(g, me, m) && RecordsOnBoard(u)
    ensures var s := u + [MoveStart] + MoveRecords(g, m, me);
      && MoveStart in s && RecordsOnBoard(s)
      && s[..LastStart(s)] == u && TopSegment(s) == MoveRecords(g, m, me)
      && Unwind(Applied(g, m, me), TopSegment(s)) == g
  {
    var r := MoveRecords(g, m, me);
    MoveUndone(g, m, me);
    LastStartAfterPush(u, r);
    RecordsOnBoardAppend(u, [MoveStart]);
    RecordsOnBoardAppend(u + [MoveStart], r);
  }

  /** A legal move by me changes the colour counts by: one more piece of me and one
      fewer empty square for an extend (a jump only moves a piece), and one unit from
      the opponent to me per flipped piece. */
  lemma MoveCounts(g: Grid, m: Move, me: PieceColor, c: PieceColor)
    requires BorderBlocked(g) && IsPlayer(me) && m.Mv? && LegalOn(g, me, m)
    ensures var ext, f := (if IsExtend(m) then 1 else 0), Flips(g, m, me);
      Count(Applied(g, m, me), c) ==
        Count(g, c) + (if c == me then ext + f else 0) - (if c == Opposite(me) then f else 0)
        - (if c == EMPTY then ext else 0)
  {
    LegalOriginOnBoard(g, me, m);
    var o, d := Index(m.c0, m.r0), Index(m.c1, m.r1);
    if IsJump(m) {
      JumpLeavesWindow(m);
      assert o != d by { assert d in Window3(d); }
      CountUpdate(g, o, EMPTY, c);
      CountUpdate(g[o := EMPTY], d, me, c);
    } else {
      CountUpdate(g, d, me, c);
    }
    Window3Distinct(d);
    FlipCount(Placed(g, m, me), Window3(d), me, Opposite(me), c);
  }

  /** A legal move changes exactly the destination, the origin of a jump, and the
      opponent pieces around the destination, and it never creates or removes a block. */
  lemma AppliedChanges(g: Grid, m: Move, me: PieceColor, i: int)
    requires BorderBlocked(g) && IsPlayer(me) && m.Mv? && LegalOn(g, me, m) && 0 <= i < END_LIN_BOARD
    ensures var a := Applied(g, m, me);
      var d := Index(m.c1, m.r1);
      (a[i] != g[i] <==>
        i == d || (IsJump(m) && i == Index(m.c0, m.r0)) || (i in Window3(d) && g[i] == Opposite(me)))
    ensures var a := Applied(g, m, me);
      (a[i] == BLOCKED <==> g[i] == BLOCKED)
  {
    var d := Index(m.c1, m.r1);
    var o := Index(m.c0, m.r0);
    LegalOriginOnBoard(g, me, m);
    if IsJump(m) {
      JumpLeavesWindow(m);
    }
  }

  /** The origin of a jump lies outside the 3-by-3 block around its destination. */
  lemma JumpLeavesWindow(m: Move)
    requires m.Mv? && IsJump(m)
    ensures Index(m.c0, m.r0) !in Window3(Index(m.c1, m.r1))
  {
    forall dc, dr | -1 <= dc <= 1 && -1 <= dr <= 1
      ensures Neighbor(Index(m.c1, m.r1), dc, dr) == Index(m.c1 + dc, m.r1 + dr)
    {
      NeighborIndex(m.c1, m.r1, dc, dr);
    }
  }

  /** Number of squares listed in ws that hold colour c in g. */
  function CountIn(g: Grid, ws: seq<int>, c: PieceColor): (n: nat)
    requires OnGrid(ws)
    ensures n <= |ws|
  {
    if ws == [] then 0
    else CountIn(g, ws[..|ws| - 1], c) + (if g[ws[|ws| - 1]] == c then 1 else 0)
  }

  /** One entry of the undo stack: the start of a move (Java's null) or the previous
      colour of a square that was overwritten.  The two parallel stacks of the
      source are kept as one stack of pairs. */
  datatype UndoEntry = MoveStart | Saved(sq: int, prev: PieceColor)

  /** Every recorded square is a playable square. */
  ghost predicate RecordsOnBoard(u: seq<UndoEntry>) {
    forall k :: 0 <= k < |u| && u[k].Saved? ==> Playable(u[k].sq)
  }

  predicate NoStarts(u: seq<UndoEntry>) {
    forall k :: 0 <= k < |u| ==> u[k] != MoveStart
  }

  /** Replays the records of u from the top of the stack down, restoring each square
      to its previous colour. */
  function Unwind(g: Grid, u: seq<UndoEntry>): Grid
    requires RecordsOnBoard(u)
    decreases |u|
  {
    if u == [] then g
    else
      var e := u[|u| - 1];
      Unwind(if e.Saved? then g[e.sq := e.prev] else g, u[..|u| - 1])
  }

  /** Recording a square's colour before overwriting it keeps the replay target:
      undoing the write first gives back the grid before it. */
  lemma UnwindSet(g: Grid, u: seq<UndoEntry>, sq: int, v: PieceColor)
    requires RecordsOnBoard(u) && Playable(sq)
    ensures RecordsOnBoard(u + [Saved(sq, g[sq])])
    ensures Unwind(g[sq := v], u + [Saved(sq, g[sq])]) == Unwind(g, u)
  {
    var u' := u + [Saved(sq, g[sq])];
    assert u'[..|u'| - 1] == u;
    assert g[sq := v][sq := g[sq]] == g;
  }

  /** Replaying the slice u[i..n] starts with its top record. */
  lemma UnwindTop(g: Grid, u: seq<UndoEntry>, i: int, n: int)
    requires 0 <= i < n <= |u| && RecordsOnBoard(u[i..n]) && u[n - 1].Saved?
    ensures RecordsOnBoard(u[i..n - 1])
    ensures Unwind(g, u[i..n]) == Unwind(g[u[n - 1].sq := u[n - 1].prev], u[i..n - 1])
  {
    assert u[i..n][..n - 1 - i] == u[i..n - 1];
    RecordsOnBoardSlice(u[i..n], 0, n - 1 - i);
  }

  /** Pushing records one group at a time builds the same stack as pushing them together. */
  lemma PushAssoc(u: seq<UndoEntry>, r: seq<UndoEntry>, x: seq<UndoEntry>)
    ensures (u + r) + x == u + (r + x)
  {
  }

  /** Index of the most recent move start on the undo stack. */
  function LastStart(u: seq<UndoEntry>): (k: nat)
    requires MoveStart in u
    ensures k < |u| && u[k] == MoveStart && NoStarts(u[k + 1..])
  {
    if u[|u| - 1] == MoveStart then |u| - 1
    else
      assert MoveStart in u[..|u| - 1] by {
        var j :| 0 <= j < |u| && u[j] == MoveStart;
        assert u[..|u| - 1][j] == MoveStart;
      }
      var k := LastStart(u[..|u| - 1]);
      assert u[k + 1..] == u[..|u| - 1][k + 1..] + [u[|u| - 1]];
      k
  }

  /** No move start lies above the most recent one. */
  lemma LastStartOnly(u: seq<UndoEntry>, j: int)
    requires MoveStart in u && LastStart(u) <= j < |u| && u[j] == MoveStart
    ensures j == LastStart(u)
  {
  }

  /** The records of the most recent move. */
  function TopSegment(u: seq<UndoEntry>): seq<UndoEntry>
    requires MoveStart in u
  {
    u[LastStart(u) + 1..]
  }

  /** The segment pushed by the most recent move is exactly what undo replays, and what
      lies below its start is the stack before the move. */
  lemma {:induction false} LastStartAfterPush(u: seq<UndoEntry>, seg: seq<UndoEntry>)
    requires NoStarts(seg)
    ensures MoveStart in u + [MoveStart] + seg
    ensures LastStart(u + [MoveStart] + seg) == |u|
    ensures TopSegment(u + [MoveStart] + seg) == seg
    ensures (u + [MoveStart] + seg)[..|u|] == u
  {
    var w := u + [MoveStart] + seg;
    assert w[|u|] == MoveStart;
    if seg != [] {
      var seg' := seg[..|seg| - 1];
      assert w[..|w| - 1] == u + [MoveStart] + seg';
      assert w[|w| - 1] == seg[|seg| - 1];
      LastStartAfterPush(u, seg');
    }
  }

  /** The winner decided by material: RED or BLUE with strictly more pieces, EMPTY on
      equal counts. */
  function Decide(red: int, blue: int): (w: PieceColor)
    ensures w == RED <==> red > blue
    ensures w == BLUE <==> red < blue
    ensures w == EMPTY <==> red == blue
  {
    if red > blue then RED else if red < blue then BLUE else EMPTY
  }

  /** The winner after checkWinner, given whether the mover and its opponent can move,
      the jump streak, the counts and the previous winner.  Its contract is checkWinner's
      decision table, case by case; the material decision itself is Decide, whose
      contract characterises it independently. */
  function WinnerAfter(moverCan: bool, oppCan: bool, numJumps: int, red: int, blue: int,
                       moverPieces: int, mover: PieceColor, previous: Option<PieceColor>): (w: Option<PieceColor>)
    ensures (!moverCan && !oppCan) || numJumps == JUMP_LIMIT ==> w == Some(Decide(red, blue))
    ensures moverCan || oppCan ==> numJumps != JUMP_LIMIT ==> !moverCan && moverPieces <= 0 ==>
      w == Some(Opposite(mover))
    ensures w != previous ==> w.Some? && ((!moverCan && !oppCan) || numJumps == JUMP_LIMIT || !moverCan)
  {
    if !moverCan && !oppCan then Some(Decide(red, blue))
    else if numJumps == JUMP_LIMIT then Some(Decide(red, blue))
    else if !moverCan then (if moverPieces > 0 then previous else Some(Opposite(mover)))
    else previous
  }

  /** Mirror images of square c r about column d and row 4. */
  function MirrorSquares(c: int, r: int): set<int> {
    {Index(c, r), Index(6 - c, r), Index(c, 6 - r), Index(6 - c, 6 - r)}
  }

  /** A block placed off both middle lines covers 4 squares, one on exactly one middle
      line covers 2, and the centre d4 covers 1. */
  lemma MirrorCount(c: int, r: int)
    requires OnBoard(c) && OnBoard(r)
    ensures |MirrorSquares(c, r)| == if c != 3 && r != 3 then 4 else if c == 3 && r == 3 then 1 else 2
  {
    var a, b, x, y := Index(c, r), Index(6 - c, r), Index(c, 6 - r), Index(6 - c, 6 - r);
    if c != 3 && r != 3 {
      assert a != b && a != x && a != y && b != x && b != y && x != y;
      assert MirrorSquares(c, r) == {a} + {b} + {x} + {y};
    } else if c == 3 && r == 3 {
      assert MirrorSquares(c, r) == {a};
    } else if c == 3 {
      assert a == b && x == y && a != x;
      assert MirrorSquares(c, r) == {a} + {x};
    } else {
      assert a == x && b == y && a != b;
      assert MirrorSquares(c, r) == {a} + {b};
    }
  }

  /** The squares after placing a block at c r and its mirror images. */
  function BlockAt(g: Grid, c: int, r: int): Grid {
    seq(END_LIN_BOARD, i requires 0 <= i < END_LIN_BOARD => if i in MirrorSquares(c, r) then BLOCKED else g[i])
  }

  /** The four writes of setBlock, one per mirror image, place the block. */
  lemma BlockWrites(g: Grid, c: int, r: int)
    requires OnBoard(c) && OnBoard(r)
    ensures g[Index(c, r) := BLOCKED][Index(6 - c, r) := BLOCKED][Index(c, 6 - r) := BLOCKED][Index(6 - c, 6 - r) := BLOCKED]
      == BlockAt(g, c, r)
  {
    var h := g[Index(c, r) := BLOCKED][Index(6 - c, r) := BLOCKED][Index(c, 6 - r) := BLOCKED][Index(6 - c, 6 - r) := BLOCKED];
    var a, b, x, y := Index(c, r), Index(6 - c, r), Index(c, 6 - r), Index(6 - c, 6 - r);
    assert 0 <= a < END_LIN_BOARD && 0 <= b < END_LIN_BOARD && 0 <= x < END_LIN_BOARD && 0 <= y < END_LIN_BOARD;
    forall i | 0 <= i < END_LIN_BOARD
      ensures h[i] == BlockAt(g, c, r)[i]
    {
      assert i in MirrorSquares(c, r) <==> i == a || i == b || i == x || i == y;
    }
  }

  /** The mirror images of a board square are board squares, so the border stays blocked. */
  lemma BlockAtBorder(g: Grid, c: int, r: int)
    requires OnBoard(c) && OnBoard(r) && BorderBlocked(g)
    ensures BorderBlocked(BlockAt(g, c, r))
  {
  }

  /** Two sequences holding colour c at the same positions count the same number of c. */
  lemma {:induction false} CountSame(s: seq<PieceColor>, t: seq<PieceColor>, c: PieceColor)
    requires |s| == |t| && forall i :: 0 <= i < |s| ==> (s[i] == c <==> t[i] == c)
    ensures Count(s, c) == Count(t, c)
  {
    if s != [] {
      CountSame(s[..|s| - 1], t[..|t| - 1], c);
    }
  }

  /** Placing a block where no mirror image holds colour p leaves the count of p alone. */
  lemma BlockAtCount(g: Grid, c: int, r: int, p: PieceColor)
    requires p != BLOCKED && forall i :: i in MirrorSquares(c, r) && 0 <= i < END_LIN_BOARD ==> g[i] != p
    ensures Count(BlockAt(g, c, r), p) == Count(g, p)
  {
    CountSame(BlockAt(g, c, r), g, p);
  }

  /** The blocks on the board are symmetric about column d and about row 4. */
  ghost predicate BlocksSymmetric(g: Grid) {
    forall c, r :: OnBoard(c) && OnBoard(r) ==>
      (g[Index(c, r)] == BLOCKED <==> g[Index(6 - c, r)] == BLOCKED) &&
      (g[Index(c, r)] == BLOCKED <==> g[Index(c, 6 - r)] == BLOCKED)
  }

  /** Placing a block with its mirror images keeps the blocks symmetric. */
  lemma BlockAtSymmetric(g: Grid, c: int, r: int)
    requires OnBoard(c) && OnBoard(r) && BlocksSymmetric(g)
    ensures BlocksSymmetric(BlockAt(g, c, r))
  {
    var h := BlockAt(g, c, r);
    forall x, y | OnBoard(x) && OnBoard(y)
      ensures (h[Index(x, y)] == BLOCKED <==> h[Index(6 - x, y)] == BLOCKED)
      ensures (h[Index(x, y)] == BLOCKED <==> h[Index(x, 6 - y)] == BLOCKED)
    {
      MirrorMembership(c, r, x, y);
      MirrorMembership(c, r, 6 - x, y);
      MirrorMembership(c, r, x, 6 - y);
    }
  }

  /** Membership of a square in the mirror set, by coordinates. */
  lemma MirrorMembership(c: int, r: int, x: int, y: int)
    requires OnBoard(c) && OnBoard(r) && OnBoard(x) && OnBoard(y)
    ensures Index(x, y) in MirrorSquares(c, r) <==> (x == c || x == 6 - c) && (y == r || y == 6 - r)
  {
    if Index(x, y) in MirrorSquares(c, r) {
      if Index(x, y) == Index(c, r) { IndexInjective(x, y, c, r); }
      else if Index(x, y) == Index(6 - c, r) { IndexInjective(x, y, 6 - c, r); }
      else if Index(x, y) == Index(c, 6 - r) { IndexInjective(x, y, c, 6 - r); }
      else { IndexInjective(x, y, 6 - c, 6 - r); }
    }
  }

  /** The start position: blocked border, RED on a7 and g1, BLUE on a1 and g7, every
      other playable square empty. */
  function StartCells(): Grid {
    seq(END_LIN_BOARD, i =>
      if !Playable(i) then BLOCKED
      else if i == Index(0, 0) || i == Index(6, 6) then BLUE
      else if i == Index(0, 6) || i == Index(6, 0) then RED
      else EMPTY)
  }

  /** The start position has two pieces of each colour, symmetric (empty) blocks, a
      blocked border, and RED can move. */
  lemma StartPosition()
    ensures BorderBlocked(StartCells()) && BlocksSymmetric(StartCells())
    ensures Count(StartCells(), RED) == 2 && Count(StartCells(), BLUE) == 2
    ensures CanMoveSpec(StartCells(), SIDE * SIDE - 4, 2, RED)
  {
    var s := StartCells();
    forall k | 0 <= k < END_LIN_BOARD
      ensures s[k] == RED <==> k == Index(6, 0) || k == Index(0, 6)
      ensures s[k] == BLUE <==> k == Index(0, 0) || k == Index(6, 6)
    {
      IndexRoundTrip(k);
    }
    CountTwo(s, RED, Index(6, 0), Index(0, 6));
    CountTwo(s, BLUE, Index(0, 0), Index(6, 6));
    forall c, r | OnBoard(c) && OnBoard(r)
      ensures s[Index(c, r)] != BLOCKED
    {
    }
    var p := Index(0, 6);
    NeighborCoordinates(p, 1, 0);
    assert s[Neighbor(p, 1, 0)] == EMPTY;
  }

  /** Emptying the playable squares of a bordered grid and placing the four corner
      pieces gives the start position. */
  lemma ClearedIsStart(e: Grid)
    requires forall i :: 0 <= i < END_LIN_BOARD ==> e[i] == if Playable(i) then EMPTY else BLOCKED
    ensures e[Index(0, 0) := BLUE][Index(0, 6) := RED][Index(6, 0) := RED][Index(6, 6) := BLUE] == StartCells()
  {
    var h := e[Index(0, 0) := BLUE][Index(0, 6) := RED][Index(6, 0) := RED][Index(6, 6) := BLUE];
    forall i | 0 <= i < END_LIN_BOARD
      ensures h[i] == StartCells()[i]
    {
      IndexRoundTrip(i);
    }
  }

  /** Two grids that agree on which listed squares hold c count the same number of them. */
  lemma {:induction false} CountInSame(g: Grid, h: Grid, ws: seq<int>, c: PieceColor)
    requires OnGrid(ws)
    requires forall k :: 0 <= k < |ws| ==> (g[ws[k]] == c <==> h[ws[k]] == c)
    ensures CountIn(g, ws, c) == CountIn(h, ws, c)
  {
    if ws != [] {
      CountInSame(g, h, ws[..|ws| - 1], c);
    }
  }

  /** Records kept by the undo stack stay on the board in every slice of it. */
  lemma RecordsOnBoardSlice(u: seq<UndoEntry>, i: int, j: int)
    requires RecordsOnBoard(u) && 0 <= i <= j <= |u|
    ensures RecordsOnBoard(u[i..j])
  {
    forall k | 0 <= k < j - i && u[i..j][k].Saved?
      ensures Playable(u[i..j][k].sq)
    {
      assert u[i..j][k] == u[i + k];
    }
  }

  /** No square occurs twice in ws. */
  predicate Distinct(ws: seq<int>) {
    forall i, j :: 0 <= i < j < |ws| ==> ws[i] != ws[j]
  }

  /** The undo records the flip scan over ws pushes: one per opponent piece, holding
      the opponent's colour, in scan order. */
  function FlipRecords(g: Grid, ws: seq<int>, opp: PieceColor): (r: seq<UndoEntry>)
    requires OnGrid(ws)
    ensures |r| == CountIn(g, ws, opp) && NoStarts(r)
  {
    if ws == [] then []
    else
      var p := ws[|ws| - 1];
      FlipRecords(g, ws[..|ws| - 1], opp) + (if g[p] == opp then [Saved(p, opp)] else [])
  }

  /** The records of a flip scan name playable squares, so they may sit on the undo stack. */
  lemma FlipRecordsOnBoard(g: Grid, ws: seq<int>, opp: PieceColor, u: seq<UndoEntry>)
    requires BorderBlocked(g) && IsPlayer(opp) && RecordsOnBoard(u)
    requires OnGrid(ws)
    ensures RecordsOnBoard(u + FlipRecords(g, ws, opp))
  {
    var r := FlipRecords(g, ws, opp);
    FlipRecordsShape(g, ws, opp);
    forall k | 0 <= k < |r| && r[k].Saved?
      ensures Playable(r[k].sq)
    {
      assert r[k] in r;
    }
    RecordsOnBoardAppend(u, r);
  }

  /** Two stacks of on-board records make one. */
  lemma RecordsOnBoardAppend(u: seq<UndoEntry>, r: seq<UndoEntry>)
    requires RecordsOnBoard(u) && RecordsOnBoard(r)
    ensures RecordsOnBoard(u + r)
  {
    forall k | 0 <= k < |u + r| && (u + r)[k].Saved?
      ensures Playable((u + r)[k].sq)
    {
      if k >= |u| {
        assert (u + r)[k] == r[k - |u|];
      }
    }
  }

  /** Each record of a flip scan names a square of the grid that held the opponent. */
  lemma {:induction false} FlipRecordsShape(g: Grid, ws: seq<int>, opp: PieceColor)
    requires OnGrid(ws)
    ensures forall e :: e in FlipRecords(g, ws, opp) ==> e.Saved? && 0 <= e.sq < END_LIN_BOARD && g[e.sq] == opp
  {
    if ws != [] {
      var ws' := ws[..|ws| - 1];
      FlipRecordsShape(g, ws', opp);
      var p := ws[|ws| - 1];
      assert FlipRecords(g, ws, opp) == FlipRecords(g, ws', opp) + if g[p] == opp then [Saved(p, opp)] else [];
    }
  }

  /** Replaying the records of a flip scan gives back the grid before the scan. */
  lemma {:induction false} FlipUnwind(g: Grid, ws: seq<int>, me: PieceColor, opp: PieceColor, u: seq<UndoEntry>)
    requires BorderBlocked(g) && IsPlayer(opp) && RecordsOnBoard(u)
    requires OnGrid(ws) && Distinct(ws)
    ensures RecordsOnBoard(u + FlipRecords(g, ws, opp))
    ensures Unwind(FlipWrites(g, ws, me, opp), u + FlipRecords(g, ws, opp)) == Unwind(g, u)
  {
    FlipRecordsOnBoard(g, ws, opp, u);
    if ws == [] {
      assert u + FlipRecords(g, ws, opp) == u;
    } else {
      var ws', p := ws[..|ws| - 1], ws[|ws| - 1];
      assert p !in ws';
      FlipUnwind(g, ws', me, opp, u);
      FlipWritesElsewhere(g, ws', me, opp, p);
      var h, r := FlipWrites(g, ws', me, opp), u + FlipRecords(g, ws', opp);
      if g[p] == opp {
        UnwindSet(h, r, p, me);
        assert u + FlipRecords(g, ws, opp) == r + [Saved(p, h[p])];
      } else {
        assert u + FlipRecords(g, ws, opp) == r;
      }
    }
  }

  /** A flip scan between two players keeps the border blocked. */
  lemma FlipBorder(g: Grid, ws: seq<int>, me: PieceColor, opp: PieceColor)
    requires BorderBlocked(g) && IsPlayer(me) && IsPlayer(opp)
    ensures BorderBlocked(FlipSet(g, ws, me, opp))
  {
  }

  /** The completed flip scan around d: the writes give FlipAround, the border stays
      blocked, and the records it pushes stay on the board. */
  lemma FlipScanDone(g: Grid, d: int, me: PieceColor, u: seq<UndoEntry>)
    requires BorderBlocked(g) && Playable(d) && IsPlayer(me) && RecordsOnBoard(u)
    ensures OnGrid(Window3(d))
    ensures Window3(d)[..9] == Window3(d)
    ensures FlipWrites(g, Window3(d), me, Opposite(me)) == FlipAround(g, d, me, Opposite(me))
    ensures BorderBlocked(FlipAround(g, d, me, Opposite(me)))
    ensures RecordsOnBoard(u + FlipRecords(g, Window3(d), Opposite(me)))
  {
    var w := Window3(d);
    Window3Bounds(d);
    assert w[..9] == w;
    FlipWritesIsFlipSet(g, w, me, Opposite(me));
    FlipRecordsOnBoard(g, w, Opposite(me), u);
    FlipBorder(g, w, me, Opposite(me));
  }

  /** A flip scan moves one unit from the opponent's count to me per flipped piece and
      leaves every other colour's count alone. */
  lemma {:induction false} FlipCount(g: Grid, ws: seq<int>, me: PieceColor, opp: PieceColor, c: PieceColor)
    requires OnGrid(ws) && Distinct(ws) && me != opp
    ensures Count(FlipSet(g, ws, me, opp), c) ==
      Count(g, c) + (if c == me then CountIn(g, ws, opp) else 0) - (if c == opp then CountIn(g, ws, opp) else 0)
  {
    if ws == [] {
      assert FlipSet(g, ws, me, opp) == g;
    } else {
      var ws', p := ws[..|ws| - 1], ws[|ws| - 1];
      assert ws == ws' + [p];
      FlipCount(g, ws', me, opp, c);
      FlipSetStep(g, ws', p, me, opp);
      if g[p] == opp {
        CountUpdate(FlipSet(g, ws', me, opp), p, me, c);
      }
    }
  }
}
