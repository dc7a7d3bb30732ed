/** What the AI evaluates, as functions of board states: the static score and the legal
    moves in the order the AI lists them. */
module Evaluation {
  import opened Colors
  import opened Moves
  import opened Geometry
  import opened Rules
  import opened States

  /** Maximum search depth before static evaluation (MAX_DEPTH). */
  const MAX_DEPTH := 4
  /** A magnitude greater than any score (INFTY, Java's Integer.MAX_VALUE). */
  const INFTY := 0x7fff_ffff
  /** The magnitude of a won position (WINNING_VALUE). */
  const WINNING_VALUE := INFTY - 20

  /** staticScore(board, winningValue): plus winningValue when RED has won, minus it when
      BLUE has won, 0 on a draw, and otherwise red pieces minus blue pieces. */
  function StaticScore(s: State, winningValue: int): int
    requires |s.counts| == 4
  {
    match s.winner
    case Some(RED) => winningValue
    case Some(BLUE) => -winningValue
    case Some(_) => 0
    case None => Pieces(s, RED) - Pieces(s, BLUE)
  }

  /** Swapping the players' roles negates the score: the score is zero-sum. */
  lemma StaticScoreZeroSum(s: State, t: State, winningValue: int)
    requires |s.counts| == 4 && |t.counts| == 4
    requires Pieces(t, RED) == Pieces(s, BLUE) && Pieces(t, BLUE) == Pieces(s, RED)
    requires t.winner == (if s.winner.Some? then Some(Opposite(s.winner.value)) else None)
    ensures StaticScore(t, winningValue) == -StaticScore(s, winningValue)
  {
  }

  /** With at most 49 pieces a side, a win for RED scores above every undecided
      position, which scores above a win for BLUE, and a draw scores 0. */
  lemma StaticScoreOrder(s: State, winningValue: int)
    requires |s.counts| == 4 && 0 <= Pieces(s, RED) <= SIDE * SIDE && 0 <= Pieces(s, BLUE) <= SIDE * SIDE
    requires winningValue > SIDE * SIDE
    ensures s.winner == Some(RED) ==> StaticScore(s, winningValue) == winningValue
    ensures s.winner == Some(BLUE) ==> StaticScore(s, winningValue) == -winningValue
    ensures s.winner == Some(EMPTY) ==> StaticScore(s, winningValue) == 0
    ensures s.winner == None ==> -winningValue < StaticScore(s, winningValue) < winningValue
  {
  }

  // ----- legal move enumeration -----

  /** The k-th square of the piece scan: columns a to g, within a column rows 7 down to 1. */
  function ScanSquare(k: int): (int, int) {
    (k / SIDE, SIDE - 1 - k % SIDE)
  }

  /** Position of square c r in the piece scan. */
  function ScanPos(c: int, r: int): int {
    c * SIDE + (SIDE - 1 - r)
  }

  /** The squares of the first k steps of the piece scan that hold who (myPieces). */
  function PiecesUpTo(g: Grid, who: PieceColor, k: nat): seq<(int, int)>
    requires k <= SIDE * SIDE
  {
    if k == 0 then []
    else
      var sq := ScanSquare(k - 1);
      PiecesUpTo(g, who, k - 1) + if g[Index(sq.0, sq.1)] == who then [sq] else []
  }

  /** Position of the destination c1 r1 among the destinations tried from c0 r0:
      columns c0-2 to c0+2, within a column rows r0+2 down to r0-2. */
  function TargetPos(c0: int, r0: int, c1: int, r1: int): int {
    (c1 - c0 + 2) * 5 + (r0 + 2 - r1)
  }

  /** The move kept at destination c1 r1 from c r, if any: destinations left of column
      a or above row 7 are skipped, and the rest are kept when the move is well formed
      and legal. */
  function KeptAt(g: Grid, who: PieceColor, c: int, r: int, c1: int, r1: int): Option<Move> {
    if c1 < 0 || r1 > SIDE - 1 then None
    else
      match MoveOf(c, r, c1, r1)
      case None => None
      case Some(mv) => if LegalOn(g, who, mv) then Some(mv) else None
  }

  /** On a destination that is not skipped, legalMove's answer decides what is kept. */
  lemma KeptIfLegal(g: Grid, who: PieceColor, totalOpen: int, pieces: int, c: int, r: int, c1: int, r1: int)
    requires c1 >= 0 && r1 <= SIDE - 1
    ensures LegalSpec(g, who, totalOpen, pieces, MoveOf(c, r, c1, r1)) ==>
      MoveOf(c, r, c1, r1).Some? && KeptAt(g, who, c, r, c1, r1) == MoveOf(c, r, c1, r1)
    ensures !LegalSpec(g, who, totalOpen, pieces, MoveOf(c, r, c1, r1)) ==> KeptAt(g, who, c, r, c1, r1) == None
  {
  }

  /** The kept move, if any, as a list of at most one move. */
  function Listed(o: Option<Move>): seq<Move> {
    match o
    case None => []
    case Some(mv) => [mv]
  }

  /** The moves kept in column c1 from c r at the rows tried before row1: rows r+2
      down to row1+1. */
  function ColumnAbove(g: Grid, who: PieceColor, c: int, r: int, c1: int, row1: int): seq<Move>
    decreases r + 2 - row1
  {
    if row1 >= r + 2 then [] else ColumnAbove(g, who, c, r, c1, row1 + 1) + Listed(KeptAt(g, who, c, r, c1, row1 + 1))
  }

  /** The moves kept from c r in the columns tried before col1: columns c-2 to col1-1,
      each from row r+2 down to row r-2. */
  function ColumnsBefore(g: Grid, who: PieceColor, c: int, r: int, col1: int): seq<Move>
    decreases col1 - (c - 2)
  {
    if col1 <= c - 2 then [] else ColumnsBefore(g, who, c, r, col1 - 1) + ColumnAbove(g, who, c, r, col1 - 1, r - 3)
  }

  /** The moves kept from the piece at c r, in the order they are tried. */
  function Targets(g: Grid, who: PieceColor, c: int, r: int): seq<Move> {
    ColumnsBefore(g, who, c, r, c + 3)
  }

  /** One more row tried in column c1 appends the move kept there, if any. */
  lemma ColumnNext(g: Grid, who: PieceColor, c: int, r: int, c1: int, row1: int)
    requires row1 <= r + 2
    ensures ColumnAbove(g, who, c, r, c1, row1 - 1) ==
      ColumnAbove(g, who, c, r, c1, row1) + Listed(KeptAt(g, who, c, r, c1, row1))
  {
  }

  /** One more column tried appends the moves kept in it. */
  lemma ColumnsNext(g: Grid, who: PieceColor, c: int, r: int, col1: int)
    requires c - 2 <= col1
    ensures ColumnsBefore(g, who, c, r, col1 + 1) == ColumnsBefore(g, who, c, r, col1) + ColumnAbove(g, who, c, r, col1, r - 3)
  {
  }

  /** The moves from the pieces ps, piece by piece. */
  function MovesOf(g: Grid, who: PieceColor, ps: seq<(int, int)>): seq<Move> {
    if ps == [] then []
    else
      var p := ps[|ps| - 1];
      MovesOf(g, who, ps[..|ps| - 1]) + Targets(g, who, p.0, p.1)
  }

  /** One more piece of ps appends the moves kept from it. */
  lemma MovesOfNext(g: Grid, who: PieceColor, ps: seq<(int, int)>, i: nat)
    requires i < |ps|
    ensures MovesOf(g, who, ps[..i + 1]) == MovesOf(g, who, ps[..i]) + Targets(g, who, ps[i].0, ps[i].1)
  {
    assert ps[..i + 1][..i] == ps[..i];
  }

  /** legalMoves(board): what the AI lists for the side to move. */
  function LegalMovesSpec(g: Grid, who: PieceColor): seq<Move> {
    MovesOf(g, who, PiecesUpTo(g, who, SIDE * SIDE))
  }

  /** The place of a move in the listing order: origin column ascending, origin row
      descending, destination column ascending, destination row descending. */
  function ScanKey(m: Move): int {
    if m.Pass? then -1 else ScanPos(m.c0, m.r0) * 25 + TargetPos(m.c0, m.r0, m.c1, m.r1)
  }

  /** Strictly increasing in the listing order, hence also without repeats. */
  predicate Ascending(ms: seq<Move>) {
    forall i, j :: 0 <= i < j < |ms| ==> ScanKey(ms[i]) < ScanKey(ms[j])
  }

  /** A legal move from c r, as the piece scan keeps it. */
  predicate KeptFrom(g: Grid, who: PieceColor, c: int, r: int, m: Move) {
    m.Mv? && m.c0 == c && m.r0 == r && LegalOn(g, who, m)
  }

  /** What is kept at c1 r1 is the move from c r to c1 r1, and it is legal. */
  lemma KeptAtIs(g: Grid, who: PieceColor, c: int, r: int, c1: int, r1: int)
    ensures KeptAt(g, who, c, r, c1, r1).Some? ==>
      KeptAt(g, who, c, r, c1, r1).value == Mv(c, r, c1, r1) && KeptFrom(g, who, c, r, KeptAt(g, who, c, r, c1, r1).value)
  {
  }

  /** Every move kept in column c1 from c r before row1 is a legal move from c r to
      that column, between rows row1+1 and r+2; and the moves come in listing order. */
  lemma {:induction false} ColumnShape(g: Grid, who: PieceColor, c: int, r: int, c1: int, row1: int)
    decreases r + 2 - row1
    ensures forall m :: m in ColumnAbove(g, who, c, r, c1, row1) ==>
      KeptFrom(g, who, c, r, m) && m.c1 == c1 && row1 < m.r1 <= r + 2
    ensures Ascending(ColumnAbove(g, who, c, r, c1, row1))
  {
    if row1 < r + 2 {
      ColumnShape(g, who, c, r, c1, row1 + 1);
      KeptAtIs(g, who, c, r, c1, row1 + 1);
      var front, last := ColumnAbove(g, who, c, r, c1, row1 + 1), Listed(KeptAt(g, who, c, r, c1, row1 + 1));
      forall i, j | 0 <= i < |front| && 0 <= j < |last|
        ensures ScanKey(front[i]) < ScanKey(last[j])
      {
        assert front[i] in front;
      }
      AppendAscending(front, last);
    }
  }

  /** Every move kept from c r in the columns before col1 is a legal move from c r to a
      square at most two rows away, in a column from c-2 to col1-1; and the moves come
      in listing order. */
  lemma {:induction false} ColumnsShape(g: Grid, who: PieceColor, c: int, r: int, col1: int)
    decreases col1 - (c - 2)
    ensures forall m :: m in ColumnsBefore(g, who, c, r, col1) ==>
      KeptFrom(g, who, c, r, m) && c - 2 <= m.c1 < col1 && r - 2 <= m.r1 <= r + 2
    ensures Ascending(ColumnsBefore(g, who, c, r, col1))
  {
    if col1 > c - 2 {
      ColumnsShape(g, who, c, r, col1 - 1);
      ColumnShape(g, who, c, r, col1 - 1, r - 3);
      var front, col := ColumnsBefore(g, who, c, r, col1 - 1), ColumnAbove(g, who, c, r, col1 - 1, r - 3);
      forall i, j | 0 <= i < |front| && 0 <= j < |col|
        ensures ScanKey(front[i]) < ScanKey(col[j])
      {
        var x, y := front[i], col[j];
        assert x in front && y in col;
        assert TargetPos(c, r, x.c1, x.r1) < TargetPos(c, r, y.c1, y.r1);
      }
      AppendAscending(front, col);
    }
  }

  /** One more square of the piece scan, the square c r at position k, appends it when
      it holds who. */
  lemma PiecesNext(g: Grid, who: PieceColor, c: int, r: int, k: nat)
    requires OnBoard(c) && OnBoard(r) && k == ScanPos(c, r)
    ensures k < SIDE * SIDE
    ensures PiecesUpTo(g, who, k + 1) == PiecesUpTo(g, who, k) + if g[Index(c, r)] == who then [(c, r)] else []
  {
    ScanPosRoundTrip(c, r);
  }

  /** A legal move from c0 r0 goes at most two columns and two rows away and is kept at
      its destination. */
  lemma KeptHit(g: Grid, who: PieceColor, m: Move)
    requires m.Mv? && LegalOn(g, who, m)
    ensures -2 <= m.c1 - m.c0 <= 2 && -2 <= m.r1 - m.r0 <= 2
    ensures KeptAt(g, who, m.c0, m.r0, m.c1, m.r1) == Some(m)
  {
    assert MoveOf(m.c0, m.r0, m.c1, m.r1) == Some(m);
  }

  /** The move kept at row r1 of column c1, a row tried before row1, is listed there. */
  lemma {:induction false} ColumnHas(g: Grid, who: PieceColor, c: int, r: int, c1: int, row1: int, r1: int, m: Move)
    requires row1 < r1 <= r + 2 && KeptAt(g, who, c, r, c1, r1) == Some(m)
    decreases r + 2 - row1
    ensures m in ColumnAbove(g, who, c, r, c1, row1)
  {
    if r1 > row1 + 1 {
      ColumnHas(g, who, c, r, c1, row1 + 1, r1, m);
    }
  }

  /** A move listed in column c1, a column tried before col1, is listed among the
      columns before col1. */
  lemma {:induction false} ColumnsHas(g: Grid, who: PieceColor, c: int, r: int, col1: int, c1: int, m: Move)
    requires c - 2 <= c1 < col1 && m in ColumnAbove(g, who, c, r, c1, r - 3)
    decreases col1 - c1
    ensures m in ColumnsBefore(g, who, c, r, col1)
  {
    ColumnsNext(g, who, c, r, col1 - 1);
    if c1 < col1 - 1 {
      ColumnsHas(g, who, c, r, col1 - 1, c1, m);
    }
  }

  /** The piece scan visits the 49 squares of the board in order, once each. */
  lemma ScanRoundTrip(k: int)
    requires 0 <= k < SIDE * SIDE
    ensures OnBoard(ScanSquare(k).0) && OnBoard(ScanSquare(k).1)
    ensures ScanPos(ScanSquare(k).0, ScanSquare(k).1) == k
  {
  }

  /** The scan position of a board square is below 49 and leads back to the square. */
  lemma ScanPosRoundTrip(c: int, r: int)
    requires OnBoard(c) && OnBoard(r)
    ensures 0 <= ScanPos(c, r) < SIDE * SIDE && ScanSquare(ScanPos(c, r)) == (c, r)
  {
    var k := ScanPos(c, r);
    assert k == c * SIDE + (SIDE - 1 - r);
    assert k / SIDE == c && k % SIDE == SIDE - 1 - r;
  }

  /** Squares strictly increasing in scan position. */
  predicate ScanAscending(ps: seq<(int, int)>) {
    forall i, j :: 0 <= i < j < |ps| ==> ScanPos(ps[i].0, ps[i].1) < ScanPos(ps[j].0, ps[j].1)
  }

  /** myPieces after k steps of the scan: exactly the board squares holding who at a
      scan position below k, in increasing scan position. */
  lemma {:induction false} PiecesShape(g: Grid, who: PieceColor, k: nat)
    requires k <= SIDE * SIDE
    ensures forall p :: p in PiecesUpTo(g, who, k) ==>
      OnBoard(p.0) && OnBoard(p.1) && g[Index(p.0, p.1)] == who && ScanPos(p.0, p.1) < k
    ensures ScanAscending(PiecesUpTo(g, who, k))
  {
    if k > 0 {
      PiecesShape(g, who, k - 1);
      ScanRoundTrip(k - 1);
    }
  }

  /** A board square holding who at a scan position below k is among myPieces. */
  lemma {:induction false} PiecesHas(g: Grid, who: PieceColor, k: nat, c: int, r: int)
    requires k <= SIDE * SIDE && OnBoard(c) && OnBoard(r) && g[Index(c, r)] == who && ScanPos(c, r) < k
    ensures (c, r) in PiecesUpTo(g, who, k)
  {
    ScanPosRoundTrip(c, r);
    if ScanPos(c, r) < k - 1 {
      PiecesHas(g, who, k - 1, c, r);
    }
  }

  /** Every listed move is a legal non-pass move from one of the pieces ps. */
  lemma {:induction false} MovesOfSound(g: Grid, who: PieceColor, ps: seq<(int, int)>)
    ensures forall m :: m in MovesOf(g, who, ps) ==>
      m.Mv? && (m.c0, m.r0) in ps && LegalOn(g, who, m) && 0 <= TargetPos(m.c0, m.r0, m.c1, m.r1) < 25
  {
    if ps != [] {
      var p := ps[|ps| - 1];
      MovesOfSound(g, who, ps[..|ps| - 1]);
      ColumnsShape(g, who, p.0, p.1, p.0 + 3);
    }
  }

  /** Every move listed from a piece of ps is among the moves of ps. */
  lemma {:induction false} MovesOfHas(g: Grid, who: PieceColor, ps: seq<(int, int)>, p: (int, int), m: Move)
    requires p in ps && m in Targets(g, who, p.0, p.1)
    ensures m in MovesOf(g, who, ps)
  {
    if p != ps[|ps| - 1] {
      MovesOfHas(g, who, ps[..|ps| - 1], p, m);
    }
  }

  /** Moves from an earlier origin come before moves from a later one. */
  lemma KeyBelow(x: int, y: int, t: int, u: int)
    requires x < y && 0 <= t < 25 && 0 <= u
    ensures x * 25 + t < y * 25 + u
  {
  }

  /** Two ascending listings, the first wholly before the second, make one. */
  lemma AppendAscending(a: seq<Move>, b: seq<Move>)
    requires Ascending(a) && Ascending(b)
    requires forall i, j :: 0 <= i < |a| && 0 <= j < |b| ==> ScanKey(a[i]) < ScanKey(b[j])
    ensures Ascending(a + b)
  {
  }

  /** Every move from the pieces init lists below every move from a later piece p. */
  lemma MovesBefore(g: Grid, who: PieceColor, init: seq<(int, int)>, p: (int, int))
    requires ScanAscending(init + [p])
    ensures forall i, j :: 0 <= i < |MovesOf(g, who, init)| && 0 <= j < |Targets(g, who, p.0, p.1)| ==>
      ScanKey(MovesOf(g, who, init)[i]) < ScanKey(Targets(g, who, p.0, p.1)[j])
  {
    var ps := init + [p];
    var a, b := MovesOf(g, who, init), Targets(g, who, p.0, p.1);
    MovesOfSound(g, who, init);
    ColumnsShape(g, who, p.0, p.1, p.0 + 3);
    forall i, j | 0 <= i < |a| && 0 <= j < |b|
      ensures ScanKey(a[i]) < ScanKey(b[j])
    {
      assert a[i] in a && b[j] in b;
      var x := a[i];
      var k :| 0 <= k < |init| && init[k] == (x.c0, x.r0);
      assert ps[k] == init[k] && ps[|init|] == p;
      assert ScanPos(ps[k].0, ps[k].1) < ScanPos(ps[|init|].0, ps[|init|].1);
      KeyBelow(ScanPos(x.c0, x.r0), ScanPos(p.0, p.1),
               TargetPos(x.c0, x.r0, x.c1, x.r1), TargetPos(p.0, p.1, b[j].c1, b[j].r1));
    }
  }

  /** Pieces in increasing scan position give moves in increasing listing order. */
  lemma {:induction false} MovesOfAscending(g: Grid, who: PieceColor, ps: seq<(int, int)>)
    requires ScanAscending(ps)
    ensures Ascending(MovesOf(g, who, ps))
  {
    if ps != [] {
      var p := ps[|ps| - 1];
      var init := ps[..|ps| - 1];
      MovesOfAscending(g, who, init);
      ColumnsShape(g, who, p.0, p.1, p.0 + 3);
      assert ps == init + [p];
      MovesBefore(g, who, init, p);
      AppendAscending(MovesOf(g, who, init), Targets(g, who, p.0, p.1));
    }
  }

  /** legalMoves lists exactly the legal non-pass moves of who. */
  lemma LegalMovesExact(g: Grid, who: PieceColor)
    requires BorderBlocked(g) && IsPlayer(who)
    ensures forall m :: m in LegalMovesSpec(g, who) <==> m.Mv? && LegalOn(g, who, m)
  {
    var ps := PiecesUpTo(g, who, SIDE * SIDE);
    MovesOfSound(g, who, ps);
    forall m: Move | m.Mv? && LegalOn(g, who, m)
      ensures m in LegalMovesSpec(g, who)
    {
      LegalOriginOnBoard(g, who, m);
      ScanPosRoundTrip(m.c0, m.r0);
      PiecesHas(g, who, SIDE * SIDE, m.c0, m.r0);
      TargetsHasLegal(g, who, m);
      MovesOfHas(g, who, ps, (m.c0, m.r0), m);
    }
  }

  /** A legal move is among the moves listed from its origin. */
  lemma TargetsHasLegal(g: Grid, who: PieceColor, m: Move)
    requires m.Mv? && LegalOn(g, who, m)
    ensures m in Targets(g, who, m.c0, m.r0)
  {
    KeptHit(g, who, m);
    TargetsHasKept(g, who, m.c0, m.r0, m.c1, m.r1, m);
  }

  /** The move kept at c1 r1, at most two columns and two rows from c r, is among the
      moves listed from c r. */
  lemma TargetsHasKept(g: Grid, who: PieceColor, c: int, r: int, c1: int, r1: int, m: Move)
    requires -2 <= c1 - c <= 2 && -2 <= r1 - r <= 2 && KeptAt(g, who, c, r, c1, r1) == Some(m)
    ensures m in Targets(g, who, c, r)
  {
    ColumnHas(g, who, c, r, c1, r - 3, r1, m);
    ColumnsHas(g, who, c, r, c + 3, c1, m);
  }

  /** legalMoves lists its moves in scan order, so never the same move twice. */
  lemma LegalMovesOrdered(g: Grid, who: PieceColor)
    ensures Ascending(LegalMovesSpec(g, who))
  {
    PiecesShape(g, who, SIDE * SIDE);
    MovesOfAscending(g, who, PiecesUpTo(g, who, SIDE * SIDE));
  }

  /** A piece of who with an empty square within two columns and two rows gives a
      listed move. */
  lemma EmptyNearListed(g: Grid, who: PieceColor, p: int)
    requires BorderBlocked(g) && IsPlayer(who)
    requires 0 <= p < END_LIN_BOARD && Playable(p) && g[p] == who && EmptyNear(g, p)
    ensures LegalMovesSpec(g, who) != []
  {
    var dc, dr :| -2 <= dc <= 2 && -2 <= dr <= 2 && 0 <= Neighbor(p, dc, dr) < END_LIN_BOARD &&
      g[Neighbor(p, dc, dr)] == EMPTY;
    var q := Neighbor(p, dc, dr);
    assert Playable(q);
    NeighborCoordinates(p, dc, dr);
    IndexRoundTrip(p);
    IndexRoundTrip(q);
    var m: Move := Mv(ColOf(p), RowOf(p), ColOf(p) + dc, RowOf(p) + dr);
    assert Index(m.c1, m.r1) == q;
    assert LegalOn(g, who, m);
    LegalMovesExact(g, who);
    assert m in LegalMovesSpec(g, who);
  }

  /** A listed move starts at a piece of who with an empty square within two columns
      and two rows. */
  lemma ListedEmptyNear(g: Grid, who: PieceColor, m: Move)
    requires BorderBlocked(g) && IsPlayer(who) && m in LegalMovesSpec(g, who)
    ensures m.Mv? && Playable(Index(m.c0, m.r0)) && g[Index(m.c0, m.r0)] == who && EmptyNear(g, Index(m.c0, m.r0))
  {
    LegalMovesExact(g, who);
    LegalOriginOnBoard(g, who, m);
    var p := Index(m.c0, m.r0);
    NeighborIndex(m.c0, m.r0, m.c1 - m.c0, m.r1 - m.r0);
    assert Neighbor(p, m.c1 - m.c0, m.r1 - m.r0) == Index(m.c1, m.r1);
  }

  /** canMove(who) holds exactly when the open count and who's piece count are nonzero
      and legalMoves lists some move for who. */
  lemma CanMoveIffMoves(g: Grid, totalOpen: int, pieces: int, who: PieceColor)
    requires BorderBlocked(g) && IsPlayer(who)
    ensures CanMoveSpec(g, totalOpen, pieces, who) <==>
      totalOpen != 0 && pieces != 0 && LegalMovesSpec(g, who) != []
  {
    if CanMoveSpec(g, totalOpen, pieces, who) {
      var p :| 0 <= p < END_LIN_BOARD && Playable(p) && g[p] == who && EmptyNear(g, p);
      EmptyNearListed(g, who, p);
    }
    if totalOpen != 0 && pieces != 0 && LegalMovesSpec(g, who) != [] {
      ListedEmptyNear(g, who, LegalMovesSpec(g, who)[0]);
    }
  }
}
