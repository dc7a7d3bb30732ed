/** Addressing of the bordered grid: the 7-by-7 board sits inside an 11-by-11 grid
    stored row by row in one array of 121 squares, with a two-deep border that is
    always blocked, so that every square within two columns and two rows of a
    playable square is a valid index. */
module Geometry {
  import opened Moves

  const SIDE := 7
  const EXTENDED_SIDE := 11
  /** Number of squares of the extended grid (endLinBoard). */
  const END_LIN_BOARD := 121
  /** First index of the playable board, square a1 (begPlayBoard). */
  const BEG_PLAY_BOARD := 24
  /** One past the last index of the playable board, square g7 (endPlayBoard). */
  const END_PLAY_BOARD := 97

  /** The linearized index of square col row. */
  function Index(col: int, row: int): (sq: int)
    ensures InExtended(col) && InExtended(row) ==> 0 <= sq < END_LIN_BOARD
    ensures OnBoard(col) && OnBoard(row) ==> BEG_PLAY_BOARD <= sq < END_PLAY_BOARD
  {
    (row + 2) * EXTENDED_SIDE + (col + 2)
  }

  /** The index of the square dc columns and dr rows away from square sq. */
  function Neighbor(sq: int, dc: int, dr: int): int {
    sq + dc + dr * EXTENDED_SIDE
  }

  /** True of the indices of the a1..g7 squares. */
  predicate Playable(sq: int) {
    BEG_PLAY_BOARD <= sq < END_PLAY_BOARD && 2 <= sq % EXTENDED_SIDE <= 8 && 2 <= sq / EXTENDED_SIDE <= 8
  }

  function ColOf(sq: int): int {
    sq % EXTENDED_SIDE - 2
  }

  function RowOf(sq: int): int {
    sq / EXTENDED_SIDE - 2
  }

  /** Every index of the extended grid is the index of exactly one square. */
  lemma IndexRoundTrip(sq: int)
    requires 0 <= sq < END_LIN_BOARD
    ensures InExtended(ColOf(sq)) && InExtended(RowOf(sq))
    ensures Index(ColOf(sq), RowOf(sq)) == sq
    ensures Playable(sq) <==> OnBoard(ColOf(sq)) && OnBoard(RowOf(sq))
  {
  }

  /** The square loop of clear at column col of row row (both counted from the grid's
      edge): the square is playable, the end-of-row test holds exactly in the last
      column, and the squares the loop then skips are the border. */
  lemma ClearStep(row: int, col: int)
    requires 2 <= row <= 8 && 2 <= col <= 8
    ensures Playable(EXTENDED_SIDE * row + col)
    ensures (EXTENDED_SIDE * row + col + 3) % EXTENDED_SIDE == 0 <==> col == 8
    ensures col == 8 ==> forall i :: EXTENDED_SIDE * row + col < i < EXTENDED_SIDE * (row + 1) + 2 ==> !Playable(i)
  {
  }

  /** Distinct squares of the extended grid have distinct indices. */
  lemma IndexInjective(c0: int, r0: int, c1: int, r1: int)
    requires InExtended(c0) && InExtended(r0) && InExtended(c1) && InExtended(r1)
    requires Index(c0, r0) == Index(c1, r1)
    ensures c0 == c1 && r0 == r1
  {
  }

  /** Stepping from a square's index is stepping its coordinates. */
  lemma NeighborIndex(col: int, row: int, dc: int, dr: int)
    ensures Neighbor(Index(col, row), dc, dr) == Index(col + dc, row + dr)
  {
  }

  /** Within two columns and two rows of a playable square the column and row of a
      neighbor are those of the square shifted by dc and dr, and the neighbor lies
      inside the extended grid. */
  lemma NeighborCoordinates(sq: int, dc: int, dr: int)
    requires Playable(sq) && -2 <= dc <= 2 && -2 <= dr <= 2
    ensures 0 <= Neighbor(sq, dc, dr) < END_LIN_BOARD
    ensures Neighbor(sq, dc, dr) % EXTENDED_SIDE == sq % EXTENDED_SIDE + dc
    ensures Neighbor(sq, dc, dr) / EXTENDED_SIDE == sq / EXTENDED_SIDE + dr
  {
    var q, r := sq / EXTENDED_SIDE, sq % EXTENDED_SIDE;
    assert sq == EXTENDED_SIDE * q + r;
    assert Neighbor(sq, dc, dr) == EXTENDED_SIDE * (q + dr) + (r + dc);
  }

  /** In the flip scan around d, the column test of the scan loop holds exactly at the
      right-hand column of the block. */
  lemma ScanColumn(d: int, dc: int, dr: int)
    requires Playable(d) && -1 <= dc <= 1 && -1 <= dr <= 1
    ensures 0 <= Neighbor(d, dc, dr) < END_LIN_BOARD
    ensures Neighbor(d, dc, dr) % EXTENDED_SIDE - 1 == d % EXTENDED_SIDE <==> dc == 1
  {
    NeighborCoordinates(d, dc, dr);
  }

  /** The flip scan's steps in index terms: one square right, or from the right end of
      a row to the left end of the next; the scan is past its last row once the index
      exceeds d + 12. */
  lemma ScanAdvance(d: int, dc: int, dr: int)
    ensures Neighbor(d, dc, dr) + 1 == Neighbor(d, dc + 1, dr)
    ensures Neighbor(d, dc, dr) + 9 == Neighbor(d, dc - 2, dr + 1)
    ensures -1 <= dc <= 1 ==> (Neighbor(d, dc, dr) <= d + 12 <==> dr <= 1)
  {
  }

  /** Every square listed is an index of the extended grid. */
  predicate OnGrid(ws: seq<int>) {
    forall k :: 0 <= k < |ws| ==> 0 <= ws[k] < END_LIN_BOARD
  }

  /** The 3-by-3 block around square d, in increasing index order (the flip scan). */
  function Window3(d: int): (w: seq<int>)
    ensures |w| == 9
    ensures Playable(d) ==> OnGrid(w)
  {
    [Neighbor(d, -1, -1), Neighbor(d, 0, -1), Neighbor(d, 1, -1),
     Neighbor(d, -1, 0), Neighbor(d, 0, 0), Neighbor(d, 1, 0),
     Neighbor(d, -1, 1), Neighbor(d, 0, 1), Neighbor(d, 1, 1)]
  }

  /** The flip scan of a playable square stays inside the grid and visits nine
      distinct squares in increasing order. */
  lemma Window3Bounds(d: int)
    requires Playable(d)
    ensures forall j, k :: 0 <= j < k < 9 ==> Window3(d)[j] < Window3(d)[k]
  {
  }

  /** The flip scan never visits a square twice. */
  lemma Window3Distinct(d: int)
    requires Playable(d)
    ensures forall i, j :: 0 <= i < j < 9 ==> Window3(d)[i] != Window3(d)[j]
  {
    Window3Bounds(d);
  }

  /** The square visited at step k of the flip scan was not visited before. */
  lemma Window3Fresh(d: int, k: int)
    requires Playable(d) && 0 <= k < 9
    ensures Window3(d)[k] !in Window3(d)[..k]
  {
    Window3Bounds(d);
  }

  /** Position 3 * (dr + 1) + (dc + 1) of the flip scan is the square dc columns and
      dr rows from d. */
  lemma Window3At(d: int, dc: int, dr: int)
    requires -1 <= dc <= 1 && -1 <= dr <= 1
    ensures Window3(d)[3 * (dr + 1) + (dc + 1)] == Neighbor(d, dc, dr)
  {
  }
}
