/** Moves: a pass, or a move between two squares at Chebyshev distance 1 (an extend)
    or 2 (a jump).  Columns and rows are offsets from column 'a' and row '1', so the
    playable squares have coordinates 0..6 and the border squares -2, -1, 7 and 8. */
module Moves {
  import opened Colors

  /** True for a column or row of the 11-by-11 extended grid. */
  predicate InExtended(x: int) {
    -2 <= x <= 8
  }

  /** True for a column or row of the playable 7-by-7 board. */
  predicate OnBoard(x: int) {
    0 <= x <= 6
  }

  function Abs(x: int): int {
    if x < 0 then -x else x
  }

  function Max(a: int, b: int): int {
    if a >= b then a else b
  }

  function Min(a: int, b: int): int {
    if a <= b then a else b
  }

  /** Chebyshev distance between two squares. */
  function Distance(c0: int, r0: int, c1: int, r1: int): int {
    Max(Abs(c1 - c0), Abs(r1 - r0))
  }

  datatype MoveShape = Pass | Mv(c0: int, r0: int, c1: int, r1: int)

  /** The shape invariant of a move: a pass, or two squares of the extended grid at
      distance 1 or 2. */
  predicate WellFormed(m: MoveShape) {
    m.Pass? ||
    (InExtended(m.c0) && InExtended(m.r0) && InExtended(m.c1) && InExtended(m.r1) &&
     1 <= Distance(m.c0, m.r0, m.c1, m.r1) <= 2)
  }

  type Move = m: MoveShape | WellFormed(m) witness Pass

  predicate IsExtend(m: Move) {
    m.Mv? && Distance(m.c0, m.r0, m.c1, m.r1) == 1
  }

  predicate IsJump(m: Move) {
    m.Mv? && Distance(m.c0, m.r0, m.c1, m.r1) == 2
  }

  /** Every non-pass move is exactly one of extend and jump. */
  lemma ExtendOrJump(m: Move)
    requires m.Mv?
    ensures IsExtend(m) != IsJump(m)
  {
  }

  /** The move from c0 r0 to c1 r1, or None (Java's null) when the two squares are not
      at distance 1 or 2 or lie outside the extended grid. */
  function MoveOf(c0: int, r0: int, c1: int, r1: int): (r: Option<Move>)
    ensures r.Some? <==> WellFormed(Mv(c0, r0, c1, r1))
    ensures r.Some? ==> r.value == Mv(c0, r0, c1, r1)
  {
    if WellFormed(Mv(c0, r0, c1, r1)) then Some(Mv(c0, r0, c1, r1)) else None
  }
}
