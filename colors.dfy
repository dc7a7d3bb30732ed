/** Piece colours and the optional-value wrapper used for Java's null. */
module Colors {

  /** A value that may be absent, standing for a Java reference that may be null. */
  datatype Option<+T> = None | Some(value: T)

  /** The contents of one square.  The declaration order is the enum's ordinal order,
      which indexes the piece-count array. */
  datatype PieceColor = EMPTY | BLOCKED | RED | BLUE

  predicate IsPlayer(c: PieceColor) {
    c == RED || c == BLUE
  }

  /** The opponent of a player; the non-player colours have no opponent and map to themselves. */
  function Opposite(c: PieceColor): (o: PieceColor)
    ensures IsPlayer(c) ==> IsPlayer(o) && o != c
    ensures !IsPlayer(c) ==> o == c
  {
    match c
    case RED => BLUE
    case BLUE => RED
    case _ => c
  }

  /** Position of a colour in the enum, used as the index into the count array. */
  function Ordinal(c: PieceColor): (k: nat)
    ensures k < 4
  {
    match c
    case EMPTY => 0
    case BLOCKED => 1
    case RED => 2
    case BLUE => 3
  }

  /** Distinct colours occupy distinct slots of the count array. */
  lemma OrdinalInjective(c: PieceColor, d: PieceColor)
    ensures Ordinal(c) == Ordinal(d) ==> c == d
  {
  }

  /** Taking the opponent twice gives back the player. */
  lemma OppositeInvolution(c: PieceColor)
    ensures Opposite(Opposite(c)) == c
  {
  }
}
