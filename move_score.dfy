/** The ranking key the move rankers push into their heap: a move, a score and
    the colour that plays the move. Its fields are set once, at construction. */
module MoveScores {
  import opened Board

  datatype MoveScore = MoveScore(move: Move, score: int, color: Color)

  /** `get_move()`. */
  function GetMove(ms: MoveScore): Move {
    ms.move
  }

  /** `get_score()`. */
  function GetScore(ms: MoveScore): int {
    ms.score
  }

  /** What the getters give back is exactly what the constructor was given. */
  lemma GettersReturnConstructorArguments(move: Move, score: int, color: Color)
    ensures GetMove(MoveScore(move, score, color)) == move
    ensures GetScore(MoveScore(move, score, color)) == score
  {
  }

  /** `__eq__`: field-by-field comparison of move, score and colour, which is
      the same as equality of the two values. */
  predicate Equal(a: MoveScore, b: MoveScore)
    ensures Equal(a, b) <==> a == b
  {
    a.move == b.move && a.score == b.score && a.color == b.color
  }

  /** `__lt__`: ordering by score alone. */
  predicate Less(a: MoveScore, b: MoveScore) {
    a.score < b.score
  }

  lemma LessIsStrictOrder(a: MoveScore, b: MoveScore, c: MoveScore)
    ensures !Less(a, a)
    ensures Less(a, b) ==> !Less(b, a)
    ensures Less(a, b) && Less(b, c) ==> Less(a, c)
  {
  }

  /** Two keys with the same score are incomparable whatever their moves and
      colours are, and incomparability is transitive: `<` is a strict weak
      order, which is what a heap needs. */
  lemma EqualScoresIncomparable(a: MoveScore, b: MoveScore, c: MoveScore)
    ensures a.score == b.score ==> !Less(a, b) && !Less(b, a)
    ensures !Less(a, b) && !Less(b, a) && !Less(b, c) && !Less(c, b) ==> !Less(a, c) && !Less(c, a)
  {
  }

  lemma EqualIsEquivalence(a: MoveScore, b: MoveScore, c: MoveScore)
    ensures Equal(a, a)
    ensures Equal(a, b) ==> Equal(b, a)
    ensures Equal(a, b) && Equal(b, c) ==> Equal(a, c)
  {
  }

  /** Equal keys are never `<` each other in either direction; the converse
      fails, because `<` ignores the move and the colour. */
  lemma EqualImpliesIncomparable(a: MoveScore, b: MoveScore)
    ensures Equal(a, b) ==> !Less(a, b) && !Less(b, a)
    ensures var c := MoveScore(a.move, a.score, Opponent(a.color));
            !Less(a, c) && !Less(c, a) && !Equal(a, c)
  {
  }
}
