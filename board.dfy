/** The interface the search consumes from the Othello board module, which is
    not part of this model. A board is an opaque value of type `B`; what the
    search may ask of it is bundled in `Rules<B>`. `apply` stands for taking
    a fresh copy of a board (`from_string(str(b))`) and playing a move on the
    copy, so the board it is given is never changed. */
module Board {

  datatype Color = Black | White

  /** `board.opponent(color)`. */
  function Opponent(c: Color): (r: Color)
    ensures r != c
  {
    if c == Black then White else Black
  }

  lemma OpponentInvolution(c: Color)
    ensures Opponent(Opponent(c)) == c
  {
  }

  /** How every agent reads its colour argument: `WHITE` for the name
      "white", `BLACK` for any other name. */
  function ColorOf(name: string): (c: Color)
    ensures c == White <==> name == "white"
  {
    if name == "white" then White else Black
  }

  /** A move is a (column, row) pair; (-1, -1) means "no move". */
  type Move = (int, int)

  const Pass: Move := (-1, -1)

  datatype Rules<!B> = Rules(
    legalMoves: (B, Color) -> seq<Move>,
    apply: (B, Move, Color) -> B,
    pieceCount: (B, Color) -> int)

  /** `__get_board_score`: my piece count minus my opponent's, always from
      the searching agent's fixed perspective. */
  function Score<B>(r: Rules<B>, b: B, me: Color): int
  {
    r.pieceCount(b, me) - r.pieceCount(b, Opponent(me))
  }

  /** The material score is zero-sum: what one colour gains the other loses. */
  lemma ScoreZeroSum<B>(r: Rules<B>, b: B, me: Color)
    ensures Score(r, b, Opponent(me)) == -Score(r, b, me)
  {
  }
}
