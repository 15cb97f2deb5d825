/** Plain depth-limited minimax (the `MinMax` agent), and the reference
    semantics every alpha-beta agent is measured against.

    `MaxValue` and `MinValue` are the values `min_max_max` and `min_max_min`
    compute: a node is a leaf when the side to play there has no legal move
    or the remaining depth is not positive, and a leaf is worth the material
    score from the agent's side. Otherwise the value is the best, for the
    side to play, of the children's values, each child being the board after
    one of that side's legal moves, searched one ply shallower. */
module MinMax {
  import opened Board
  import opened ExtInts
  import opened Selection

  function MaxValue<B>(r: Rules<B>, me: Color, b: B, depth: int): int
    decreases depth, 1
  {
    var moves := r.legalMoves(b, me);
    if |moves| > 0 && depth > 0 then MaxPrefix(r, me, b, depth, |moves|).n
    else Score(r, b, me)
  }

  function MinValue<B>(r: Rules<B>, me: Color, b: B, depth: int): int
    decreases depth, 1
  {
    var moves := r.legalMoves(b, Opponent(me));
    if |moves| > 0 && depth > 0 then MinPrefix(r, me, b, depth, |moves|).n
    else Score(r, b, me)
  }

  /** `v` in `min_max_max` once the first `k` of my moves are scored:
      `v = max(v, min_max_min(child, depth - 1))` from `v = -inf`. */
  function MaxPrefix<B>(r: Rules<B>, me: Color, b: B, depth: int, k: nat): (v: ExtInt)
    requires depth > 0 && k <= |r.legalMoves(b, me)|
    ensures k == 0 <==> v == NegInf
    ensures v != PosInf
    decreases depth, 0, k
  {
    if k == 0 then NegInf
    else
      var child := r.apply(b, r.legalMoves(b, me)[k - 1], me);
      Max(MaxPrefix(r, me, b, depth, k - 1), Fin(MinValue(r, me, child, depth - 1)))
  }

  /** `v` in `min_max_min` once the first `k` opponent moves are scored:
      `v = min(v, min_max_max(child, depth - 1))` from `v = +inf`. */
  function MinPrefix<B>(r: Rules<B>, me: Color, b: B, depth: int, k: nat): (v: ExtInt)
    requires depth > 0 && k <= |r.legalMoves(b, Opponent(me))|
    ensures k == 0 <==> v == PosInf
    ensures v != NegInf
    decreases depth, 0, k
  {
    if k == 0 then PosInf
    else
      var child := r.apply(b, r.legalMoves(b, Opponent(me))[k - 1], Opponent(me));
      Min(MinPrefix(r, me, b, depth, k - 1), Fin(MaxValue(r, me, child, depth - 1)))
  }

  /** One more of my moves taken into the fold. */
  lemma MaxPrefixStep<B>(r: Rules<B>, me: Color, b: B, depth: int, i: nat)
    requires depth > 0 && i < |r.legalMoves(b, me)|
    ensures MaxPrefix(r, me, b, depth, i + 1) ==
            Max(MaxPrefix(r, me, b, depth, i), Fin(MinValue(r, me, r.apply(b, r.legalMoves(b, me)[i], me), depth - 1)))
  {
  }

  /** One more opponent move taken into the fold. */
  lemma MinPrefixStep<B>(r: Rules<B>, me: Color, b: B, depth: int, i: nat)
    requires depth > 0 && i < |r.legalMoves(b, Opponent(me))|
    ensures MinPrefix(r, me, b, depth, i + 1) ==
            Min(MinPrefix(r, me, b, depth, i),
                Fin(MaxValue(r, me, r.apply(b, r.legalMoves(b, Opponent(me))[i], Opponent(me)), depth - 1)))
  {
  }

  /** The fold really is a maximum: every child searched so far is worth at
      most `v`, and some child is worth exactly `v`. */
  lemma {:induction false} MaxPrefixIsMaximum<B>(r: Rules<B>, me: Color, b: B, depth: int, k: nat)
    returns (i: nat)
    requires depth > 0 && 0 < k <= |r.legalMoves(b, me)|
    ensures i < k
    ensures var moves := r.legalMoves(b, me);
            MaxPrefix(r, me, b, depth, k) == Fin(MinValue(r, me, r.apply(b, moves[i], me), depth - 1))
    ensures var moves := r.legalMoves(b, me);
            forall j :: 0 <= j < k ==>
              MinValue(r, me, r.apply(b, moves[j], me), depth - 1) <= MaxPrefix(r, me, b, depth, k).n
    decreases k
  {
    var moves := r.legalMoves(b, me);
    if k == 1 {
      i := 0;
    } else {
      var i' := MaxPrefixIsMaximum(r, me, b, depth, k - 1);
      var last := MinValue(r, me, r.apply(b, moves[k - 1], me), depth - 1);
      i := if MaxPrefix(r, me, b, depth, k - 1).n < last then k - 1 else i';
    }
  }

  /** Dually, `MinPrefix` is the least value among the children searched. */
  lemma {:induction false} MinPrefixIsMinimum<B>(r: Rules<B>, me: Color, b: B, depth: int, k: nat)
    returns (i: nat)
    requires depth > 0 && 0 < k <= |r.legalMoves(b, Opponent(me))|
    ensures i < k
    ensures var moves := r.legalMoves(b, Opponent(me));
            MinPrefix(r, me, b, depth, k) == Fin(MaxValue(r, me, r.apply(b, moves[i], Opponent(me)), depth - 1))
    ensures var moves := r.legalMoves(b, Opponent(me));
            forall j :: 0 <= j < k ==>
              MinPrefix(r, me, b, depth, k).n <= MaxValue(r, me, r.apply(b, moves[j], Opponent(me)), depth - 1)
    decreases k
  {
    var moves := r.legalMoves(b, Opponent(me));
    if k == 1 {
      i := 0;
    } else {
      var i' := MinPrefixIsMinimum(r, me, b, depth, k - 1);
      var last := MaxValue(r, me, r.apply(b, moves[k - 1], Opponent(me)), depth - 1);
      i := if last < MinPrefix(r, me, b, depth, k - 1).n then k - 1 else i';
    }
  }

  /** Scoring more moves can only raise the running maximum. */
  lemma {:induction false} MaxPrefixGrows<B>(r: Rules<B>, me: Color, b: B, depth: int, k: nat, n: nat)
    requires depth > 0 && k <= n <= |r.legalMoves(b, me)|
    ensures LessEq(MaxPrefix(r, me, b, depth, k), MaxPrefix(r, me, b, depth, n))
    decreases n - k
  {
    if k < n {
      MaxPrefixGrows(r, me, b, depth, k, n - 1);
      LessEqTransitive(MaxPrefix(r, me, b, depth, k), MaxPrefix(r, me, b, depth, n - 1), MaxPrefix(r, me, b, depth, n));
    }
  }

  /** Scoring more moves can only lower the running minimum. */
  lemma {:induction false} MinPrefixShrinks<B>(r: Rules<B>, me: Color, b: B, depth: int, k: nat, n: nat)
    requires depth > 0 && k <= n <= |r.legalMoves(b, Opponent(me))|
    ensures LessEq(MinPrefix(r, me, b, depth, n), MinPrefix(r, me, b, depth, k))
    decreases n - k
  {
    if k < n {
      MinPrefixShrinks(r, me, b, depth, k, n - 1);
      LessEqTransitive(MinPrefix(r, me, b, depth, n), MinPrefix(r, me, b, depth, n - 1), MinPrefix(r, me, b, depth, k));
    }
  }

  /** At an inner max node the value is the greatest child value, attained
      by the child after my move `moves[i]`. */
  lemma MaxValueIsBestChild<B>(r: Rules<B>, me: Color, b: B, depth: int) returns (i: nat)
    requires |r.legalMoves(b, me)| > 0 && depth > 0
    ensures var moves := r.legalMoves(b, me);
            i < |moves| &&
            MaxValue(r, me, b, depth) == MinValue(r, me, r.apply(b, moves[i], me), depth - 1) &&
            forall j :: 0 <= j < |moves| ==>
              MinValue(r, me, r.apply(b, moves[j], me), depth - 1) <= MaxValue(r, me, b, depth)
  {
    i := MaxPrefixIsMaximum(r, me, b, depth, |r.legalMoves(b, me)|);
  }

  /** At an inner min node the value is the least child value, attained by
      the child after the opponent's move `moves[i]`. */
  lemma MinValueIsBestChild<B>(r: Rules<B>, me: Color, b: B, depth: int) returns (i: nat)
    requires |r.legalMoves(b, Opponent(me))| > 0 && depth > 0
    ensures var moves := r.legalMoves(b, Opponent(me));
            i < |moves| &&
            MinValue(r, me, b, depth) == MaxValue(r, me, r.apply(b, moves[i], Opponent(me)), depth - 1) &&
            forall j :: 0 <= j < |moves| ==>
              MinValue(r, me, b, depth) <= MaxValue(r, me, r.apply(b, moves[j], Opponent(me)), depth - 1)
  {
    i := MinPrefixIsMinimum(r, me, b, depth, |r.legalMoves(b, Opponent(me))|);
  }

  /** The root scores as `next_move_min_max` computes them: each of the `n`
      candidates is searched on the same, unmoved copy of the board, so all
      of them are equal. */
  function UnmovedRootScores<B>(r: Rules<B>, me: Color, b: B, depth: int, n: nat): seq<ExtInt>
  {
    seq(n, _ => Fin(MaxValue(r, me, b, depth)))
  }

  /** The root scores the search evidently intends: each candidate move is
      played on its copy of the board, and the opponent replies. */
  function ChildScores<B>(r: Rules<B>, me: Color, b: B, depth: int): seq<ExtInt>
  {
    var moves := r.legalMoves(b, me);
    seq(|moves|, i requires 0 <= i < |moves| => Fin(MinValue(r, me, r.apply(b, moves[i], me), depth - 1)))
  }

  /** With the candidates scored on their own children, the root picks a
      legal move whose reply value is the minimax value of the position. */
  lemma {:induction false} IntendedRootChoiceIsBest<B>(r: Rules<B>, me: Color, b: B, depth: int)
    requires |r.legalMoves(b, me)| > 0 && depth > 0
    ensures var moves := r.legalMoves(b, me);
            var m := FirstBest(moves, ChildScores(r, me, b, depth));
            m in moves && MinValue(r, me, r.apply(b, m, me), depth - 1) == MaxValue(r, me, b, depth)
  {
    var moves := r.legalMoves(b, me);
    var scores := ChildScores(r, me, b, depth);
    var i := PickPrefixIsFirstMaximum(moves, scores, |moves|);
    assert i >= 0 by {
      assert scores[0] != NegInf;
    }
    var k := MaxValueIsBestChild(r, me, b, depth);
    assert LessEq(scores[k], scores[i]);
  }

  /** As written, a strictly better second move is passed over: the unmoved
      scores pick the first move, the intended scores do not. */
  lemma UnmovedRootMissesBetterMove<B>(r: Rules<B>, me: Color, b: B, depth: int)
    requires |r.legalMoves(b, me)| >= 2 && depth > 0
    requires var moves := r.legalMoves(b, me);
             MinValue(r, me, r.apply(b, moves[0], me), depth - 1) < MinValue(r, me, r.apply(b, moves[1], me), depth - 1)
    ensures var moves := r.legalMoves(b, me);
            FirstBest(moves, UnmovedRootScores(r, me, b, depth, |moves|)) == moves[0] &&
            FirstBest(moves, ChildScores(r, me, b, depth)) != moves[0]
  {
    var moves := r.legalMoves(b, me);
    ConstantScoresPickFirst(moves, UnmovedRootScores(r, me, b, depth, |moves|), MaxValue(r, me, b, depth));
    IntendedRootChoiceIsBest(r, me, b, depth);
    var k := MaxValueIsBestChild(r, me, b, depth);
  }

  /** The `MinMax` agent. The board it was built with is the only state the
      search changes, and only once a move has been chosen. */
  class MinMax<B> {
    const rules: Rules<B>
    const myColor: Color
    const opponentColor: Color
    var board: B
    /** My legal moves on the board the agent was built with. */
    const availableMoves: seq<Move>

    constructor (rules: Rules<B>, board: B, colorName: string)
      ensures this.rules == rules && this.board == board
      ensures myColor == ColorOf(colorName) && opponentColor == Opponent(myColor)
      ensures availableMoves == rules.legalMoves(board, myColor)
      ensures Valid()
    {
      this.rules := rules;
      myColor := ColorOf(colorName);
      opponentColor := Opponent(ColorOf(colorName));
      this.board := board;
      availableMoves := rules.legalMoves(board, ColorOf(colorName));
    }

    ghost predicate Valid() {
      opponentColor == Opponent(myColor)
    }

    /** `__get_board_score`. */
    function GetBoardScore(b: B): (s: int)
      requires Valid()
      ensures s == Score(rules, b, myColor)
    {
      rules.pieceCount(b, myColor) - rules.pieceCount(b, opponentColor)
    }

    method MinMaxMax(aBoard: B, maxDepth: int) returns (v: int)
      requires Valid()
      ensures v == MaxValue(rules, myColor, aBoard, maxDepth)
      decreases maxDepth, 1
    {
      var moves := rules.legalMoves(aBoard, myColor);
      if |moves| > 0 && maxDepth > 0 {
        var depth := maxDepth - 1;
        var best := NegInf;
        var i := 0;
        while i < |moves|
          invariant 0 <= i <= |moves|
          invariant best == MaxPrefix(rules, myColor, aBoard, maxDepth, i)
        {
          var imaginaryBoard := rules.apply(aBoard, moves[i], myColor);
          var score := MinMaxMin(imaginaryBoard, depth);
          best := Max(best, Fin(score));
          i := i + 1;
        }
        v := best.n;
      } else {
        v := GetBoardScore(aBoard);
      }
    }

    method MinMaxMin(aBoard: B, maxDepth: int) returns (v: int)
      requires Valid()
      ensures v == MinValue(rules, myColor, aBoard, maxDepth)
      decreases maxDepth, 1
    {
      var moves := rules.legalMoves(aBoard, opponentColor);
      if |moves| > 0 && maxDepth > 0 {
        var depth := maxDepth - 1;
        var best := PosInf;
        var i := 0;
        while i < |moves|
          invariant 0 <= i <= |moves|
          invariant best == MinPrefix(rules, myColor, aBoard, maxDepth, i)
        {
          var imaginaryBoard := rules.apply(aBoard, moves[i], opponentColor);
          var score := MinMaxMax(imaginaryBoard, depth);
          best := Min(best, Fin(score));
          i := i + 1;
        }
        v := best.n;
      } else {
        v := GetBoardScore(aBoard);
      }
    }

    /** `show_move_result` without its printing: play the chosen move on the
        agent's own board and hand the move back unchanged. */
    method ShowMoveResult(selectedMove: Move) returns (m: Move)
      modifies this`board
      ensures board == rules.apply(old(board), selectedMove, myColor)
      ensures m == selectedMove
    {
      board := rules.apply(board, selectedMove, myColor);
      m := selectedMove;
    }

    /** `next_move_min_max`: every root candidate is scored on the same
        unmoved copy of the board, so with any move available the first one
        is chosen; with none, the pass move (-1, -1). */
    method NextMoveMinMax(maxDepth: int) returns (bestMove: Move)
      requires Valid()
      modifies this`board
      ensures bestMove == FirstBest(availableMoves, UnmovedRootScores(rules, myColor, old(board), maxDepth, |availableMoves|))
      ensures bestMove == if |availableMoves| == 0 then Pass else availableMoves[0]
      ensures board == rules.apply(old(board), bestMove, myColor)
    {
      var v := NegInf;
      bestMove := Pass;
      ghost var scores := UnmovedRootScores(rules, myColor, board, maxDepth, |availableMoves|);
      if |availableMoves| > 0 {
        var i := 0;
        while i < |availableMoves|
          invariant 0 <= i <= |availableMoves|
          invariant (v, bestMove) == PickPrefix(availableMoves, scores, i)
          invariant board == old(board)
        {
          var imaginaryBoard := board;
          var score := MinMaxMax(imaginaryBoard, maxDepth);
          if Less(v, Fin(score)) {
            v := Fin(score);
            bestMove := availableMoves[i];
          }
          i := i + 1;
        }
        ConstantScoresPickFirst(availableMoves, scores, MaxValue(rules, myColor, board, maxDepth));
      }
      bestMove := ShowMoveResult(bestMove);
    }
  }
}
