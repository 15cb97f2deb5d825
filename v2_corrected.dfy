/** What the iterative-deepening agent's search evidently means to compute,
    and where its code departs from it.

    `EvalMax`/`EvalMin` are the minimax it approximates: the same leaves as
    `cut_test` makes (my moves at both kinds of node, no clock), and an
    inner node worth the best, for the side to play, of `child value +
    move_eval(child, move, side)`. A min node where I can move but the
    opponent cannot has no child and is worth +inf, which is what the code
    returns for it with the full window.

    The code adds `move_eval` to a child's result after searching the child
    with the window of the parent; a fail-hard result outside that window is
    only a bound, and once the bonus is added it is compared as if it were
    exact. `FixedMax`/`FixedMin` search each child with the parent's window
    shifted down by the bonus instead, and are proved equal to the minimax
    with the full window. `BonusAfterWindowOvershoots` exhibits a game of
    depth 2 where the code's value differs from the minimax. */
module AlphaBetaV2Corrected {
  import opened Board
  import opened ExtInts
  import opened AlphaBetaSearch
  import opened AlphaBetaV2Search
  import opened Positional

  /** The value of a max node with `depth` plies left. */
  function EvalMax<B>(r: Rules<B>, me: Color, eval: (B, Move, Color) -> int, b: B, depth: int): ExtInt
    decreases depth, 1
  {
    if |r.legalMoves(b, me)| == 0 || depth <= 0 then Fin(Score(r, b, me))
    else EvalMaxPrefix(r, me, eval, b, depth, |r.legalMoves(b, me)|)
  }

  /** The best of the first `k` of my moves, -inf for none. */
  function EvalMaxPrefix<B>(r: Rules<B>, me: Color, eval: (B, Move, Color) -> int, b: B, depth: int, k: nat): ExtInt
    requires depth > 0 && k <= |r.legalMoves(b, me)|
    decreases depth, 0, k
  {
    if k == 0 then NegInf
    else
      var m := r.legalMoves(b, me)[k - 1];
      var child := r.apply(b, m, me);
      Max(EvalMaxPrefix(r, me, eval, b, depth, k - 1), Plus(EvalMin(r, me, eval, child, depth - 1), eval(child, m, me)))
  }

  /** The value of a min node with `depth` plies left. */
  function EvalMin<B>(r: Rules<B>, me: Color, eval: (B, Move, Color) -> int, b: B, depth: int): ExtInt
    decreases depth, 1
  {
    if |r.legalMoves(b, me)| == 0 || depth <= 0 then Fin(Score(r, b, me))
    else EvalMinPrefix(r, me, eval, b, depth, |r.legalMoves(b, Opponent(me))|)
  }

  /** The worst for me of the opponent's first `k` moves, +inf for none. */
  function EvalMinPrefix<B>(r: Rules<B>, me: Color, eval: (B, Move, Color) -> int, b: B, depth: int, k: nat): ExtInt
    requires depth > 0 && k <= |r.legalMoves(b, Opponent(me))|
    decreases depth, 0, k
  {
    if k == 0 then PosInf
    else
      var m := r.legalMoves(b, Opponent(me))[k - 1];
      var child := r.apply(b, m, Opponent(me));
      Min(EvalMinPrefix(r, me, eval, b, depth, k - 1),
          Plus(EvalMax(r, me, eval, child, depth - 1), eval(child, m, Opponent(me))))
  }

  /** One more of my moves, `m` leading to `child`, taken into the best. */
  lemma EvalMaxPrefixStep<B>(r: Rules<B>, me: Color, eval: (B, Move, Color) -> int, b: B, depth: int, i: nat,
                             m: Move, child: B)
    requires depth > 0 && i < |r.legalMoves(b, me)|
    requires m == r.legalMoves(b, me)[i] && child == r.apply(b, m, me)
    ensures EvalMaxPrefix(r, me, eval, b, depth, i + 1) ==
            Max(EvalMaxPrefix(r, me, eval, b, depth, i), Plus(EvalMin(r, me, eval, child, depth - 1), eval(child, m, me)))
  {
  }

  /** One more opponent move, `m` leading to `child`, taken into the worst. */
  lemma EvalMinPrefixStep<B>(r: Rules<B>, me: Color, eval: (B, Move, Color) -> int, b: B, depth: int, i: nat,
                             m: Move, child: B)
    requires depth > 0 && i < |r.legalMoves(b, Opponent(me))|
    requires m == r.legalMoves(b, Opponent(me))[i] && child == r.apply(b, m, Opponent(me))
    ensures EvalMinPrefix(r, me, eval, b, depth, i + 1) ==
            Min(EvalMinPrefix(r, me, eval, b, depth, i),
                Plus(EvalMax(r, me, eval, child, depth - 1), eval(child, m, Opponent(me))))
  {
  }

  /** Taking in more of my moves never lowers the best. */
  lemma {:induction false} EvalMaxPrefixGrows<B>(r: Rules<B>, me: Color, eval: (B, Move, Color) -> int, b: B,
                                                 depth: int, k: nat, n: nat)
    requires depth > 0 && k <= n <= |r.legalMoves(b, me)|
    ensures LessEq(EvalMaxPrefix(r, me, eval, b, depth, k), EvalMaxPrefix(r, me, eval, b, depth, n))
    decreases n - k
  {
    if k < n {
      EvalMaxPrefixGrows(r, me, eval, b, depth, k, n - 1);
      LessEqTransitive(EvalMaxPrefix(r, me, eval, b, depth, k), EvalMaxPrefix(r, me, eval, b, depth, n - 1),
                       EvalMaxPrefix(r, me, eval, b, depth, n));
    }
  }

  /** Taking in more of the opponent's moves never raises the worst. */
  lemma {:induction false} EvalMinPrefixShrinks<B>(r: Rules<B>, me: Color, eval: (B, Move, Color) -> int, b: B,
                                                   depth: int, k: nat, n: nat)
    requires depth > 0 && k <= n <= |r.legalMoves(b, Opponent(me))|
    ensures LessEq(EvalMinPrefix(r, me, eval, b, depth, n), EvalMinPrefix(r, me, eval, b, depth, k))
    decreases n - k
  {
    if k < n {
      EvalMinPrefixShrinks(r, me, eval, b, depth, k, n - 1);
      LessEqTransitive(EvalMinPrefix(r, me, eval, b, depth, n), EvalMinPrefix(r, me, eval, b, depth, n - 1),
                       EvalMinPrefix(r, me, eval, b, depth, k));
    }
  }

  /** The corrected max node: the same leaves, loop and prune test as the
      code, but each child is searched with the window shifted down by its
      bonus. */
  function FixedMax<B>(r: Rules<B>, me: Color, eval: (B, Move, Color) -> int, b: B, alfa: ExtInt, beta: ExtInt,
                       depth: int): ExtInt
    decreases depth, 1
  {
    if |r.legalMoves(b, me)| == 0 || depth <= 0 then Fin(Score(r, b, me))
    else FixedMaxLoop(r, me, eval, b, alfa, beta, depth, 0)
  }

  function FixedMaxLoop<B>(r: Rules<B>, me: Color, eval: (B, Move, Color) -> int, b: B, alfa: ExtInt, beta: ExtInt,
                           depth: int, i: nat): ExtInt
    requires depth > 0 && i <= |r.legalMoves(b, me)|
    decreases depth, 0, |r.legalMoves(b, me)| - i
  {
    var moves := r.legalMoves(b, me);
    if i == |moves| then alfa
    else
      var child := r.apply(b, moves[i], me);
      var k := eval(child, moves[i], me);
      var y := Plus(FixedMin(r, me, eval, child, Plus(alfa, -k), Plus(beta, -k), depth - 1), k);
      var a := Max(y, alfa);
      if Less(beta, a) then a
      else FixedMaxLoop(r, me, eval, b, a, beta, depth, i + 1)
  }

  /** The corrected min node. */
  function FixedMin<B>(r: Rules<B>, me: Color, eval: (B, Move, Color) -> int, b: B, alfa: ExtInt, beta: ExtInt,
                       depth: int): ExtInt
    decreases depth, 1
  {
    if |r.legalMoves(b, me)| == 0 || depth <= 0 then Fin(Score(r, b, me))
    else FixedMinLoop(r, me, eval, b, alfa, beta, depth, 0)
  }

  function FixedMinLoop<B>(r: Rules<B>, me: Color, eval: (B, Move, Color) -> int, b: B, alfa: ExtInt, beta: ExtInt,
                           depth: int, i: nat): ExtInt
    requires depth > 0 && i <= |r.legalMoves(b, Opponent(me))|
    decreases depth, 0, |r.legalMoves(b, Opponent(me))| - i
  {
    var moves := r.legalMoves(b, Opponent(me));
    if i == |moves| then beta
    else
      var child := r.apply(b, moves[i], Opponent(me));
      var k := eval(child, moves[i], Opponent(me));
      var y := Plus(FixedMax(r, me, eval, child, Plus(alfa, -k), Plus(beta, -k), depth - 1), k);
      var bt := Min(y, beta);
      if LessEq(bt, alfa) then bt
      else FixedMinLoop(r, me, eval, b, alfa, bt, depth, i + 1)
  }

  /** One turn of the corrected max loop. */
  lemma FixedMaxLoopStep<B>(r: Rules<B>, me: Color, eval: (B, Move, Color) -> int, b: B, alfa: ExtInt, beta: ExtInt,
                            depth: int, i: nat)
    requires depth > 0 && i < |r.legalMoves(b, me)|
    ensures var m := r.legalMoves(b, me)[i];
            var child := r.apply(b, m, me);
            var k := eval(child, m, me);
            var a := Max(Plus(FixedMin(r, me, eval, child, Plus(alfa, -k), Plus(beta, -k), depth - 1), k), alfa);
            FixedMaxLoop(r, me, eval, b, alfa, beta, depth, i) ==
            if Less(beta, a) then a else FixedMaxLoop(r, me, eval, b, a, beta, depth, i + 1)
  {
  }

  /** One turn of the corrected min loop. */
  lemma FixedMinLoopStep<B>(r: Rules<B>, me: Color, eval: (B, Move, Color) -> int, b: B, alfa: ExtInt, beta: ExtInt,
                            depth: int, i: nat)
    requires depth > 0 && i < |r.legalMoves(b, Opponent(me))|
    ensures var m := r.legalMoves(b, Opponent(me))[i];
            var child := r.apply(b, m, Opponent(me));
            var k := eval(child, m, Opponent(me));
            var bt := Min(Plus(FixedMax(r, me, eval, child, Plus(alfa, -k), Plus(beta, -k), depth - 1), k), beta);
            FixedMinLoop(r, me, eval, b, alfa, beta, depth, i) ==
            if LessEq(bt, alfa) then bt else FixedMinLoop(r, me, eval, b, alfa, bt, depth, i + 1)
  {
  }

  /** Shifting a window, a value and a result by the same amount keeps the
      window property. */
  lemma ShiftBounds(alfa: ExtInt, beta: ExtInt, x: ExtInt, y: ExtInt, k: int)
    requires Bounds(Plus(alfa, -k), Plus(beta, -k), x, y)
    ensures Bounds(alfa, beta, Plus(x, k), Plus(y, k))
  {
  }

  lemma ShiftKeepsOrder(x: ExtInt, y: ExtInt, k: int)
    ensures LessEq(x, y) <==> LessEq(Plus(x, k), Plus(y, k))
  {
  }

  /** The corrected max node keeps the fail-hard window property against
      the minimax value, for every window `alfa <= beta`. */
  lemma {:induction false} FixedMaxWindow<B>(r: Rules<B>, me: Color, eval: (B, Move, Color) -> int, b: B,
                                             alfa: ExtInt, beta: ExtInt, depth: int)
    requires LessEq(alfa, beta)
    ensures Bounds(alfa, beta, EvalMax(r, me, eval, b, depth), FixedMax(r, me, eval, b, alfa, beta, depth))
    decreases depth, 1
  {
    if |r.legalMoves(b, me)| > 0 && depth > 0 {
      FixedMaxLoopWindow(r, me, eval, b, alfa, beta, depth, 0, alfa);
    }
  }

  lemma {:induction false} FixedMaxLoopWindow<B>(r: Rules<B>, me: Color, eval: (B, Move, Color) -> int, b: B,
                                                 a0: ExtInt, beta: ExtInt, depth: int, i: nat, a: ExtInt)
    requires LessEq(a0, beta)
    requires depth > 0 && i <= |r.legalMoves(b, me)|
    requires a == Min(Max(a0, EvalMaxPrefix(r, me, eval, b, depth, i)), beta)
    ensures Bounds(a0, beta, EvalMaxPrefix(r, me, eval, b, depth, |r.legalMoves(b, me)|),
                   FixedMaxLoop(r, me, eval, b, a, beta, depth, i))
    decreases depth, 0, |r.legalMoves(b, me)| - i, 1
  {
    var n := |r.legalMoves(b, me)|;
    var m := EvalMaxPrefix(r, me, eval, b, depth, i);
    if i == n {
      MaxStepEnd(a0, beta, m, a);
    } else {
      var x, y := FixedMaxTurn(r, me, eval, b, beta, depth, i, a);
      if Less(beta, Max(y, a)) {
        EvalMaxPrefixGrows(r, me, eval, b, depth, i + 1, n);
        MaxStepPrune(a0, beta, m, a, x, y, EvalMaxPrefix(r, me, eval, b, depth, n));
      } else {
        MaxStepContinue(a0, beta, m, a, x, y);
        FixedMaxLoopWindow(r, me, eval, b, a0, beta, depth, i + 1, Max(y, a));
      }
    }
  }

  /** One turn of the corrected max loop seen from outside: the child's value
      with its bonus `x`, the loop's value for it `y`, and the window property
      between the two. */
  lemma {:induction false} FixedMaxTurn<B>(r: Rules<B>, me: Color, eval: (B, Move, Color) -> int, b: B,
                                           beta: ExtInt, depth: int, i: nat, a: ExtInt)
    returns (x: ExtInt, y: ExtInt)
    requires LessEq(a, beta)
    requires depth > 0 && i < |r.legalMoves(b, me)|
    ensures Bounds(a, beta, x, y)
    ensures EvalMaxPrefix(r, me, eval, b, depth, i + 1) == Max(EvalMaxPrefix(r, me, eval, b, depth, i), x)
    ensures FixedMaxLoop(r, me, eval, b, a, beta, depth, i) ==
            if Less(beta, Max(y, a)) then Max(y, a) else FixedMaxLoop(r, me, eval, b, Max(y, a), beta, depth, i + 1)
    decreases depth, 0, |r.legalMoves(b, me)| - i, 0
  {
    var moves := r.legalMoves(b, me);
    var child := r.apply(b, moves[i], me);
    var k := eval(child, moves[i], me);
    y := Plus(FixedMin(r, me, eval, child, Plus(a, -k), Plus(beta, -k), depth - 1), k);
    x := Plus(EvalMin(r, me, eval, child, depth - 1), k);
    FixedMinShifted(r, me, eval, child, a, beta, depth - 1, k);
    EvalMaxPrefixStep(r, me, eval, b, depth, i, moves[i], child);
    FixedMaxLoopStep(r, me, eval, b, a, beta, depth, i);
  }

  /** The dual of `FixedMaxWindow` for min nodes. */
  lemma {:induction false} FixedMinWindow<B>(r: Rules<B>, me: Color, eval: (B, Move, Color) -> int, b: B,
                                             alfa: ExtInt, beta: ExtInt, depth: int)
    requires LessEq(alfa, beta)
    ensures Bounds(alfa, beta, EvalMin(r, me, eval, b, depth), FixedMin(r, me, eval, b, alfa, beta, depth))
    decreases depth, 1
  {
    if |r.legalMoves(b, me)| > 0 && depth > 0 {
      FixedMinLoopWindow(r, me, eval, b, alfa, beta, depth, 0, beta);
    }
  }

  lemma {:induction false} FixedMinLoopWindow<B>(r: Rules<B>, me: Color, eval: (B, Move, Color) -> int, b: B,
                                                 alfa: ExtInt, b0: ExtInt, depth: int, i: nat, bt: ExtInt)
    requires LessEq(alfa, b0)
    requires depth > 0 && i <= |r.legalMoves(b, Opponent(me))|
    requires bt == Max(Min(b0, EvalMinPrefix(r, me, eval, b, depth, i)), alfa)
    ensures Bounds(alfa, b0, EvalMinPrefix(r, me, eval, b, depth, |r.legalMoves(b, Opponent(me))|),
                   FixedMinLoop(r, me, eval, b, alfa, bt, depth, i))
    decreases depth, 0, |r.legalMoves(b, Opponent(me))| - i, 1
  {
    var n := |r.legalMoves(b, Opponent(me))|;
    var m := EvalMinPrefix(r, me, eval, b, depth, i);
    if i == n {
      MinStepEnd(alfa, b0, m, bt);
    } else {
      var x, y := FixedMinTurn(r, me, eval, b, alfa, depth, i, bt);
      if LessEq(Min(y, bt), alfa) {
        EvalMinPrefixShrinks(r, me, eval, b, depth, i + 1, n);
        MinStepPrune(Plain, alfa, b0, m, bt, x, y, EvalMinPrefix(r, me, eval, b, depth, n));
      } else {
        MinStepContinue(Plain, alfa, b0, m, bt, x, y);
        FixedMinLoopWindow(r, me, eval, b, alfa, b0, depth, i + 1, Min(y, bt));
      }
    }
  }

  /** One turn of the corrected min loop seen from outside. */
  lemma {:induction false} FixedMinTurn<B>(r: Rules<B>, me: Color, eval: (B, Move, Color) -> int, b: B,
                                           alfa: ExtInt, depth: int, i: nat, bt: ExtInt)
    returns (x: ExtInt, y: ExtInt)
    requires LessEq(alfa, bt)
    requires depth > 0 && i < |r.legalMoves(b, Opponent(me))|
    ensures Bounds(alfa, bt, x, y)
    ensures EvalMinPrefix(r, me, eval, b, depth, i + 1) == Min(EvalMinPrefix(r, me, eval, b, depth, i), x)
    ensures FixedMinLoop(r, me, eval, b, alfa, bt, depth, i) ==
            if LessEq(Min(y, bt), alfa) then Min(y, bt)
            else FixedMinLoop(r, me, eval, b, alfa, Min(y, bt), depth, i + 1)
    decreases depth, 0, |r.legalMoves(b, Opponent(me))| - i, 0
  {
    var moves := r.legalMoves(b, Opponent(me));
    var child := r.apply(b, moves[i], Opponent(me));
    var k := eval(child, moves[i], Opponent(me));
    y := Plus(FixedMax(r, me, eval, child, Plus(alfa, -k), Plus(bt, -k), depth - 1), k);
    x := Plus(EvalMax(r, me, eval, child, depth - 1), k);
    FixedMaxShifted(r, me, eval, child, alfa, bt, depth - 1, k);
    EvalMinPrefixStep(r, me, eval, b, depth, i, moves[i], child);
    FixedMinLoopStep(r, me, eval, b, alfa, bt, depth, i);
  }

  /** A child searched with the window shifted down by its bonus `k` and
      then raised by `k` keeps the window property for the unshifted window
      against its value plus `k`. */
  lemma {:induction false} FixedMinShifted<B>(r: Rules<B>, me: Color, eval: (B, Move, Color) -> int, b: B,
                                              alfa: ExtInt, beta: ExtInt, depth: int, k: int)
    requires LessEq(alfa, beta)
    ensures Bounds(alfa, beta, Plus(EvalMin(r, me, eval, b, depth), k),
                   Plus(FixedMin(r, me, eval, b, Plus(alfa, -k), Plus(beta, -k), depth), k))
    decreases depth, 2
  {
    ShiftKeepsOrder(alfa, beta, -k);
    FixedMinWindow(r, me, eval, b, Plus(alfa, -k), Plus(beta, -k), depth);
    ShiftBounds(alfa, beta, EvalMin(r, me, eval, b, depth), FixedMin(r, me, eval, b, Plus(alfa, -k), Plus(beta, -k), depth), k);
  }

  lemma {:induction false} FixedMaxShifted<B>(r: Rules<B>, me: Color, eval: (B, Move, Color) -> int, b: B,
                                              alfa: ExtInt, beta: ExtInt, depth: int, k: int)
    requires LessEq(alfa, beta)
    ensures Bounds(alfa, beta, Plus(EvalMax(r, me, eval, b, depth), k),
                   Plus(FixedMax(r, me, eval, b, Plus(alfa, -k), Plus(beta, -k), depth), k))
    decreases depth, 2
  {
    ShiftKeepsOrder(alfa, beta, -k);
    FixedMaxWindow(r, me, eval, b, Plus(alfa, -k), Plus(beta, -k), depth);
    ShiftBounds(alfa, beta, EvalMax(r, me, eval, b, depth), FixedMax(r, me, eval, b, Plus(alfa, -k), Plus(beta, -k), depth), k);
  }

  /** With the full window the corrected search is the minimax with
      bonuses. */
  lemma FixedFullWindowIsEvalMinimax<B>(r: Rules<B>, me: Color, eval: (B, Move, Color) -> int, b: B, depth: int)
    ensures FixedMax(r, me, eval, b, NegInf, PosInf, depth) == EvalMax(r, me, eval, b, depth)
    ensures FixedMin(r, me, eval, b, NegInf, PosInf, depth) == EvalMin(r, me, eval, b, depth)
  {
    FixedMaxWindow(r, me, eval, b, NegInf, PosInf, depth);
    FixedMinWindow(r, me, eval, b, NegInf, PosInf, depth);
  }

  /** A game of integers: a board is the digits of the moves' columns played
      so far. I (black) move first from 0 to 2 with (2, 3) or to 7 with
      the corner (7, 7); white answers (4, 3) to both, and from 7 also (5, 3),
      which leaves white 100 pieces up. Each side has one more move wherever
      it is needed for the cut test to let a node through. */
  function ExampleRules(): Rules<int> {
    Rules(
      (b: int, c: Color) =>
        if b == 0 && c == Black then [(2, 3), (7, 7)]
        else if (b == 2 || b == 7) && c == Black then [(4, 4)]
        else if b == 2 && c == White then [(4, 3)]
        else if b == 7 && c == White then [(4, 3), (5, 3)]
        else [],
      (b: int, m: Move, c: Color) => 10 * b + m.0,
      (b: int, c: Color) => if b == 75 && c == White then 100 else 0)
  }

  /** `move_eval` on the game above. */
  function ExampleEval(): (int, Move, Color) -> int {
    (b: int, m: Move, c: Color) => MoveEval(ExampleRules(), b, m, c)
  }

  /** The moves, boards and scores the searches below meet. */
  lemma ExampleMoves()
    ensures var r := ExampleRules();
            r.legalMoves(0, Black) == [(2, 3), (7, 7)] &&
            r.legalMoves(2, Black) == [(4, 4)] && r.legalMoves(7, Black) == [(4, 4)] &&
            r.legalMoves(2, White) == [(4, 3)] && r.legalMoves(7, White) == [(4, 3), (5, 3)] &&
            r.legalMoves(24, Black) == [] && r.legalMoves(74, Black) == [] && r.legalMoves(75, Black) == [] &&
            r.apply(0, (2, 3), Black) == 2 && r.apply(0, (7, 7), Black) == 7 &&
            r.apply(2, (4, 3), White) == 24 && r.apply(7, (4, 3), White) == 74 && r.apply(7, (5, 3), White) == 75 &&
            Score(r, 24, Black) == 0 && Score(r, 74, Black) == 0 && Score(r, 75, Black) == -100
  {
  }

  /** Every reply board the bonuses look at leaves the other side no move,
      so each bonus is its static terms plus 15. */
  lemma ExampleBonus(b: int, m: Move, c: Color)
    requires (b, m, c) in {(2, (2, 3), Black), (7, (7, 7), Black), (24, (4, 3), White), (74, (4, 3), White),
                           (75, (5, 3), White)}
    ensures ExampleEval()(b, m, c) == StaticEval(m) + 15
  {
    var r := ExampleRules();
    assert r.legalMoves(r.apply(b, m, c), Opponent(c)) == [];
  }

  /** The bonuses the searches below add. */
  lemma ExampleBonuses()
    ensures var e := ExampleEval();
            e(2, (2, 3), Black) == 15 && e(7, (7, 7), Black) == 23 &&
            e(24, (4, 3), White) == 15 && e(74, (4, 3), White) == 15 && e(75, (5, 3), White) == 15
  {
    ExampleBonus(2, (2, 3), Black);
    ExampleBonus(7, (7, 7), Black);
    ExampleBonus(24, (4, 3), White);
    ExampleBonus(74, (4, 3), White);
    ExampleBonus(75, (5, 3), White);
    assert StaticEval((2, 3)) == 0 && StaticEval((4, 3)) == 0 && StaticEval((5, 3)) == 0;
    assert StaticEval((7, 7)) == 8;
  }

  /** The code's search of the reply node after (2, 3): white's only answer
      is worth 0 + 15. */
  lemma ExampleCodeFirstReply()
    ensures V2Min(ExampleRules(), Black, ExampleEval(), NoClock, 2, NegInf, PosInf, 1, Counters(1, 0)) ==
            Outcome(Fin(15), Counters(2, 0))
  {
    var r, e := ExampleRules(), ExampleEval();
    ExampleMoves();
    ExampleBonuses();
    assert V2Max(r, Black, e, NoClock, 24, NegInf, PosInf, 0, Counters(2, 0)) == Outcome(Fin(0), Counters(2, 0));
    assert V2MinLoop(r, Black, e, NoClock, 2, NegInf, Fin(15), 1, 1, Counters(2, 0)) ==
           Outcome(Fin(15), Counters(2, 0));
  }

  /** The code's search of the reply node after the corner (7, 7) with
      window (30, +inf): white's first answer, worth 0 + 15, is already below
      30, so the node prunes and returns 15. */
  lemma ExampleCodeSecondReply()
    ensures V2Min(ExampleRules(), Black, ExampleEval(), NoClock, 7, Fin(30), PosInf, 1, Counters(3, 0)) ==
            Outcome(Fin(15), Counters(4, 1))
  {
    var r, e := ExampleRules(), ExampleEval();
    ExampleMoves();
    ExampleBonuses();
    assert V2Max(r, Black, e, NoClock, 74, Fin(30), PosInf, 0, Counters(4, 0)) == Outcome(Fin(0), Counters(4, 0));
  }

  /** The code's search of the game: 30 after (2, 3), then 15 + 23 = 38
      after the corner; four expansions and one prune. */
  lemma ExampleCodeValue()
    ensures V2Max(ExampleRules(), Black, ExampleEval(), NoClock, 0, NegInf, PosInf, 2, Counters(0, 0)) ==
            Outcome(Fin(38), Counters(4, 1))
  {
    var r, e := ExampleRules(), ExampleEval();
    ExampleMoves();
    ExampleBonuses();
    ExampleCodeFirstReply();
    ExampleCodeSecondReply();
    V2MaxLoopStep(r, Black, e, NoClock, 0, NegInf, PosInf, 2, 0, Counters(0, 0));
    V2MaxLoopStep(r, Black, e, NoClock, 0, Fin(30), PosInf, 2, 1, Counters(2, 0));
    assert V2MaxLoop(r, Black, e, NoClock, 0, Fin(38), PosInf, 2, 2, Counters(4, 1)) ==
           Outcome(Fin(38), Counters(4, 1));
  }

  /** A min node one ply above the leaves with a single answer `m0`: the
      leaf's score plus the answer's bonus. */
  lemma EvalMinOneLeaf<B>(r: Rules<B>, me: Color, eval: (B, Move, Color) -> int, b: B, m0: Move, c0: B)
    requires |r.legalMoves(b, me)| > 0 && r.legalMoves(b, Opponent(me)) == [m0]
    requires c0 == r.apply(b, m0, Opponent(me))
    ensures EvalMin(r, me, eval, b, 1) == Fin(Score(r, c0, me) + eval(c0, m0, Opponent(me)))
  {
    EvalMinPrefixStep(r, me, eval, b, 1, 0, m0, c0);
  }

  /** A min node one ply above the leaves with two answers: the worse of
      the two leaves' scores plus bonuses. */
  lemma EvalMinTwoLeaves<B>(r: Rules<B>, me: Color, eval: (B, Move, Color) -> int, b: B, m0: Move, c0: B,
                            m1: Move, c1: B)
    requires |r.legalMoves(b, me)| > 0 && r.legalMoves(b, Opponent(me)) == [m0, m1]
    requires c0 == r.apply(b, m0, Opponent(me)) && c1 == r.apply(b, m1, Opponent(me))
    ensures EvalMin(r, me, eval, b, 1) ==
            Min(Fin(Score(r, c0, me) + eval(c0, m0, Opponent(me))), Fin(Score(r, c1, me) + eval(c1, m1, Opponent(me))))
  {
    EvalMinPrefixStep(r, me, eval, b, 1, 0, m0, c0);
    EvalMinPrefixStep(r, me, eval, b, 1, 1, m1, c1);
  }

  /** A max node with two moves: the better of the two children's values
      plus bonuses. */
  lemma EvalMaxTwoChildren<B>(r: Rules<B>, me: Color, eval: (B, Move, Color) -> int, b: B, depth: int,
                              m0: Move, c0: B, m1: Move, c1: B)
    requires depth > 0 && r.legalMoves(b, me) == [m0, m1]
    requires c0 == r.apply(b, m0, me) && c1 == r.apply(b, m1, me)
    ensures EvalMax(r, me, eval, b, depth) ==
            Max(Plus(EvalMin(r, me, eval, c0, depth - 1), eval(c0, m0, me)),
                Plus(EvalMin(r, me, eval, c1, depth - 1), eval(c1, m1, me)))
  {
    EvalMaxPrefixStep(r, me, eval, b, depth, 0, m0, c0);
    EvalMaxPrefixStep(r, me, eval, b, depth, 1, m1, c1);
  }

  /** The minimax with bonuses of the reply node after (2, 3): white's
      only answer is worth 0 + 15. */
  lemma ExampleMinimaxFirstReply()
    ensures EvalMin(ExampleRules(), Black, ExampleEval(), 2, 1) == Fin(15)
  {
    ExampleMoves();
    ExampleBonuses();
    EvalMinOneLeaf(ExampleRules(), Black, ExampleEval(), 2, (4, 3), 24);
  }

  /** The minimax with bonuses of the reply node after the corner: white's
      second answer is worth -100 + 15. */
  lemma ExampleMinimaxSecondReply()
    ensures EvalMin(ExampleRules(), Black, ExampleEval(), 7, 1) == Fin(-85)
  {
    ExampleMoves();
    ExampleBonuses();
    EvalMinTwoLeaves(ExampleRules(), Black, ExampleEval(), 7, (4, 3), 74, (5, 3), 75);
  }

  /** The minimax with bonuses of the game: 15 + 15 after (2, 3) against
      -85 + 23 after the corner. */
  lemma ExampleMinimaxValue()
    ensures EvalMax(ExampleRules(), Black, ExampleEval(), 0, 2) == Fin(30)
  {
    ExampleMoves();
    ExampleBonuses();
    ExampleMinimaxFirstReply();
    ExampleMinimaxSecondReply();
    EvalMaxTwoChildren(ExampleRules(), Black, ExampleEval(), 0, 2, (2, 3), 2, (7, 7), 7);
  }

  /** The code, with a clock that never runs out and the full window at depth
      2, values the root at 38, while the minimax with bonuses (and the
      corrected search) values it at 30: after (2, 3) is worth 30, the search
      of the corner's reply node with window (30, +inf) stops at white's first
      answer, worth 15, and the corner's bonus of 23 is added to that bound
      although white's second answer makes the node worth -85 + 23 = -62. */
  lemma BonusAfterWindowOvershoots()
    ensures V2Max(ExampleRules(), Black, ExampleEval(), NoClock, 0, NegInf, PosInf, 2, Counters(0, 0)).value !=
            EvalMax(ExampleRules(), Black, ExampleEval(), 0, 2)
    ensures FixedMax(ExampleRules(), Black, ExampleEval(), 0, NegInf, PosInf, 2) ==
            EvalMax(ExampleRules(), Black, ExampleEval(), 0, 2)
  {
    ExampleCodeValue();
    ExampleMinimaxValue();
    FixedFullWindowIsEvalMinimax(ExampleRules(), Black, ExampleEval(), 0, 2);
  }
}
