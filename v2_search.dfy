/** The search of the iterative-deepening agent (`player_alpha_beta_v2`), as
    its code has it, with the two instrumentation counters and the clock.

    It differs from the other alpha-beta agents in three ways:
    - a node of either kind is a leaf when the clock has run out, or when I
      (the agent's colour, even at a min node) have no legal move, or no depth
      is left (`cut_test`);
    - a min node that is not cut but where the opponent has no legal move
      returns its incoming `beta`;
    - after a child has been searched with the current window, the
      `move_eval` of the move that led to it is added to the child's result
      before it is compared with the window.

    The root (`next_move_alfa_beta`) deepens from 1 to `max_depth`, scoring
    every one of my moves at each depth with the full window plus the move's
    `move_eval`; its `v` and `best_move` carry over from depth to depth. */
module AlphaBetaV2Search {
  import opened Board
  import opened ExtInts
  import opened Selection
  import opened AlphaBetaSearch

  /** `cut_test(b, alfa, beta, depth)` with counters `c`. */
  predicate CutTest<B>(r: Rules<B>, me: Color, timeUp: nat -> bool, b: B, depth: int, c: Counters) {
    timeUp(c.expanded) || |r.legalMoves(b, me)| == 0 || depth <= 0
  }

  /** `alfa_beta_max(b, alfa, beta, depth)` started with counters `c`. */
  function V2Max<B>(r: Rules<B>, me: Color, eval: (B, Move, Color) -> int, timeUp: nat -> bool,
                    b: B, alfa: ExtInt, beta: ExtInt, depth: int,
                    c: Counters): (o: Outcome)
    ensures Grows(c, o.counters)
    decreases depth, 1
  {
    if CutTest(r, me, timeUp, b, depth, c) then Outcome(Fin(Score(r, b, me)), c)
    else V2MaxLoop(r, me, eval, timeUp, b, alfa, beta, depth, 0, c)
  }

  /** The loop of `alfa_beta_max` from my `i`-th move on. */
  function V2MaxLoop<B>(r: Rules<B>, me: Color, eval: (B, Move, Color) -> int, timeUp: nat -> bool,
                        b: B, alfa: ExtInt, beta: ExtInt, depth: int,
                        i: nat, c: Counters): (o: Outcome)
    requires depth > 0 && i <= |r.legalMoves(b, me)|
    ensures Grows(c, o.counters)
    decreases depth, 0, |r.legalMoves(b, me)| - i
  {
    var moves := r.legalMoves(b, me);
    if i == |moves| then Outcome(alfa, c)
    else
      var child := r.apply(b, moves[i], me);
      var o := V2Min(r, me, eval, timeUp, child, alfa, beta, depth - 1, Counters(c.expanded + 1, c.pruned));
      var a := Max(Plus(o.value, eval(child, moves[i], me)), alfa);
      if Less(beta, a) then Outcome(a, Counters(o.counters.expanded, o.counters.pruned + 1))
      else V2MaxLoop(r, me, eval, timeUp, b, a, beta, depth, i + 1, o.counters)
  }

  /** `alfa_beta_min(b, alfa, beta, depth)` started with counters `c`. */
  function V2Min<B>(r: Rules<B>, me: Color, eval: (B, Move, Color) -> int, timeUp: nat -> bool,
                    b: B, alfa: ExtInt, beta: ExtInt, depth: int,
                    c: Counters): (o: Outcome)
    ensures Grows(c, o.counters)
    decreases depth, 1
  {
    if CutTest(r, me, timeUp, b, depth, c) then Outcome(Fin(Score(r, b, me)), c)
    else V2MinLoop(r, me, eval, timeUp, b, alfa, beta, depth, 0, c)
  }

  /** The loop of `alfa_beta_min` from the opponent's `i`-th move on. */
  function V2MinLoop<B>(r: Rules<B>, me: Color, eval: (B, Move, Color) -> int, timeUp: nat -> bool,
                        b: B, alfa: ExtInt, beta: ExtInt, depth: int,
                        i: nat, c: Counters): (o: Outcome)
    requires depth > 0 && i <= |r.legalMoves(b, Opponent(me))|
    ensures Grows(c, o.counters)
    decreases depth, 0, |r.legalMoves(b, Opponent(me))| - i
  {
    var moves := r.legalMoves(b, Opponent(me));
    if i == |moves| then Outcome(beta, c)
    else
      var child := r.apply(b, moves[i], Opponent(me));
      var o := V2Max(r, me, eval, timeUp, child, alfa, beta, depth - 1, Counters(c.expanded + 1, c.pruned));
      var bt := Min(Plus(o.value, eval(child, moves[i], Opponent(me))), beta);
      if LessEq(bt, alfa) then Outcome(bt, Counters(o.counters.expanded, o.counters.pruned + 1))
      else V2MinLoop(r, me, eval, timeUp, b, alfa, bt, depth, i + 1, o.counters)
  }

  /** A cut node of either kind is worth the material score whatever the
      window and counts nothing; a max node that is not cut returns at least
      its incoming `alfa` and expands at least one child. */
  lemma V2MaxNodeCases<B>(r: Rules<B>, me: Color, eval: (B, Move, Color) -> int, timeUp: nat -> bool,
                          b: B, alfa: ExtInt, beta: ExtInt,
                          depth: int, c: Counters)
    ensures var o := V2Max(r, me, eval, timeUp, b, alfa, beta, depth, c);
            if timeUp(c.expanded) || |r.legalMoves(b, me)| == 0 || depth <= 0 then
              o == Outcome(Fin(Score(r, b, me)), c)
            else
              LessEq(alfa, o.value) && c.expanded < o.counters.expanded
  {
    if !CutTest(r, me, timeUp, b, depth, c) {
      V2MaxLoopAtLeastAlfa(r, me, eval, timeUp, b, alfa, beta, depth, 0, c);
    }
  }

  lemma {:induction false} V2MaxLoopAtLeastAlfa<B>(r: Rules<B>, me: Color, eval: (B, Move, Color) -> int, timeUp: nat -> bool,
                                                   b: B, alfa: ExtInt,
                                                   beta: ExtInt, depth: int, i: nat, c: Counters)
    requires depth > 0 && i <= |r.legalMoves(b, me)|
    ensures var o := V2MaxLoop(r, me, eval, timeUp, b, alfa, beta, depth, i, c);
            LessEq(alfa, o.value) && (i < |r.legalMoves(b, me)| ==> c.expanded < o.counters.expanded)
    decreases |r.legalMoves(b, me)| - i
  {
    var moves := r.legalMoves(b, me);
    if i < |moves| {
      var child := r.apply(b, moves[i], me);
      var o := V2Min(r, me, eval, timeUp, child, alfa, beta, depth - 1, Counters(c.expanded + 1, c.pruned));
      var a := Max(Plus(o.value, eval(child, moves[i], me)), alfa);
      if !Less(beta, a) {
        V2MaxLoopAtLeastAlfa(r, me, eval, timeUp, b, a, beta, depth, i + 1, o.counters);
        LessEqTransitive(alfa, a, V2MaxLoop(r, me, eval, timeUp, b, a, beta, depth, i + 1, o.counters).value);
      }
    }
  }

  /** The min-node cut consults my moves, not the opponent's: a min node is a
      leaf when I cannot move even if the opponent can, and when I can move
      but the opponent cannot, it returns its incoming `beta` untouched and
      counts nothing. Otherwise it returns at most `beta` and expands at
      least one child. */
  lemma V2MinNodeCases<B>(r: Rules<B>, me: Color, eval: (B, Move, Color) -> int, timeUp: nat -> bool,
                          b: B, alfa: ExtInt, beta: ExtInt,
                          depth: int, c: Counters)
    ensures var o := V2Min(r, me, eval, timeUp, b, alfa, beta, depth, c);
            if timeUp(c.expanded) || |r.legalMoves(b, me)| == 0 || depth <= 0 then
              o == Outcome(Fin(Score(r, b, me)), c)
            else if |r.legalMoves(b, Opponent(me))| == 0 then
              o == Outcome(beta, c)
            else
              LessEq(o.value, beta) && c.expanded < o.counters.expanded
  {
    if !CutTest(r, me, timeUp, b, depth, c) {
      V2MinLoopAtMostBeta(r, me, eval, timeUp, b, alfa, beta, depth, 0, c);
    }
  }

  lemma {:induction false} V2MinLoopAtMostBeta<B>(r: Rules<B>, me: Color, eval: (B, Move, Color) -> int, timeUp: nat -> bool,
                                                  b: B, alfa: ExtInt,
                                                  beta: ExtInt, depth: int, i: nat, c: Counters)
    requires depth > 0 && i <= |r.legalMoves(b, Opponent(me))|
    ensures var o := V2MinLoop(r, me, eval, timeUp, b, alfa, beta, depth, i, c);
            LessEq(o.value, beta) && (i < |r.legalMoves(b, Opponent(me))| ==> c.expanded < o.counters.expanded)
    decreases |r.legalMoves(b, Opponent(me))| - i
  {
    var moves := r.legalMoves(b, Opponent(me));
    if i < |moves| {
      var child := r.apply(b, moves[i], Opponent(me));
      var o := V2Max(r, me, eval, timeUp, child, alfa, beta, depth - 1, Counters(c.expanded + 1, c.pruned));
      var bt := Min(Plus(o.value, eval(child, moves[i], Opponent(me))), beta);
      if !LessEq(bt, alfa) {
        V2MinLoopAtMostBeta(r, me, eval, timeUp, b, alfa, bt, depth, i + 1, o.counters);
        LessEqTransitive(V2MinLoop(r, me, eval, timeUp, b, alfa, bt, depth, i + 1, o.counters).value, bt, beta);
      }
    }
  }

  /** With an upper bound other than -inf, no node is worth -inf: leaves are
      finite, a max node that is not cut has a child, and a min node returns
      its own `beta` or something a child reached. */
  lemma {:induction false} V2MaxAboveNegInf<B>(r: Rules<B>, me: Color, eval: (B, Move, Color) -> int, timeUp: nat -> bool,
                                               b: B, alfa: ExtInt,
                                               beta: ExtInt, depth: int, c: Counters)
    requires beta != NegInf
    ensures V2Max(r, me, eval, timeUp, b, alfa, beta, depth, c).value != NegInf
    decreases depth, 1
  {
    if !CutTest(r, me, timeUp, b, depth, c) {
      V2MaxLoopAboveNegInf(r, me, eval, timeUp, b, alfa, beta, depth, 0, c);
    }
  }

  lemma {:induction false} V2MaxLoopAboveNegInf<B>(r: Rules<B>, me: Color, eval: (B, Move, Color) -> int, timeUp: nat -> bool,
                                                   b: B, alfa: ExtInt,
                                                   beta: ExtInt, depth: int, i: nat, c: Counters)
    requires depth > 0 && i <= |r.legalMoves(b, me)|
    requires beta != NegInf && (alfa != NegInf || i < |r.legalMoves(b, me)|)
    ensures V2MaxLoop(r, me, eval, timeUp, b, alfa, beta, depth, i, c).value != NegInf
    decreases depth, 0, |r.legalMoves(b, me)| - i
  {
    var moves := r.legalMoves(b, me);
    if i < |moves| {
      var child := r.apply(b, moves[i], me);
      var c' := Counters(c.expanded + 1, c.pruned);
      V2MinAboveNegInf(r, me, eval, timeUp, child, alfa, beta, depth - 1, c');
      var o := V2Min(r, me, eval, timeUp, child, alfa, beta, depth - 1, c');
      var a := Max(Plus(o.value, eval(child, moves[i], me)), alfa);
      if !Less(beta, a) {
        V2MaxLoopAboveNegInf(r, me, eval, timeUp, b, a, beta, depth, i + 1, o.counters);
      }
    }
  }

  lemma {:induction false} V2MinAboveNegInf<B>(r: Rules<B>, me: Color, eval: (B, Move, Color) -> int, timeUp: nat -> bool,
                                               b: B, alfa: ExtInt,
                                               beta: ExtInt, depth: int, c: Counters)
    requires beta != NegInf
    ensures V2Min(r, me, eval, timeUp, b, alfa, beta, depth, c).value != NegInf
    decreases depth, 1
  {
    if !CutTest(r, me, timeUp, b, depth, c) {
      V2MinLoopAboveNegInf(r, me, eval, timeUp, b, alfa, beta, depth, 0, c);
    }
  }

  lemma {:induction false} V2MinLoopAboveNegInf<B>(r: Rules<B>, me: Color, eval: (B, Move, Color) -> int, timeUp: nat -> bool,
                                                   b: B, alfa: ExtInt,
                                                   beta: ExtInt, depth: int, i: nat, c: Counters)
    requires depth > 0 && i <= |r.legalMoves(b, Opponent(me))|
    requires beta != NegInf
    ensures V2MinLoop(r, me, eval, timeUp, b, alfa, beta, depth, i, c).value != NegInf
    decreases depth, 0, |r.legalMoves(b, Opponent(me))| - i
  {
    var moves := r.legalMoves(b, Opponent(me));
    if i < |moves| {
      var child := r.apply(b, moves[i], Opponent(me));
      var c' := Counters(c.expanded + 1, c.pruned);
      V2MaxAboveNegInf(r, me, eval, timeUp, child, alfa, beta, depth - 1, c');
      var o := V2Max(r, me, eval, timeUp, child, alfa, beta, depth - 1, c');
      var bt := Min(Plus(o.value, eval(child, moves[i], Opponent(me))), beta);
      if !LessEq(bt, alfa) {
        V2MinLoopAboveNegInf(r, me, eval, timeUp, b, alfa, bt, depth, i + 1, o.counters);
      }
    }
  }

  /** One turn of a max node's loop, for the agent's loop invariant. */
  lemma V2MaxLoopStep<B>(r: Rules<B>, me: Color, eval: (B, Move, Color) -> int, timeUp: nat -> bool,
                         b: B, alfa: ExtInt, beta: ExtInt, depth: int,
                         i: nat, c: Counters)
    requires depth > 0 && i < |r.legalMoves(b, me)|
    ensures var m := r.legalMoves(b, me)[i];
            var child := r.apply(b, m, me);
            var o := V2Min(r, me, eval, timeUp, child, alfa, beta, depth - 1, Counters(c.expanded + 1, c.pruned));
            var a := Max(Plus(o.value, eval(child, m, me)), alfa);
            V2MaxLoop(r, me, eval, timeUp, b, alfa, beta, depth, i, c) ==
              if Less(beta, a) then Outcome(a, Counters(o.counters.expanded, o.counters.pruned + 1))
              else V2MaxLoop(r, me, eval, timeUp, b, a, beta, depth, i + 1, o.counters)
  {
  }

  /** One turn of a min node's loop, for the agent's loop invariant. */
  lemma V2MinLoopStep<B>(r: Rules<B>, me: Color, eval: (B, Move, Color) -> int, timeUp: nat -> bool,
                         b: B, alfa: ExtInt, beta: ExtInt, depth: int,
                         i: nat, c: Counters)
    requires depth > 0 && i < |r.legalMoves(b, Opponent(me))|
    ensures var m := r.legalMoves(b, Opponent(me))[i];
            var child := r.apply(b, m, Opponent(me));
            var o := V2Max(r, me, eval, timeUp, child, alfa, beta, depth - 1, Counters(c.expanded + 1, c.pruned));
            var bt := Min(Plus(o.value, eval(child, m, Opponent(me))), beta);
            V2MinLoop(r, me, eval, timeUp, b, alfa, beta, depth, i, c) ==
              if LessEq(bt, alfa) then Outcome(bt, Counters(o.counters.expanded, o.counters.pruned + 1))
              else V2MinLoop(r, me, eval, timeUp, b, alfa, bt, depth, i + 1, o.counters)
  {
  }

  /** One turn of a max node's loop, for a caller that already holds the
      child's value plus bonus `w` and the counters `oc` after the child. */
  lemma V2MaxLoopTurn<B>(r: Rules<B>, me: Color, eval: (B, Move, Color) -> int, timeUp: nat -> bool,
                         b: B, alfa: ExtInt, beta: ExtInt, depth: int,
                         i: nat, c: Counters, w: ExtInt, oc: Counters)
    requires depth > 0 && i < |r.legalMoves(b, me)|
    requires var m := r.legalMoves(b, me)[i];
             var child := r.apply(b, m, me);
             var o := V2Min(r, me, eval, timeUp, child, alfa, beta, depth - 1, Counters(c.expanded + 1, c.pruned));
             w == Plus(o.value, eval(child, m, me)) && oc == o.counters
    ensures V2MaxLoop(r, me, eval, timeUp, b, alfa, beta, depth, i, c) ==
              if Less(beta, Max(w, alfa)) then Outcome(Max(w, alfa), Counters(oc.expanded, oc.pruned + 1))
              else V2MaxLoop(r, me, eval, timeUp, b, Max(w, alfa), beta, depth, i + 1, oc)
  {
    V2MaxLoopStep(r, me, eval, timeUp, b, alfa, beta, depth, i, c);
  }

  /** One turn of a min node's loop, for a caller that already holds the
      child's value plus bonus `w` and the counters `oc` after the child. */
  lemma V2MinLoopTurn<B>(r: Rules<B>, me: Color, eval: (B, Move, Color) -> int, timeUp: nat -> bool,
                         b: B, alfa: ExtInt, beta: ExtInt, depth: int,
                         i: nat, c: Counters, w: ExtInt, oc: Counters)
    requires depth > 0 && i < |r.legalMoves(b, Opponent(me))|
    requires var m := r.legalMoves(b, Opponent(me))[i];
             var child := r.apply(b, m, Opponent(me));
             var o := V2Max(r, me, eval, timeUp, child, alfa, beta, depth - 1, Counters(c.expanded + 1, c.pruned));
             w == Plus(o.value, eval(child, m, Opponent(me))) && oc == o.counters
    ensures V2MinLoop(r, me, eval, timeUp, b, alfa, beta, depth, i, c) ==
              if LessEq(Min(w, beta), alfa) then Outcome(Min(w, beta), Counters(oc.expanded, oc.pruned + 1))
              else V2MinLoop(r, me, eval, timeUp, b, alfa, Min(w, beta), depth, i + 1, oc)
  {
    V2MinLoopStep(r, me, eval, timeUp, b, alfa, beta, depth, i, c);
  }

  /** The candidates the deepening root walks through: my moves once per
      depth 1, 2, ..., `d`. */
  function Candidates(moves: seq<Move>, d: int): (cs: seq<Move>)
    ensures d < 1 ==> cs == []
    ensures forall m :: m in cs ==> m in moves
    decreases d
  {
    if d < 1 then [] else Candidates(moves, d - 1) + moves
  }

  /** The first `k` root scores at depth `depth`, each the full-window search
      of the unmoved board plus the candidate's `move_eval` on that board,
      and the counters afterwards. */
  function LevelRun<B>(r: Rules<B>, me: Color, eval: (B, Move, Color) -> int, timeUp: nat -> bool,
                       b: B, depth: int, k: nat, c: Counters)
    : (res: (seq<ExtInt>, Counters))
    requires k <= |r.legalMoves(b, me)|
    ensures |res.0| == k
    ensures Grows(c, res.1)
  {
    if k == 0 then ([], c)
    else
      var (scores, c1) := LevelRun(r, me, eval, timeUp, b, depth, k - 1, c);
      var o := V2Max(r, me, eval, timeUp, b, NegInf, PosInf, depth, c1);
      (scores + [Plus(o.value, eval(b, r.legalMoves(b, me)[k - 1], me))], o.counters)
  }

  /** The root scores of depths 1 to `d` in the order they are computed,
      and the counters afterwards. */
  function DeepRun<B>(r: Rules<B>, me: Color, eval: (B, Move, Color) -> int, timeUp: nat -> bool,
                      b: B, d: int, c: Counters)
    : (res: (seq<ExtInt>, Counters))
    ensures |res.0| == |Candidates(r.legalMoves(b, me), d)|
    ensures Grows(c, res.1)
    decreases d
  {
    if d < 1 then ([], c)
    else
      var (scores, c1) := DeepRun(r, me, eval, timeUp, b, d - 1, c);
      var (level, c2) := LevelRun(r, me, eval, timeUp, b, d, |r.legalMoves(b, me)|, c1);
      (scores + level, c2)
  }

  /** The `i`-th score of a level is the search started from the counters
      the first `i` searches of that level left behind. */
  lemma {:induction false} LevelRunStep<B>(r: Rules<B>, me: Color, eval: (B, Move, Color) -> int, timeUp: nat -> bool,
                                           b: B, depth: int, k: nat,
                                           c: Counters, i: nat)
    requires i < k <= |r.legalMoves(b, me)|
    ensures LevelRun(r, me, eval, timeUp, b, depth, k, c).0[i] ==
            Plus(V2Max(r, me, eval, timeUp, b, NegInf, PosInf, depth, LevelRun(r, me, eval, timeUp, b, depth, i, c).1).value,
                 eval(b, r.legalMoves(b, me)[i], me))
    decreases k
  {
    if i < k - 1 {
      LevelRunStep(r, me, eval, timeUp, b, depth, k - 1, c, i);
    }
  }

  /** A shallower deepening run is a prefix of a deeper one. */
  lemma {:induction false} DeepRunPrefix<B>(r: Rules<B>, me: Color, eval: (B, Move, Color) -> int, timeUp: nat -> bool,
                                            b: B, d: int, e: int,
                                            c: Counters)
    requires d <= e
    ensures var n := |Candidates(r.legalMoves(b, me), d)|;
            n <= |Candidates(r.legalMoves(b, me), e)| &&
            Candidates(r.legalMoves(b, me), e)[..n] == Candidates(r.legalMoves(b, me), d) &&
            DeepRun(r, me, eval, timeUp, b, e, c).0[..n] == DeepRun(r, me, eval, timeUp, b, d, c).0
    decreases e - d
  {
    if d < e {
      DeepRunPrefix(r, me, eval, timeUp, b, d, e - 1, c);
      var moves := r.legalMoves(b, me);
      var n := |Candidates(moves, d)|;
      if e >= 1 {
        var s := DeepRun(r, me, eval, timeUp, b, e - 1, c).0;
        assert (s + LevelRun(r, me, eval, timeUp, b, e, |moves|, DeepRun(r, me, eval, timeUp, b, e - 1, c).1).0)[..n] == s[..n];
        assert (Candidates(moves, e - 1) + moves)[..n] == Candidates(moves, e - 1)[..n];
      } else {
        assert n == 0;
      }
    }
  }

  /** Depth `d` of a deepening run that goes on to depth `e` adds one
      candidate per move; its counters are those of one level run started
      where depth `d - 1` stopped, and the running best after it is the one
      depth `d - 1` left, compared in turn against that level's scores. */
  lemma DeepRunLevel<B>(r: Rules<B>, me: Color, eval: (B, Move, Color) -> int, timeUp: nat -> bool,
                        b: B, d: int, e: int, c: Counters)
    requires 1 <= d <= e
    ensures |Candidates(r.legalMoves(b, me), d)| == |Candidates(r.legalMoves(b, me), d - 1)| + |r.legalMoves(b, me)|
    ensures |Candidates(r.legalMoves(b, me), d)| <= |Candidates(r.legalMoves(b, me), e)|
    ensures DeepRun(r, me, eval, timeUp, b, d, c).1 ==
            LevelRun(r, me, eval, timeUp, b, d, |r.legalMoves(b, me)|, DeepRun(r, me, eval, timeUp, b, d - 1, c).1).1
    ensures PickPrefix(Candidates(r.legalMoves(b, me), e), DeepRun(r, me, eval, timeUp, b, e, c).0,
                       |Candidates(r.legalMoves(b, me), d)|) ==
            PickFrom(PickPrefix(Candidates(r.legalMoves(b, me), e), DeepRun(r, me, eval, timeUp, b, e, c).0,
                                |Candidates(r.legalMoves(b, me), d - 1)|),
                     r.legalMoves(b, me),
                     LevelRun(r, me, eval, timeUp, b, d, |r.legalMoves(b, me)|, DeepRun(r, me, eval, timeUp, b, d - 1, c).1).0,
                     |r.legalMoves(b, me)|)
  {
    var moves := r.legalMoves(b, me);
    var prior := DeepRun(r, me, eval, timeUp, b, d - 1, c);
    var level := LevelRun(r, me, eval, timeUp, b, d, |moves|, prior.1).0;
    DeepRunPrefix(r, me, eval, timeUp, b, d, e, c);
    assert Candidates(moves, d) == Candidates(moves, d - 1) + moves;
    assert DeepRun(r, me, eval, timeUp, b, d, c).0 == prior.0 + level;
    PickAfterPrefix(Candidates(moves, e), DeepRun(r, me, eval, timeUp, b, e, c).0, Candidates(moves, d - 1), prior.0,
                    moves, level);
  }

  /** The root visit of my `i`-th move at depth `depth` is candidate `pos`
      of the run: which move it is and its score, the search started from the
      counters the earlier visits left behind. */
  lemma DeepRunStep<B>(r: Rules<B>, me: Color, eval: (B, Move, Color) -> int, timeUp: nat -> bool,
                       b: B, maxDepth: int, depth: int, i: nat, pos: nat, c: Counters)
    requires 1 <= depth <= maxDepth && i < |r.legalMoves(b, me)|
    requires pos == |Candidates(r.legalMoves(b, me), depth - 1)| + i
    ensures pos < |Candidates(r.legalMoves(b, me), maxDepth)|
    ensures Candidates(r.legalMoves(b, me), maxDepth)[pos] == r.legalMoves(b, me)[i]
    ensures DeepRun(r, me, eval, timeUp, b, maxDepth, c).0[pos] ==
            Plus(V2Max(r, me, eval, timeUp, b, NegInf, PosInf, depth,
                       LevelRun(r, me, eval, timeUp, b, depth, i, DeepRun(r, me, eval, timeUp, b, depth - 1, c).1).1).value,
                 eval(b, r.legalMoves(b, me)[i], me))
  {
    var moves := r.legalMoves(b, me);
    var c0 := DeepRun(r, me, eval, timeUp, b, depth - 1, c).1;
    DeepRunPrefix(r, me, eval, timeUp, b, depth, maxDepth, c);
    LevelRunStep(r, me, eval, timeUp, b, depth, |moves|, c0, i);
    var s := DeepRun(r, me, eval, timeUp, b, depth - 1, c).0;
    assert DeepRun(r, me, eval, timeUp, b, depth, c).0[pos] ==
           (s + LevelRun(r, me, eval, timeUp, b, depth, |moves|, c0).0)[pos];
    assert Candidates(moves, maxDepth)[pos] == Candidates(moves, depth)[pos];
  }

  /** The move the deepening root settles on: the pass move when there is no
      depth to search or no move, otherwise one of my moves, namely the
      first candidate, in depth-then-move order, whose score is greater than
      every earlier one and at least every later one. */
  lemma DeepeningChoice<B>(r: Rules<B>, me: Color, eval: (B, Move, Color) -> int, timeUp: nat -> bool,
                           b: B, maxDepth: int, c: Counters)
    returns (i: int)
    ensures var cs := Candidates(r.legalMoves(b, me), maxDepth);
            var scores := DeepRun(r, me, eval, timeUp, b, maxDepth, c).0;
            var best := FirstBest(cs, scores);
            -1 <= i < |cs| &&
            (i < 0 <==> maxDepth < 1 || |r.legalMoves(b, me)| == 0) &&
            (i < 0 ==> best == Pass) &&
            (0 <= i ==> best == cs[i] && best in r.legalMoves(b, me)) &&
            (0 <= i ==> forall j :: 0 <= j < |cs| ==> LessEq(scores[j], scores[i])) &&
            (0 <= i ==> forall j :: 0 <= j < i ==> Less(scores[j], scores[i]))
  {
    var moves := r.legalMoves(b, me);
    var cs := Candidates(moves, maxDepth);
    var scores := DeepRun(r, me, eval, timeUp, b, maxDepth, c).0;
    i := PickPrefixIsFirstMaximum(cs, scores, |cs|);
    if maxDepth >= 1 && |moves| > 0 {
      DeepRunStep(r, me, eval, timeUp, b, maxDepth, 1, 0, 0, c);
      var c1 := LevelRun(r, me, eval, timeUp, b, 1, 0, DeepRun(r, me, eval, timeUp, b, 0, c).1).1;
      V2MaxAboveNegInf(r, me, eval, timeUp, b, NegInf, PosInf, 1, c1);
      assert scores[|Candidates(moves, 0)|] != NegInf;
    } else {
      assert |cs| == 0 by {
        if maxDepth >= 1 {
          CandidatesOfNoMoves(moves, maxDepth);
        }
      }
    }
  }

  lemma {:induction false} CandidatesOfNoMoves(moves: seq<Move>, d: int)
    requires |moves| == 0
    ensures Candidates(moves, d) == []
    decreases d
  {
    if d >= 1 {
      CandidatesOfNoMoves(moves, d - 1);
    }
  }
}
