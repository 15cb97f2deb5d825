/** The fail-hard alpha-beta search shared by three of the agents, as a
    function of the window, the remaining depth and the two instrumentation
    counters, and its relation to plain minimax.

    The agents differ in two places only, which `Config` names:
    - the test that prunes at a min node is `alfa >= beta` in the plain and
      clocked agents and `alfa > beta` in Patrick's; every max node prunes on
      `beta < alfa`;
    - the clocked agent also treats a node as a leaf once its time budget is
      spent. The clock is an oracle asked with the number of nodes expanded
      so far; the other agents use one that never expires.

    A max node with moves and depth left searches its children in the order
    the board lists them: each child is counted as expanded, searched as a
    min node one ply shallower with the current window, and `alfa` becomes
    `max(v, alfa)`; once `beta < alfa` the prune counter goes up and `alfa`
    is returned at once, otherwise `alfa` is returned after the last child.
    Min nodes are the mirror image over the opponent's moves and `beta`. */
module AlphaBetaSearch {
  import opened Board
  import opened ExtInts
  import opened MinMax

  datatype Config = Config(minPruneStrict: bool, timeUp: nat -> bool)

  /** `node_expands_counter` and `pruning_counter`. */
  datatype Counters = Counters(expanded: nat, pruned: nat)

  /** A search result and the counters once it has been computed. */
  datatype Outcome = Outcome(value: ExtInt, counters: Counters)

  /** The clock of the agents that have none. */
  const NoClock: nat -> bool := (n: nat) => false

  /** `player_alpha_beta` and the clocked agent: `alfa >= beta` at min nodes. */
  const Plain: Config := Config(false, NoClock)

  /** Patrick's agent: `alfa > beta` at min nodes. */
  const Strict: Config := Config(true, NoClock)

  /** The time budget never runs out, however many nodes are expanded. */
  ghost predicate Timeless(cfg: Config) {
    forall n: nat :: !cfg.timeUp(n)
  }

  /** The counters never go down, and every prune is matched by an expansion
      made since `c`. */
  predicate Grows(c: Counters, c': Counters) {
    c.expanded <= c'.expanded && c.pruned <= c'.pruned &&
    c'.pruned - c.pruned <= c'.expanded - c.expanded
  }

  /** The test that ends a min node's loop early. */
  predicate MinPrunes(cfg: Config, alfa: ExtInt, beta: ExtInt) {
    if cfg.minPruneStrict then Less(beta, alfa) else LessEq(beta, alfa)
  }

  /** `alfa_beta_max(b, alfa, beta, depth)` started with counters `c`. */
  function SearchMax<B>(cfg: Config, r: Rules<B>, me: Color, b: B, alfa: ExtInt, beta: ExtInt, depth: int,
                        c: Counters): (o: Outcome)
    ensures Grows(c, o.counters)
    decreases depth, 1
  {
    if |r.legalMoves(b, me)| > 0 && depth > 0 && !cfg.timeUp(c.expanded) then
      MaxLoop(cfg, r, me, b, alfa, beta, depth, 0, c)
    else
      Outcome(Fin(Score(r, b, me)), c)
  }

  /** The loop of `alfa_beta_max` from my `i`-th move on, with the current
      `alfa`. */
  function MaxLoop<B>(cfg: Config, r: Rules<B>, me: Color, b: B, alfa: ExtInt, beta: ExtInt, depth: int,
                      i: nat, c: Counters): (o: Outcome)
    requires depth > 0 && i <= |r.legalMoves(b, me)|
    ensures Grows(c, o.counters)
    decreases depth, 0, |r.legalMoves(b, me)| - i
  {
    var moves := r.legalMoves(b, me);
    if i == |moves| then Outcome(alfa, c)
    else
      var child := r.apply(b, moves[i], me);
      var o := SearchMin(cfg, r, me, child, alfa, beta, depth - 1, Counters(c.expanded + 1, c.pruned));
      var a := Max(o.value, alfa);
      if Less(beta, a) then Outcome(a, Counters(o.counters.expanded, o.counters.pruned + 1))
      else MaxLoop(cfg, r, me, b, a, beta, depth, i + 1, o.counters)
  }

  /** `alfa_beta_min(b, alfa, beta, depth)` started with counters `c`. */
  function SearchMin<B>(cfg: Config, r: Rules<B>, me: Color, b: B, alfa: ExtInt, beta: ExtInt, depth: int,
                        c: Counters): (o: Outcome)
    ensures Grows(c, o.counters)
    decreases depth, 1
  {
    if |r.legalMoves(b, Opponent(me))| > 0 && depth > 0 && !cfg.timeUp(c.expanded) then
      MinLoop(cfg, r, me, b, alfa, beta, depth, 0, c)
    else
      Outcome(Fin(Score(r, b, me)), c)
  }

  /** The loop of `alfa_beta_min` from the opponent's `i`-th move on, with
      the current `beta`. */
  function MinLoop<B>(cfg: Config, r: Rules<B>, me: Color, b: B, alfa: ExtInt, beta: ExtInt, depth: int,
                      i: nat, c: Counters): (o: Outcome)
    requires depth > 0 && i <= |r.legalMoves(b, Opponent(me))|
    ensures Grows(c, o.counters)
    decreases depth, 0, |r.legalMoves(b, Opponent(me))| - i
  {
    var moves := r.legalMoves(b, Opponent(me));
    if i == |moves| then Outcome(beta, c)
    else
      var child := r.apply(b, moves[i], Opponent(me));
      var o := SearchMax(cfg, r, me, child, alfa, beta, depth - 1, Counters(c.expanded + 1, c.pruned));
      var bt := Min(o.value, beta);
      if MinPrunes(cfg, alfa, bt) then Outcome(bt, Counters(o.counters.expanded, o.counters.pruned + 1))
      else MinLoop(cfg, r, me, b, alfa, bt, depth, i + 1, o.counters)
  }

  /** A leaf is worth the material score whatever the window, and counts
      nothing; an inner max node returns at least its incoming `alfa` and
      has expanded at least one child. */
  lemma MaxNodeCases<B>(cfg: Config, r: Rules<B>, me: Color, b: B, alfa: ExtInt, beta: ExtInt, depth: int,
                        c: Counters)
    ensures var o := SearchMax(cfg, r, me, b, alfa, beta, depth, c);
            if |r.legalMoves(b, me)| > 0 && depth > 0 && !cfg.timeUp(c.expanded) then
              LessEq(alfa, o.value) && c.expanded < o.counters.expanded
            else
              o == Outcome(Fin(Score(r, b, me)), c)
  {
    if |r.legalMoves(b, me)| > 0 && depth > 0 && !cfg.timeUp(c.expanded) {
      MaxLoopAtLeastAlfa(cfg, r, me, b, alfa, beta, depth, 0, c);
    }
  }

  lemma {:induction false} MaxLoopAtLeastAlfa<B>(cfg: Config, r: Rules<B>, me: Color, b: B, alfa: ExtInt,
                                                 beta: ExtInt, depth: int, i: nat, c: Counters)
    requires depth > 0 && i <= |r.legalMoves(b, me)|
    ensures var o := MaxLoop(cfg, r, me, b, alfa, beta, depth, i, c);
            LessEq(alfa, o.value) && (i < |r.legalMoves(b, me)| ==> c.expanded < o.counters.expanded)
    decreases |r.legalMoves(b, me)| - i
  {
    var moves := r.legalMoves(b, me);
    if i < |moves| {
      var child := r.apply(b, moves[i], me);
      var o := SearchMin(cfg, r, me, child, alfa, beta, depth - 1, Counters(c.expanded + 1, c.pruned));
      var a := Max(o.value, alfa);
      if !Less(beta, a) {
        MaxLoopAtLeastAlfa(cfg, r, me, b, a, beta, depth, i + 1, o.counters);
        LessEqTransitive(alfa, a, MaxLoop(cfg, r, me, b, a, beta, depth, i + 1, o.counters).value);
      }
    }
  }

  /** A leaf is worth the material score whatever the window; an inner min
      node returns at most its incoming `beta`. */
  lemma MinNodeCases<B>(cfg: Config, r: Rules<B>, me: Color, b: B, alfa: ExtInt, beta: ExtInt, depth: int,
                        c: Counters)
    ensures var o := SearchMin(cfg, r, me, b, alfa, beta, depth, c);
            if |r.legalMoves(b, Opponent(me))| > 0 && depth > 0 && !cfg.timeUp(c.expanded) then
              LessEq(o.value, beta) && c.expanded < o.counters.expanded
            else
              o == Outcome(Fin(Score(r, b, me)), c)
  {
    if |r.legalMoves(b, Opponent(me))| > 0 && depth > 0 && !cfg.timeUp(c.expanded) {
      MinLoopAtMostBeta(cfg, r, me, b, alfa, beta, depth, 0, c);
    }
  }

  lemma {:induction false} MinLoopAtMostBeta<B>(cfg: Config, r: Rules<B>, me: Color, b: B, alfa: ExtInt,
                                                beta: ExtInt, depth: int, i: nat, c: Counters)
    requires depth > 0 && i <= |r.legalMoves(b, Opponent(me))|
    ensures var o := MinLoop(cfg, r, me, b, alfa, beta, depth, i, c);
            LessEq(o.value, beta) && (i < |r.legalMoves(b, Opponent(me))| ==> c.expanded < o.counters.expanded)
    decreases |r.legalMoves(b, Opponent(me))| - i
  {
    var moves := r.legalMoves(b, Opponent(me));
    if i < |moves| {
      var child := r.apply(b, moves[i], Opponent(me));
      var o := SearchMax(cfg, r, me, child, alfa, beta, depth - 1, Counters(c.expanded + 1, c.pruned));
      var bt := Min(o.value, beta);
      if !MinPrunes(cfg, alfa, bt) {
        MinLoopAtMostBeta(cfg, r, me, b, alfa, bt, depth, i + 1, o.counters);
        LessEqTransitive(MinLoop(cfg, r, me, b, alfa, bt, depth, i + 1, o.counters).value, bt, beta);
      }
    }
  }

  /** The fail-hard window property of a search result `r` for a node whose
      exact value is `v`: exact inside the window, and on the correct side of
      the window bound that `v` reaches. */
  predicate Bounds(alfa: ExtInt, beta: ExtInt, v: ExtInt, r: ExtInt) {
    (Less(alfa, v) && Less(v, beta) ==> r == v) &&
    (LessEq(v, alfa) ==> LessEq(r, alfa)) &&
    (LessEq(beta, v) ==> LessEq(beta, r))
  }

  /** Max loop, a child that does not prune: the running `alfa` stays the
      prefix maximum clamped to the window. */
  lemma MaxStepContinue(a0: ExtInt, beta: ExtInt, m: ExtInt, a: ExtInt, x: ExtInt, y: ExtInt)
    requires LessEq(a0, beta) && a == Min(Max(a0, m), beta)
    requires Bounds(a, beta, x, y)
    requires !Less(beta, Max(y, a))
    ensures Max(y, a) == Min(Max(a0, Max(m, x)), beta)
  {
  }

  /** Max loop, a child that prunes: the result already bounds any value at
      least as large as the children seen so far. */
  lemma MaxStepPrune(a0: ExtInt, beta: ExtInt, m: ExtInt, a: ExtInt, x: ExtInt, y: ExtInt, v: ExtInt)
    requires LessEq(a0, beta) && a == Min(Max(a0, m), beta)
    requires Bounds(a, beta, x, y)
    requires Less(beta, Max(y, a))
    requires LessEq(Max(m, x), v)
    ensures Bounds(a0, beta, v, Max(y, a))
  {
  }

  /** Max loop, last child done without a prune. */
  lemma MaxStepEnd(a0: ExtInt, beta: ExtInt, v: ExtInt, a: ExtInt)
    requires LessEq(a0, beta) && a == Min(Max(a0, v), beta)
    ensures Bounds(a0, beta, v, a)
  {
  }

  /** Min loop, a child that does not prune. */
  lemma MinStepContinue(cfg: Config, alfa: ExtInt, b0: ExtInt, m: ExtInt, bt: ExtInt, x: ExtInt, y: ExtInt)
    requires LessEq(alfa, b0) && bt == Max(Min(b0, m), alfa)
    requires Bounds(alfa, bt, x, y)
    requires !MinPrunes(cfg, alfa, Min(y, bt))
    ensures Min(y, bt) == Max(Min(b0, Min(m, x)), alfa)
  {
  }

  /** Min loop, a child that prunes. */
  lemma MinStepPrune(cfg: Config, alfa: ExtInt, b0: ExtInt, m: ExtInt, bt: ExtInt, x: ExtInt, y: ExtInt, v: ExtInt)
    requires LessEq(alfa, b0) && bt == Max(Min(b0, m), alfa)
    requires Bounds(alfa, bt, x, y)
    requires MinPrunes(cfg, alfa, Min(y, bt))
    requires LessEq(v, Min(m, x))
    ensures Bounds(alfa, b0, v, Min(y, bt))
  {
  }

  /** Min loop, last child done without a prune. */
  lemma MinStepEnd(alfa: ExtInt, b0: ExtInt, v: ExtInt, bt: ExtInt)
    requires LessEq(alfa, b0) && bt == Max(Min(b0, v), alfa)
    ensures Bounds(alfa, b0, v, bt)
  {
  }

  /** With a clock that never expires, a max node searched with any window
      `alfa <= beta` satisfies the window property against its minimax
      value. */
  lemma {:induction false} MaxWindow<B>(cfg: Config, r: Rules<B>, me: Color, b: B, alfa: ExtInt, beta: ExtInt,
                                        depth: int, c: Counters)
    requires Timeless(cfg) && LessEq(alfa, beta)
    ensures Bounds(alfa, beta, Fin(MaxValue(r, me, b, depth)), SearchMax(cfg, r, me, b, alfa, beta, depth, c).value)
    decreases depth, 1
  {
    if |r.legalMoves(b, me)| > 0 && depth > 0 {
      MaxLoopWindow(cfg, r, me, b, alfa, beta, depth, 0, alfa, c);
    }
  }

  /** The loop of a max node keeps `alfa == min(max(alfa0, best so far), beta)`
      until it prunes or runs out of moves. */
  lemma {:induction false} MaxLoopWindow<B>(cfg: Config, r: Rules<B>, me: Color, b: B, a0: ExtInt, beta: ExtInt,
                                            depth: int, i: nat, a: ExtInt, c: Counters)
    requires Timeless(cfg) && LessEq(a0, beta)
    requires depth > 0 && i <= |r.legalMoves(b, me)|
    requires a == Min(Max(a0, MaxPrefix(r, me, b, depth, i)), beta)
    ensures Bounds(a0, beta, MaxPrefix(r, me, b, depth, |r.legalMoves(b, me)|),
                   MaxLoop(cfg, r, me, b, a, beta, depth, i, c).value)
    decreases depth, 0, |r.legalMoves(b, me)| - i, 1
  {
    var n := |r.legalMoves(b, me)|;
    var m := MaxPrefix(r, me, b, depth, i);
    if i == n {
      MaxStepEnd(a0, beta, m, a);
    } else {
      var x, y, c' := MaxTurn(cfg, r, me, b, beta, depth, i, a, c);
      if Less(beta, Max(y, a)) {
        MaxPrefixGrows(r, me, b, depth, i + 1, n);
        MaxStepPrune(a0, beta, m, a, x, y, MaxPrefix(r, me, b, depth, n));
      } else {
        MaxStepContinue(a0, beta, m, a, x, y);
        MaxLoopWindow(cfg, r, me, b, a0, beta, depth, i + 1, Max(y, a), c');
      }
    }
  }

  /** One turn of a max node's loop seen from outside: the child's minimax
      value `x`, the value `y` its search returns, the window property
      between the two, and the counters the loop goes on with. */
  lemma {:induction false} MaxTurn<B>(cfg: Config, r: Rules<B>, me: Color, b: B, beta: ExtInt, depth: int, i: nat,
                                      a: ExtInt, c: Counters)
    returns (x: ExtInt, y: ExtInt, c': Counters)
    requires Timeless(cfg) && LessEq(a, beta)
    requires depth > 0 && i < |r.legalMoves(b, me)|
    ensures Bounds(a, beta, x, y)
    ensures MaxPrefix(r, me, b, depth, i + 1) == Max(MaxPrefix(r, me, b, depth, i), x)
    ensures Less(beta, Max(y, a)) ==> MaxLoop(cfg, r, me, b, a, beta, depth, i, c).value == Max(y, a)
    ensures !Less(beta, Max(y, a)) ==>
              MaxLoop(cfg, r, me, b, a, beta, depth, i, c).value == MaxLoop(cfg, r, me, b, Max(y, a), beta, depth, i + 1, c').value
    decreases depth, 0, |r.legalMoves(b, me)| - i, 0
  {
    var child := r.apply(b, r.legalMoves(b, me)[i], me);
    var o := SearchMin(cfg, r, me, child, a, beta, depth - 1, Counters(c.expanded + 1, c.pruned));
    x, y, c' := Fin(MinValue(r, me, child, depth - 1)), o.value, o.counters;
    MinWindow(cfg, r, me, child, a, beta, depth - 1, Counters(c.expanded + 1, c.pruned));
    MaxPrefixStep(r, me, b, depth, i);
    MaxLoopStep(cfg, r, me, b, a, beta, depth, i, c);
  }

  /** The dual of `MaxWindow` for min nodes. */
  lemma {:induction false} MinWindow<B>(cfg: Config, r: Rules<B>, me: Color, b: B, alfa: ExtInt, beta: ExtInt,
                                        depth: int, c: Counters)
    requires Timeless(cfg) && LessEq(alfa, beta)
    ensures Bounds(alfa, beta, Fin(MinValue(r, me, b, depth)), SearchMin(cfg, r, me, b, alfa, beta, depth, c).value)
    decreases depth, 1
  {
    if |r.legalMoves(b, Opponent(me))| > 0 && depth > 0 {
      MinLoopWindow(cfg, r, me, b, alfa, beta, depth, 0, beta, c);
    }
  }

  /** The loop of a min node keeps `beta == max(min(beta0, best so far), alfa)`
      until it prunes or runs out of moves, whichever prune test is used. */
  lemma {:induction false} MinLoopWindow<B>(cfg: Config, r: Rules<B>, me: Color, b: B, alfa: ExtInt, b0: ExtInt,
                                            depth: int, i: nat, bt: ExtInt, c: Counters)
    requires Timeless(cfg) && LessEq(alfa, b0)
    requires depth > 0 && i <= |r.legalMoves(b, Opponent(me))|
    requires bt == Max(Min(b0, MinPrefix(r, me, b, depth, i)), alfa)
    ensures Bounds(alfa, b0, MinPrefix(r, me, b, depth, |r.legalMoves(b, Opponent(me))|),
                   MinLoop(cfg, r, me, b, alfa, bt, depth, i, c).value)
    decreases depth, 0, |r.legalMoves(b, Opponent(me))| - i, 1
  {
    var n := |r.legalMoves(b, Opponent(me))|;
    var m := MinPrefix(r, me, b, depth, i);
    if i == n {
      MinStepEnd(alfa, b0, m, bt);
    } else {
      var x, y, c' := MinTurn(cfg, r, me, b, alfa, depth, i, bt, c);
      if MinPrunes(cfg, alfa, Min(y, bt)) {
        MinPrefixShrinks(r, me, b, depth, i + 1, n);
        MinStepPrune(cfg, alfa, b0, m, bt, x, y, MinPrefix(r, me, b, depth, n));
      } else {
        MinStepContinue(cfg, alfa, b0, m, bt, x, y);
        MinLoopWindow(cfg, r, me, b, alfa, b0, depth, i + 1, Min(y, bt), c');
      }
    }
  }

  /** One turn of a min node's loop seen from outside. */
  lemma {:induction false} MinTurn<B>(cfg: Config, r: Rules<B>, me: Color, b: B, alfa: ExtInt, depth: int, i: nat,
                                      bt: ExtInt, c: Counters)
    returns (x: ExtInt, y: ExtInt, c': Counters)
    requires Timeless(cfg) && LessEq(alfa, bt)
    requires depth > 0 && i < |r.legalMoves(b, Opponent(me))|
    ensures Bounds(alfa, bt, x, y)
    ensures MinPrefix(r, me, b, depth, i + 1) == Min(MinPrefix(r, me, b, depth, i), x)
    ensures MinPrunes(cfg, alfa, Min(y, bt)) ==> MinLoop(cfg, r, me, b, alfa, bt, depth, i, c).value == Min(y, bt)
    ensures !MinPrunes(cfg, alfa, Min(y, bt)) ==>
              MinLoop(cfg, r, me, b, alfa, bt, depth, i, c).value == MinLoop(cfg, r, me, b, alfa, Min(y, bt), depth, i + 1, c').value
    decreases depth, 0, |r.legalMoves(b, Opponent(me))| - i, 0
  {
    var child := r.apply(b, r.legalMoves(b, Opponent(me))[i], Opponent(me));
    var o := SearchMax(cfg, r, me, child, alfa, bt, depth - 1, Counters(c.expanded + 1, c.pruned));
    x, y, c' := Fin(MaxValue(r, me, child, depth - 1)), o.value, o.counters;
    MaxWindow(cfg, r, me, child, alfa, bt, depth - 1, Counters(c.expanded + 1, c.pruned));
    MinPrefixStep(r, me, b, depth, i);
    MinLoopStep(cfg, r, me, b, alfa, bt, depth, i, c);
  }

  /** The headline: searched with the full window (-inf, +inf) and a clock
      that never expires, alpha-beta returns exactly the minimax value, with
      either prune test at min nodes. */
  lemma FullWindowIsMinimax<B>(cfg: Config, r: Rules<B>, me: Color, b: B, depth: int, c: Counters)
    requires Timeless(cfg)
    ensures SearchMax(cfg, r, me, b, NegInf, PosInf, depth, c).value == Fin(MaxValue(r, me, b, depth))
    ensures SearchMin(cfg, r, me, b, NegInf, PosInf, depth, c).value == Fin(MinValue(r, me, b, depth))
  {
    MaxWindow(cfg, r, me, b, NegInf, PosInf, depth, c);
    MinWindow(cfg, r, me, b, NegInf, PosInf, depth, c);
  }

  /** Two configurations with the same prune test whose clocks never expire
      search identically: same values and same counters. In particular the
      clocked agent, while its budget lasts, is `player_alpha_beta`. */
  lemma {:induction false} ClockIgnoredMax<B>(cfg1: Config, cfg2: Config, r: Rules<B>, me: Color, b: B,
                                              alfa: ExtInt, beta: ExtInt, depth: int, c: Counters)
    requires Timeless(cfg1) && Timeless(cfg2) && cfg1.minPruneStrict == cfg2.minPruneStrict
    ensures SearchMax(cfg1, r, me, b, alfa, beta, depth, c) == SearchMax(cfg2, r, me, b, alfa, beta, depth, c)
    decreases depth, 1
  {
    if |r.legalMoves(b, me)| > 0 && depth > 0 {
      ClockIgnoredMaxLoop(cfg1, cfg2, r, me, b, alfa, beta, depth, 0, c);
    }
  }

  lemma {:induction false} ClockIgnoredMaxLoop<B>(cfg1: Config, cfg2: Config, r: Rules<B>, me: Color, b: B,
                                                  alfa: ExtInt, beta: ExtInt, depth: int, i: nat, c: Counters)
    requires Timeless(cfg1) && Timeless(cfg2) && cfg1.minPruneStrict == cfg2.minPruneStrict
    requires depth > 0 && i <= |r.legalMoves(b, me)|
    ensures MaxLoop(cfg1, r, me, b, alfa, beta, depth, i, c) == MaxLoop(cfg2, r, me, b, alfa, beta, depth, i, c)
    decreases depth, 0, |r.legalMoves(b, me)| - i
  {
    var moves := r.legalMoves(b, me);
    if i < |moves| {
      var child := r.apply(b, moves[i], me);
      var c' := Counters(c.expanded + 1, c.pruned);
      ClockIgnoredMin(cfg1, cfg2, r, me, child, alfa, beta, depth - 1, c');
      var o := SearchMin(cfg1, r, me, child, alfa, beta, depth - 1, c');
      ClockIgnoredMaxLoop(cfg1, cfg2, r, me, b, Max(o.value, alfa), beta, depth, i + 1, o.counters);
    }
  }

  lemma {:induction false} ClockIgnoredMin<B>(cfg1: Config, cfg2: Config, r: Rules<B>, me: Color, b: B,
                                              alfa: ExtInt, beta: ExtInt, depth: int, c: Counters)
    requires Timeless(cfg1) && Timeless(cfg2) && cfg1.minPruneStrict == cfg2.minPruneStrict
    ensures SearchMin(cfg1, r, me, b, alfa, beta, depth, c) == SearchMin(cfg2, r, me, b, alfa, beta, depth, c)
    decreases depth, 1
  {
    if |r.legalMoves(b, Opponent(me))| > 0 && depth > 0 {
      ClockIgnoredMinLoop(cfg1, cfg2, r, me, b, alfa, beta, depth, 0, c);
    }
  }

  lemma {:induction false} ClockIgnoredMinLoop<B>(cfg1: Config, cfg2: Config, r: Rules<B>, me: Color, b: B,
                                                  alfa: ExtInt, beta: ExtInt, depth: int, i: nat, c: Counters)
    requires Timeless(cfg1) && Timeless(cfg2) && cfg1.minPruneStrict == cfg2.minPruneStrict
    requires depth > 0 && i <= |r.legalMoves(b, Opponent(me))|
    ensures MinLoop(cfg1, r, me, b, alfa, beta, depth, i, c) == MinLoop(cfg2, r, me, b, alfa, beta, depth, i, c)
    decreases depth, 0, |r.legalMoves(b, Opponent(me))| - i
  {
    var moves := r.legalMoves(b, Opponent(me));
    if i < |moves| {
      var child := r.apply(b, moves[i], Opponent(me));
      var c' := Counters(c.expanded + 1, c.pruned);
      ClockIgnoredMax(cfg1, cfg2, r, me, child, alfa, beta, depth - 1, c');
      var o := SearchMax(cfg1, r, me, child, alfa, beta, depth - 1, c');
      ClockIgnoredMinLoop(cfg1, cfg2, r, me, b, alfa, Min(o.value, beta), depth, i + 1, o.counters);
    }
  }

  /** The root loop runs `n` full-window searches of the same unmoved board
      one after the other; the counters carry over from one to the next. The
      result is the list of root scores and the final counters. */
  function RootRun<B>(cfg: Config, r: Rules<B>, me: Color, b: B, depth: int, n: nat, c: Counters)
    : (res: (seq<ExtInt>, Counters))
    ensures |res.0| == n
    ensures Grows(c, res.1)
  {
    if n == 0 then ([], c)
    else
      var (scores, c1) := RootRun(cfg, r, me, b, depth, n - 1, c);
      var o := SearchMax(cfg, r, me, b, NegInf, PosInf, depth, c1);
      (scores + [o.value], o.counters)
  }

  /** Without a clock running out every root score is the minimax value of
      the unmoved board. */
  lemma {:induction false} RootRunIsMinimax<B>(cfg: Config, r: Rules<B>, me: Color, b: B, depth: int, n: nat,
                                               c: Counters)
    requires Timeless(cfg)
    ensures forall i :: 0 <= i < n ==> RootRun(cfg, r, me, b, depth, n, c).0[i] == Fin(MaxValue(r, me, b, depth))
  {
    if n > 0 {
      RootRunIsMinimax(cfg, r, me, b, depth, n - 1, c);
      FullWindowIsMinimax(cfg, r, me, b, depth, RootRun(cfg, r, me, b, depth, n - 1, c).1);
    }
  }

  /** The `i`-th root score is the search started from the counters the
      first `i` root searches left behind. */
  lemma {:induction false} RootRunStep<B>(cfg: Config, r: Rules<B>, me: Color, b: B, depth: int, n: nat,
                                          c: Counters, i: nat)
    requires i < n
    ensures RootRun(cfg, r, me, b, depth, n, c).0[i] ==
            SearchMax(cfg, r, me, b, NegInf, PosInf, depth, RootRun(cfg, r, me, b, depth, i, c).1).value
    decreases n
  {
    if i < n - 1 {
      RootRunStep(cfg, r, me, b, depth, n - 1, c, i);
    }
  }

  /** One turn of a max node's loop, for the agents' loop invariants. */
  lemma MaxLoopStep<B>(cfg: Config, r: Rules<B>, me: Color, b: B, alfa: ExtInt, beta: ExtInt, depth: int,
                       i: nat, c: Counters)
    requires depth > 0 && i < |r.legalMoves(b, me)|
    ensures var o := SearchMin(cfg, r, me, r.apply(b, r.legalMoves(b, me)[i], me), alfa, beta, depth - 1,
                               Counters(c.expanded + 1, c.pruned));
            var a := Max(o.value, alfa);
            MaxLoop(cfg, r, me, b, alfa, beta, depth, i, c) ==
              if Less(beta, a) then Outcome(a, Counters(o.counters.expanded, o.counters.pruned + 1))
              else MaxLoop(cfg, r, me, b, a, beta, depth, i + 1, o.counters)
  {
  }

  /** One turn of a min node's loop, for the agents' loop invariants. */
  lemma MinLoopStep<B>(cfg: Config, r: Rules<B>, me: Color, b: B, alfa: ExtInt, beta: ExtInt, depth: int,
                       i: nat, c: Counters)
    requires depth > 0 && i < |r.legalMoves(b, Opponent(me))|
    ensures var o := SearchMax(cfg, r, me, r.apply(b, r.legalMoves(b, Opponent(me))[i], Opponent(me)), alfa, beta,
                               depth - 1, Counters(c.expanded + 1, c.pruned));
            var bt := Min(o.value, beta);
            MinLoop(cfg, r, me, b, alfa, beta, depth, i, c) ==
              if MinPrunes(cfg, alfa, bt) then Outcome(bt, Counters(o.counters.expanded, o.counters.pruned + 1))
              else MinLoop(cfg, r, me, b, alfa, bt, depth, i + 1, o.counters)
  {
  }
}
