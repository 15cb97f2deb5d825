/** The `AlphaBeta` agent of `player_alpha_beta_v2`: alpha-beta with the
    positional bonus `move_eval` added to every child, a clock, and an
    iterative-deepening root. The wall clock is the oracle `timeUp`, asked
    with the number of nodes expanded so far: it stands for
    `perf_counter_ns() - start_time > max_time`. */
module PlayerAlphaBetaV2 {
  import opened Board
  import opened ExtInts
  import opened Selection
  import opened AlphaBetaSearch
  import opened AlphaBetaV2Search
  import opened Positional
  import opened Zones

  class AlphaBeta<B> {
    const rules: Rules<B>
    const myColor: Color
    const opponentColor: Color := Opponent(myColor)
    var board: B
    /** My legal moves on the board the agent was built with. */
    const availableMoves: seq<Move>
    var pruningCounter: nat
    var nodeExpandsCounter: nat
    /** Has the time budget been spent once `n` nodes were expanded? */
    const timeUp: nat -> bool
    /** `get_danger_zone()`: the hard-coded list, its loop never running. */
    const dangerZone: seq<Move> := DangerZone
    /** `get_borders_zone()`: the hard-coded list, its loop never running. */
    const bordersZone: seq<Move> := BordersZone

    constructor (rules: Rules<B>, board: B, colorName: string, timeUp: nat -> bool)
      ensures this.rules == rules && this.board == board && this.timeUp == timeUp
      ensures myColor == ColorOf(colorName) && opponentColor == Opponent(myColor)
      ensures availableMoves == rules.legalMoves(board, myColor)
      ensures pruningCounter == 0 && nodeExpandsCounter == 0
      ensures |dangerZone| == 20 && forall m :: m in dangerZone <==> OnRing(m, 1, 6)
      ensures |bordersZone| == 28 && forall m :: m in bordersZone <==> OnRing(m, 0, 7)
      ensures Valid()
    {
      forall m: Move
        ensures (m in DangerZone <==> OnRing(m, 1, 6)) && (m in BordersZone <==> OnRing(m, 0, 7))
      {
        DangerZoneCells(m);
        BordersZoneCells(m);
      }
      this.rules := rules;
      myColor := ColorOf(colorName);
      this.board := board;
      availableMoves := rules.legalMoves(board, ColorOf(colorName));
      pruningCounter := 0;
      nodeExpandsCounter := 0;
      this.timeUp := timeUp;
    }

    ghost predicate Valid()
      reads this
    {
      pruningCounter <= nodeExpandsCounter
    }

    function Stats(): Counters
      reads this
    {
      Counters(nodeExpandsCounter, pruningCounter)
    }

    /** `__get_board_score`. */
    function GetBoardScore(b: B): (s: int)
      requires Valid()
      reads this
      ensures s == Score(rules, b, myColor)
    {
      rules.pieceCount(b, myColor) - rules.pieceCount(b, opponentColor)
    }

    /** `cut_test`: true once the clock has run out; otherwise true exactly
        when I have no legal move or no depth is left, whichever kind of
        node asks. */
    function CutTest(aBoard: B, maxDepth: int): (cut: bool)
      reads this
      ensures timeUp(nodeExpandsCounter) ==> cut
      ensures !timeUp(nodeExpandsCounter) ==> (cut <==> |rules.legalMoves(aBoard, myColor)| == 0 || maxDepth <= 0)
    {
      if timeUp(nodeExpandsCounter) then true
      else if |rules.legalMoves(aBoard, myColor)| > 0 && maxDepth > 0 then false
      else true
    }

    /** `check_opponent_next_move`: plays `move` for `color` and scores the
        other side's replies, leaving the loop at the first border reply. */
    method CheckOpponentNextMove(aBoard: B, move: Move, color: Color) returns (score: int)
      ensures score == OpponentReplyScore(rules, aBoard, move, color)
    {
      score := 0;
      var played := rules.apply(aBoard, move, color);
      var opponentNextMoves := rules.legalMoves(played, Opponent(color));
      if |opponentNextMoves| < 3 {
        score := score + 5;
      }
      if |opponentNextMoves| < 1 {
        score := score + 10;
      }
      ghost var base := score;
      for k := 0 to |opponentNextMoves|
        invariant score == base
        invariant ReplyScore(opponentNextMoves) == base + FirstEdgePenalty(opponentNextMoves[k..])
      {
        var opponentMove := opponentNextMoves[k];
        assert opponentNextMoves[k..][0] == opponentMove;
        assert opponentNextMoves[k..][1..] == opponentNextMoves[k + 1..];
        if CornerBonus(opponentMove) != 0 {
          score := score - 2;
          return;
        }
        if BorderBonus(opponentMove) != 0 {
          score := score - 1;
          return;
        }
      }
    }

    /** `move_eval`: the three static terms, the zone terms looked up in the
        stored lists, plus the reply score. */
    method MoveEval(aBoard: B, move: Move, color: Color) returns (score: int)
      ensures score == Positional.MoveEval(rules, aBoard, move, color)
      ensures score == Evaluator(rules)(aBoard, move, color)
    {
      score := 0;
      score := score + CornerBonus(move);
      DangerPenaltyByList(move);
      BorderBonusByList(move);
      score := score + (if move in dangerZone then -2 else 0);
      score := score + (if move in bordersZone then 3 else 0);
      var reply := CheckOpponentNextMove(aBoard, move, color);
      score := score + reply;
    }

    /** One turn of `alfa_beta_max`'s loop up to the window test: count the
        expansion, search the child made by my `i`-th move with the min
        node's window and add the move's `move_eval` on the child. The new
        `alfa` is `max(w, alfa)`, and the rest of the loop is stated in terms
        of it. */
    method ExpandForMax(aBoard: B, move: Move, alfa: ExtInt, beta: ExtInt, maxDepth: int, i: nat, ghost c: Counters)
      returns (w: ExtInt)
      requires Valid() && Stats() == c && maxDepth > 0
      requires i < |rules.legalMoves(aBoard, myColor)| && move == rules.legalMoves(aBoard, myColor)[i]
      modifies this`pruningCounter, this`nodeExpandsCounter
      ensures Valid()
      ensures V2MaxLoop(rules, myColor, Evaluator(rules), timeUp, aBoard, alfa, beta, maxDepth, i, c) ==
              if Less(beta, Max(w, alfa)) then Outcome(Max(w, alfa), Counters(nodeExpandsCounter, pruningCounter + 1))
              else V2MaxLoop(rules, myColor, Evaluator(rules), timeUp, aBoard, Max(w, alfa), beta, maxDepth, i + 1, Stats())
      decreases maxDepth, 0
    {
      var imaginaryBoard := rules.apply(aBoard, move, myColor);
      nodeExpandsCounter := nodeExpandsCounter + 1;
      w := AlfaBetaMin(imaginaryBoard, alfa, beta, maxDepth - 1);
      var bonus := MoveEval(imaginaryBoard, move, myColor);
      w := Plus(w, bonus);
      V2MaxLoopTurn(rules, myColor, Evaluator(rules), timeUp, aBoard, alfa, beta, maxDepth, i, c, w, Stats());
    }

    method AlfaBetaMax(aBoard: B, alfa: ExtInt, beta: ExtInt, maxDepth: int) returns (v: ExtInt)
      requires Valid()
      modifies this`pruningCounter, this`nodeExpandsCounter
      ensures Valid()
      ensures Outcome(v, Stats()) == V2Max(rules, myColor, Evaluator(rules), timeUp, aBoard, alfa, beta, maxDepth, old(Stats()))
      decreases maxDepth, 1
    {
      ghost var e := Evaluator(rules);
      if !CutTest(aBoard, maxDepth) {
        var moves := rules.legalMoves(aBoard, myColor);
        ghost var goal := V2Max(rules, myColor, e, timeUp, aBoard, alfa, beta, maxDepth, Stats());
        var a := alfa;
        var i := 0;
        while i < |moves|
          invariant 0 <= i <= |moves|
          invariant Valid()
          invariant V2MaxLoop(rules, myColor, e, timeUp, aBoard, a, beta, maxDepth, i, Stats()) == goal
        {
          ghost var c := Stats();
          var w := ExpandForMax(aBoard, moves[i], a, beta, maxDepth, i, c);
          a := Max(w, a);
          if Less(beta, a) {
            pruningCounter := pruningCounter + 1;
            return a;
          }
          i := i + 1;
        }
        v := a;
      } else {
        assert V2Max(rules, myColor, e, timeUp, aBoard, alfa, beta, maxDepth, Stats()) ==
               Outcome(Fin(Score(rules, aBoard, myColor)), Stats());
        v := Fin(GetBoardScore(aBoard));
      }
    }

    /** One turn of `alfa_beta_min`'s loop up to the window test: count the
        expansion, search the child made by the opponent's `i`-th move with
        the max node's window and add the move's `move_eval` on the child.
        The new `beta` is `min(w, beta)`, and the rest of the loop is stated
        in terms of it. */
    method ExpandForMin(aBoard: B, move: Move, alfa: ExtInt, beta: ExtInt, maxDepth: int, i: nat, ghost c: Counters)
      returns (w: ExtInt)
      requires Valid() && Stats() == c && maxDepth > 0
      requires i < |rules.legalMoves(aBoard, Opponent(myColor))| && move == rules.legalMoves(aBoard, Opponent(myColor))[i]
      modifies this`pruningCounter, this`nodeExpandsCounter
      ensures Valid()
      ensures V2MinLoop(rules, myColor, Evaluator(rules), timeUp, aBoard, alfa, beta, maxDepth, i, c) ==
              if LessEq(Min(w, beta), alfa) then Outcome(Min(w, beta), Counters(nodeExpandsCounter, pruningCounter + 1))
              else V2MinLoop(rules, myColor, Evaluator(rules), timeUp, aBoard, alfa, Min(w, beta), maxDepth, i + 1, Stats())
      decreases maxDepth, 0
    {
      var imaginaryBoard := rules.apply(aBoard, move, opponentColor);
      nodeExpandsCounter := nodeExpandsCounter + 1;
      w := AlfaBetaMax(imaginaryBoard, alfa, beta, maxDepth - 1);
      var bonus := MoveEval(imaginaryBoard, move, opponentColor);
      w := Plus(w, bonus);
      V2MinLoopTurn(rules, myColor, Evaluator(rules), timeUp, aBoard, alfa, beta, maxDepth, i, c, w, Stats());
    }

    method AlfaBetaMin(aBoard: B, alfa: ExtInt, beta: ExtInt, maxDepth: int) returns (v: ExtInt)
      requires Valid()
      modifies this`pruningCounter, this`nodeExpandsCounter
      ensures Valid()
      ensures Outcome(v, Stats()) == V2Min(rules, myColor, Evaluator(rules), timeUp, aBoard, alfa, beta, maxDepth, old(Stats()))
      decreases maxDepth, 1
    {
      ghost var e := Evaluator(rules);
      if !CutTest(aBoard, maxDepth) {
        var moves := rules.legalMoves(aBoard, opponentColor);
        ghost var goal := V2Min(rules, myColor, e, timeUp, aBoard, alfa, beta, maxDepth, Stats());
        var bt := beta;
        var i := 0;
        while i < |moves|
          invariant 0 <= i <= |moves|
          invariant Valid()
          invariant V2MinLoop(rules, myColor, e, timeUp, aBoard, alfa, bt, maxDepth, i, Stats()) == goal
        {
          ghost var c := Stats();
          var w := ExpandForMin(aBoard, moves[i], alfa, bt, maxDepth, i, c);
          bt := Min(w, bt);
          if LessEq(bt, alfa) {
            pruningCounter := pruningCounter + 1;
            return bt;
          }
          i := i + 1;
        }
        v := bt;
      } else {
        assert V2Min(rules, myColor, e, timeUp, aBoard, alfa, beta, maxDepth, Stats()) ==
               Outcome(Fin(Score(rules, aBoard, myColor)), Stats());
        v := Fin(GetBoardScore(aBoard));
      }
    }

    /** `show_move_result` without its printing. */
    method ShowMoveResult(selectedMove: Move) returns (m: Move)
      modifies this`board
      ensures board == rules.apply(old(board), selectedMove, myColor)
      ensures m == selectedMove
    {
      board := rules.apply(board, selectedMove, myColor);
      m := selectedMove;
    }

    /** The body of `next_move_alfa_beta`'s inner loop: my `i`-th move is
        scored at `depth` by the full-window search of a copy of the unmoved
        board plus the move's `move_eval` on that copy, and replaces the
        running best `(v0, best0)` when its score is strictly greater. With
        `c` the counters the level started from and `acc` the running best it
        started from, the level run and the running best move on by one
        candidate. */
    method ScoreRootMove(move: Move, depth: int, i: nat, v0: ExtInt, best0: Move,
                         ghost c: Counters, ghost acc: (ExtInt, Move))
      returns (v: ExtInt, bestMove: Move)
      requires Valid() && 1 <= depth
      requires i < |rules.legalMoves(board, myColor)| && move == rules.legalMoves(board, myColor)[i]
      requires Stats() == LevelRun(rules, myColor, Evaluator(rules), timeUp, board, depth, i, c).1
      requires (v0, best0) == PickFrom(acc, rules.legalMoves(board, myColor)[..i],
                                       LevelRun(rules, myColor, Evaluator(rules), timeUp, board, depth, i, c).0, i)
      modifies this`pruningCounter, this`nodeExpandsCounter
      ensures Valid()
      ensures Stats() == LevelRun(rules, myColor, Evaluator(rules), timeUp, board, depth, i + 1, c).1
      ensures (v, bestMove) == PickFrom(acc, rules.legalMoves(board, myColor)[..i + 1],
                                        LevelRun(rules, myColor, Evaluator(rules), timeUp, board, depth, i + 1, c).0, i + 1)
    {
      ghost var moves := rules.legalMoves(board, myColor);
      ghost var before := LevelRun(rules, myColor, Evaluator(rules), timeUp, board, depth, i, c).0;
      ghost var after := LevelRun(rules, myColor, Evaluator(rules), timeUp, board, depth, i + 1, c).0;
      assert after[..i] == before && moves[..i + 1][..i] == moves[..i];
      PickFromPrefix(acc, moves[..i + 1], after, moves[..i], before, i);
      var imaginaryBoard := board;
      var score := AlfaBetaMax(imaginaryBoard, NegInf, PosInf, depth);
      var bonus := MoveEval(imaginaryBoard, move, myColor);
      score := Plus(score, bonus);
      v, bestMove := v0, best0;
      if Less(v, score) {
        v := score;
        bestMove := move;
      }
    }

    /** One pass of `next_move_alfa_beta`'s inner loop, at `depth`: every one
        of my moves is visited in turn. From the counters `c`, the counters
        are those after one level run, and the running best is `(v0, best0)`
        compared in turn against that level's scores. */
    method ScoreLevel(depth: int, v0: ExtInt, best0: Move, ghost c: Counters)
      returns (v: ExtInt, bestMove: Move)
      requires Valid() && 1 <= depth && Stats() == c
      modifies this`pruningCounter, this`nodeExpandsCounter
      ensures Valid()
      ensures Stats() == LevelRun(rules, myColor, Evaluator(rules), timeUp, board, depth,
                                  |rules.legalMoves(board, myColor)|, c).1
      ensures (v, bestMove) == PickFrom((v0, best0), rules.legalMoves(board, myColor),
                                        LevelRun(rules, myColor, Evaluator(rules), timeUp, board, depth,
                                                 |rules.legalMoves(board, myColor)|, c).0,
                                        |rules.legalMoves(board, myColor)|)
    {
      v, bestMove := v0, best0;
      var moves := rules.legalMoves(board, myColor);
      var i := 0;
      while i < |moves|
        invariant 0 <= i <= |moves|
        invariant Valid()
        invariant Stats() == LevelRun(rules, myColor, Evaluator(rules), timeUp, board, depth, i, c).1
        invariant (v, bestMove) == PickFrom((v0, best0), moves[..i],
                                            LevelRun(rules, myColor, Evaluator(rules), timeUp, board, depth, i, c).0, i)
      {
        v, bestMove := ScoreRootMove(moves[i], depth, i, v, bestMove, c, (v0, best0));
        i := i + 1;
      }
      assert moves[..i] == moves;
    }

    /** `next_move_alfa_beta`: with no available move, the pass move and
        nothing else; otherwise, for each depth from 1 to `maxDepth`, every
        one of my moves is scored by the full-window search of the unmoved
        board plus the move's `move_eval`, and the running best over all
        depths is played. */
    method NextMoveAlfaBeta(maxDepth: int) returns (bestMove: Move)
      requires Valid()
      modifies this`board, this`pruningCounter, this`nodeExpandsCounter
      ensures Valid()
      ensures |availableMoves| < 1 ==> bestMove == Pass && board == old(board) && Stats() == old(Stats())
      ensures |availableMoves| >= 1 ==>
                var run := DeepRun(rules, myColor, Evaluator(rules), timeUp, old(board), maxDepth, old(Stats()));
                bestMove == FirstBest(Candidates(rules.legalMoves(old(board), myColor), maxDepth), run.0) &&
                Stats() == run.1 && board == rules.apply(old(board), bestMove, myColor)
      ensures |availableMoves| >= 1 && maxDepth < 1 ==> bestMove == Pass
    {
      var alfa := NegInf;
      var beta := PosInf;
      var v := NegInf;
      bestMove := Pass;
      if |availableMoves| < 1 {
        return;
      }
      ghost var e := Evaluator(rules);
      ghost var c0 := Stats();
      ghost var legal := rules.legalMoves(board, myColor);
      var depth := 1;
      while depth <= maxDepth
        invariant Valid() && board == old(board)
        invariant 1 <= depth <= if maxDepth < 1 then 1 else maxDepth + 1
        invariant Stats() == DeepRun(rules, myColor, e, timeUp, board, depth - 1, c0).1
        invariant |Candidates(legal, depth - 1)| <= |Candidates(legal, maxDepth)|
        invariant (v, bestMove) ==
                  PickPrefix(Candidates(legal, maxDepth), DeepRun(rules, myColor, e, timeUp, board, maxDepth, c0).0,
                             |Candidates(legal, depth - 1)|)
      {
        DeepRunLevel(rules, myColor, e, timeUp, board, depth, maxDepth, c0);
        v, bestMove := ScoreLevel(depth, v, bestMove, Stats());
        depth := depth + 1;
      }
      bestMove := ShowMoveResult(bestMove);
    }
  }
}
