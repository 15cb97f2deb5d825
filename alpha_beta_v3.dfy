/** The `AlphaBeta` agent of `player_alpha_beta_v3`: the plain agent's
    alpha-beta (prune test `alfa >= beta` at min nodes) with a time budget.
    A node whose time has run out is a leaf. The wall clock is the oracle
    `timeUp`, asked with the number of nodes expanded so far: it stands for
    `perf_counter_ns() - start_time >= max_time`. */
module PlayerAlphaBetaV3 {
  import opened Board
  import opened ExtInts
  import opened Selection
  import opened MinMax
  import opened AlphaBetaSearch
  import opened Zones

  class AlphaBeta<B> {
    const rules: Rules<B>
    const myColor: Color
    const opponentColor: Color
    var board: B
    /** My legal moves on the board the agent was built with. */
    const availableMoves: seq<Move>
    var pruningCounter: nat
    var nodeExpandsCounter: nat
    /** Has the time budget been spent once `n` nodes were expanded? */
    const timeUp: nat -> bool
    /** The danger-zone list the constructor stores. */
    const dangerZone: seq<Move> := DangerZone

    constructor (rules: Rules<B>, board: B, colorName: string, timeUp: nat -> bool)
      ensures this.rules == rules && this.board == board && this.timeUp == timeUp
      ensures myColor == ColorOf(colorName) && opponentColor == Opponent(myColor)
      ensures availableMoves == rules.legalMoves(board, myColor)
      ensures pruningCounter == 0 && nodeExpandsCounter == 0
      ensures Valid()
    {
      this.rules := rules;
      myColor := ColorOf(colorName);
      opponentColor := Opponent(ColorOf(colorName));
      this.board := board;
      availableMoves := rules.legalMoves(board, ColorOf(colorName));
      pruningCounter := 0;
      nodeExpandsCounter := 0;
      this.timeUp := timeUp;
    }

    ghost predicate Valid()
      reads this
    {
      opponentColor == Opponent(myColor) && pruningCounter <= nodeExpandsCounter
    }

    function Stats(): Counters
      reads this
    {
      Counters(nodeExpandsCounter, pruningCounter)
    }

    /** The search configuration this agent runs. */
    function Clocked(): Config {
      Config(false, timeUp)
    }

    /** `has_time`: the budget is not spent yet. It is the third conjunct of
        both node guards. */
    function HasTime(): (t: bool)
      reads this
      ensures t <==> !Clocked().timeUp(Stats().expanded)
    {
      !timeUp(nodeExpandsCounter)
    }

    /** The `danger_zone` method the stored list shadows: the ring of cells
        one step inside the edge, built column by column. */
    method DangerZoneList() returns (zone: seq<Move>)
      ensures zone == dangerZone
      ensures |zone| == 20 && forall m :: m in zone <==> OnRing(m, 1, 6)
    {
      zone := [];
      for col := 1 to 7
        invariant zone == RingColumns(1, 6, col)
      {
        for row := 1 to 7
          invariant zone == RingColumns(1, 6, col) + RingColumn(1, 6, col, row)
        {
          ghost var cell: seq<Move> := if col == 1 || col == 6 || row == 1 || row == 6 then [(col, row)] else [];
          assert RingColumn(1, 6, col, row + 1) == RingColumn(1, 6, col, row) + cell;
          ghost var before := zone;
          if col == 1 || col == 6 {
            zone := zone + [(col, row)];
          } else if row == 1 || row == 6 {
            zone := zone + [(col, row)];
          }
          ConcatAssociative(RingColumns(1, 6, col), RingColumn(1, 6, col, row), cell);
        }
        assert RingColumns(1, 6, col + 1) == RingColumns(1, 6, col) + RingColumn(1, 6, col, 7);
      }
      DangerZoneIsRing();
      forall m
        ensures m in zone <==> OnRing(m, 1, 6)
      {
        DangerZoneCells(m);
      }
    }

    /** `__get_board_score`. */
    function GetBoardScore(b: B): (s: int)
      requires Valid()
      reads this
      ensures s == Score(rules, b, myColor)
    {
      rules.pieceCount(b, myColor) - rules.pieceCount(b, opponentColor)
    }

    /** `is_move_on_corner`: 10 on the four corners, 0 elsewhere. */
    function IsMoveOnCorner(m: Move): (s: int)
      ensures s == 10 <==> (m.0 == 0 || m.0 == 7) && (m.1 == 0 || m.1 == 7)
      ensures s == 0 || s == 10
    {
      if m == TopLeft || m == TopRight || m == BottomLeft || m == BottomRight then 10 else 0
    }

    /** `is_move_in_danger_zone`: -2 on the ring one step inside the edge, 0
        elsewhere. */
    function IsMoveInDangerZone(m: Move): (s: int)
      ensures s == -2 <==> OnRing(m, 1, 6)
      ensures s == 0 <==> !OnRing(m, 1, 6)
    {
      DangerZoneCells(m);
      if m in dangerZone then -2 else 0
    }

    method AlfaBetaMax(aBoard: B, alfa: ExtInt, beta: ExtInt, maxDepth: int) returns (v: ExtInt)
      requires Valid()
      modifies this`pruningCounter, this`nodeExpandsCounter
      ensures Valid()
      ensures Outcome(v, Stats()) == SearchMax(Clocked(), rules, myColor, aBoard, alfa, beta, maxDepth, old(Stats()))
      decreases maxDepth, 1
    {
      ghost var cfg := Clocked();
      var moves := rules.legalMoves(aBoard, myColor);
      if |moves| > 0 && maxDepth > 0 && HasTime() {
        var depth := maxDepth - 1;
        ghost var goal := SearchMax(cfg, rules, myColor, aBoard, alfa, beta, maxDepth, Stats());
        var a := alfa;
        for i := 0 to |moves|
          invariant Valid()
          invariant MaxLoop(cfg, rules, myColor, aBoard, a, beta, maxDepth, i, Stats()) == goal
        {
          var imaginaryBoard := rules.apply(aBoard, moves[i], myColor);
          ghost var c := Stats();
          MaxLoopStep(cfg, rules, myColor, aBoard, a, beta, maxDepth, i, c);
          nodeExpandsCounter := nodeExpandsCounter + 1;
          assert Stats() == Counters(c.expanded + 1, c.pruned);
          var w := AlfaBetaMin(imaginaryBoard, a, beta, depth);
          assert Outcome(w, Stats()) ==
                 SearchMin(cfg, rules, myColor, imaginaryBoard, a, beta, depth, Counters(c.expanded + 1, c.pruned));
          a := Max(w, a);
          if Less(beta, a) {
            pruningCounter := pruningCounter + 1;
            return a;
          }
        }
        v := a;
      } else {
        assert SearchMax(cfg, rules, myColor, aBoard, alfa, beta, maxDepth, Stats()) ==
               Outcome(Fin(Score(rules, aBoard, myColor)), Stats());
        v := Fin(GetBoardScore(aBoard));
      }
    }

    method AlfaBetaMin(aBoard: B, alfa: ExtInt, beta: ExtInt, maxDepth: int) returns (v: ExtInt)
      requires Valid()
      modifies this`pruningCounter, this`nodeExpandsCounter
      ensures Valid()
      ensures Outcome(v, Stats()) == SearchMin(Clocked(), rules, myColor, aBoard, alfa, beta, maxDepth, old(Stats()))
      decreases maxDepth, 1
    {
      ghost var cfg := Clocked();
      var moves := rules.legalMoves(aBoard, opponentColor);
      if |moves| > 0 && maxDepth > 0 && HasTime() {
        var depth := maxDepth - 1;
        ghost var goal := SearchMin(cfg, rules, myColor, aBoard, alfa, beta, maxDepth, Stats());
        var bt := beta;
        for i := 0 to |moves|
          invariant Valid()
          invariant MinLoop(cfg, rules, myColor, aBoard, alfa, bt, maxDepth, i, Stats()) == goal
        {
          var imaginaryBoard := rules.apply(aBoard, moves[i], opponentColor);
          ghost var c := Stats();
          MinLoopStep(cfg, rules, myColor, aBoard, alfa, bt, maxDepth, i, c);
          nodeExpandsCounter := nodeExpandsCounter + 1;
          assert Stats() == Counters(c.expanded + 1, c.pruned);
          var w := AlfaBetaMax(imaginaryBoard, alfa, bt, depth);
          assert Outcome(w, Stats()) ==
                 SearchMax(cfg, rules, myColor, imaginaryBoard, alfa, bt, depth, Counters(c.expanded + 1, c.pruned));
          bt := Min(w, bt);
          if LessEq(bt, alfa) {
            pruningCounter := pruningCounter + 1;
            return bt;
          }
        }
        v := bt;
      } else {
        assert SearchMin(cfg, rules, myColor, aBoard, alfa, beta, maxDepth, Stats()) ==
               Outcome(Fin(Score(rules, aBoard, myColor)), Stats());
        v := Fin(GetBoardScore(aBoard));
      }
    }

    /** `show_move_result` without its printing. */
    method ShowMoveResult(selectedMove: Move) returns (m: Move)
      modifies this`board
      ensures board == rules.apply(old(board), selectedMove, myColor)
      ensures m == selectedMove
    {
      board := rules.apply(board, selectedMove, myColor);
      m := selectedMove;
    }

    /** `next_move_alfa_beta`: the first of my moves whose root score is
        strictly the greatest, where the root scores are the full-window
        searches of the unmoved board one after another on the running
        clock. While the clock never runs out that is my first move. */
    method NextMoveAlfaBeta(maxDepth: int) returns (bestMove: Move)
      requires Valid()
      modifies this`board, this`pruningCounter, this`nodeExpandsCounter
      ensures Valid()
      ensures var run := RootRun(Clocked(), rules, myColor, old(board), maxDepth, |availableMoves|, old(Stats()));
              bestMove == FirstBest(availableMoves, run.0) && Stats() == run.1
      ensures |availableMoves| == 0 ==> bestMove == Pass
      ensures Timeless(Clocked()) && |availableMoves| > 0 ==> bestMove == availableMoves[0]
      ensures board == rules.apply(old(board), bestMove, myColor)
    {
      var alfa := NegInf;
      var beta := PosInf;
      var v := NegInf;
      bestMove := Pass;
      ghost var c0 := Stats();
      ghost var scores := RootRun(Clocked(), rules, myColor, board, maxDepth, |availableMoves|, c0).0;
      if |availableMoves| > 0 {
        for i := 0 to |availableMoves|
          invariant Valid()
          invariant board == old(board)
          invariant Stats() == RootRun(Clocked(), rules, myColor, board, maxDepth, i, c0).1
          invariant (v, bestMove) == PickPrefix(availableMoves, scores, i)
        {
          var imaginaryBoard := board;
          var score := AlfaBetaMax(imaginaryBoard, alfa, beta, maxDepth);
          RootRunStep(Clocked(), rules, myColor, board, maxDepth, |availableMoves|, c0, i);
          if Less(v, score) {
            v := score;
            bestMove := availableMoves[i];
          }
        }
        if Timeless(Clocked()) {
          RootRunIsMinimax(Clocked(), rules, myColor, board, maxDepth, |availableMoves|, c0);
          ConstantScoresPickFirst(availableMoves, scores, MaxValue(rules, myColor, board, maxDepth));
        }
      }
      bestMove := ShowMoveResult(bestMove);
    }
  }
}
