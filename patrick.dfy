/** The `AlphaBeta` agent of `player_patrick`: fail-hard alpha-beta whose
    prune tests are both strict (`beta < alfa` at max nodes, `alfa > beta` at
    min nodes), with a prune counter only, and a root loop over my moves in
    the order the board lists them. */
module PlayerPatrick {
  import opened Board
  import opened ExtInts
  import opened Selection
  import opened MinMax
  import opened AlphaBetaSearch

  class AlphaBeta<B> {
    const rules: Rules<B>
    const myColor: Color
    const opponentColor: Color
    var board: B
    /** My legal moves on the board the agent was built with. */
    const availableMoves: seq<Move>
    var pruningCounter: nat
    /** The agent keeps no expansion count; this one exists only so that the
        shared search specification, which counts expansions, applies. */
    ghost var expansions: nat

    constructor (rules: Rules<B>, board: B, colorName: string)
      ensures this.rules == rules && this.board == board
      ensures myColor == ColorOf(colorName) && opponentColor == Opponent(myColor)
      ensures availableMoves == rules.legalMoves(board, myColor)
      ensures pruningCounter == 0 && expansions == 0
      ensures Valid()
    {
      this.rules := rules;
      myColor := ColorOf(colorName);
      opponentColor := Opponent(ColorOf(colorName));
      this.board := board;
      availableMoves := rules.legalMoves(board, ColorOf(colorName));
      pruningCounter := 0;
      expansions := 0;
    }

    ghost predicate Valid()
      reads this
    {
      opponentColor == Opponent(myColor) && pruningCounter <= expansions
    }

    ghost function Stats(): Counters
      reads this
    {
      Counters(expansions, pruningCounter)
    }

    /** `__get_board_score`. */
    function GetBoardScore(b: B): (s: int)
      requires Valid()
      reads this
      ensures s == Score(rules, b, myColor)
    {
      rules.pieceCount(b, myColor) - rules.pieceCount(b, opponentColor)
    }

    method AlfaBetaMax(aBoard: B, alfa: ExtInt, beta: ExtInt, maxDepth: int) returns (v: ExtInt)
      requires Valid()
      modifies this`pruningCounter, this`expansions
      ensures Valid()
      ensures Outcome(v, Stats()) == SearchMax(Strict, rules, myColor, aBoard, alfa, beta, maxDepth, old(Stats()))
      decreases maxDepth, 1
    {
      var moves := rules.legalMoves(aBoard, myColor);
      if |moves| > 0 && maxDepth > 0 {
        var depth := maxDepth - 1;
        ghost var goal := SearchMax(Strict, rules, myColor, aBoard, alfa, beta, maxDepth, Stats());
        var a := alfa;
        for i := 0 to |moves|
          invariant Valid()
          invariant MaxLoop(Strict, rules, myColor, aBoard, a, beta, maxDepth, i, Stats()) == goal
        {
          var imaginaryBoard := rules.apply(aBoard, moves[i], myColor);
          ghost var c := Stats();
          MaxLoopStep(Strict, rules, myColor, aBoard, a, beta, maxDepth, i, c);
          expansions := expansions + 1;
          assert Stats() == Counters(c.expanded + 1, c.pruned);
          var w := AlfaBetaMin(imaginaryBoard, a, beta, depth);
          assert Outcome(w, Stats()) ==
                 SearchMin(Strict, rules, myColor, imaginaryBoard, a, beta, depth, Counters(c.expanded + 1, c.pruned));
          a := Max(w, a);
          if Less(beta, a) {
            pruningCounter := pruningCounter + 1;
            return a;
          }
        }
        v := a;
      } else {
        v := Fin(GetBoardScore(aBoard));
      }
    }

    method AlfaBetaMin(aBoard: B, alfa: ExtInt, beta: ExtInt, maxDepth: int) returns (v: ExtInt)
      requires Valid()
      modifies this`pruningCounter, this`expansions
      ensures Valid()
      ensures Outcome(v, Stats()) == SearchMin(Strict, rules, myColor, aBoard, alfa, beta, maxDepth, old(Stats()))
      decreases maxDepth, 1
    {
      var moves := rules.legalMoves(aBoard, opponentColor);
      if |moves| > 0 && maxDepth > 0 {
        var depth := maxDepth - 1;
        ghost var goal := SearchMin(Strict, rules, myColor, aBoard, alfa, beta, maxDepth, Stats());
        var bt := beta;
        for i := 0 to |moves|
          invariant Valid()
          invariant MinLoop(Strict, rules, myColor, aBoard, alfa, bt, maxDepth, i, Stats()) == goal
        {
          var imaginaryBoard := rules.apply(aBoard, moves[i], opponentColor);
          ghost var c := Stats();
          MinLoopStep(Strict, rules, myColor, aBoard, alfa, bt, maxDepth, i, c);
          expansions := expansions + 1;
          assert Stats() == Counters(c.expanded + 1, c.pruned);
          var w := AlfaBetaMax(imaginaryBoard, alfa, bt, depth);
          assert Outcome(w, Stats()) ==
                 SearchMax(Strict, rules, myColor, imaginaryBoard, alfa, bt, depth, Counters(c.expanded + 1, c.pruned));
          bt := Min(w, bt);
          if Less(bt, alfa) {
            pruningCounter := pruningCounter + 1;
            return bt;
          }
        }
        v := bt;
      } else {
        v := Fin(GetBoardScore(aBoard));
      }
    }

    /** `show_move_result` without its printing. */
    method ShowMoveResult(selectedMove: Move) returns (m: Move)
      modifies this`board
      ensures board == rules.apply(old(board), selectedMove, myColor)
      ensures m == selectedMove
    {
      board := rules.apply(board, selectedMove, myColor);
      m := selectedMove;
    }

    /** `next_move_alfa_beta`: every root candidate is searched on the same
        unmoved board with the full window, so all root scores are the
        minimax value, and with strict `v < score` the first move is kept. */
    method NextMoveAlfaBeta(maxDepth: int) returns (bestMove: Move)
      requires Valid()
      modifies this`board, this`pruningCounter, this`expansions
      ensures Valid()
      ensures bestMove == if |availableMoves| == 0 then Pass else availableMoves[0]
      ensures board == rules.apply(old(board), bestMove, myColor)
      ensures Stats() == RootRun(Strict, rules, myColor, old(board), maxDepth, |availableMoves|, old(Stats())).1
    {
      var alfa := NegInf;
      var beta := PosInf;
      var v := NegInf;
      bestMove := Pass;
      if |availableMoves| > 0 {
        ghost var c0 := Stats();
        ghost var scores := RootRun(Strict, rules, myColor, board, maxDepth, |availableMoves|, c0).0;
        for i := 0 to |availableMoves|
          invariant Valid()
          invariant board == old(board)
          invariant Stats() == RootRun(Strict, rules, myColor, board, maxDepth, i, c0).1
          invariant (v, bestMove) == PickPrefix(availableMoves, scores, i)
        {
          var imaginaryBoard := board;
          var score := AlfaBetaMax(imaginaryBoard, alfa, beta, maxDepth);
          RootRunStep(Strict, rules, myColor, board, maxDepth, |availableMoves|, c0, i);
          if Less(v, score) {
            v := score;
            bestMove := availableMoves[i];
          }
        }
        RootRunIsMinimax(Strict, rules, myColor, board, maxDepth, |availableMoves|, c0);
        ConstantScoresPickFirst(availableMoves, scores, MaxValue(rules, myColor, board, maxDepth));
      }
      bestMove := ShowMoveResult(bestMove);
    }
  }
}
