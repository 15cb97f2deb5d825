/** The `AlphaBeta` agent of `player_alpha_beta`: fail-hard alpha-beta with a
    node-expansion counter and a prune counter, prune test `alfa >= beta` at
    min nodes, and a root loop over my moves as the heap ranker orders them. */
module PlayerAlphaBeta {
  import opened Board
  import opened ExtInts
  import opened Selection
  import opened MinMax
  import opened AlphaBetaSearch
  import opened Rankers

  class AlphaBeta<B> {
    const rules: Rules<B>
    const myColor: Color
    const opponentColor: Color
    var board: B
    /** My legal moves on the board the agent was built with. */
    const availableMoves: seq<Move>
    var pruningCounter: nat
    var nodeExpandsCounter: nat

    constructor (rules: Rules<B>, board: B, colorName: string)
      ensures this.rules == rules && this.board == board
      ensures myColor == ColorOf(colorName) && opponentColor == Opponent(myColor)
      ensures availableMoves == rules.legalMoves(board, myColor)
      ensures pruningCounter == 0 && nodeExpandsCounter == 0
      ensures Valid()
    {
      this.rules := rules;
      myColor := ColorOf(colorName);
      opponentColor := Opponent(ColorOf(colorName));
      this.board := board;
      availableMoves := rules.legalMoves(board, ColorOf(colorName));
      pruningCounter := 0;
      nodeExpandsCounter := 0;
    }

    /** The opponent is the other colour, and there are never more prunes
        than expansions. */
    ghost predicate Valid()
      reads this
    {
      opponentColor == Opponent(myColor) && pruningCounter <= nodeExpandsCounter
    }

    /** The two counters as the search specification counts them. */
    function Stats(): Counters
      reads this
    {
      Counters(nodeExpandsCounter, pruningCounter)
    }

    /** `__get_board_score`. */
    function GetBoardScore(b: B): (s: int)
      requires Valid()
      reads this
      ensures s == Score(rules, b, myColor)
    {
      rules.pieceCount(b, myColor) - rules.pieceCount(b, opponentColor)
    }

    method AlfaBetaMax(aBoard: B, alfa: ExtInt, beta: ExtInt, maxDepth: int) returns (v: ExtInt)
      requires Valid()
      modifies this`pruningCounter, this`nodeExpandsCounter
      ensures Valid()
      ensures Outcome(v, Stats()) == SearchMax(Plain, rules, myColor, aBoard, alfa, beta, maxDepth, old(Stats()))
      decreases maxDepth, 1
    {
      var moves := rules.legalMoves(aBoard, myColor);
      if |moves| > 0 && maxDepth > 0 {
        var depth := maxDepth - 1;
        ghost var goal := SearchMax(Plain, rules, myColor, aBoard, alfa, beta, maxDepth, Stats());
        var a := alfa;
        for i := 0 to |moves|
          invariant Valid()
          invariant MaxLoop(Plain, rules, myColor, aBoard, a, beta, maxDepth, i, Stats()) == goal
        {
          var imaginaryBoard := rules.apply(aBoard, moves[i], myColor);
          ghost var c := Stats();
          MaxLoopStep(Plain, rules, myColor, aBoard, a, beta, maxDepth, i, c);
          nodeExpandsCounter := nodeExpandsCounter + 1;
          assert Stats() == Counters(c.expanded + 1, c.pruned);
          var w := AlfaBetaMin(imaginaryBoard, a, beta, depth);
          assert Outcome(w, Stats()) ==
                 SearchMin(Plain, rules, myColor, imaginaryBoard, a, beta, depth, Counters(c.expanded + 1, c.pruned));
          a := Max(w, a);
          if Less(beta, a) {
            pruningCounter := pruningCounter + 1;
            return a;
          }
        }
        v := a;
      } else {
        v := Fin(GetBoardScore(aBoard));
      }
    }

    method AlfaBetaMin(aBoard: B, alfa: ExtInt, beta: ExtInt, maxDepth: int) returns (v: ExtInt)
      requires Valid()
      modifies this`pruningCounter, this`nodeExpandsCounter
      ensures Valid()
      ensures Outcome(v, Stats()) == SearchMin(Plain, rules, myColor, aBoard, alfa, beta, maxDepth, old(Stats()))
      decreases maxDepth, 1
    {
      var moves := rules.legalMoves(aBoard, opponentColor);
      if |moves| > 0 && maxDepth > 0 {
        var depth := maxDepth - 1;
        ghost var goal := SearchMin(Plain, rules, myColor, aBoard, alfa, beta, maxDepth, Stats());
        var bt := beta;
        for i := 0 to |moves|
          invariant Valid()
          invariant MinLoop(Plain, rules, myColor, aBoard, alfa, bt, maxDepth, i, Stats()) == goal
        {
          var imaginaryBoard := rules.apply(aBoard, moves[i], opponentColor);
          ghost var c := Stats();
          MinLoopStep(Plain, rules, myColor, aBoard, alfa, bt, maxDepth, i, c);
          nodeExpandsCounter := nodeExpandsCounter + 1;
          assert Stats() == Counters(c.expanded + 1, c.pruned);
          var w := AlfaBetaMax(imaginaryBoard, alfa, bt, depth);
          assert Outcome(w, Stats()) ==
                 SearchMax(Plain, rules, myColor, imaginaryBoard, alfa, bt, depth, Counters(c.expanded + 1, c.pruned));
          bt := Min(w, bt);
          if LessEq(bt, alfa) {
            pruningCounter := pruningCounter + 1;
            return bt;
          }
        }
        v := bt;
      } else {
        v := Fin(GetBoardScore(aBoard));
      }
    }

    /** `show_move_result` without its printing. */
    method ShowMoveResult(selectedMove: Move) returns (m: Move)
      modifies this`board
      ensures board == rules.apply(old(board), selectedMove, myColor)
      ensures m == selectedMove
    {
      board := rules.apply(board, selectedMove, myColor);
      m := selectedMove;
    }

    /** `next_move_alfa_beta`: every root candidate, taken in the ranker's
        order, is searched on the same unmoved board with the full window, so
        all root scores are the minimax value and the ranker's first move is
        kept: one of my legal moves with the greatest one-ply score. */
    method NextMoveAlfaBeta(maxDepth: int) returns (bestMove: Move)
      requires Valid()
      modifies this`board, this`pruningCounter, this`nodeExpandsCounter
      ensures Valid()
      ensures board == rules.apply(old(board), bestMove, myColor)
      ensures |availableMoves| == 0 ==> bestMove == Pass && Stats() == old(Stats())
      ensures |availableMoves| > 0 ==>
                Stats() == RootRun(Plain, rules, myColor, old(board), maxDepth,
                                   |rules.legalMoves(old(board), myColor)|, old(Stats())).1
      ensures |availableMoves| > 0 && |rules.legalMoves(old(board), myColor)| == 0 ==> bestMove == Pass
      ensures var legal := rules.legalMoves(old(board), myColor);
              |availableMoves| > 0 && |legal| > 0 ==>
                bestMove in legal &&
                forall m :: m in legal ==>
                  PlyScore(rules, myColor, old(board), m, myColor) <= PlyScore(rules, myColor, old(board), bestMove, myColor)
    {
      var alfa := NegInf;
      var beta := PosInf;
      var v := NegInf;
      bestMove := Pass;
      if |availableMoves| > 0 {
        var ranked := OrderedBestMovesForPlayer(rules, myColor, board);
        assert |ranked| == |multiset(ranked)| == |rules.legalMoves(board, myColor)|;
        ghost var c0 := Stats();
        ghost var scores := RootRun(Plain, rules, myColor, board, maxDepth, |ranked|, c0).0;
        for i := 0 to |ranked|
          invariant Valid()
          invariant board == old(board)
          invariant Stats() == RootRun(Plain, rules, myColor, board, maxDepth, i, c0).1
          invariant (v, bestMove) == PickPrefix(ranked, scores, i)
        {
          var imaginaryBoard := board;
          var score := AlfaBetaMax(imaginaryBoard, alfa, beta, maxDepth);
          RootRunStep(Plain, rules, myColor, board, maxDepth, |ranked|, c0, i);
          if Less(v, score) {
            v := score;
            bestMove := ranked[i];
          }
        }
        if |ranked| > 0 {
          RootRunIsMinimax(Plain, rules, myColor, board, maxDepth, |ranked|, c0);
          ConstantScoresPickFirst(ranked, scores, MaxValue(rules, myColor, board, maxDepth));
          RankedFirstIsBest(rules, myColor, board, ranked);
        }
      }
      bestMove := ShowMoveResult(bestMove);
    }
  }
}
