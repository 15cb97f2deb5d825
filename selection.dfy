/** The root move policy every agent shares: walk the candidate moves in order
    with `v = -inf` and `best_move = (-1, -1)`, and take a move only when its
    score is strictly greater than `v`, so the first of several equal best
    scores wins. */
module Selection {
  import opened Board
  import opened ExtInts

  /** The running pair `(v, best_move)` once the first `k` candidates have
      been compared against the pair `acc` that earlier candidates left. */
  function PickFrom(acc: (ExtInt, Move), moves: seq<Move>, scores: seq<ExtInt>, k: nat): (ExtInt, Move)
    requires |scores| == |moves| && k <= |moves|
  {
    if k == 0 then acc
    else
      var (v, best) := PickFrom(acc, moves, scores, k - 1);
      if Less(v, scores[k - 1]) then (scores[k - 1], moves[k - 1]) else (v, best)
  }

  /** `(v, best_move)` once the first `k` candidates have been scored. */
  function PickPrefix(moves: seq<Move>, scores: seq<ExtInt>, k: nat): (ExtInt, Move)
    requires |scores| == |moves| && k <= |moves|
  {
    PickFrom((NegInf, Pass), moves, scores, k)
  }

  /** The running pair depends on the first `k` candidates only. */
  lemma {:induction false} PickFromPrefix(acc: (ExtInt, Move), moves: seq<Move>, scores: seq<ExtInt>,
                                          moves': seq<Move>, scores': seq<ExtInt>, k: nat)
    requires |scores| == |moves| && |scores'| == |moves'| && k <= |moves| && k <= |moves'|
    requires moves[..k] == moves'[..k] && scores[..k] == scores'[..k]
    ensures PickFrom(acc, moves, scores, k) == PickFrom(acc, moves', scores', k)
  {
    if k > 0 {
      assert moves[..k - 1] == moves'[..k - 1] && scores[..k - 1] == scores'[..k - 1];
      assert moves[k - 1] == moves[..k][k - 1] && moves'[k - 1] == moves'[..k][k - 1];
      assert scores[k - 1] == scores[..k][k - 1] && scores'[k - 1] == scores'[..k][k - 1];
      PickFromPrefix(acc, moves, scores, moves', scores', k - 1);
    }
  }

  /** Comparing candidates can stop and resume: when the `j` candidates after
      the first `k` are those of `ms` with the scores `ss`, going on from the
      pair the first `k` left over `ms` gives the pair of the first `k + j`. */
  lemma {:induction false} PickFromResumes(acc: (ExtInt, Move), moves: seq<Move>, scores: seq<ExtInt>, k: nat,
                                           ms: seq<Move>, ss: seq<ExtInt>, j: nat)
    requires |scores| == |moves| && k + j <= |moves| && |ss| == |ms| && j <= |ms|
    requires forall t :: 0 <= t < j ==> moves[k + t] == ms[t] && scores[k + t] == ss[t]
    ensures PickFrom(acc, moves, scores, k + j) == PickFrom(PickFrom(acc, moves, scores, k), ms, ss, j)
  {
    if j > 0 {
      PickFromResumes(acc, moves, scores, k, ms, ss, j - 1);
      assert moves[k + (j - 1)] == ms[j - 1] && scores[k + (j - 1)] == ss[j - 1];
    }
  }

  /** When the candidates and scores begin with `pre` then `ms` (scored
      `preScores` then `ss`), the choice after both is the choice after `pre`
      compared in turn against `ms`. */
  lemma PickAfterPrefix(cs: seq<Move>, scores: seq<ExtInt>, pre: seq<Move>, preScores: seq<ExtInt>,
                        ms: seq<Move>, ss: seq<ExtInt>)
    requires |scores| == |cs| && |preScores| == |pre| && |ss| == |ms| && |pre| + |ms| <= |cs|
    requires cs[..|pre| + |ms|] == pre + ms && scores[..|pre| + |ms|] == preScores + ss
    ensures PickPrefix(cs, scores, |pre| + |ms|) == PickFrom(PickPrefix(cs, scores, |pre|), ms, ss, |ms|)
  {
    var k := |pre|;
    forall t | 0 <= t < |ms|
      ensures cs[k + t] == ms[t] && scores[k + t] == ss[t]
    {
      assert cs[k + t] == cs[..k + |ms|][k + t];
      assert scores[k + t] == scores[..k + |ms|][k + t];
    }
    PickFromResumes((NegInf, Pass), cs, scores, k, ms, ss, |ms|);
  }

  /** The move the root loop settles on. */
  function FirstBest(moves: seq<Move>, scores: seq<ExtInt>): Move
    requires |scores| == |moves|
  {
    PickPrefix(moves, scores, |moves|).1
  }

  /** After `k` candidates, either nothing scored above -inf and the pass move
      is kept, or the pick is the first candidate `i` whose score is the
      greatest among the first `k`. */
  lemma {:induction false} PickPrefixIsFirstMaximum(moves: seq<Move>, scores: seq<ExtInt>, k: nat)
    returns (i: int)
    requires |scores| == |moves| && k <= |moves|
    ensures -1 <= i < k
    ensures i == -1 ==> PickPrefix(moves, scores, k) == (NegInf, Pass)
    ensures i == -1 ==> forall j :: 0 <= j < k ==> scores[j] == NegInf
    ensures 0 <= i ==> PickPrefix(moves, scores, k) == (scores[i], moves[i])
    ensures 0 <= i ==> Less(NegInf, scores[i])
    ensures 0 <= i ==> forall j :: 0 <= j < k ==> LessEq(scores[j], scores[i])
    ensures 0 <= i ==> forall j :: 0 <= j < i ==> Less(scores[j], scores[i])
  {
    if k == 0 {
      i := -1;
    } else {
      var i' := PickPrefixIsFirstMaximum(moves, scores, k - 1);
      var (v, best) := PickPrefix(moves, scores, k - 1);
      if Less(v, scores[k - 1]) {
        i := k - 1;
        forall j | 0 <= j < k - 1
          ensures Less(scores[j], scores[i])
        {
          if i' >= 0 {
            LessTransitive(scores[j], scores[i'], scores[i]);
          } else {
            assert scores[j] == NegInf;
          }
        }
      } else {
        i := i';
      }
    }
  }

  /** When every candidate gets the same finite score, the first candidate is
      chosen. */
  lemma {:induction false} ConstantScoresPickFirst(moves: seq<Move>, scores: seq<ExtInt>, s: int)
    requires |scores| == |moves| && |moves| > 0
    requires forall j :: 0 <= j < |scores| ==> scores[j] == Fin(s)
    ensures FirstBest(moves, scores) == moves[0]
  {
    var i := PickPrefixIsFirstMaximum(moves, scores, |moves|);
    assert i >= 0 by {
      assert scores[0] == Fin(s);
    }
    assert scores[0] == scores[i];
  }
}
