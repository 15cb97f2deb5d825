/** The move rankers of the heap-ordering agents: score every legal move by
    the material score one ply later, push a `MoveScore` key per move into a
    heap, and pop the heap empty into a list of moves.

    The heap is modelled as the unordered list of keys pushed so far; a pop
    removes some key of least score. Which one of several equal-score keys
    comes out first is left open, as the agents cannot rely on it. */
module Rankers {
  import opened Board
  import opened MoveScores

  /** My material score after `mover` plays `m` on `b`. */
  function PlyScore<B>(r: Rules<B>, me: Color, b: B, m: Move, mover: Color): int {
    Score(r, r.apply(b, m, mover), me)
  }

  function MovesOf(heap: seq<MoveScore>): seq<Move>
  {
    seq(|heap|, i requires 0 <= i < |heap| => heap[i].move)
  }

  /** `while len(heap) > 0: ordered.append(heappop(heap).get_move())`, for a
      heap whose key scores are a function `key` of the moves: the moves come
      out in non-decreasing order of key, each as often as it was pushed. */
  method DrainHeap(heap: seq<MoveScore>, ghost key: Move -> int) returns (ordered: seq<Move>)
    requires forall k :: 0 <= k < |heap| ==> heap[k].score == key(heap[k].move)
    ensures multiset(ordered) == multiset(MovesOf(heap))
    ensures forall i, j :: 0 <= i < j < |ordered| ==> key(ordered[i]) <= key(ordered[j])
  {
    var h := heap;
    ordered := [];
    while |h| > 0
      invariant forall k :: 0 <= k < |h| ==> h[k].score == key(h[k].move)
      invariant multiset(ordered) + multiset(MovesOf(h)) == multiset(MovesOf(heap))
      invariant forall i, j :: 0 <= i < j < |ordered| ==> key(ordered[i]) <= key(ordered[j])
      invariant forall i, k :: 0 <= i < |ordered| && 0 <= k < |h| ==> key(ordered[i]) <= key(h[k].move)
      decreases |h|
    {
      ghost var least := LeastKey(h);
      var p :| 0 <= p < |h| && forall k :: 0 <= k < |h| ==> !Less(h[k], h[p]);
      var top := h[p];
      PopStep(heap, ordered, h, p, key);
      h := h[..p] + h[p + 1..];
      ordered := ordered + [top.move];
    }
  }

  /** `get_ordered_best_moves_for_player`: my legal moves, each pushed with
      the negated one-ply score, so they come out best first. */
  method OrderedBestMovesForPlayer<B>(r: Rules<B>, me: Color, b: B) returns (ordered: seq<Move>)
    ensures multiset(ordered) == multiset(r.legalMoves(b, me))
    ensures forall i, j :: 0 <= i < j < |ordered| ==>
              PlyScore(r, me, b, ordered[j], me) <= PlyScore(r, me, b, ordered[i], me)
  {
    var moves := r.legalMoves(b, me);
    var heap: seq<MoveScore> := [];
    for i := 0 to |moves|
      invariant MovesOf(heap) == moves[..i]
      invariant forall k :: 0 <= k < |heap| ==> heap[k].score == -PlyScore(r, me, b, heap[k].move, me)
    {
      var imaginaryBoard := r.apply(b, moves[i], me);
      var score := Score(r, imaginaryBoard, me);
      MovesOfAppend(heap, [MoveScore(moves[i], -1 * score, me)]);
      assert moves[..i + 1] == moves[..i] + [moves[i]];
      heap := heap + [MoveScore(moves[i], -1 * score, me)];
    }
    assert moves[..|moves|] == moves;
    ordered := DrainHeap(heap, m => -PlyScore(r, me, b, m, me));
  }

  /** `get_ordered_best_moves_for_oponent`: the opponent's legal moves, each
      pushed with my one-ply score, so the replies that leave me worst off
      come out first. */
  method OrderedBestMovesForOpponent<B>(r: Rules<B>, me: Color, b: B) returns (ordered: seq<Move>)
    ensures multiset(ordered) == multiset(r.legalMoves(b, Opponent(me)))
    ensures forall i, j :: 0 <= i < j < |ordered| ==>
              PlyScore(r, me, b, ordered[i], Opponent(me)) <= PlyScore(r, me, b, ordered[j], Opponent(me))
  {
    var opponent := Opponent(me);
    var moves := r.legalMoves(b, opponent);
    var heap: seq<MoveScore> := [];
    for i := 0 to |moves|
      invariant MovesOf(heap) == moves[..i]
      invariant forall k :: 0 <= k < |heap| ==> heap[k].score == PlyScore(r, me, b, heap[k].move, opponent)
    {
      var imaginaryBoard := r.apply(b, moves[i], opponent);
      var score := Score(r, imaginaryBoard, me);
      MovesOfAppend(heap, [MoveScore(moves[i], score, opponent)]);
      assert moves[..i + 1] == moves[..i] + [moves[i]];
      heap := heap + [MoveScore(moves[i], score, opponent)];
    }
    assert moves[..|moves|] == moves;
    ordered := DrainHeap(heap, m => PlyScore(r, me, b, m, opponent));
  }

  /** The head of my ranking is one of my legal moves with the greatest
      one-ply score. */
  lemma {:induction false} RankedFirstIsBest<B>(r: Rules<B>, me: Color, b: B, ordered: seq<Move>)
    requires |ordered| > 0
    requires multiset(ordered) == multiset(r.legalMoves(b, me))
    requires forall i, j :: 0 <= i < j < |ordered| ==>
               PlyScore(r, me, b, ordered[j], me) <= PlyScore(r, me, b, ordered[i], me)
    ensures ordered[0] in r.legalMoves(b, me)
    ensures forall m :: m in r.legalMoves(b, me) ==> PlyScore(r, me, b, m, me) <= PlyScore(r, me, b, ordered[0], me)
  {
    assert ordered[0] in multiset(ordered);
    forall m | m in r.legalMoves(b, me)
      ensures PlyScore(r, me, b, m, me) <= PlyScore(r, me, b, ordered[0], me)
    {
      assert m in multiset(r.legalMoves(b, me));
      var j :| 0 <= j < |ordered| && ordered[j] == m;
    }
  }

  /** A heap that is not empty has a key no other key is `<`. */
  lemma {:induction false} LeastKey(h: seq<MoveScore>) returns (p: nat)
    requires |h| > 0
    ensures p < |h| && forall k :: 0 <= k < |h| ==> !Less(h[k], h[p])
  {
    if |h| == 1 {
      p := 0;
    } else {
      var q := LeastKey(h[1..]);
      assert forall k :: 1 <= k < |h| ==> h[k] == h[1..][k - 1];
      p := if Less(h[0], h[q + 1]) then 0 else q + 1;
    }
  }

  /** One turn of `DrainHeap`: popping a least key at `p` and appending its
      move keeps every invariant of the loop. */
  lemma PopStep(heap: seq<MoveScore>, ordered: seq<Move>, h: seq<MoveScore>, p: nat, key: Move -> int)
    requires p < |h| && forall k :: 0 <= k < |h| ==> !Less(h[k], h[p])
    requires forall k :: 0 <= k < |h| ==> h[k].score == key(h[k].move)
    requires multiset(ordered) + multiset(MovesOf(h)) == multiset(MovesOf(heap))
    requires forall i, j :: 0 <= i < j < |ordered| ==> key(ordered[i]) <= key(ordered[j])
    requires forall i, k :: 0 <= i < |ordered| && 0 <= k < |h| ==> key(ordered[i]) <= key(h[k].move)
    ensures var o, h' := ordered + [h[p].move], h[..p] + h[p + 1..];
            multiset(o) + multiset(MovesOf(h')) == multiset(MovesOf(heap)) &&
            (forall i, j :: 0 <= i < j < |o| ==> key(o[i]) <= key(o[j])) &&
            (forall i, k :: 0 <= i < |o| && 0 <= k < |h'| ==> key(o[i]) <= key(h'[k].move)) &&
            (forall k :: 0 <= k < |h'| ==> h'[k].score == key(h'[k].move))
  {
    PopMoves(h, p);
    PopKeepsOrder(ordered, h, p, key);
  }

  /** Popping the key at `p` takes its move out of the heap's moves. */
  lemma PopMoves(h: seq<MoveScore>, p: nat)
    requires p < |h|
    ensures multiset(MovesOf(h)) == multiset(MovesOf(h[..p] + h[p + 1..])) + multiset{h[p].move}
  {
    var ms := MovesOf(h);
    MovesOfRemove(h, p);
    RemoveAt(ms, p);
  }

  /** The moves of the heap without its key at `p` are the heap's moves
      without the one at `p`. */
  lemma MovesOfRemove(h: seq<MoveScore>, p: nat)
    requires p < |h|
    ensures MovesOf(h[..p] + h[p + 1..]) == MovesOf(h)[..p] + MovesOf(h)[p + 1..]
  {
    var h', ms := h[..p] + h[p + 1..], MovesOf(h);
    var t := ms[..p] + ms[p + 1..];
    assert forall k :: 0 <= k < |h'| ==> h'[k] == h[if k < p then k else k + 1];
    assert forall k :: 0 <= k < |t| ==> t[k] == ms[if k < p then k else k + 1];
  }

  lemma RemoveAt<T>(s: seq<T>, p: nat)
    requires p < |s|
    ensures multiset(s) == multiset(s[..p] + s[p + 1..]) + multiset{s[p]}
  {
    assert s == s[..p] + [s[p]] + s[p + 1..];
  }

  lemma MovesOfAppend(a: seq<MoveScore>, b: seq<MoveScore>)
    ensures MovesOf(a + b) == MovesOf(a) + MovesOf(b)
  {
    assert forall i :: 0 <= i < |a + b| ==> MovesOf(a + b)[i] == (MovesOf(a) + MovesOf(b))[i];
  }

  /** Appending a least key's move keeps the output sorted and no greater
      than what stays in the heap. */
  lemma PopKeepsOrder(ordered: seq<Move>, h: seq<MoveScore>, p: nat, key: Move -> int)
    requires p < |h| && forall k :: 0 <= k < |h| ==> !Less(h[k], h[p])
    requires forall k :: 0 <= k < |h| ==> h[k].score == key(h[k].move)
    requires forall i, j :: 0 <= i < j < |ordered| ==> key(ordered[i]) <= key(ordered[j])
    requires forall i, k :: 0 <= i < |ordered| && 0 <= k < |h| ==> key(ordered[i]) <= key(h[k].move)
    ensures var o, h' := ordered + [h[p].move], h[..p] + h[p + 1..];
            (forall i, j :: 0 <= i < j < |o| ==> key(o[i]) <= key(o[j])) &&
            (forall i, k :: 0 <= i < |o| && 0 <= k < |h'| ==> key(o[i]) <= key(h'[k].move)) &&
            (forall k :: 0 <= k < |h'| ==> h'[k].score == key(h'[k].move))
  {
    var h' := h[..p] + h[p + 1..];
    assert forall k :: 0 <= k < |h'| ==> h'[k] == h[if k < p then k else k + 1];
  }
}
