/** The positional heuristics of the iterative-deepening agent
    (`player_alpha_beta_v2`). `move_eval` adds to the value of a searched
    child three static terms for the cell a move lands on (corner, danger
    ring, border ring) and a term for the replies the move leaves the other
    side. */
module Positional {
  import opened Board
  import opened Zones

  /** `is_move_on_corner`: 5 on a corner, 0 elsewhere. */
  function CornerBonus(m: Move): (s: int)
    ensures s == 5 <==> (m.0 == 0 || m.0 == 7) && (m.1 == 0 || m.1 == 7)
    ensures s == 0 || s == 5
  {
    if m == TopLeft || m == TopRight || m == BottomLeft || m == BottomRight then 5 else 0
  }

  /** `is_move_in_danger_zone`: -2 on the ring one step inside the edge,
      which is where the cells of the danger-zone list lie
      (`DangerPenaltyByList`). */
  function DangerPenalty(m: Move): (s: int)
    ensures s == 0 || s == -2
  {
    if OnRing(m, 1, 6) then -2 else 0
  }

  /** The penalty is the one the list lookup gives: -2 exactly for the cells
      of the danger-zone list. */
  lemma DangerPenaltyByList(m: Move)
    ensures DangerPenalty(m) == if m in DangerZone then -2 else 0
  {
    DangerZoneCells(m);
  }

  /** `is_move_in_borders`: 3 on the outermost ring, which is where the
      cells of the border list lie (`BorderBonusByList`). */
  function BorderBonus(m: Move): (s: int)
    ensures s == 0 || s == 3
  {
    if OnRing(m, 0, 7) then 3 else 0
  }

  /** The bonus is the one the list lookup gives: 3 exactly for the cells of
      the border list. */
  lemma BorderBonusByList(m: Move)
    ensures BorderBonus(m) == if m in BordersZone then 3 else 0
  {
    BordersZoneCells(m);
  }

  /** The three static terms of `move_eval` together. */
  function StaticEval(m: Move): int {
    CornerBonus(m) + DangerPenalty(m) + BorderBonus(m)
  }

  /** A corner is on the border ring and not on the danger ring, and no cell
      is on both rings, so the static terms add up to 8 on a corner, 3 on any
      other border cell, -2 on a danger cell and 0 anywhere else. */
  lemma StaticEvalCases(m: Move)
    ensures var s := StaticEval(m);
            (s == 8 <==> IsCorner(m)) &&
            (s == 3 <==> OnRing(m, 0, 7) && !IsCorner(m)) &&
            (s == -2 <==> OnRing(m, 1, 6)) &&
            (s == 0 <==> !OnRing(m, 0, 7) && !OnRing(m, 1, 6))
  {
    ZonesOverlap(m);
    DangerZoneCells(m);
    BordersZoneCells(m);
  }

  /** The loop of `check_opponent_next_move` over the replies in order: the
      first reply that is a corner costs 2 and the first that is any other
      border cell costs 1; replies off the border are passed over. */
  function FirstEdgePenalty(replies: seq<Move>): (p: int)
    ensures p == 0 || p == -1 || p == -2
    ensures |replies| == 0 ==> p == 0
  {
    if |replies| == 0 then 0
    else if CornerBonus(replies[0]) != 0 then -2
    else if BorderBonus(replies[0]) != 0 then -1
    else FirstEdgePenalty(replies[1..])
  }

  /** `check_opponent_next_move`'s score for the list of replies: 5 for
      fewer than three replies, 10 more for none, less the penalty of the
      first border reply. */
  function ReplyScore(replies: seq<Move>): (s: int)
    ensures |replies| == 0 ==> s == 15
    ensures 1 <= |replies| < 3 ==> 3 <= s <= 5
    ensures 3 <= |replies| ==> -2 <= s <= 0
  {
    (if |replies| < 3 then 5 else 0) + (if |replies| < 1 then 10 else 0) + FirstEdgePenalty(replies)
  }

  /** The score of `check_opponent_next_move(b, m, color)`: `m` is played for
      `color` on `b` and the other side's replies are scored. */
  function OpponentReplyScore<B>(r: Rules<B>, b: B, m: Move, color: Color): int {
    ReplyScore(r.legalMoves(r.apply(b, m, color), Opponent(color)))
  }

  /** `move_eval(b, m, color)`. */
  function MoveEval<B>(r: Rules<B>, b: B, m: Move, color: Color): int {
    StaticEval(m) + OpponentReplyScore(r, b, m, color)
  }

  /** `move_eval` as the bonus function the search takes. */
  function Evaluator<B>(r: Rules<B>): (B, Move, Color) -> int {
    (b: B, m: Move, c: Color) => MoveEval(r, b, m, c)
  }

  /** The penalty is decided by the first reply on the border ring, if any:
      -2 when that reply is a corner, -1 otherwise, and 0 when no reply is on
      the border ring. */
  lemma {:induction false} FirstEdgeReply(replies: seq<Move>) returns (i: int)
    ensures -1 <= i < |replies|
    ensures forall j :: 0 <= j < |replies| && (i < 0 || j < i) ==> !OnRing(replies[j], 0, 7)
    ensures i < 0 ==> FirstEdgePenalty(replies) == 0
    ensures 0 <= i ==> OnRing(replies[i], 0, 7)
    ensures 0 <= i ==> FirstEdgePenalty(replies) == if IsCorner(replies[i]) then -2 else -1
  {
    if |replies| == 0 {
      i := -1;
    } else if CornerBonus(replies[0]) != 0 || BorderBonus(replies[0]) != 0 {
      i := 0;
    } else {
      var i' := FirstEdgeReply(replies[1..]);
      i := if i' < 0 then -1 else i' + 1;
      forall j | 0 <= j < |replies| && (i < 0 || j < i)
        ensures !OnRing(replies[j], 0, 7)
      {
        if j > 0 {
          assert replies[j] == replies[1..][j - 1];
        }
      }
    }
  }

  /** The reply score only takes the values -2, -1, 0, 3, 4, 5 and 15. */
  lemma ReplyScoreRange(replies: seq<Move>)
    ensures ReplyScore(replies) in {-2, -1, 0, 3, 4, 5, 15}
  {
  }

  /** `move_eval` lies between -4 (a danger cell leaving a corner reply among
      three or more) and 23 (a corner leaving no reply). */
  lemma MoveEvalRange<B>(r: Rules<B>, b: B, m: Move, color: Color)
    ensures -4 <= MoveEval(r, b, m, color) <= 23
  {
    StaticEvalCases(m);
  }
}
