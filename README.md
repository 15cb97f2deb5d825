# Othello game-tree search agents, modelled in Dafny

The repository holds several Othello agents that choose a move by searching
the game tree from the current board:

- `MinMax`: plain depth-limited minimax.
- `player_alpha_beta`: fail-hard alpha-beta with node and prune counters. It
  also has two move rankers built on a binary heap of `MoveScore` records.
- Patrick's agent: the same search, except that a min node prunes only on
  `alfa > beta`.
- The clocked agent (`player_alpha_beta_v3`): alpha-beta that also treats a
  node as a leaf once its time budget is spent.
- The iterative-deepening agent (`player_alpha_beta_v2`): alpha-beta with a
  cut test and a positional bonus (`move_eval`) added to every child's value.
  It re-runs the root loop for every depth from 1 to the maximum.

A leaf is worth the material score, my pieces minus the opponent's.

The model keeps each agent as a Dafny `class`:

- The board the agent plays on and the two counters are fields, which the
  search methods update.
- The searches are recursive methods with loops, proved equal to
  specification functions of the window, the depth and the counters.
- The specification functions are related to plain minimax by lemmas.

The board itself is abstract: `Rules<B>` gives the legal moves of a colour,
the board after a move, and the piece counts. Copying a board is taking a
value. Infinity is the `ExtInt` datatype. The wall clock is an oracle `nat ->
bool`, asked with the number of nodes expanded so far.

Inside the search, `min_max_max` plays each move on its copy of the board
before it recurses (player_min_max/min_max.py:56-60), so the root evidently
means to do the same. The root loop (player_min_max/min_max.py:27-28)
instead searches an unmoved copy, and so do the root loops of the other
agents. The model follows the code; the first finding below is about this.

## Model

| member | source | states |
|---|---|---|
| Board.ColorOf | player_min_max/min_max.py:9 | the agent is white exactly when the colour name is `"white"`, black otherwise |
| Board.Opponent | player_min_max/min_max.py:10 | the opponent's colour differs from mine |
| Board.OpponentInvolution | player_min_max/min_max.py:10 | the opponent of the opponent is me |
| Board.ScoreZeroSum | player_min_max/min_max.py:15-18 | the material score from the opponent's side is the negation of mine |
| MinMax.MaxPrefix | player_min_max/min_max.py:53-61 | the running `v` of a max node is -inf exactly before any child is scored, and never +inf |
| MinMax.MinPrefix | player_min_max/min_max.py:73-81 | the running `v` of a min node is +inf exactly before any child is scored, and never -inf |
| MinMax.MaxPrefixStep | player_min_max/min_max.py:55-61 | scoring one more of my moves takes the max with that child's min value |
| MinMax.MinPrefixStep | player_min_max/min_max.py:75-81 | scoring one more opponent move takes the min with that child's max value |
| MinMax.MaxPrefixIsMaximum | player_min_max/min_max.py:53-63 | after `k > 0` children, `v` is the value of one of them and at least every one of them |
| MinMax.MinPrefixIsMinimum | player_min_max/min_max.py:73-83 | after `k > 0` children, `v` is the value of one of them and at most every one of them |
| MinMax.MaxPrefixGrows | player_min_max/min_max.py:61 | a max node's running value never goes down as children are added |
| MinMax.MinPrefixShrinks | player_min_max/min_max.py:81 | a min node's running value never goes up as children are added |
| MinMax.MaxValueIsBestChild | player_min_max/min_max.py:48-63 | an inner max node is worth the greatest child value, and some child attains it |
| MinMax.MinValueIsBestChild | player_min_max/min_max.py:68-83 | an inner min node is worth the least child value, and some child attains it |
| MinMax.IntendedRootChoiceIsBest | player_min_max/min_max.py:20-36 | with the intended scores, the root picks a legal move whose reply value equals the position's minimax value |
| MinMax.UnmovedRootMissesBetterMove | player_min_max/min_max.py:25-32 | when the second move is strictly better than the first, the code as written still picks the first and the intended root does not |
| MinMax.MinMax.constructor | player_min_max/min_max.py:8-13 | colour from its name, the opponent's colour, the board, and my legal moves on it |
| MinMax.MinMax.GetBoardScore | player_min_max/min_max.py:15-18 | my piece count minus the opponent's |
| MinMax.MinMax.MinMaxMax | player_min_max/min_max.py:48-66 | the loop computes the minimax value of a max node: the leaf score, or the best child |
| MinMax.MinMax.MinMaxMin | player_min_max/min_max.py:68-86 | the loop computes the minimax value of a min node: the leaf score, or the worst child for me |
| MinMax.MinMax.ShowMoveResult | player_min_max/min_max.py:38-46 | the agent's board becomes the board after the chosen move; the move is returned unchanged |
| MinMax.MinMax.NextMoveMinMax | player_min_max/min_max.py:20-36 | the move is the first strict maximum of the root scores: the pass move `(-1, -1)` with no legal move, else the first available move; it is then played |
| MoveScores.GettersReturnConstructorArguments | player1/move_score.py:3-12 | `get_move` and `get_score` return the values the record was built with |
| MoveScores.Equal | player1/move_score.py:21-28 | two records are equal exactly when move, score and colour all agree |
| MoveScores.EqualIsEquivalence | player1/move_score.py:21-28 | equality is reflexive, symmetric and transitive |
| MoveScores.LessIsStrictOrder | player1/move_score.py:34-38 | `<` on scores is irreflexive, asymmetric and transitive |
| MoveScores.EqualScoresIncomparable | player1/move_score.py:34-38 | records with equal scores are incomparable, and incomparability is transitive, so the order is a strict weak order |
| MoveScores.EqualImpliesIncomparable | player1/move_score.py:21-38 | equal records are incomparable; the same move and score for the other colour is incomparable but not equal |
| Rankers.DrainHeap | player_alpha_beta/alpha_beta.py:129-135 | popping the heap until it is empty yields its moves, each once, in ascending key order |
| Rankers.LeastKey | player_alpha_beta/alpha_beta.py:132 | a non-empty heap has a record no other record is less than, which is what `heappop` returns |
| Rankers.PopStep | player_alpha_beta/alpha_beta.py:131-133 | one pop keeps the drained moves plus the heap a permutation of the input, and keeps the drained moves sorted and at most the rest |
| Rankers.PopMoves | player_alpha_beta/alpha_beta.py:132 | removing a record removes exactly its move from the multiset of heap moves |
| Rankers.MovesOfRemove | player_alpha_beta/alpha_beta.py:132 | the moves of a heap with one record removed are its moves with that position removed |
| Rankers.PopKeepsOrder | player_alpha_beta/alpha_beta.py:131-133 | appending a least record keeps the drained moves sorted and at most every remaining record |
| Rankers.MovesOfAppend | player_alpha_beta/alpha_beta.py:126 | the moves of two heaps joined are their moves joined |
| Rankers.OrderedBestMovesForPlayer | player_alpha_beta/alpha_beta.py:117-135 | a permutation of my legal moves, ordered by the score after each move, best for me first |
| Rankers.OrderedBestMovesForOpponent | player_alpha_beta/alpha_beta.py:137-156 | a permutation of the opponent's legal moves, ordered by the score after each move, worst for me first |
| Rankers.RankedFirstIsBest | player_alpha_beta/alpha_beta.py:117-135 | the first move of the player's ranking is legal and scores at least every legal move |
| Selection.PickFromPrefix | player_alpha_beta/alpha_beta.py:51-58 | the running `(v, best_move)` depends only on the candidates scored so far |
| Selection.PickFromResumes | player_alpha_beta_v2/alpha_beta.py:80-88 | scoring a longer list continues from the pair its prefix left |
| Selection.PickAfterPrefix | player_alpha_beta_v2/alpha_beta.py:80-89 | the pair after a prefix and a next group of candidates is the pair after the prefix, carried on through the group |
| Selection.PickPrefixIsFirstMaximum | player_alpha_beta/alpha_beta.py:46-58 | the pick is either the pass move with every score -inf, or the first candidate whose score is strictly above all earlier ones and at least all later ones |
| Selection.ConstantScoresPickFirst | player_patrick/alpha_beta.py:41-50 | when all candidates score the same finite value, the first candidate is chosen |
| AlphaBetaSearch.SearchMax | player_alpha_beta/alpha_beta.py:64-84 | the counters only grow, and each prune is matched by an expansion |
| AlphaBetaSearch.MaxLoop | player_alpha_beta/alpha_beta.py:70-81 | the counters only grow, and each prune is matched by an expansion |
| AlphaBetaSearch.SearchMin | player_alpha_beta/alpha_beta.py:86-107 | the counters only grow, and each prune is matched by an expansion |
| AlphaBetaSearch.MinLoop | player_alpha_beta/alpha_beta.py:92-104 | the counters only grow, and each prune is matched by an expansion |
| AlphaBetaSearch.MaxNodeCases | player_alpha_beta/alpha_beta.py:64-84 | a max node is a leaf worth the material score with the counters unchanged, or its value is at least `alfa` and it expanded a node |
| AlphaBetaSearch.MaxLoopAtLeastAlfa | player_alpha_beta/alpha_beta.py:70-81 | the max loop never returns less than the `alfa` it started with |
| AlphaBetaSearch.MinNodeCases | player_alpha_beta/alpha_beta.py:86-107 | a min node is a leaf worth the material score with the counters unchanged, or its value is at most `beta` and it expanded a node |
| AlphaBetaSearch.MinLoopAtMostBeta | player_alpha_beta/alpha_beta.py:92-104 | the min loop never returns more than the `beta` it started with |
| AlphaBetaSearch.MaxStepContinue | player_alpha_beta/alpha_beta.py:75-77 | a child that does not prune keeps the loop's window invariant with the new `alfa` |
| AlphaBetaSearch.MaxStepPrune | player_alpha_beta/alpha_beta.py:77-80 | a pruning child's result bounds the node's minimax value from below, above `beta` |
| AlphaBetaSearch.MaxStepEnd | player_alpha_beta/alpha_beta.py:81 | a loop that ends without pruning returns a result in the window relation to the node value |
| AlphaBetaSearch.MinStepContinue | player_alpha_beta/alpha_beta.py:97-100 | a child that does not prune keeps the min loop's window invariant with the new `beta` |
| AlphaBetaSearch.MinStepPrune | player_alpha_beta/alpha_beta.py:99-103 | a pruning child's result bounds the node's minimax value from above, below `alfa`, for both prune tests |
| AlphaBetaSearch.MinStepEnd | player_alpha_beta/alpha_beta.py:104 | a min loop that ends without pruning returns a result in the window relation to the node value |
| AlphaBetaSearch.MaxWindow | player_alpha_beta/alpha_beta.py:64-84 | with no clock expiry and `alfa <= beta`, the max result is exact inside the window, a lower bound at or above `beta` and an upper bound at or below `alfa` |
| AlphaBetaSearch.MaxLoopWindow | player_alpha_beta/alpha_beta.py:70-81 | the max loop keeps `alfa == min(max(alfa0, best so far), beta)` and ends in the window relation |
| AlphaBetaSearch.MaxTurn | player_alpha_beta/alpha_beta.py:71-80 | one child of a max loop: its result is in the window relation to its value, and both the minimax fold and the loop advance by it |
| AlphaBetaSearch.MinWindow | player_alpha_beta/alpha_beta.py:86-107 | the same window property for min nodes, for both prune tests |
| AlphaBetaSearch.MinLoopWindow | player_alpha_beta/alpha_beta.py:92-104 | the min loop keeps `beta == max(min(beta0, worst so far), alfa)` and ends in the window relation |
| AlphaBetaSearch.MinTurn | player_alpha_beta/alpha_beta.py:93-103 | one child of a min loop: its result is in the window relation to its value, and both folds advance by it |
| AlphaBetaSearch.FullWindowIsMinimax | player_alpha_beta/alpha_beta.py:43-44 | with the window (-inf, +inf) and no clock expiry, alpha-beta returns exactly the minimax value of `min_max_max`/`min_max_min` |
| AlphaBetaSearch.ClockIgnoredMax | player_alpha_beta_v3/alpha_beta.py:77-95 | a clock that never expires gives the clocked search the same result and counters as the unclocked one |
| AlphaBetaSearch.ClockIgnoredMaxLoop | player_alpha_beta_v3/alpha_beta.py:82-92 | the same for the max loop |
| AlphaBetaSearch.ClockIgnoredMin | player_alpha_beta_v3/alpha_beta.py:97-116 | the same for min nodes |
| AlphaBetaSearch.ClockIgnoredMinLoop | player_alpha_beta_v3/alpha_beta.py:97-116 | the same for the min loop |
| AlphaBetaSearch.RootRun | player_alpha_beta/alpha_beta.py:50-56 | one root score per candidate, and the counters only grow across the root searches |
| AlphaBetaSearch.RootRunIsMinimax | player_alpha_beta/alpha_beta.py:50-56 | with no clock expiry, every root score is the minimax value of the unmoved board |
| AlphaBetaSearch.RootRunStep | player_alpha_beta/alpha_beta.py:50-54 | the `i`-th root score is the full-window search started from the counters the first `i` searches left |
| AlphaBetaSearch.MaxLoopStep | player_alpha_beta/alpha_beta.py:70-80 | one child of the max loop: count it, search it, raise `alfa`, and prune (counted) once `beta < alfa` |
| AlphaBetaSearch.MinLoopStep | player_alpha_beta/alpha_beta.py:92-103 | one child of the min loop: count it, search it, lower `beta`, and prune (counted) by the agent's test |
| PlayerAlphaBeta.AlphaBeta.constructor | player_alpha_beta/alpha_beta.py:16-23 | colour, opponent, board, my legal moves, and both counters at zero |
| PlayerAlphaBeta.AlphaBeta.GetBoardScore | player_alpha_beta/alpha_beta.py:25-28 | my piece count minus the opponent's |
| PlayerAlphaBeta.AlphaBeta.AlfaBetaMax | player_alpha_beta/alpha_beta.py:64-84 | the returned value and the new counters are those of the max-node search with `alfa >= beta` min pruning |
| PlayerAlphaBeta.AlphaBeta.AlfaBetaMin | player_alpha_beta/alpha_beta.py:86-107 | the returned value and the new counters are those of the min-node search |
| PlayerAlphaBeta.AlphaBeta.ShowMoveResult | player_alpha_beta/alpha_beta.py:30-40 | the agent's board becomes the board after the chosen move; the move is returned |
| PlayerAlphaBeta.AlphaBeta.NextMoveAlfaBeta | player_alpha_beta/alpha_beta.py:42-62 | pass with no move; otherwise the ranker's first move, a legal move scoring at least every legal move one ply ahead; counters as the root searches leave them; the move is played |
| PlayerPatrick.AlphaBeta.constructor | player_patrick/alpha_beta.py:9-15 | colour, opponent, board, my legal moves, and the prune counter at zero |
| PlayerPatrick.AlphaBeta.GetBoardScore | player_patrick/alpha_beta.py:17-20 | my piece count minus the opponent's |
| PlayerPatrick.AlphaBeta.AlfaBetaMax | player_patrick/alpha_beta.py:56-72 | value and prune count of the max-node search with the strict `alfa > beta` min pruning |
| PlayerPatrick.AlphaBeta.AlfaBetaMin | player_patrick/alpha_beta.py:74-91 | value and prune count of the min-node search that prunes only on `alfa > beta` |
| PlayerPatrick.AlphaBeta.ShowMoveResult | player_patrick/alpha_beta.py:23-32 | the agent's board becomes the board after the chosen move |
| PlayerPatrick.AlphaBeta.NextMoveAlfaBeta | player_patrick/alpha_beta.py:35-54 | pass with no move, otherwise the first available move (all root scores are equal); the move is played |
| PlayerAlphaBetaV3.AlphaBeta.constructor | player_alpha_beta_v3/alpha_beta.py:14-25 | colour, opponent, board, legal moves, counters at zero, the clock, and the literal danger zone |
| PlayerAlphaBetaV3.AlphaBeta.HasTime | player_alpha_beta_v3/alpha_beta.py:118-119 | there is time left exactly when the clock oracle has not expired at the current expansion count |
| PlayerAlphaBetaV3.AlphaBeta.DangerZoneList | player_alpha_beta_v3/alpha_beta.py:27-35 | the nested loop builds the 20-cell list equal to the literal, whose cells are exactly the ring one step inside the edge |
| PlayerAlphaBetaV3.AlphaBeta.GetBoardScore | player_alpha_beta_v3/alpha_beta.py:38-41 | my piece count minus the opponent's |
| PlayerAlphaBetaV3.AlphaBeta.IsMoveOnCorner | player_alpha_beta_v3/alpha_beta.py:133-136 | 10 exactly on a corner, 0 elsewhere |
| PlayerAlphaBetaV3.AlphaBeta.IsMoveInDangerZone | player_alpha_beta_v3/alpha_beta.py:145-148 | -2 exactly on the inner ring, 0 elsewhere |
| PlayerAlphaBetaV3.AlphaBeta.AlfaBetaMax | player_alpha_beta_v3/alpha_beta.py:77-95 | value and counters of the max-node search that also makes a leaf of a node whose time is up |
| PlayerAlphaBetaV3.AlphaBeta.AlfaBetaMin | player_alpha_beta_v3/alpha_beta.py:97-116 | value and counters of the clocked min-node search |
| PlayerAlphaBetaV3.AlphaBeta.ShowMoveResult | player_alpha_beta_v3/alpha_beta.py:43-53 | the agent's board becomes the board after the chosen move |
| PlayerAlphaBetaV3.AlphaBeta.NextMoveAlfaBeta | player_alpha_beta_v3/alpha_beta.py:55-75 | the first strict maximum of the clocked root scores; pass with no move; with a clock that never expires, the first available move; the move is played |
| Zones.RingMembers | player_alpha_beta_v2/alpha_beta.py:32-37 | a cell is in what the nested loop builds exactly when it lies on the square's outline |
| Zones.MiddleColumn | player_alpha_beta_v2/alpha_beta.py:33-37 | in an inner column the loop appends only the first and last row |
| Zones.DangerLeftHalf | player_alpha_beta_v2/alpha_beta.py:32-37 | the loop's first three columns of the inner ring, cell by cell |
| Zones.DangerRightHalf | player_alpha_beta_v2/alpha_beta.py:32-37 | the loop's remaining columns of the inner ring, cell by cell |
| Zones.DangerLiteralHalves | player_alpha_beta_v2/alpha_beta.py:30 | the literal danger list in the same three pieces |
| Zones.DangerZoneIsRing | player_alpha_beta_v2/alpha_beta.py:29-38 | the hard-coded danger list equals, in order, what the skipped nested loop builds when started from an empty list (as written, the loop would append to the already-filled literal) |
| Zones.BordersLeftHalf | player_alpha_beta_v2/alpha_beta.py:43-48 | the loop's first four columns of the border ring, cell by cell |
| Zones.BordersLastColumn | player_alpha_beta_v2/alpha_beta.py:43-48 | the loop's last column of the border ring |
| Zones.BordersMiddleColumns | player_alpha_beta_v2/alpha_beta.py:43-48 | the loop's inner columns 4 to 6 of the border ring |
| Zones.BordersLiteralThirds | player_alpha_beta_v2/alpha_beta.py:41 | the literal border list in the same three pieces |
| Zones.BordersZoneIsRing | player_alpha_beta_v2/alpha_beta.py:40-49 | the hard-coded border list equals, in order, what the skipped nested loop builds when started from an empty list (as written, the loop would append to the already-filled literal) |
| Zones.DangerZoneCells | player_alpha_beta_v2/alpha_beta.py:29-38 | the danger list has 20 cells, exactly those of the ring one step inside the edge |
| Zones.BordersZoneCells | player_alpha_beta_v2/alpha_beta.py:40-49 | the border list has 28 cells, exactly those of the outer ring |
| Zones.ZonesOverlap | player_alpha_beta_v2/alpha_beta.py:178-201 | every corner is a border cell outside the danger zone, and no cell is in both lists |
| Positional.CornerBonus | player_alpha_beta_v2/alpha_beta.py:178-184 | 5 exactly on one of the four corners, 0 elsewhere |
| Positional.DangerPenalty | player_alpha_beta_v2/alpha_beta.py:193-196 | the penalty is 0 or -2 |
| Positional.DangerPenaltyByList | player_alpha_beta_v2/alpha_beta.py:193-196 | -2 exactly when the move is in the hard-coded danger list |
| Positional.BorderBonus | player_alpha_beta_v2/alpha_beta.py:198-201 | the bonus is 0 or 3 |
| Positional.BorderBonusByList | player_alpha_beta_v2/alpha_beta.py:198-201 | 3 exactly when the move is in the hard-coded border list |
| Positional.StaticEvalCases | player_alpha_beta_v2/alpha_beta.py:147-150 | the move-only part of `move_eval` is 8 on a corner, 3 on another border cell, -2 on the inner ring and 0 elsewhere |
| Positional.FirstEdgePenalty | player_alpha_beta_v2/alpha_beta.py:167-175 | the reply loop costs 0, 1 or 2, and nothing with no reply |
| Positional.FirstEdgeReply | player_alpha_beta_v2/alpha_beta.py:167-175 | the penalty is set by the first reply on the border ring: 2 for a corner, 1 otherwise, 0 with none |
| Positional.ReplyScore | player_alpha_beta_v2/alpha_beta.py:155-175 | 15 with no reply; 3 to 5 with one or two; -2 to 0 with three or more |
| Positional.ReplyScoreRange | player_alpha_beta_v2/alpha_beta.py:155-175 | the reply score is one of -2, -1, 0, 3, 4, 5, 15 |
| Positional.MoveEvalRange | player_alpha_beta_v2/alpha_beta.py:145-153 | `move_eval` lies between -4 and 23 |
| AlphaBetaV2Search.V2Max | player_alpha_beta_v2/alpha_beta.py:105-124 | the counters only grow, and each prune is matched by an expansion |
| AlphaBetaV2Search.V2MaxLoop | player_alpha_beta_v2/alpha_beta.py:110-124 | the counters only grow, and each prune is matched by an expansion |
| AlphaBetaV2Search.V2Min | player_alpha_beta_v2/alpha_beta.py:126-143 | the counters only grow, and each prune is matched by an expansion |
| AlphaBetaV2Search.V2MinLoop | player_alpha_beta_v2/alpha_beta.py:131-143 | the counters only grow, and each prune is matched by an expansion |
| AlphaBetaV2Search.V2MaxNodeCases | player_alpha_beta_v2/alpha_beta.py:105-124 | a max node cut by `cut_test` is worth the material score; otherwise its value is at least `alfa` |
| AlphaBetaV2Search.V2MaxLoopAtLeastAlfa | player_alpha_beta_v2/alpha_beta.py:110-124 | the max loop never returns less than its starting `alfa` |
| AlphaBetaV2Search.V2MinNodeCases | player_alpha_beta_v2/alpha_beta.py:126-143 | a min node cut by `cut_test` (which looks at my moves) is worth the material score; an uncut node where the opponent has no move returns `beta` untouched; otherwise its value is at most `beta` |
| AlphaBetaV2Search.V2MinLoopAtMostBeta | player_alpha_beta_v2/alpha_beta.py:131-143 | the min loop never returns more than its starting `beta` |
| AlphaBetaV2Search.V2MaxAboveNegInf | player_alpha_beta_v2/alpha_beta.py:105-124 | with `beta` other than -inf, a max node's value is never -inf: leaves are finite and an uncut node has a child |
| AlphaBetaV2Search.V2MaxLoopAboveNegInf | player_alpha_beta_v2/alpha_beta.py:110-124 | with `beta` other than -inf, the max loop never returns -inf once it has a child left or `alfa` is finite |
| AlphaBetaV2Search.V2MinAboveNegInf | player_alpha_beta_v2/alpha_beta.py:126-143 | with `beta` other than -inf, a min node's value is never -inf |
| AlphaBetaV2Search.V2MinLoopAboveNegInf | player_alpha_beta_v2/alpha_beta.py:131-143 | with `beta` other than -inf, the min loop never returns -inf |
| AlphaBetaV2Search.V2MaxLoopStep | player_alpha_beta_v2/alpha_beta.py:110-122 | one child: count it, search it with the parent's window, add its `move_eval`, raise `alfa`, prune once `beta < alfa` |
| AlphaBetaV2Search.V2MinLoopStep | player_alpha_beta_v2/alpha_beta.py:131-142 | one child: count it, search it, add its `move_eval`, lower `beta`, prune once `alfa >= beta` |
| AlphaBetaV2Search.V2MaxLoopTurn | player_alpha_beta_v2/alpha_beta.py:110-122 | the loop value after one child, in terms of the child's search and bonus |
| AlphaBetaV2Search.V2MinLoopTurn | player_alpha_beta_v2/alpha_beta.py:131-142 | the min loop value after one child, in terms of the child's search and bonus |
| AlphaBetaV2Search.Candidates | player_alpha_beta_v2/alpha_beta.py:79-89 | the (depth, move) pairs the deepening loops visit: none below depth 1, and only legal moves |
| AlphaBetaV2Search.LevelRun | player_alpha_beta_v2/alpha_beta.py:81-88 | one score per move of a depth level, with the counters only growing |
| AlphaBetaV2Search.DeepRun | player_alpha_beta_v2/alpha_beta.py:79-89 | one score per candidate over all depths, with the counters only growing |
| AlphaBetaV2Search.LevelRunStep | player_alpha_beta_v2/alpha_beta.py:83-85 | a level's `i`-th score is the full-window search of the unmoved board plus the move's `move_eval` |
| AlphaBetaV2Search.DeepRunPrefix | player_alpha_beta_v2/alpha_beta.py:79-89 | a shallower run is a prefix of a deeper one, in candidates, scores and counters |
| AlphaBetaV2Search.DeepRunLevel | player_alpha_beta_v2/alpha_beta.py:79-89 | depth `d` adds one candidate per legal move; the pick after depth `d` continues the pick after depth `d - 1` through that level |
| AlphaBetaV2Search.DeepRunStep | player_alpha_beta_v2/alpha_beta.py:80-85 | the candidate for depth `d` and move `i` is that move, and its score is that level's search plus bonus |
| AlphaBetaV2Search.DeepeningChoice | player_alpha_beta_v2/alpha_beta.py:69-93 | pass exactly when there is no depth or no move; otherwise a legal move, the first (depth, move) pair whose score is above all earlier and at least all later ones |
| AlphaBetaV2Search.CandidatesOfNoMoves | player_alpha_beta_v2/alpha_beta.py:80-81 | with no legal move no depth adds a candidate |
| PlayerAlphaBetaV2.AlphaBeta.constructor | player_alpha_beta_v2/alpha_beta.py:14-26 | colour, opponent, board, legal moves, counters at zero, the clock, and the two stored zone lists: 20 cells exactly on the inner ring and 28 cells exactly on the outer ring |
| PlayerAlphaBetaV2.AlphaBeta.GetBoardScore | player_alpha_beta_v2/alpha_beta.py:51-54 | my piece count minus the opponent's |
| PlayerAlphaBetaV2.AlphaBeta.CutTest | player_alpha_beta_v2/alpha_beta.py:95-103 | always cut once time is up; otherwise cut exactly when I have no move or no depth is left |
| PlayerAlphaBetaV2.AlphaBeta.CheckOpponentNextMove | player_alpha_beta_v2/alpha_beta.py:155-175 | the loop computes the reply score of the board after the move |
| PlayerAlphaBetaV2.AlphaBeta.MoveEval | player_alpha_beta_v2/alpha_beta.py:145-153 | corner bonus, danger and border terms looked up in the stored lists, and the reply score, summed: the search's bonus function |
| PlayerAlphaBetaV2.AlphaBeta.ExpandForMax | player_alpha_beta_v2/alpha_beta.py:111-117 | one child of the max loop: the value `V2MaxLoopStep` describes, and the counters after it |
| PlayerAlphaBetaV2.AlphaBeta.AlfaBetaMax | player_alpha_beta_v2/alpha_beta.py:105-124 | value and counters of the max-node search with cut test and bonuses |
| PlayerAlphaBetaV2.AlphaBeta.ExpandForMin | player_alpha_beta_v2/alpha_beta.py:132-137 | one child of the min loop: the value `V2MinLoopStep` describes, and the counters after it |
| PlayerAlphaBetaV2.AlphaBeta.AlfaBetaMin | player_alpha_beta_v2/alpha_beta.py:126-143 | value and counters of the min-node search with cut test and bonuses |
| PlayerAlphaBetaV2.AlphaBeta.ShowMoveResult | player_alpha_beta_v2/alpha_beta.py:56-67 | the agent's board becomes the board after the chosen move |
| PlayerAlphaBetaV2.AlphaBeta.ScoreRootMove | player_alpha_beta_v2/alpha_beta.py:82-88 | one root move of one depth: the counters and the running pair advance by one candidate |
| PlayerAlphaBetaV2.AlphaBeta.ScoreLevel | player_alpha_beta_v2/alpha_beta.py:81-88 | one depth level: the counters and the running pair advance by the whole level |
| PlayerAlphaBetaV2.AlphaBeta.NextMoveAlfaBeta | player_alpha_beta_v2/alpha_beta.py:69-93 | pass and nothing changed with no move; otherwise the first strict maximum over all (depth, move) pairs, the counters the run leaves, and the move played |
| AlphaBetaV2Corrected.EvalMaxPrefixStep | player_alpha_beta_v2/alpha_beta.py:110-119 | the minimax with bonuses folds in one more of my children at its value plus its bonus |
| AlphaBetaV2Corrected.EvalMinPrefixStep | player_alpha_beta_v2/alpha_beta.py:131-139 | the same for one more opponent child |
| AlphaBetaV2Corrected.EvalMaxPrefixGrows | player_alpha_beta_v2/alpha_beta.py:119 | the max fold never goes down |
| AlphaBetaV2Corrected.EvalMinPrefixShrinks | player_alpha_beta_v2/alpha_beta.py:139 | the min fold never goes up |
| AlphaBetaV2Corrected.FixedMaxLoopStep | player_alpha_beta_v2/alpha_beta.py:110-122 | one child of the corrected max loop, searched with the window shifted by its bonus |
| AlphaBetaV2Corrected.FixedMinLoopStep | player_alpha_beta_v2/alpha_beta.py:131-142 | one child of the corrected min loop, searched with the window shifted by its bonus |
| AlphaBetaV2Corrected.ShiftBounds | player_alpha_beta_v2/alpha_beta.py:116-117 | shifting window, value and result by the same amount keeps the window relation |
| AlphaBetaV2Corrected.ShiftKeepsOrder | player_alpha_beta_v2/alpha_beta.py:116-117 | adding the same amount keeps the order of two values |
| AlphaBetaV2Corrected.FixedMaxWindow | player_alpha_beta_v2/alpha_beta.py:105-124 | the corrected max search is exact inside any window and a correct bound outside it |
| AlphaBetaV2Corrected.FixedMaxLoopWindow | player_alpha_beta_v2/alpha_beta.py:110-124 | the corrected max loop keeps the clamped-fold invariant and ends in the window relation |
| AlphaBetaV2Corrected.FixedMaxTurn | player_alpha_beta_v2/alpha_beta.py:111-122 | one corrected child: in the window relation to its value plus bonus, and both folds advance by it |
| AlphaBetaV2Corrected.FixedMinWindow | player_alpha_beta_v2/alpha_beta.py:126-143 | the corrected min search is exact inside any window and a correct bound outside it |
| AlphaBetaV2Corrected.FixedMinLoopWindow | player_alpha_beta_v2/alpha_beta.py:131-143 | the corrected min loop keeps the clamped-fold invariant and ends in the window relation |
| AlphaBetaV2Corrected.FixedMinTurn | player_alpha_beta_v2/alpha_beta.py:132-142 | one corrected min child: in the window relation, and both folds advance by it |
| AlphaBetaV2Corrected.FixedMinShifted | player_alpha_beta_v2/alpha_beta.py:116-117 | a child searched with the shifted window, then raised by its bonus, is in the unshifted window relation |
| AlphaBetaV2Corrected.FixedMaxShifted | player_alpha_beta_v2/alpha_beta.py:136-137 | the same for a max child |
| AlphaBetaV2Corrected.FixedFullWindowIsEvalMinimax | player_alpha_beta_v2/alpha_beta.py:105-143 | with the full window the corrected search equals the minimax with bonuses at both node kinds |
| AlphaBetaV2Corrected.ExampleMoves | player_alpha_beta_v2/alpha_beta.py:110 | the legal moves of the example game at each board |
| AlphaBetaV2Corrected.ExampleBonus | player_alpha_beta_v2/alpha_beta.py:145-153 | the `move_eval` bonus of one example move |
| AlphaBetaV2Corrected.ExampleBonuses | player_alpha_beta_v2/alpha_beta.py:145-153 | the bonuses of all example moves |
| AlphaBetaV2Corrected.ExampleCodeFirstReply | player_alpha_beta_v2/alpha_beta.py:126-143 | the code's min node after my first move is worth 15 |
| AlphaBetaV2Corrected.ExampleCodeSecondReply | player_alpha_beta_v2/alpha_beta.py:126-143 | the code's min node after the corner, searched with window (30, +inf), stops at 15 |
| AlphaBetaV2Corrected.ExampleCodeValue | player_alpha_beta_v2/alpha_beta.py:105-124 | the code values the example root at 38, with 4 expansions and 1 prune |
| AlphaBetaV2Corrected.EvalMinOneLeaf | player_alpha_beta_v2/alpha_beta.py:131-139 | a min node with one reply is worth the reply's score plus its bonus |
| AlphaBetaV2Corrected.EvalMinTwoLeaves | player_alpha_beta_v2/alpha_beta.py:131-139 | a min node with two replies is worth the lesser of score plus bonus |
| AlphaBetaV2Corrected.EvalMaxTwoChildren | player_alpha_beta_v2/alpha_beta.py:110-119 | a max node with two children is worth the greater of value plus bonus |
| AlphaBetaV2Corrected.ExampleMinimaxFirstReply | player_alpha_beta_v2/alpha_beta.py:126-143 | the minimax with bonuses of the first reply node is 15 |
| AlphaBetaV2Corrected.ExampleMinimaxSecondReply | player_alpha_beta_v2/alpha_beta.py:126-143 | the minimax with bonuses of the corner's reply node is -85 |
| AlphaBetaV2Corrected.ExampleMinimaxValue | player_alpha_beta_v2/alpha_beta.py:105-124 | the minimax with bonuses of the example root is 30 |
| AlphaBetaV2Corrected.BonusAfterWindowOvershoots | player_alpha_beta_v2/alpha_beta.py:116-122 | on the example game the code's value differs from the minimax with bonuses, while the corrected search equals it |

## Left out

- The board rules (`legal_moves`, `process_move`, `piece_count`, `from_string`) live in the repository's `common/board.py`, which is not part of this model. They are the parameters of `Rules<B>`, so every result holds for any rules.
- Printing (`show_move_result`'s score lines, `__str__`, `__repr__`) and `MonitorPerformance` are left out; they do not affect the move chosen or the state.
- The wall clock (`perf_counter_ns`, `start_time`, `max_time = 4.7 s`) is an oracle from the expansion count to "time is up", given to the agent. Nothing is assumed about when it expires, except in the lemmas that state what happens when it never does.
- `off_center_move` uses floating point and is left out. The clocked agent's `move_eval` (player_alpha_beta_v3/alpha_beta.py:122-130) is never called and is left out with it.
- The `__main__` drivers, the game server and the human player are I/O around the agents and are left out.
- `MoveScore.__hash__` is left out; no modelled operation hashes a record.
- Rankers.DrainHeap: the heap is an unordered list, and a pop removes some record with the least score. The model does not fix which of several records with equal scores `heapq` returns first. The ranking is proved sorted and a permutation, not tie-for-tie equal to `heapq`'s order.
- The two rankers are never called by the search loops, which use the board's move order (the calls are commented out). In `player_alpha_beta` only the root loop uses the player's ranker; Patrick's copies of the rankers (player_patrick/alpha_beta.py:100-140) are identical and not modelled twice.
- `is_move_on_corner` and `is_move_in_danger_zone` in `player_alpha_beta` (alpha_beta.py:158 onward) are never called and are not modelled; the iterative-deepening agent's versions are.
- PlayerPatrick.AlphaBeta: Patrick's agent has no expansion counter. Its model keeps a ghost count of expansions only so it can share the counter invariant of the common search; the value and the prune counter are real.
- `check_opponent_next_move` plays the move on the board it is given, which is the child copy the caller then discards. The model computes on values, so this write is not modelled; it is not visible to any later step.
- The dead loops in `get_danger_zone` and `get_borders_zone`, behind `len(zone) < 0`, are not run by the code. Were they run, they would append to the already-filled literal. Zones proves that each literal list equals what its loop builds when started from an empty list.
- PlayerAlphaBetaV2.AlphaBeta.ExpandForMax, ExpandForMin, ScoreRootMove and ScoreLevel are helper methods, not functions of the source. They split the inline loop bodies of `alfa_beta_max`, `alfa_beta_min` and `next_move_alfa_beta` so that each proof stays small.
- The root loops of the alpha-beta agents are modelled as written: each candidate is searched on the unmoved board. `MinMax.IntendedRootChoiceIsBest` states the evidently intended root choice for minimax. No lemma states an intended root pick for an alpha-beta agent. For `player_alpha_beta`, Patrick's agent, and the clocked agent with a clock that never expires, `AlphaBetaSearch.FullWindowIsMinimax` (with `ClockIgnoredMax` for the clocked agent) shows that their full-window search equals minimax, so the same correction applies. The iterative-deepening agent's search is not minimax (second finding), and nothing here relates it to `MaxValue`.

## Findings

| source | as written | input that shows it | evidently intended | confidence | as-written member | corrected member |
|---|---|---|---|---|---|---|
| player_min_max/min_max.py:27-28 | each root candidate is scored by `min_max_max` on a fresh copy of the unmoved board; the candidate move is never played. The alpha-beta agents' root loops repeat this | any position with two legal moves where the second move's reply value is strictly greater than the first's: all root scores are equal, so the first move is played | play the candidate on its copy and score the opponent's reply node, as `min_max_max` does for inner children | not executed | MinMax.UnmovedRootMissesBetterMove | MinMax.IntendedRootChoiceIsBest |
| player_alpha_beta_v2/alpha_beta.py:116-117 | a child is searched with the parent's window and its `move_eval` is added afterwards; a fail-hard result outside the window is only a bound, but once the bonus is added it is compared as if exact | the two-move game of `ExampleRules` at depth 2: the code values the root at 38, the minimax with bonuses at 30 | search each child with the window shifted down by its bonus, so the sum is exact inside the parent's window | not executed | AlphaBetaV2Corrected.BonusAfterWindowOvershoots | AlphaBetaV2Corrected.FixedFullWindowIsEvalMinimax |
