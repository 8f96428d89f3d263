# Magarena's Monte Carlo tree search, priority passing and player state, in Dafny

This project models the core of Magarena's MCTS player
(`src/magic/ai/MCTSAI.java`) together with the two pieces of the game
model that the search leans on most: the priority event
(`MagicPriorityEvent.java`) and the player's own state (`MagicPlayer.java`).

- **GameTree** (`game_tree.dfy`): one `MCTSGameTree` node as a value. It
  covers `updateScore` (Welford's variance step and the robust-max
  override), `setAIWin`/`setAILose`, `incLose`, `isSolved`, `modify`,
  `getDecision`, `getSum`/`getV`/`getVar`, and the proof-propagation step of
  the backup loop.
- **Statistics** (`statistics.dfy`): a reference definition of the sum and of
  M2 (the sum of squared deviations) over the sequence of rewards. It proves
  that `updateScore` tracks both exactly while the robust-max override does
  not fire.
- **Arena** (`arena.dfy`): the tree is a sequence of nodes addressed by
  index. Parent and child links are indices. The root's parent is -1. A node
  updated in place in Java becomes a replaced slot. This module holds:
  - the shape invariant (`Valid`);
  - one backup pass as a function (`BackupFrom`) and as the loop that
    computes it (`BackupPass`);
  - `addChild`;
  - the visit-count invariant ("a node has at least as many simulations as
    its children together") and the proof that a backup pass and an
    expansion keep it.
- **Mcts** (`mcts.dfy`): class `Engine`, which holds the arena and the state
  cache. Its methods model `getNode`, `addNode`, `checkNode`, `growTree`
  (descent, details, cache entry, expansion), `randomPlay`, the backup
  loop, and `findNextEventChoiceResults` with its decision loop. The rules
  engine is a `Game` value: functions from the history of choice indices to
  the next decision point, the finished state, the score and the game id.
- **PriorityEvent** (`priority_event.dfy`): `executeEvent` as a transition
  function `Execute` on a game snapshot. Class `PriorityGame` updates the
  same fields in place and is proved equal to that transition.
- **Player** (`player.dfy`): class `Player` models:
  - state flags as the bits of a 32-bit int;
  - the hand-size limit;
  - the state-based losses;
  - the Player layer;
  - the mana-permanent subset;
  - the redealing of a hidden hand;
  - `getPlayerId`, the 64-bit base-31 position hash.

Java's `assert` statements in the search are treated as enabled, as in the
source's development mode. Each assert that some game can make fail becomes
an `Err` result:
- no choice at the start of the search or during the descent
  (`MCTSAI.java:95`, `:227`) is `NoChoice`;
- a node that fails `checkNode` (`:229`) is `InconsistentNode`;
- a path of fewer than two nodes (`:134`) is `ShortPath`;
- a root without children (`:164`) is `NoChildren`.

The asserts at `:264` (a fully expanded node has one child per choice) and
`:703` (a node never gets more children than choices) are proved to hold
rather than checked. An index that is out of range becomes
`ChoiceOutOfRange`. A thrown exception becomes `ok == false`.

Some documented statements do not match the code. In each case the model
follows the code:

- **Visit-count invariant.** A node has at least as many simulations as its
  children together everywhere but one place: the parent of a root taken
  from the cache. Such a root gets new simulations while its parent does
  not. `Mcts.Engine.FindNextEventChoiceResults` therefore preserves the
  invariant at every node except `nodes[root].parent`.
- **`getV` for an opponent parent** is `(1 - sum)/numSim`. That is not the
  zero-sum complement `1 - sum/numSim`
  (`GameTree.OpponentValueIsNotComplement`).
- **`numLose`** counts backups through lost children, not distinct lost
  children (`GameTree.LostChildCountsEachBackup`).
- **The search loop** stops early only once the root is a proven AI win.

## Model

| member | source | states |
|---|---|---|
| GameTree.NewNode | src/magic/ai/MCTSAI.java:416-438 | a new node has no statistics, no children, no details (maxChildren -1), maxChildSim 100, and the given parent, choice and evalScore |
| GameTree.IsSolved | src/magic/ai/MCTSAI.java:571-573 | solved iff proven AI win or AI loss; both at once is impossible |
| GameTree.UpdateScore | src/magic/ai/MCTSAI.java:575-592 | one more simulation; without the override the sum grows by delta; with it maxChildSim becomes the child's count; maxChildSim never falls; no other field changes |
| GameTree.WelfordTerm | src/magic/ai/MCTSAI.java:576-580 | Welford's term (delta - old mean)(delta - new mean) equals n/(n+1)(delta - old mean)^2 and is never negative |
| GameTree.UpdateScoreKeepsWellFormed | src/magic/ai/MCTSAI.java:575-592 | updateScore keeps a node well formed and never shrinks S |
| GameTree.UpdateScoreVariance | src/magic/ai/MCTSAI.java:576-580 | S grows by exactly n/(n+1)(delta - old mean)^2 |
| GameTree.UpdateScoreRobustMax | src/magic/ai/MCTSAI.java:582-591 | when the child has more than maxChildSim simulations, an AI node's average becomes the larger of its own and the child's, an opponent node's the smaller |
| GameTree.SetAIWin | src/magic/ai/MCTSAI.java:656-659 | the node is a proven AI win with the given steps, all else unchanged |
| GameTree.SetAILose | src/magic/ai/MCTSAI.java:661-664 | the node is a proven AI loss with the given steps, all else unchanged |
| GameTree.IncLose | src/magic/ai/MCTSAI.java:636-646 | numLose + 1, steps = max(steps, lsteps); on reaching maxChildren an AI node is lost and an opponent node won; otherwise evalScore unchanged |
| GameTree.Propagate | src/magic/ai/MCTSAI.java:149-160 | an unsolved child changes nothing; a child won for the parent's side solves the parent one step further; a child lost for it is an incLose; statistics and links are untouched |
| GameTree.LostChildCountsEachBackup | src/magic/ai/MCTSAI.java:155-158 | the same lost child backed up twice raises numLose by two |
| GameTree.Modify | src/magic/ai/MCTSAI.java:609-617 | a child lost for the parent's side loses 2.0, a won child gains 2.0, an unsolved child is unchanged |
| GameTree.ModifyKeepsOrder | src/magic/ai/MCTSAI.java:609-617 | among children with the same solved state (both or neither a proven AI win, both or neither a proven AI loss) the shift keeps the order of scores, whatever their evalScore otherwise |
| GameTree.Decision | src/magic/ai/MCTSAI.java:670-680 | the visit count, plus BOOST for a proven AI win |
| GameTree.WinOutranks | src/magic/ai/MCTSAI.java:670-680 | a proven win beats an unproven child with fewer than BOOST more visits |
| GameTree.GetSum | src/magic/ai/MCTSAI.java:686-688 | the sum under an AI parent, its complement 1 - sum under an opponent parent |
| GameTree.GetV | src/magic/ai/MCTSAI.java:694-696 | the average under an AI parent; 1/numSim - average under an opponent parent |
| GameTree.OpponentValueIsNotComplement | src/magic/ai/MCTSAI.java:686-696 | with two or more simulations the opponent value is strictly below 1 - average |
| GameTree.GetVar | src/magic/ai/MCTSAI.java:619-626 | 1.0 below ten simulations, otherwise S/(numSim - 1); never negative |
| Statistics.WelfordStep | src/magic/ai/MCTSAI.java:576-580 | adding a sample grows M2 by (x - old mean)(x - new mean) |
| Statistics.UpdateScoreTracksSamples | src/magic/ai/MCTSAI.java:575-581 | without the override a node's numSim, sum and S are the count, sum and M2 of the rewards backed up through it |
| Arena.StepAt | src/magic/ai/MCTSAI.java:145-159 | one backup iteration changes only the parent's slot, adds one simulation to it and changes none of its links |
| Arena.StepAtShape | src/magic/ai/MCTSAI.java:145-159 | one backup iteration keeps every link and every node well formed |
| Arena.BackupPass | src/magic/ai/MCTSAI.java:141-161 | the loop that pops the path computes BackupFrom over the whole path |
| Arena.BackupFromShape | src/magic/ai/MCTSAI.java:141-161 | a backup pass changes no link and keeps every node well formed |
| Arena.BackupVisits | src/magic/ai/MCTSAI.java:141-161 | every node of the path gets exactly one more simulation; every other node none |
| Arena.BackupSolves | src/magic/ai/MCTSAI.java:149-154 | after the pass, a path node whose next node is won for its side is solved that way with one more step |
| Arena.BackupCovers | src/magic/ai/MCTSAI.java:141-161 | the pass keeps the visit-count invariant at every node but the parent of the path's first node |
| Arena.AddChild | src/magic/ai/MCTSAI.java:702-705 | one new node appended, child of p with choice index equal to p's child count, p's children extended by it, nothing else changed |
| Arena.AddChildKeepsValid | src/magic/ai/MCTSAI.java:251-259 | expansion keeps the tree's shape invariant |
| Arena.AddChildKeepsCovered | src/magic/ai/MCTSAI.java:251-259 | expansion keeps the visit-count invariant at every old node |
| Mcts.TerminalReward | src/magic/ai/MCTSAI.java:293-302 | 0 iff the AI lost, 1 iff it did not |
| Mcts.PlayoutReward | src/magic/ai/MCTSAI.java:305-315 | 0.5 without a loser; in [0, 1]; below 0.5 iff the AI lost early, above 0.5 iff the opponent lost early |
| Mcts.PlayoutRewardSymmetric | src/magic/ai/MCTSAI.java:311-315 | an AI loss and an opponent loss after the same playout score 1 together |
| Mcts.LongerSurvivalScoresHigher | src/magic/ai/MCTSAI.java:311-315 | the longer the losing side survives, the better for it |
| Mcts.DecisionPicksWin | src/magic/ai/MCTSAI.java:167-177 | the best decision is a proven AI win when one exists and no unproven child has BOOST more visits |
| Mcts.AddChildCoverPreserved | src/magic/ai/MCTSAI.java:251-259 | expansion keeps the visit-count invariant everywhere |
| Mcts.BackupCoverPreserved | src/magic/ai/MCTSAI.java:141-161 | the backup pass keeps the visit-count invariant except at the parent of the path's first node |
| Mcts.DescentExtend | src/magic/ai/MCTSAI.java:279-282 | moving to child k extends the descent by choice index k |
| Mcts.DescentExpand | src/magic/ai/MCTSAI.java:251-258 | expanding extends the descent by the new leaf and its choice index |
| Mcts.Engine.GetNode | src/magic/ai/MCTSAI.java:472-491 | a cache hit returns the cached node and changes nothing; a miss appends a fresh root with parent -1, choice -1, evalScore -1 |
| Mcts.Engine.AddNode | src/magic/ai/MCTSAI.java:459-470 | a cached node is left alone; otherwise the cache maps the game id to it and it is marked cached |
| Mcts.Engine.CheckNode | src/magic/ai/MCTSAI.java:493-510 | true iff maxChildren, the recorded choice strings and every child's descriptor agree with the live choices |
| Mcts.Engine.SetDetails | src/magic/ai/MCTSAI.java:236-240 | records who moves, the number of choices and their strings, and nothing else |
| Mcts.Engine.SelectChild | src/magic/ai/MCTSAI.java:266-278 | the pick is Selected: taking as bar the larger of the first child's raw UCT and the pick's modified score, no child scores above the bar and every earlier child scores below it; a pick other than child 0 beats the first child's raw UCT |
| Mcts.Engine.SelectDecision | src/magic/ai/MCTSAI.java:166-177 | the first child with the largest getDecision, whose choice index is its position |
| Mcts.Engine.Visit | src/magic/ai/MCTSAI.java:227-247 | fails exactly on an inconsistent node seen before, and then changes nothing; otherwise the node becomes Visited (details filled in when it had none, marked cached when it is registered) and nothing else in the arena changes; the first non-root AI node is registered in the cache under the game id unless it is cached already |
| Mcts.Engine.GrowStep | src/magic/ai/MCTSAI.java:227-283 | Inconsistent iff the node was seen before and fails checkNode, changing nothing; Expanded iff it is consistent and has fewer children than choices, with the new leaf for choice index |children| scored by the game and the arena equal to AddChild of the visited arena; Descended otherwise, with the arena only visited, |children| = |choices| and the child Selected; the cache is exactly the Visit step's; old statistics and recorded details are kept |
| Mcts.Engine.GrowTree | src/magic/ai/MCTSAI.java:217-285 | the result is a descent from the root; with no growth the game is over at its end; an error means a decision point is offered there, NoChoice iff it has no choices, InconsistentNode otherwise with the last node failing checkNode. The tree is Grew: at most one new node; every old node keeps its statistics and its recorded details (side to move, choice count, choice strings); with no growth every link is kept; with growth the descent ends in the new leaf for the untried choice k = the parent's old child count, offered at the parent and scored by the game, appended to the parent's children, and every other old node keeps its links; each selection step picked the Selected child in the tree as it stood then, which is the final tree up to the node chosen from and the starting tree beyond it; the cache gained at most the first non-root AI node visited; the visit-count invariant is kept |
| Mcts.Engine.Advance | src/magic/ai/MCTSAI.java:227-283 | one round of the loop: an inconsistent node changes nothing; a descent step extends the walk with the Selected child, the tree of this step recorded as its snapshot, every node from the new last node on still as at the start, every other old node's links, statistics and details kept; an expansion ends the walk with WalkEnd: the new leaf appended to the last node's children, every other node's links and every statistic and detail kept, the snapshots tied to the final tree |
| Mcts.Engine.Descend | src/magic/ai/MCTSAI.java:217-285 | the loop of growTree: a walk that stops without growing keeps every link, statistic and recorded detail, with the stop reason and snapshots tied to the final tree; one that grows ends in the new leaf with WalkEnd, for the choice offered at the parent |
| Mcts.Engine.Expand | src/magic/ai/MCTSAI.java:702-705 | addChild on the arena, with the new node's index returned |
| Mcts.Engine.Backup | src/magic/ai/MCTSAI.java:141-161 | the arena becomes BackupFrom of the path; links unchanged; one more visit per path node; the invariant is kept but at the path root's parent |
| Mcts.Engine.RandomPlay | src/magic/ai/MCTSAI.java:291-316 | a finished game solves the leaf for the winner with reward 0 or 1; otherwise the playout reward and no change; the arena is AfterPlay and the reward PlayReward |
| Mcts.Engine.Simulate | src/magic/ai/MCTSAI.java:122-161 | growTree's tree (grown) is Grew over the old tree, as for GrowTree: at most one new leaf, links kept but the leaf's parent's children gaining it, statistics and details kept, the selection steps and the cache gaining at most the first non-root AI node, so no cache key is lost; an error is NoChoice, InconsistentNode or ShortPath (only when the game offers nothing at the root) and leaves the arena as growTree left it, of the old size with every statistic kept; success means a descent of at least two nodes in the grown tree, and the arena is BackupFrom over that path of AfterPlay of its leaf with the game's reward; the root gains one visit exactly on success; the invariant is kept but at the root's parent |
| Mcts.Engine.PlayAndBackup | src/magic/ai/MCTSAI.java:136-161 | randomPlay then backup: the arena is BackupFrom over the path of AfterPlay of its last node with PlayReward; one more visit at the path's first node; the cache is unchanged; invariant kept but at its parent |
| Mcts.Engine.FindNextEventChoiceResults | src/magic/ai/MCTSAI.java:81-180 | no choice is an error; one choice is taken at once; otherwise the root is the cached or a new node and gains one visit per simulation, and no cache key is lost; a search cut short without a proven AI win is a NoChoice, InconsistentNode or ShortPath error; after a full search NoChildren iff the root has no children, otherwise the answer is the best getDecision, or ChoiceOutOfRange iff that index is not among the live choices |
| PriorityEvent.Toggle | src/magic/model/event/MagicPriorityEvent.java:30-36 | ActivePlayer and OtherPlayer swap |
| PriorityEvent.ToggleTwice | src/magic/model/event/MagicPriorityEvent.java:30-36 | two toggles restore the step |
| PriorityEvent.Execute | src/magic/model/event/MagicPriorityEvent.java:15-66 | the transition keeps two activation priorities |
| PriorityEvent.PassingCounts | src/magic/model/event/MagicPriorityEvent.java:18-20 | PASS and SKIP add one to the passed count; a play does not |
| PriorityEvent.OnlyPassBumpsId | src/magic/model/event/MagicPriorityEvent.java:21-24 | only PASS adds one to the priority player's activation id; nothing else in the priorities changes |
| PriorityEvent.SecondPassResolves | src/magic/model/event/MagicPriorityEvent.java:25-27 | a pass after a pass clears the flag and resolves; the step and the queue stay |
| PriorityEvent.FirstPassToggles | src/magic/model/event/MagicPriorityEvent.java:28-39 | a first pass sets the flag; it toggles ActivePlayer/OtherPlayer and fails in any other step |
| PriorityEvent.TwoPassesResolve | src/magic/model/event/MagicPriorityEvent.java:17-40 | two passes in a row from ActivePlayer/OtherPlayer resolve exactly once and leave the flag clear |
| PriorityEvent.PlayFlag | src/magic/model/event/MagicPriorityEvent.java:42-46 | a play leaves the flag set iff it was set and the activation does not use the stack |
| PriorityEvent.PlayQueues | src/magic/model/event/MagicPriorityEvent.java:48-64 | a play sets the controller's priority, clears the opponent's, empties the paid cost and queues the cost events in order and the activation's event last |
| PriorityEvent.PriorityGame.AddCostEvents | src/magic/model/event/MagicPriorityEvent.java:60-62 | the cost events are appended in order |
| PriorityEvent.PriorityGame.ExecuteEvent | src/magic/model/event/MagicPriorityEvent.java:15-66 | the fields updated in place equal the transition Execute |
| Player.Wrap32 | src/magic/model/MagicPlayer.java:597-603 | the result is a Java int and equals the input when it already is one |
| Player.Wrap64 | src/magic/model/MagicPlayer.java:163-173 | the result is a Java long and equals the input when it already is one |
| Player.DecUndoesInc | src/magic/model/MagicPlayer.java:597-603 | decrementing undoes incrementing and the reverse, across the wrap-around |
| Player.SetStateBits | src/magic/model/MagicPlayer.java:203-205 | setState sets the state's bit and leaves every other bit |
| Player.ClearStateBits | src/magic/model/MagicPlayer.java:207-209 | clearState clears the state's bit and the sign bit and leaves every other bit |
| Player.Id | src/magic/model/MagicPlayer.java:199-201 | the id is the index plus 1000000000 |
| Player.IdsDistinct | src/magic/model/MagicPlayer.java:199-201 | players with different indices have different ids |
| Player.ShuffleKeepsCards | src/magic/model/MagicPlayer.java:280-288 | the shuffled library, with the hand put on top, holds exactly the cards of hand and library |
| Player.DealOutKeepsCards | src/magic/model/MagicPlayer.java:290-293 | dealing n cards gives a hand of n and a library of the rest, with no card lost or added |
| Player.RedealKeepsCards | src/magic/model/MagicPlayer.java:279-294 | redealing keeps the hand size and the cards of hand and library together |
| Player.ReturnHand | src/magic/model/MagicPlayer.java:282-286 | the library gains the hand's cards, top card first |
| Player.Deal | src/magic/model/MagicPlayer.java:291-293 | n cards from the top of the library go to the hand, each onto its top |
| Player.HornerLongWraps | src/magic/model/MagicPlayer.java:163-173 | folding with a 64-bit wrap at every step equals the unbounded base-31 fold wrapped once |
| Player.Player.constructor | src/magic/model/MagicPlayer.java:75-88 | a new player has the given life and index and empty or zero state |
| Player.Player.GetId | src/magic/model/MagicPlayer.java:199-201 | the id of this player's index |
| Player.Player.SetStateOf | src/magic/model/MagicPlayer.java:203-205 | the whole new state is the old one with stateFlags OR mask; the state holds and the invariant is kept |
| Player.Player.ClearStateOf | src/magic/model/MagicPlayer.java:207-209 | the whole new state is the old one with stateFlags AND (MAX_VALUE - mask); the state no longer holds and the invariant is kept |
| Player.Player.NumExcessCards | src/magic/model/MagicPlayer.java:251-253 | never negative; positive iff the hand exceeds the limit, and then the excess |
| Player.Player.NoMaxHandSize | src/magic/model/MagicPlayer.java:255-257 | the whole new state is the old one with the limit Integer.MAX_VALUE, so no hand is in excess |
| Player.Player.GenerateStateBasedActions | src/magic/model/MagicPlayer.java:613-620 | a life loss iff life is at most 0, a poison loss iff poison is at least 10, life first, no duplicates |
| Player.Player.Apply | src/magic/model/MagicPlayer.java:622-632 | the Player layer changes exactly the abilities (cleared), the flags (cleared) and the limit (7); any other layer fails and changes nothing |
| Player.Player.AddPermanent | src/magic/model/MagicPlayer.java:334-340 | succeeds iff the permanent was absent; the whole new state is the old one with it added to the permanents, and to the mana set when it produces mana |
| Player.Player.RemovePermanent | src/magic/model/MagicPlayer.java:342-348 | succeeds iff the permanent was present; the whole new state is the old one with it removed from the permanents and the mana set |
| Player.Player.IncDrawnCards | src/magic/model/MagicPlayer.java:597-599 | the whole new state is the old one with drawnCards one higher in int arithmetic |
| Player.Player.DecDrawnCards | src/magic/model/MagicPlayer.java:601-603 | the whole new state is the old one with drawnCards one lower in int arithmetic |
| Player.Player.ShowRandomizedHandAndLibrary | src/magic/model/MagicPlayer.java:279-294 | the whole new state is the old one with hand and library from Redeal and the library known; the hand size and the cards of both are kept |
| Player.RedealHand | src/magic/model/MagicPlayer.java:279-294 | the hand-to-library, shuffle and deal steps compute Redeal |
| Player.Player.GetPlayerId | src/magic/model/MagicPlayer.java:163-173 | the base-31 fold of id, the player's own life and poison, and the other four keys (not the exile), wrapped to a long at every step, which equals the unbounded fold wrapped once |

## Left out

- UCT and its arithmetic (`getUCT`'s square root and logarithm): the selection takes the UCT value as a function parameter. `getRatio`, `getNormal` and `getSecureScore` are not used by the search and are left out.
- The time budget of the search loop and the assert-toggled limits: the number of simulations is the parameter `maxSim` (the source uses 1000 when assertions are on). The clock is not modelled.
- Cloning the game, `getNextChoices`, `executeNextEvent`, the random playout and `getGameId`: the rules engine is the oracle `Game`, a set of functions of the choice history. The playout is a function from the history to its outcome.
- `StateCache` eviction: the cache is a plain map that never forgets.
- Logging, `printPath`, `printNode` and `obj2String`: a choice's descriptor is an abstract string.
- Floating point: rewards and statistics are exact reals, so no rounding is modelled.
- In-place updates and aliasing of `MCTSGameTree` objects: nodes are values in an arena, and an update replaces a slot. A node reachable from two paths is modelled by its unique index.
- `getStateId`, `createHandAndLibrary` and the counting loops of `MagicPlayer`: not part of this model.
- `Mcts.Engine.SelectChild`: the UCT values come from a parameter, so the contract says which child the loop picks given those values, not that the choice maximises the true UCT.
- `MagicStep`, `MagicActivationPriority`, `MagicPlayerState`, `MagicCardList` and `MagicGame` are not part of this model. The model assumes the following:
  - `clear()` sets both fields of an activation priority to 0;
  - `changeActivationPriority` gives the controller the activation's claimed priority;
  - a player-state mask is one bit below the sign bit, and `hasState` tests that bit;
  - the top of a card list is its last element;
  - `resolve()` counts one resolution;
  - `addDelayedAction` appends to a list that `GenerateStateBasedActions` returns.
- `Player.Player.ShowRandomizedHandAndLibrary`: the shuffle (`MagicRandom`) is a function parameter that only has to permute its input.
- `Player.Player.GetPlayerId`: life and poison come from the player; the other four keys are parameters, because how `getMinimumAmount` and the state ids of the permanents, hand and graveyard are computed is not part of this model.
- `Player.Player.AddPermanent` and `Player.Player.RemovePermanent`: whether a permanent produces mana is a fixed property of the permanent (`producesMana`); the source asks the permanent each time it is added or removed, and a permanent whose answer changes in between is not modelled.
- `Player.Player.constructor`: `MagicCardList` is not part of this model, so the known flag of a new library is not stated; `library.setKnown(true)` is modelled as the `libraryKnown` field.
- `Player.Player.constructor`: a new player's ability set is empty, while the source leaves `cachedAbilityFlags` null until the Player layer is applied (`MagicPlayer.java:625`); a read of the abilities before that, which fails in the source, is not modelled.
- `Mcts.Engine.RandomPlay`: a finished game always names its losing side (`finished` is an `Option<bool>`), so the assert that a finished game has a losing player (`MCTSAI.java:294`) cannot fail; a rules engine that ends a game without a loser is not modelled.
- `Mcts.Engine.Visit`, `Mcts.Engine.GrowTree` and the node statistics: `numSim`, `numLose` and `steps` are unbounded naturals, not Java ints; a search of 2^31 simulations through one node is not modelled.
- `Mcts.Engine.GrowTree`: the tree as it stood at each selection step is a ghost result (the walk's snapshots), not something the search keeps.
- `Mcts.Engine.GrowTree`: the cache is stated to be unchanged or to gain the first non-root AI node visited; which of the two happens depends on whether that node was already marked cached, and the walk's contract does not track that mark (`Mcts.Engine.Visit` and `Mcts.Engine.GrowStep` state the cache exactly for each step).
- `PriorityEvent.PriorityGame.ExecuteEvent`: the `IllegalStateException` is `ok == false` with the updates made before it kept; the caller's handling of the exception is not modelled.
- `Player.Player.AddPermanent` and `Player.Player.RemovePermanent`: the assertion failure is `ok == false` with the state as Java leaves it. A duplicate add or an absent remove changes nothing.
- HeadlessGameController, LogStackViewer, CardResource, TextImages, the card scripts and MagicMegamorphActivation are outside the modelled core.
