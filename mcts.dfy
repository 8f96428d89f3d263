/**
 * The search engine of MCTSAI.java: the node arena with the state cache, the
 * descent and expansion of growTree, the reward of randomPlay, the backup
 * loop and the final choice of findNextEventChoiceResults.
 *
 * The rules engine is a Game value: what the search sees after playing a
 * sequence of choice indices from the start state.
 */
module Mcts {
  import opened Wrappers
  import opened GameTree
  import opened Arena

  /** Length cap of a playout (MAX_ACTIONS). */
  const MAX_ACTIONS: int := 10000

  /** A decision point: the choices on offer, and whether the AI (score player) makes it. */
  datatype Point = Point(choices: seq<Desc>, aiToMove: bool)

  /** getLosingPlayer after a playout: none, the AI, or its opponent. */
  datatype Loser = NoLoser | AILost | OpponentLost

  /** The outcome of a simulated playout: actions played, and who lost if anyone. */
  datatype Playout = Playout(actions: nat, loser: Loser)

  /**
   * The rules engine as an oracle over histories of choice indices:
   * `next` is getNextChoices(game, false) (None once the game is finished or
   * MAX_ACTIONS actions passed), `finished` is isFinished with whether the AI
   * lost, `score` is getScore and `gameId` is getGameId.
   */
  datatype Game = Game(
    next: seq<nat> -> Option<Point>,
    finished: seq<nat> -> Option<bool>,
    score: seq<nat> -> int,
    gameId: seq<nat> -> int)

  /** The assertion failures and index errors of the source, as results. */
  datatype Error = NoChoice | InconsistentNode | ShortPath | NoChildren | ChoiceOutOfRange

  /** What one round of growTree's loop did: failed checkNode, expanded choice k, or moved to child k. */
  datatype Step = Inconsistent | Expanded(leaf: nat, k: nat) | Descended(child: nat, k: nat)

  /** The reward of a playout that reached a finished game: 0 when the AI lost, else 1. */
  function TerminalReward(aiLost: bool): (r: real)
    ensures r == 0.0 <==> aiLost
    ensures r == 1.0 <==> !aiLost
  {
    if aiLost then 0.0 else 1.0
  }

  /**
   * The reward of a playout from a non-terminal leaf: 0.5 without a loser,
   * otherwise shaded by the number of actions the losing side survived.
   */
  function PlayoutReward(p: Playout): (r: real)
    ensures p.loser == NoLoser ==> r == 0.5
    ensures p.actions <= 2 * MAX_ACTIONS ==> 0.0 <= r <= 1.0
    ensures p.loser == AILost ==> (r < 0.5 <==> p.actions < MAX_ACTIONS)
    ensures p.loser == OpponentLost ==> (r > 0.5 <==> p.actions < MAX_ACTIONS)
  {
    match p.loser
    case NoLoser => 0.5
    case AILost => p.actions as real / (2.0 * MAX_ACTIONS as real)
    case OpponentLost => 1.0 - p.actions as real / (2.0 * MAX_ACTIONS as real)
  }

  /** The two losing sides are scored symmetrically around 0.5. */
  lemma PlayoutRewardSymmetric(n: nat)
    ensures PlayoutReward(Playout(n, AILost)) + PlayoutReward(Playout(n, OpponentLost)) == 1.0
  {
  }

  /** The longer the AI survives a lost playout, the higher its reward; the reverse for the opponent. */
  lemma LongerSurvivalScoresHigher(m: nat, n: nat)
    requires m < n
    ensures PlayoutReward(Playout(m, AILost)) < PlayoutReward(Playout(n, AILost))
    ensures PlayoutReward(Playout(m, OpponentLost)) > PlayoutReward(Playout(n, OpponentLost))
  {
    var d := 2.0 * MAX_ACTIONS as real;
    assert m as real / d < n as real / d;
  }

  /** checkNode: the node's recorded choices and children agree with the live choices. */
  ghost predicate Consistent(nodes: seq<Node>, i: nat, choices: seq<Desc>)
    requires Valid(nodes) && i < |nodes| && HasDetails(nodes[i])
  {
    && nodes[i].maxChildren == |choices|
    && nodes[i].choicesStr == choices
    && forall k :: 0 <= k < |nodes[i].children| ==>
         ChildOk(nodes, i, k) && nodes[nodes[i].children[k]].desc == choices[nodes[nodes[i].children[k]].choice]
  }

  /** The exploration score a child gets in growTree: getUCT shifted by modify. */
  function Scored(nodes: seq<Node>, p: nat, c: nat, uct: (Node, Node) -> real): real
    requires p < |nodes| && c < |nodes|
  {
    Modify(nodes[p].isAI, nodes[c], uct(nodes[p], nodes[c]))
  }

  /**
   * Child position k is the one growTree's selection loop picks at p: the
   * first child's unmodified UCT is the bar, and a child replaces the best so
   * far only with a strictly larger modified score.
   */
  ghost predicate Selected(nodes: seq<Node>, p: nat, uct: (Node, Node) -> real, k: nat)
    requires p < |nodes|
  {
    && k < |nodes[p].children|
    && InRange(nodes, nodes[p].children)
    && (forall j :: 0 <= j < |nodes[p].children| ==>
          Scored(nodes, p, nodes[p].children[j], uct)
            <= MaxR(uct(nodes[p], nodes[nodes[p].children[0]]), Scored(nodes, p, nodes[p].children[k], uct)))
    && (forall j :: 0 <= j < k ==>
          Scored(nodes, p, nodes[p].children[j], uct)
            < MaxR(uct(nodes[p], nodes[nodes[p].children[0]]), Scored(nodes, p, nodes[p].children[k], uct)))
    && (k > 0 ==> Scored(nodes, p, nodes[p].children[k], uct) > uct(nodes[p], nodes[nodes[p].children[0]]))
  }

  /** Step k of a descent: child position c of node p, at index next, as the selection rule picks it. */
  ghost predicate ChosenIn(view: seq<Node>, p: nat, next: nat, c: nat, uct: (Node, Node) -> real)
  {
    p < |view| && Selected(view, p, uct, c) && view[p].children[c] == next
  }

  /** The statistics and links of a node, which only randomPlay and backup change. */
  predicate SameStats(a: Node, b: Node) {
    (a.parent, a.choice, a.desc, a.numSim, a.numLose, a.evalScore, a.steps, a.sum, a.S, a.maxChildSim)
      == (b.parent, b.choice, b.desc, b.numSim, b.numLose, b.evalScore, b.steps, b.sum, b.S, b.maxChildSim)
  }

  /**
   * A node after growTree's visit: the details recorded on a first visit,
   * then the cache mark when addNode registers it.
   */
  function Visited(n: Node, pt: Point, mark: bool): Node
  {
    var d := if HasDetails(n) then n
             else n.(isAI := pt.aiToMove, maxChildren := |pt.choices|, choicesStr := pt.choices);
    if mark then d.(isCached := true) else d
  }

  /** The tree after randomPlay at leaf: a finished game solves the leaf for the side that won. */
  function AfterPlay(nodes: seq<Node>, leaf: nat, finished: Option<bool>): (r: seq<Node>)
    requires leaf < |nodes|
    ensures |r| == |nodes|
  {
    if finished.None? then nodes
    else nodes[leaf := if finished.value then SetAILose(nodes[leaf], 0) else SetAIWin(nodes[leaf], 0)]
  }

  /** The reward randomPlay returns. */
  function PlayReward(finished: Option<bool>, playout: Playout): real
  {
    if finished.Some? then TerminalReward(finished.value) else PlayoutReward(playout)
  }

  /** Child position k has the largest decision score, and no earlier child ties it. */
  ghost predicate IsBestDecision(nodes: seq<Node>, cs: seq<nat>, k: nat)
    requires InRange(nodes, cs)
  {
    && k < |cs|
    && (forall j :: 0 <= j < |cs| ==> Decision(nodes[cs[j]]) <= Decision(nodes[cs[k]]))
    && (forall j :: 0 <= j < k ==> Decision(nodes[cs[j]]) < Decision(nodes[cs[k]]))
  }

  /**
   * A proven AI win is chosen over every unproven child that has fewer than
   * BOOST more visits than it.
   */
  lemma DecisionPicksWin(nodes: seq<Node>, cs: seq<nat>, k: nat, w: nat)
    requires InRange(nodes, cs) && IsBestDecision(nodes, cs, k) && w < |cs|
    requires IsAIWin(nodes[cs[w]])
    requires forall j :: 0 <= j < |cs| && !IsAIWin(nodes[cs[j]]) ==>
               nodes[cs[j]].numSim < nodes[cs[w]].numSim + BOOST
    ensures IsAIWin(nodes[cs[k]])
  {
  }

  /**
   * The visit-count invariant is kept from a to b at every node but `except`:
   * where it held in a, and at every node created since.
   */
  ghost predicate CoverPreserved(a: seq<Node>, b: seq<Node>, except: int) {
    && Valid(a) && Valid(b) && |a| <= |b|
    && forall x :: 0 <= x < |b| && x != except && (x >= |a| || Covered(a, x)) ==> Covered(b, x)
  }

  lemma CoverPreservedTrans(a: seq<Node>, b: seq<Node>, c: seq<Node>, e: int)
    requires CoverPreserved(a, b, e) && CoverPreserved(b, c, e)
    ensures CoverPreserved(a, c, e)
  {
  }

  lemma CoverPreservedWeaken(a: seq<Node>, b: seq<Node>, e: int)
    requires CoverPreserved(a, b, -1)
    ensures CoverPreserved(a, b, e)
  {
  }

  /** Replacing one node by one with the same links keeps the tree valid. */
  lemma ValidUpdate(nodes: seq<Node>, i: nat, n: Node)
    requires Valid(nodes) && i < |nodes| && WellFormed(n)
    requires n.parent == nodes[i].parent && n.choice == nodes[i].choice
    requires n.children == nodes[i].children
    requires if HasDetails(n) then |n.children| <= n.maxChildren == |n.choicesStr| else n.children == []
    ensures Valid(nodes[i := n])
  {
    var r := nodes[i := n];
    forall j, k | 0 <= j < |r| && 0 <= k < |r[j].children| ensures ChildOk(r, j, k) {
      assert ChildOk(nodes, j, k);
    }
  }

  /**
   * Changing no visit count and no child list, and adding only childless
   * nodes, keeps the visit-count invariant everywhere.
   */
  lemma CoverFrame(a: seq<Node>, b: seq<Node>)
    requires Valid(a) && Valid(b) && |a| <= |b|
    requires forall i :: 0 <= i < |a| ==> b[i].numSim == a[i].numSim && b[i].children == a[i].children
    requires forall i :: |a| <= i < |b| ==> b[i].children == []
    ensures CoverPreserved(a, b, -1)
  {
    forall x | 0 <= x < |a| && Covered(a, x) ensures Covered(b, x) {
      var cs := a[x].children;
      assert InRange(a, cs) by {
        forall k | 0 <= k < |cs| ensures cs[k] < |a| { assert ChildOk(a, x, k); }
      }
      ChildSimSumFrame(a, b, cs);
    }
  }

  /** Expansion adds a node with no visits, which the invariant holds at too. */
  lemma AddChildCoverPreserved(nodes: seq<Node>, p: nat, evalScore: int, desc: Desc)
    requires Valid(nodes) && p < |nodes| && HasDetails(nodes[p])
    requires |nodes[p].children| < nodes[p].maxChildren
    ensures CoverPreserved(nodes, AddChild(nodes, p, evalScore, desc), -1)
  {
    var r := AddChild(nodes, p, evalScore, desc);
    AddChildKeepsValid(nodes, p, evalScore, desc);
    forall x | 0 <= x < |nodes| && Covered(nodes, x) ensures Covered(r, x) {
      AddChildKeepsCovered(nodes, p, evalScore, desc, x);
    }
  }

  /**
   * The backup pass keeps the visit-count invariant everywhere except at the
   * parent of the path's first node, which it does not visit.
   */
  lemma BackupCoverPreserved(nodes: seq<Node>, path: seq<nat>, score: real)
    requires Valid(nodes) && IsPath(nodes, path)
    ensures CoverPreserved(nodes, BackupFrom(nodes, path, 0, score), nodes[path[0]].parent)
  {
    var r := BackupFrom(nodes, path, 0, score);
    BackupFromShape(nodes, path, 0, score);
    ValidTransfer(nodes, r);
    forall x | 0 <= x < |r| && x != nodes[path[0]].parent && Covered(nodes, x)
      ensures Covered(r, x)
    {
      BackupCovers(nodes, path, score, x);
    }
  }

  /** The links growTree relies on: only expansion and backup change them. */
  predicate SameLinks(a: Node, b: Node) {
    (a.parent, a.choice, a.numSim, a.children) == (b.parent, b.choice, b.numSim, b.children)
  }

  /** Details, once recorded, stay: the side to move, the number of choices and their descriptions. */
  predicate DetailsKept(a: Node, b: Node) {
    HasDetails(a) ==> (b.isAI, b.maxChildren, b.choicesStr) == (a.isAI, a.maxChildren, a.choicesStr)
  }

  /**
   * A descent of growTree from root: path is a path of the tree and hist the
   * choice indices played along it, one per edge.
   */
  ghost predicate Descent(nodes: seq<Node>, root: nat, path: seq<nat>, hist: seq<nat>) {
    && IsPath(nodes, path) && path[0] == root && |hist| == |path| - 1
    && forall k :: 0 <= k < |hist| ==> hist[k] == nodes[path[k + 1]].choice
  }

  /** A descent stays one when no link changes. */
  lemma DescentKeep(a: seq<Node>, b: seq<Node>, root: nat, path: seq<nat>, hist: seq<nat>)
    requires Descent(a, root, path, hist) && |a| == |b|
    requires forall i :: 0 <= i < |a| ==> SameLinks(a[i], b[i])
    ensures Descent(b, root, path, hist)
  {
    forall k | 0 <= k < |path| - 1 ensures path[k + 1] in b[path[k]].children {
      assert SameLinks(a[path[k]], b[path[k]]);
    }
    forall k | 0 <= k < |hist| ensures hist[k] == b[path[k + 1]].choice {
      assert SameLinks(a[path[k + 1]], b[path[k + 1]]);
    }
  }

  /** Moving down to child k of the last node extends a descent by choice index k. */
  lemma DescentExtend(nodes: seq<Node>, root: nat, path: seq<nat>, hist: seq<nat>, k: nat)
    requires Valid(nodes) && Descent(nodes, root, path, hist)
    requires k < |nodes[path[|path| - 1]].children|
    ensures Descent(nodes, root, path + [nodes[path[|path| - 1]].children[k]], hist + [k])
  {
    assert ChildOk(nodes, path[|path| - 1], k);
  }

  /** Expansion at the last node of a descent extends it by the new leaf. */
  lemma DescentExpand(nodes: seq<Node>, root: nat, path: seq<nat>, hist: seq<nat>, evalScore: int, desc: Desc)
    requires Valid(nodes) && Descent(nodes, root, path, hist)
    requires HasDetails(nodes[path[|path| - 1]])
    requires |nodes[path[|path| - 1]].children| < nodes[path[|path| - 1]].maxChildren
    ensures var r := AddChild(nodes, path[|path| - 1], evalScore, desc);
            Descent(r, root, path + [|nodes|], hist + [|nodes[path[|path| - 1]].children|])
  {
    var p := path[|path| - 1];
    var r := AddChild(nodes, p, evalScore, desc);
    AddChildKeepsValid(nodes, p, evalScore, desc);
    forall k | 0 <= k < |path| - 1 ensures path[k + 1] in r[path[k]].children {
      var cs := nodes[path[k]].children;
      assert path[k + 1] in cs;
      var m :| 0 <= m < |cs| && cs[m] == path[k + 1];
      assert r[path[k]].children[m] == path[k + 1];
    }
    DescentExtend(r, root, path, hist, |nodes[p].children|);
  }

  /** A path stays one when no child list changes. */
  lemma PathKeep(a: seq<Node>, b: seq<Node>, path: seq<nat>)
    requires IsPath(a, path) && SameShape(a, b)
    ensures IsPath(b, path)
  {
    forall k | 0 <= k < |path| - 1 ensures path[k + 1] in b[path[k]].children {
      assert SameNodeShape(a[path[k]], b[path[k]]);
    }
  }

  /**
   * The selection steps of a walk over a tree that started as start and
   * stands now as nodes: step k of path/hist was the selection rule's pick
   * in views[k], the tree as it stood then, whose nodes up to path[k] (the
   * ones visited by then, never touched again) are as they are now and whose
   * later nodes are as they were at the start.
   */
  ghost predicate Snapshots(start: seq<Node>, nodes: seq<Node>, path: seq<nat>, hist: seq<nat>,
                            views: seq<seq<Node>>, uct: (Node, Node) -> real)
  {
    && |views| <= |hist| < |path| && |start| <= |nodes|
    && (forall k :: 0 <= k < |views| ==> ChosenIn(views[k], path[k], path[k + 1], hist[k], uct))
    && (forall k :: 0 <= k < |views| ==>
          |views[k]| == |start| && forall i :: 0 <= i < |start| ==>
            views[k][i] == if i <= path[k] then nodes[i] else start[i])
  }

  /**
   * The cache after visiting the nodes path[..|hist|]: firstAI is the
   * position of the first visited non-root AI node, the only one the cache
   * may have gained since cache0, or -1 when none was visited.
   */
  ghost predicate FirstAI(nodes: seq<Node>, cache0: map<int, nat>, cache: map<int, nat>, g: Game, root: nat,
                          path: seq<nat>, hist: seq<nat>, firstAI: int)
  {
    && |hist| < |path| && InRange(nodes, path) && -1 <= firstAI < |hist|
    && (forall m :: 0 <= m < |hist| && (firstAI == -1 || m < firstAI) && path[m] != root ==> !nodes[path[m]].isAI)
    && (firstAI == -1 ==> cache == cache0)
    && (firstAI >= 0 ==>
          && path[firstAI] != root && nodes[path[firstAI]].isAI
          && (cache == cache0 || cache == cache0[g.gameId(hist[..firstAI]) := path[firstAI]]))
  }

  /** The cache only gains entries over a walk. */
  lemma FirstAIKeys(nodes: seq<Node>, cache0: map<int, nat>, cache: map<int, nat>, g: Game, root: nat,
                    path: seq<nat>, hist: seq<nat>, firstAI: int)
    requires FirstAI(nodes, cache0, cache, g, root, path, hist, firstAI)
    ensures cache0.Keys <= cache.Keys
  {
  }

  /**
   * growTree's walk so far over a tree that started as start: links,
   * statistics, details and side to move kept, a descent whose nodes before
   * the last were visited, nothing from the last node on touched yet, the
   * selection steps and the cache.
   */
  ghost predicate Walk(start: seq<Node>, cache0: map<int, nat>, nodes: seq<Node>, cache: map<int, nat>,
                       g: Game, root: nat, uct: (Node, Node) -> real,
                       path: seq<nat>, hist: seq<nat>, views: seq<seq<Node>>, firstAI: int)
  {
    && |nodes| == |start|
    && (forall i :: 0 <= i < |nodes| ==> SameLinks(start[i], nodes[i]) && SameStats(start[i], nodes[i]))
    && (forall i :: 0 <= i < |nodes| ==> DetailsKept(start[i], nodes[i]))
    && Descent(nodes, root, path, hist)
    && (forall m :: 0 <= m < |hist| ==> HasDetails(nodes[path[m]]) && path[m] < path[|hist|])
    && (forall i :: path[|hist|] <= i < |nodes| ==> nodes[i] == start[i])
    && |views| == |hist|
    && Snapshots(start, nodes, path, hist, views, uct)
    && FirstAI(nodes, cache0, cache, g, root, path, hist, firstAI)
  }

  lemma WalkInit(start: seq<Node>, cache0: map<int, nat>, g: Game, root: nat, uct: (Node, Node) -> real)
    requires Valid(start) && root < |start|
    ensures Walk(start, cache0, start, cache0, g, root, uct, [root], [], [], -1)
  {
  }

  /** A selection step of growTree keeps the walk's invariant. */
  lemma WalkDescend(start: seq<Node>, cache0: map<int, nat>, pre: seq<Node>, cachePre: map<int, nat>,
                    post: seq<Node>, cachePost: map<int, nat>, g: Game, root: nat, uct: (Node, Node) -> real,
                    path: seq<nat>, hist: seq<nat>, views: seq<seq<Node>>, firstAI: int,
                    child: nat, k: nat, nowFound: bool, pt: Point, mark: bool)
    requires Valid(pre) && Walk(start, cache0, pre, cachePre, g, root, uct, path, hist, views, firstAI)
    requires var curr := path[|path| - 1];
             && Valid(post) && post == pre[curr := Visited(pre[curr], pt, mark)]
             && nowFound == (firstAI >= 0 || (curr != root && post[curr].isAI))
             && (if nowFound && firstAI < 0
                 then cachePost == cachePre || cachePost == cachePre[g.gameId(hist) := curr]
                 else cachePost == cachePre)
             && Selected(post, curr, uct, k) && child == post[curr].children[k] && curr < child
             && Descent(post, root, path + [child], hist + [k])
    ensures Walk(start, cache0, post, cachePost, g, root, uct, path + [child], hist + [k], views + [post],
                 if nowFound && firstAI < 0 then |hist| else firstAI)
  {
    var curr := path[|path| - 1];
    var path', hist' := path + [child], hist + [k];
    forall i | 0 <= i < |post|
      ensures SameLinks(start[i], post[i]) && SameStats(start[i], post[i]) && DetailsKept(start[i], post[i])
    {
      if i == curr {
        assert pre[curr] == start[curr];
      }
    }
    forall m | 0 <= m < |hist'| ensures HasDetails(post[path'[m]]) && path'[m] < path'[|hist'|] {
      if m < |hist| {
        assert HasDetails(pre[path[m]]) && path[m] < curr;
      }
    }
    SnapshotsStep(start, pre, post, path, hist, views, child, k, uct);
    forall i | 0 <= i < |pre| ensures DetailsKept(pre[i], post[i]) {
      if i != curr {
        assert post[i] == pre[i];
      }
    }
    FirstAIStep(pre, post, cache0, cachePre, cachePost, g, root, path, hist, firstAI, child, k, nowFound);
  }

  /** A selection step at the last node of a walk extends the walk's selection steps. */
  lemma SnapshotsStep(start: seq<Node>, pre: seq<Node>, post: seq<Node>, path: seq<nat>, hist: seq<nat>,
                      views: seq<seq<Node>>, child: nat, k: nat, uct: (Node, Node) -> real)
    requires Snapshots(start, pre, path, hist, views, uct) && |views| == |hist| && |path| == |hist| + 1
    requires |post| == |pre| == |start|
    requires var curr := path[|path| - 1];
             && (forall m :: 0 <= m < |hist| ==> path[m] < curr)
             && (forall i :: curr <= i < |pre| ==> pre[i] == start[i])
             && (forall i :: 0 <= i < |pre| && i != curr ==> post[i] == pre[i])
             && curr < |post| && Selected(post, curr, uct, k) && child == post[curr].children[k]
    ensures Snapshots(start, post, path + [child], hist + [k], views + [post], uct)
  {
    var curr := path[|path| - 1];
    var path', hist', views' := path + [child], hist + [k], views + [post];
    forall j | 0 <= j < |views'| ensures ChosenIn(views'[j], path'[j], path'[j + 1], hist'[j], uct) {
      if j < |views| {
        assert ChosenIn(views[j], path[j], path[j + 1], hist[j], uct);
      }
    }
    forall j, i | 0 <= j < |views'| && 0 <= i < |start|
      ensures views'[j][i] == if i <= path'[j] then post[i] else start[i]
    {
      if j < |views| {
        assert views[j][i] == if i <= path[j] then pre[i] else start[i];
        assert path[j] < curr;
      }
    }
  }

  /** A visit at the end of the descent, then a move to a child, carries the cache's account along. */
  lemma FirstAIStep(pre: seq<Node>, post: seq<Node>, cache0: map<int, nat>, cachePre: map<int, nat>,
                    cachePost: map<int, nat>, g: Game, root: nat, path: seq<nat>, hist: seq<nat>,
                    firstAI: int, child: nat, k: nat, nowFound: bool)
    requires FirstAI(pre, cache0, cachePre, g, root, path, hist, firstAI) && |path| == |hist| + 1
    requires |pre| <= |post| && child < |post|
    requires forall m :: 0 <= m < |hist| ==> HasDetails(pre[path[m]])
    requires forall i :: 0 <= i < |pre| ==> DetailsKept(pre[i], post[i])
    requires var curr := path[|path| - 1];
             && nowFound == (firstAI >= 0 || (curr != root && post[curr].isAI))
             && (if nowFound && firstAI < 0
                 then cachePost == cachePre || cachePost == cachePre[g.gameId(hist) := curr]
                 else cachePost == cachePre)
    ensures FirstAI(post, cache0, cachePost, g, root, path + [child], hist + [k],
                    if nowFound && firstAI < 0 then |hist| else firstAI)
  {
    var fa := if nowFound && firstAI < 0 then |hist| else firstAI;
    var path', hist' := path + [child], hist + [k];
    assert fa >= 0 ==> hist'[..fa] == hist[..fa];
    if nowFound && firstAI < 0 {
      assert hist[..fa] == hist;
    }
    forall m | 0 <= m < |hist| ensures post[path[m]].isAI == pre[path[m]].isAI {
      assert HasDetails(pre[path[m]]);
    }
  }

  /**
   * growTree's walk ended by an expansion over a tree that started as start:
   * one new node, the last of the descent, appended to the children of the
   * one before it; the links of every other node, all statistics, details
   * and coverage kept; the selection steps and the cache.
   */
  ghost predicate WalkEnd(start: seq<Node>, cache0: map<int, nat>, nodes: seq<Node>, cache: map<int, nat>,
                          g: Game, root: nat, uct: (Node, Node) -> real,
                          reached: seq<nat>, played: seq<nat>, views: seq<seq<Node>>, firstAI: int)
  {
    && |nodes| == |start| + 1 && Descent(nodes, root, reached, played)
    && CoverPreserved(start, nodes, -1)
    && |reached| >= 2 && reached[|reached| - 1] == |start|
    && (var parent := reached[|reached| - 2];
        && parent < |start| && nodes[parent].children == start[parent].children + [|start|]
        && forall i :: 0 <= i < |start| && i != parent ==> SameLinks(start[i], nodes[i]))
    && (forall i :: 0 <= i < |start| ==> SameStats(start[i], nodes[i]) && DetailsKept(start[i], nodes[i]))
    && |views| == |played| - 1
    && Snapshots(start, nodes, reached, played, views, uct)
    && FirstAI(nodes, cache0, cache, g, root, reached, played, firstAI)
  }

  /** An expansion step of growTree ends the walk: what growTree then promises. */
  lemma WalkExpand(start: seq<Node>, cache0: map<int, nat>, pre: seq<Node>, cachePre: map<int, nat>,
                   post: seq<Node>, cachePost: map<int, nat>, g: Game, root: nat, uct: (Node, Node) -> real,
                   path: seq<nat>, hist: seq<nat>, views: seq<seq<Node>>, firstAI: int,
                   leaf: nat, k: nat, nowFound: bool, pt: Point, mark: bool, evalScore: int, desc: Desc)
    requires Valid(start) && Valid(pre) && Walk(start, cache0, pre, cachePre, g, root, uct, path, hist, views, firstAI)
    requires var curr := path[|path| - 1];
             && Valid(post) && leaf == |pre| && CoverPreserved(pre, post, -1)
             && post == AddChild(pre[curr := Visited(pre[curr], pt, mark)], curr, evalScore, desc)
             && nowFound == (firstAI >= 0 || (curr != root && post[curr].isAI))
             && (if nowFound && firstAI < 0
                 then cachePost == cachePre || cachePost == cachePre[g.gameId(hist) := curr]
                 else cachePost == cachePre)
             && Descent(post, root, path + [leaf], hist + [k])
    ensures WalkEnd(start, cache0, post, cachePost, g, root, uct, path + [leaf], hist + [k], views,
                    if nowFound && firstAI < 0 then |hist| else firstAI)
  {
    var curr := path[|path| - 1];
    var reached, played := path + [leaf], hist + [k];
    var fa := if nowFound && firstAI < 0 then |hist| else firstAI;
    ExpandFrame(start, pre, curr, Visited(pre[curr], pt, mark), evalScore, desc);
    CoverFrame(start, pre);
    CoverPreservedTrans(start, pre, post, -1);
    SnapshotsEnd(start, pre, post, path, hist, views, leaf, k, uct);
    FirstAIStep(pre, post, cache0, cachePre, cachePost, g, root, path, hist, firstAI, leaf, k, nowFound);
    assert played[..|played| - 1] == hist;
  }

  /**
   * A visit, then an expansion, at a node not yet touched since start:
   * measured against start, every old node keeps its statistics and details
   * and every other old node its links, and the node's child list gains the
   * new leaf.
   */
  lemma ExpandFrame(start: seq<Node>, pre: seq<Node>, curr: nat, n: Node, evalScore: int, desc: Desc)
    requires |pre| == |start| && curr < |pre| && pre[curr] == start[curr]
    requires forall i :: 0 <= i < |pre| ==>
               SameLinks(start[i], pre[i]) && SameStats(start[i], pre[i]) && DetailsKept(start[i], pre[i])
    requires SameStats(pre[curr], n) && DetailsKept(pre[curr], n) && n.children == pre[curr].children
    ensures var r := AddChild(pre[curr := n], curr, evalScore, desc);
            && r[curr].children == start[curr].children + [|pre|]
            && (forall i :: 0 <= i < |pre| && i != curr ==> r[i] == pre[i] && SameLinks(start[i], r[i]))
            && (forall i :: 0 <= i < |pre| ==> SameStats(start[i], r[i]) && DetailsKept(start[i], r[i]))
            && (forall i :: 0 <= i < |pre| ==> DetailsKept(pre[i], r[i]))
  {
    VisitExpandKeeps(pre, curr, n, evalScore, desc);
  }

  /** An expansion at the last node of a walk keeps the walk's selection steps. */
  lemma SnapshotsEnd(start: seq<Node>, pre: seq<Node>, post: seq<Node>, path: seq<nat>, hist: seq<nat>,
                     views: seq<seq<Node>>, leaf: nat, k: nat, uct: (Node, Node) -> real)
    requires Snapshots(start, pre, path, hist, views, uct) && |views| == |hist| && |path| == |hist| + 1
    requires |pre| == |start| && |post| == |pre| + 1
    requires var curr := path[|path| - 1];
             && (forall m :: 0 <= m < |hist| ==> path[m] < curr)
             && (forall i :: 0 <= i < |pre| && i != curr ==> post[i] == pre[i])
    ensures Snapshots(start, post, path + [leaf], hist + [k], views, uct)
  {
    var curr := path[|path| - 1];
    var path', hist' := path + [leaf], hist + [k];
    forall j | 0 <= j < |views| ensures ChosenIn(views[j], path'[j], path'[j + 1], hist'[j], uct) {
      assert ChosenIn(views[j], path[j], path[j + 1], hist[j], uct);
    }
    forall j, i | 0 <= j < |views| && 0 <= i < |start|
      ensures views[j][i] == if i <= path'[j] then post[i] else start[i]
    {
      assert views[j][i] == if i <= path[j] then pre[i] else start[i];
      assert path[j] < curr;
    }
  }

  /**
   * A visit that keeps a node's statistics and details, followed by an
   * expansion at that node, keeps every old node's statistics and details and
   * changes no other old node.
   */
  lemma VisitExpandKeeps(pre: seq<Node>, curr: nat, n: Node, evalScore: int, desc: Desc)
    requires curr < |pre| && SameStats(pre[curr], n) && DetailsKept(pre[curr], n)
    ensures var r := AddChild(pre[curr := n], curr, evalScore, desc);
            && (forall i :: 0 <= i < |pre| ==> SameStats(pre[i], r[i]) && DetailsKept(pre[i], r[i]))
            && (forall i :: 0 <= i < |pre| && i != curr ==> r[i] == pre[i])
  {
    var mid := pre[curr := n];
    var r := AddChild(mid, curr, evalScore, desc);
    forall i | 0 <= i < |pre|
      ensures SameStats(pre[i], r[i]) && DetailsKept(pre[i], r[i])
      ensures i != curr ==> r[i] == pre[i]
    {
      if i != curr {
        assert r[i] == mid[i] == pre[i];
      }
    }
  }

  /**
   * The tree after growTree's walk from root over a tree that started as
   * start: at most one new node, every old node's statistics and details
   * kept, the links of every old node kept but for the new leaf's parent,
   * coverage kept, the descent reached, the selection steps and the cache.
   */
  ghost predicate Grew(start: seq<Node>, cache0: map<int, nat>, nodes: seq<Node>, cache: map<int, nat>,
                       g: Game, root: nat, uct: (Node, Node) -> real,
                       reached: seq<nat>, played: seq<nat>, views: seq<seq<Node>>, firstAI: int)
  {
    && Valid(nodes) && |start| <= |nodes| <= |start| + 1
    && CoverPreserved(start, nodes, -1)
    && Descent(nodes, root, reached, played)
    && (forall i :: 0 <= i < |start| ==> SameStats(start[i], nodes[i]) && DetailsKept(start[i], nodes[i]))
    && (|nodes| == |start| ==> forall i :: 0 <= i < |start| ==> SameLinks(start[i], nodes[i]))
    && (|nodes| > |start| ==> GrewLeaf(start, nodes, g, reached, played))
    && |views| == |played| - (if |nodes| > |start| then 1 else 0)
    && Snapshots(start, nodes, reached, played, views, uct)
    && FirstAI(nodes, cache0, cache, g, root, reached, played, firstAI)
  }

  /**
   * The expansion that ends a walk: the new node, last on the descent, is
   * the next untried choice k offered at its parent, whose child list gains
   * it at the end; no other old node's links change.
   */
  ghost predicate GrewLeaf(start: seq<Node>, nodes: seq<Node>, g: Game, reached: seq<nat>, played: seq<nat>)
  {
    && |reached| >= 2 && |played| >= 1 && |nodes| == |start| + 1 && reached[|reached| - 1] == |start|
    && var parent, k, offer := reached[|reached| - 2], played[|played| - 1], g.next(played[..|played| - 1]);
       && parent < |start| && nodes[parent].children == start[parent].children + [|start|]
       && (forall i :: 0 <= i < |start| && i != parent ==> SameLinks(start[i], nodes[i]))
       && offer.Some? && k < |offer.value.choices| && k == |start[parent].children|
       && nodes[|start|] == NewNode(parent, k, g.score(played), offer.value.choices[k])
  }

  class Engine {
    /** Every MCTSGameTree ever created, addressed by index. */
    var nodes: seq<Node>
    /** CACHE: game id to cached node. */
    var cache: map<int, nat>

    ghost predicate Valid()
      reads this
    {
      Arena.Valid(nodes) && forall gid :: gid in cache ==> cache[gid] < |nodes|
    }

    constructor ()
      ensures Valid() && nodes == [] && cache == map[]
    {
      nodes := [];
      cache := map[];
    }

    /** getNode: the cached node for this game id, or a fresh root. */
    method GetNode(gid: int) returns (root: nat)
      requires Valid()
      modifies this
      ensures Valid() && cache == old(cache) && root < |nodes|
      ensures gid in old(cache) ==> root == old(cache)[gid] && nodes == old(nodes)
      ensures gid !in old(cache) ==>
                root == old(|nodes|) && nodes == old(nodes) + [NewNode(-1, -1, -1, "root")]
    {
      if gid in cache {
        root := cache[gid];
      } else {
        root := |nodes|;
        nodes := nodes + [NewNode(-1, -1, -1, "root")];
        assert Arena.Valid(nodes) by {
          forall j, k | 0 <= j < |nodes| && 0 <= k < |nodes[j].children|
            ensures ChildOk(nodes, j, k)
          {
            assert ChildOk(old(nodes), j, k);
          }
        }
      }
    }

    /** addNode: register a node under the game id, once. */
    method AddNode(gid: int, i: nat)
      requires Valid() && i < |nodes|
      modifies this
      ensures Valid()
      ensures old(nodes[i].isCached) ==> nodes == old(nodes) && cache == old(cache)
      ensures !old(nodes[i].isCached) ==>
                && cache == old(cache)[gid := i]
                && nodes == old(nodes)[i := old(nodes[i]).(isCached := true)]
    {
      if nodes[i].isCached {
        return;
      }
      cache := cache[gid := i];
      ValidUpdate(nodes, i, nodes[i].(isCached := true));
      nodes := nodes[i := nodes[i].(isCached := true)];
    }

    /** checkNode: compare the node's recorded choices and children with the live ones. */
    method CheckNode(i: nat, choices: seq<Desc>) returns (ok: bool)
      requires Valid() && i < |nodes| && HasDetails(nodes[i])
      ensures ok <==> Consistent(nodes, i, choices)
    {
      if nodes[i].maxChildren != |choices| {
        return false;
      }
      var k := 0;
      while k < |choices|
        invariant 0 <= k <= |choices|
        invariant forall j :: 0 <= j < k ==> nodes[i].choicesStr[j] == choices[j]
      {
        if nodes[i].choicesStr[k] != choices[k] {
          return false;
        }
        k := k + 1;
      }
      assert nodes[i].choicesStr == choices;
      var cs := nodes[i].children;
      k := 0;
      while k < |cs|
        invariant 0 <= k <= |cs|
        invariant forall j :: 0 <= j < k ==>
                    ChildOk(nodes, i, j) && nodes[cs[j]].desc == choices[nodes[cs[j]].choice]
      {
        assert ChildOk(nodes, i, k);
        if nodes[cs[k]].desc != choices[nodes[cs[k]].choice] {
          return false;
        }
        k := k + 1;
      }
      return true;
    }

    /**
     * The selection loop of growTree: the first child's unmodified UCT is the
     * bar, and a child replaces the current best only with a strictly larger
     * modified score.
     */
    method SelectChild(p: nat, uct: (Node, Node) -> real) returns (k: nat)
      requires Valid() && p < |nodes| && |nodes[p].children| > 0
      ensures Selected(nodes, p, uct, k)
    {
      var cs := nodes[p].children;
      assert InRange(nodes, cs) by {
        forall j | 0 <= j < |cs| ensures cs[j] < |nodes| { assert ChildOk(nodes, p, j); }
      }
      var bar := uct(nodes[p], nodes[cs[0]]);
      var bestS := bar;
      k := 0;
      var j := 0;
      while j < |cs|
        invariant 0 <= j <= |cs| && k < |cs| && (j == 0 ==> k == 0)
        invariant bestS == MaxR(bar, if j == 0 then bar else Scored(nodes, p, cs[k], uct))
        invariant j > 0 ==> bestS == MaxR(bar, Scored(nodes, p, cs[k], uct))
        invariant k > 0 ==> k < j && bestS == Scored(nodes, p, cs[k], uct) && bestS > bar
        invariant forall i :: 0 <= i < j ==> Scored(nodes, p, cs[i], uct) <= bestS
        invariant forall i :: 0 <= i < k ==> Scored(nodes, p, cs[i], uct) < bestS
      {
        var s := Scored(nodes, p, cs[j], uct);
        if s > bestS {
          bestS := s;
          k := j;
        }
        j := j + 1;
      }
    }

    /** The decision loop: the first child with the largest getDecision. */
    method SelectDecision(p: nat) returns (k: nat)
      requires Valid() && p < |nodes| && |nodes[p].children| > 0
      ensures InRange(nodes, nodes[p].children) && IsBestDecision(nodes, nodes[p].children, k)
      ensures nodes[nodes[p].children[k]].choice == k
    {
      var cs := nodes[p].children;
      assert InRange(nodes, cs) by {
        forall j | 0 <= j < |cs| ensures cs[j] < |nodes| { assert ChildOk(nodes, p, j); }
      }
      var maxD := Decision(nodes[cs[0]]);
      k := 0;
      var j := 0;
      while j < |cs|
        invariant 0 <= j <= |cs| && k < |cs| && (j == 0 ==> k == 0) && (j > 0 ==> k < j)
        invariant maxD == Decision(nodes[cs[k]])
        invariant forall i :: 0 <= i < j ==> Decision(nodes[cs[i]]) <= maxD
        invariant forall i :: 0 <= i < k ==> Decision(nodes[cs[i]]) < maxD
      {
        var d := Decision(nodes[cs[j]]);
        if d > maxD {
          maxD := d;
          k := j;
        }
        j := j + 1;
      }
      assert ChildOk(nodes, p, k);
    }

    /** First visit of a node in growTree: record who moves there and the choices on offer. */
    method SetDetails(i: nat, aiToMove: bool, choices: seq<Desc>)
      requires Valid() && i < |nodes| && !HasDetails(nodes[i]) && |choices| > 0
      modifies this
      ensures Valid() && cache == old(cache)
      ensures nodes == old(nodes)[i := old(nodes[i]).(isAI := aiToMove, maxChildren := |choices|, choicesStr := choices)]
    {
      var n := nodes[i].(isAI := aiToMove, maxChildren := |choices|, choicesStr := choices);
      ValidUpdate(nodes, i, n);
      nodes := nodes[i := n];
    }

    /**
     * What growTree does at each node it reaches before moving on: checkNode
     * on a node seen before (ok is false when that fails), the details on a
     * new one, and the cache entry for the first AI node below the root.
     */
    method Visit(gid: int, curr: nat, root: nat, pt: Point, found: bool) returns (ok: bool, nowFound: bool)
      requires Valid() && curr < |nodes| && |pt.choices| > 0
      modifies this
      ensures Valid() && |nodes| == old(|nodes|)
      ensures forall i :: 0 <= i < |nodes| ==> SameLinks(old(nodes)[i], nodes[i])
      ensures ok <==> !old(HasDetails(nodes[curr])) || old(Consistent(nodes, curr, pt.choices))
      ensures !ok ==> nodes == old(nodes) && cache == old(cache) && nowFound == found
      ensures ok ==> HasDetails(nodes[curr]) && nodes[curr].maxChildren == |pt.choices|
      ensures ok ==> nowFound == (found || (curr != root && Visited(old(nodes[curr]), pt, false).isAI))
      ensures ok ==> nodes == old(nodes)[curr := Visited(old(nodes[curr]), pt, nowFound && !found)]
      ensures ok && nowFound && !found && !old(nodes[curr].isCached) ==> cache == old(cache)[gid := curr]
      ensures !(ok && nowFound && !found && !old(nodes[curr].isCached)) ==> cache == old(cache)
    {
      nowFound := found;
      if HasDetails(nodes[curr]) {
        ok := CheckNode(curr, pt.choices);
        if !ok {
          return;
        }
      } else {
        ok := true;
        SetDetails(curr, pt.aiToMove, pt.choices);
      }
      if !found && curr != root && nodes[curr].isAI {
        nowFound := true;
        AddNode(gid, curr);
      }
    }

    /**
     * One round of growTree's loop at the last node of the descent: the checks
     * of Visit, then expansion of the first untried choice if there is one,
     * and otherwise a move to the child SelectChild picks.
     */
    method GrowStep(g: Game, root: nat, uct: (Node, Node) -> real, path: seq<nat>, hist: seq<nat>,
                    pt: Point, found: bool) returns (step: Step, nowFound: bool)
      requires Valid() && Descent(nodes, root, path, hist) && |pt.choices| > 0
      modifies this
      ensures Valid() && |old(nodes)| <= |nodes|
      ensures var curr := path[|path| - 1];
              step.Inconsistent? <==> old(HasDetails(nodes[curr])) && !old(Consistent(nodes, curr, pt.choices))
      ensures step.Inconsistent? ==> nodes == old(nodes) && cache == old(cache) && nowFound == found
      ensures var curr := path[|path| - 1];
              !step.Inconsistent? ==>
                && nowFound == (found || (curr != root && Visited(old(nodes[curr]), pt, false).isAI))
                && HasDetails(nodes[curr])
                && nowFound == (found || (curr != root && nodes[curr].isAI))
                && cache == if nowFound && !found && !old(nodes[curr].isCached)
                            then old(cache)[g.gameId(hist) := curr] else old(cache)
      ensures var curr := path[|path| - 1];
              step.Expanded? <==> !step.Inconsistent? && |old(nodes[curr].children)| < |pt.choices|
      ensures forall i :: 0 <= i < |old(nodes)| ==> SameStats(old(nodes)[i], nodes[i])
      ensures forall i :: 0 <= i < |old(nodes)| ==> DetailsKept(old(nodes)[i], nodes[i])
      ensures !step.Expanded? ==>
                |nodes| == |old(nodes)| && forall i :: 0 <= i < |nodes| ==> SameLinks(old(nodes)[i], nodes[i])
      ensures var curr := path[|path| - 1];
              step.Descended? ==>
                && nodes == old(nodes)[curr := Visited(old(nodes[curr]), pt, nowFound && !found)]
                && |nodes[curr].children| == |pt.choices|
                && Selected(nodes, curr, uct, step.k) && step.child == nodes[curr].children[step.k]
                && path[|path| - 1] < step.child < |nodes|
                && Descent(nodes, root, path + [step.child], hist + [step.k])
      ensures var curr := path[|path| - 1];
              step.Expanded? ==>
                && step.leaf == |old(nodes)| && step.k == |old(nodes[curr].children)|
                && nodes == AddChild(old(nodes)[curr := Visited(old(nodes[curr]), pt, nowFound && !found)],
                                     curr, g.score(hist + [step.k]), pt.choices[step.k])
                && (forall i :: 0 <= i < |old(nodes)| ==>
                      nodes[i].parent == old(nodes)[i].parent && nodes[i].numSim == old(nodes)[i].numSim)
                && nodes[step.leaf] == NewNode(curr, step.k, g.score(hist + [step.k]), pt.choices[step.k])
                && nodes[curr].children == old(nodes[curr].children) + [step.leaf]
                && CoverPreserved(old(nodes), nodes, -1)
                && Descent(nodes, root, path + [step.leaf], hist + [step.k])
    {
      var curr := path[|path| - 1];
      ghost var pre := nodes;
      var ok;
      ok, nowFound := Visit(g.gameId(hist), curr, root, pt, found);
      if !ok {
        return Inconsistent, nowFound;
      }
      DescentKeep(pre, nodes, root, path, hist);
      var cs := nodes[curr].children;
      if |cs| < |pt.choices| {
        ghost var before := nodes;
        CoverFrame(pre, nodes);
        DescentExpand(nodes, root, path, hist, g.score(hist + [|cs|]), pt.choices[|cs|]);
        var leaf := Expand(curr, g.score(hist + [|cs|]), pt.choices[|cs|]);
        CoverPreservedTrans(pre, before, nodes, -1);
        VisitExpandKeeps(pre, curr, before[curr], g.score(hist + [|cs|]), pt.choices[|cs|]);
        return Expanded(leaf, |cs|), nowFound;
      }
      var k := SelectChild(curr, uct);
      DescentExtend(nodes, root, path, hist, k);
      assert ChildOk(nodes, curr, k);
      return Descended(cs[k], k), nowFound;
    }

    /**
     * One round of growTree's loop as the walk sees it: GrowStep, with the
     * walk's invariant carried to the next round, or what the walk promises
     * when the round ends it.
     */
    method Advance(g: Game, root: nat, uct: (Node, Node) -> real, path: seq<nat>, hist: seq<nat>, pt: Point,
                   found: bool, ghost start: seq<Node>, ghost cache0: map<int, nat>,
                   ghost views: seq<seq<Node>>, ghost firstAI: int)
      returns (step: Step, nowFound: bool, ghost fa: int)
      requires Valid() && Arena.Valid(start) && Walk(start, cache0, nodes, cache, g, root, uct, path, hist, views, firstAI)
      requires (found <==> firstAI >= 0) && |pt.choices| > 0
      modifies this
      ensures Valid() && (nowFound <==> fa >= 0)
      ensures step.Inconsistent? ==>
                && nodes == old(nodes) && cache == old(cache) && fa == firstAI
                && HasDetails(nodes[path[|path| - 1]]) && !Consistent(nodes, path[|path| - 1], pt.choices)
      ensures step.Descended? ==>
                && path[|path| - 1] < step.child < |nodes|
                && Walk(start, cache0, nodes, cache, g, root, uct, path + [step.child], hist + [step.k],
                        views + [nodes], fa)
      ensures step.Expanded? ==>
                && WalkEnd(start, cache0, nodes, cache, g, root, uct, path + [step.leaf], hist + [step.k], views, fa)
                && step.k < |pt.choices| && step.k == |nodes[path[|path| - 1]].children| - 1
                && nodes[|start|] == NewNode(path[|path| - 1], step.k, g.score(hist + [step.k]), pt.choices[step.k])
    {
      ghost var pre, cachePre := nodes, cache;
      step, nowFound := GrowStep(g, root, uct, path, hist, pt, found);
      fa := if nowFound && firstAI < 0 then |hist| else firstAI;
      match step
      case Inconsistent =>
      case Expanded(leaf, k) =>
        WalkExpand(start, cache0, pre, cachePre, nodes, cache, g, root, uct, path, hist, views, firstAI,
                   leaf, k, nowFound, pt, nowFound && !found, g.score(hist + [k]), pt.choices[k]);
      case Descended(child, k) =>
        WalkDescend(start, cache0, pre, cachePre, nodes, cache, g, root, uct, path, hist, views, firstAI,
                    child, k, nowFound, pt, nowFound && !found);
    }

    /**
     * growTree: walk down from root, choosing with SelectChild among fully
     * expanded nodes, until the game ends (no expansion) or a node has an
     * untried choice, which becomes a new leaf at the end of the path.
     * The result is the path and the choice indices played along it.
     *
     * The ghost results describe the walk however it ended: the descent
     * reached and the choice indices played, the tree as it stood at each
     * selection step, and the position on the descent of the first non-root
     * AI node (the one registered in the cache), or -1.
     */
    method GrowTree(g: Game, root: nat, uct: (Node, Node) -> real)
      returns (res: Result<(seq<nat>, seq<nat>), Error>, ghost reached: seq<nat>, ghost played: seq<nat>,
               ghost views: seq<seq<Node>>, ghost firstAI: int)
      requires Valid() && root < |nodes|
      modifies this
      ensures Valid() && Grew(old(nodes), old(cache), nodes, cache, g, root, uct, reached, played, views, firstAI)
      ensures res.Ok? ==> res.value == (reached, played)
      ensures res.Ok? && |nodes| == |old(nodes)| ==> g.next(played).None?
      ensures res.Err? ==> |nodes| == |old(nodes)| && g.next(played).Some?
      ensures res.Err? ==> (res.error == NoChoice <==> |g.next(played).value.choices| == 0)
      ensures res.Err? && res.error != NoChoice ==>
                && res.error == InconsistentNode
                && HasDetails(nodes[reached[|reached| - 1]])
                && !Consistent(nodes, reached[|reached| - 1], g.next(played).value.choices)
    {
      ghost var start, cache0 := nodes, cache;
      res, reached, played, views, firstAI := Descend(g, root, uct);
      if |nodes| == |start| {
        CoverFrame(start, nodes);
      }
    }

    /**
     * growTree's loop, its result stated over the walk: a walk that stopped
     * without growing the tree (the game ended, no choice was offered, or a
     * node was inconsistent) or one that ended with an expansion.
     */
    method Descend(g: Game, root: nat, uct: (Node, Node) -> real)
      returns (res: Result<(seq<nat>, seq<nat>), Error>, ghost reached: seq<nat>, ghost played: seq<nat>,
               ghost views: seq<seq<Node>>, ghost firstAI: int)
      requires Valid() && root < |nodes|
      modifies this
      ensures Valid() && |old(nodes)| <= |nodes|
      ensures |nodes| == |old(nodes)| ==>
                && Walk(old(nodes), old(cache), nodes, cache, g, root, uct, reached, played, views, firstAI)
                && (res.Ok? ==> res.value == (reached, played) && g.next(played).None?)
                && (res.Err? ==> g.next(played).Some?)
                && (res.Err? ==> (res.error == NoChoice <==> |g.next(played).value.choices| == 0))
                && (res.Err? && res.error != NoChoice ==>
                      && res.error == InconsistentNode
                      && HasDetails(nodes[reached[|reached| - 1]])
                      && !Consistent(nodes, reached[|reached| - 1], g.next(played).value.choices))
      ensures |nodes| != |old(nodes)| ==>
                && res.Ok? && res.value == (reached, played) && |played| > 0
                && WalkEnd(old(nodes), old(cache), nodes, cache, g, root, uct, reached, played, views, firstAI)
                && (var parent := reached[|reached| - 2];
                    var k := played[|played| - 1];
                    var offer := g.next(played[..|played| - 1]);
                    && offer.Some? && k < |offer.value.choices|
                    && k == |nodes[parent].children| - 1
                    && nodes[|old(nodes)|] == NewNode(parent, k, g.score(played), offer.value.choices[k]))
    {
      ghost var start := nodes;
      ghost var cache0 := cache;
      var path: seq<nat> := [root];
      var hist: seq<nat> := [];
      var curr := root;
      var found := false;
      views, firstAI := [], -1;
      WalkInit(start, cache0, g, root, uct);
      while true
        invariant Valid() && Walk(start, cache0, nodes, cache, g, root, uct, path, hist, views, firstAI)
        invariant curr < |nodes| && path[|path| - 1] == curr && (found <==> firstAI >= 0)
        decreases |nodes| - curr
      {
        var next := g.next(hist);
        if next.None? || |next.value.choices| == 0 {
          reached, played := path, hist;
          return if next.None? then Ok((path, hist)) else Err(NoChoice), reached, played, views, firstAI;
        }
        var step;
        ghost var fa;
        step, found, fa := Advance(g, root, uct, path, hist, next.value, found, start, cache0, views, firstAI);
        firstAI := fa;
        match step
        case Inconsistent =>
          reached, played := path, hist;
          return Err(InconsistentNode), reached, played, views, firstAI;
        case Expanded(leaf, k) =>
          reached, played := path + [leaf], hist + [k];
          assert played[..|played| - 1] == hist;
          return Ok((path + [leaf], hist + [k])), reached, played, views, firstAI;
        case Descended(child, k) =>
          views := views + [nodes];
          path := path + [child];
          hist := hist + [k];
          curr := child;
      }
    }

    /** addChild: a new leaf for the first untried choice of p (there must be one left). */
    method Expand(p: nat, evalScore: int, desc: Desc) returns (leaf: nat)
      requires Valid() && p < |nodes| && HasDetails(nodes[p])
      requires |nodes[p].children| < nodes[p].maxChildren
      modifies this
      ensures Valid() && cache == old(cache) && leaf == |old(nodes)|
      ensures nodes == AddChild(old(nodes), p, evalScore, desc)
      ensures CoverPreserved(old(nodes), nodes, -1)
    {
      AddChildCoverPreserved(nodes, p, evalScore, desc);
      leaf := |nodes|;
      nodes := AddChild(nodes, p, evalScore, desc);
    }

    /**
     * The backup loop of findNextEventChoiceResults, run over the arena.
     */
    method Backup(path: seq<nat>, score: real)
      requires Valid() && IsPath(nodes, path)
      modifies this
      ensures Valid() && cache == old(cache)
      ensures nodes == BackupFrom(old(nodes), path, 0, score) && SameShape(old(nodes), nodes)
      ensures forall x :: 0 <= x < |nodes| ==>
                nodes[x].numSim == old(nodes)[x].numSim + (if x in path then 1 else 0)
      ensures CoverPreserved(old(nodes), nodes, old(nodes)[path[0]].parent)
    {
      var ns := BackupPass(nodes, path, score);
      BackupFromShape(nodes, path, 0, score);
      BackupVisits(nodes, path, score);
      BackupCoverPreserved(nodes, path, score);
      ValidTransfer(nodes, ns);
      nodes := ns;
    }

    /**
     * randomPlay: a leaf whose game is over is marked solved for the side
     * that won, with reward 0 or 1; otherwise the playout's reward is
     * returned and the tree is left alone.
     */
    method RandomPlay(leaf: nat, finished: Option<bool>, playout: Playout) returns (reward: real)
      requires Valid() && leaf < |nodes|
      modifies this
      ensures Valid() && cache == old(cache) && SameShape(old(nodes), nodes)
      ensures forall i :: 0 <= i < |nodes| ==> nodes[i].numSim == old(nodes)[i].numSim
      ensures finished == Some(true) ==>
                reward == 0.0 && nodes == old(nodes)[leaf := SetAILose(old(nodes)[leaf], 0)]
      ensures finished == Some(false) ==>
                reward == 1.0 && nodes == old(nodes)[leaf := SetAIWin(old(nodes)[leaf], 0)]
      ensures finished.None? ==> reward == PlayoutReward(playout) && nodes == old(nodes)
      ensures nodes == AfterPlay(old(nodes), leaf, finished) && reward == PlayReward(finished, playout)
    {
      if finished.Some? {
        var solved := if finished.value then SetAILose(nodes[leaf], 0) else SetAIWin(nodes[leaf], 0);
        ValidUpdate(nodes, leaf, solved);
        nodes := nodes[leaf := solved];
        reward := TerminalReward(finished.value);
      } else {
        reward := PlayoutReward(playout);
      }
    }

    /**
     * One simulation of findNextEventChoiceResults: growTree from the root,
     * the check that the path reaches below it, randomPlay at the end of the
     * path, and the backup of the reward along it.  The ghost results are the
     * descent growTree returned and the tree it left.
     */
    method Simulate(g: Game, root: nat, uct: (Node, Node) -> real, playout: seq<nat> -> Playout)
      returns (err: Option<Error>, ghost path: seq<nat>, ghost hist: seq<nat>, ghost grown: seq<Node>,
               ghost views: seq<seq<Node>>, ghost firstAI: int)
      requires Valid() && root < |nodes|
      modifies this
      ensures Valid() && |old(nodes)| <= |nodes| && nodes[root].parent == old(nodes)[root].parent
      ensures Grew(old(nodes), old(cache), grown, cache, g, root, uct, path, hist, views, firstAI)
      ensures old(cache).Keys <= cache.Keys
      ensures nodes[root].numSim == old(nodes)[root].numSim + (if err.None? then 1 else 0)
      ensures CoverPreserved(old(nodes), nodes, old(nodes)[root].parent)
      ensures err.Some? ==>
                && (err.value == NoChoice || err.value == InconsistentNode || err.value == ShortPath)
                && nodes == grown && |nodes| == |old(nodes)|
                && forall i :: 0 <= i < |nodes| ==> SameStats(old(nodes)[i], nodes[i])
      ensures err == Some(ShortPath) ==> g.next([]).None?
      ensures err.None? ==>
                && |path| >= 2
                && nodes == BackupFrom(AfterPlay(grown, path[|path| - 1], g.finished(hist)), path, 0,
                                       PlayReward(g.finished(hist), playout(hist)))
    {
      ghost var e := nodes[root].parent;
      ghost var n0 := nodes;
      var res;
      res, path, hist, views, firstAI := GrowTree(g, root, uct);
      grown := nodes;
      CoverPreservedWeaken(n0, nodes, e);
      FirstAIKeys(grown, old(cache), cache, g, root, path, hist, firstAI);
      if res.Err? {
        return Some(res.error), path, hist, grown, views, firstAI;
      }
      var p := res.value.0;
      var h := res.value.1;
      if |p| < 2 {
        return Some(ShortPath), path, hist, grown, views, firstAI;
      }
      ghost var n1 := nodes;
      PlayAndBackup(p, g.finished(h), playout(h));
      CoverPreservedTrans(n0, n1, nodes, e);
      err := None;
    }

    /** randomPlay at the end of the path, then the backup of its reward along the path. */
    method PlayAndBackup(path: seq<nat>, finished: Option<bool>, playout: Playout)
      requires Valid() && IsPath(nodes, path)
      modifies this
      ensures Valid() && cache == old(cache) && |nodes| == |old(nodes)|
      ensures nodes == BackupFrom(AfterPlay(old(nodes), path[|path| - 1], finished), path, 0,
                                  PlayReward(finished, playout))
      ensures nodes[path[0]].parent == old(nodes)[path[0]].parent
      ensures nodes[path[0]].numSim == old(nodes)[path[0]].numSim + 1
      ensures CoverPreserved(old(nodes), nodes, old(nodes)[path[0]].parent)
    {
      ghost var e := nodes[path[0]].parent;
      ghost var n1 := nodes;
      var reward := RandomPlay(path[|path| - 1], finished, playout);
      PathKeep(n1, nodes, path);
      CoverFrame(n1, nodes);
      CoverPreservedWeaken(n1, nodes, e);
      ghost var n2 := nodes;
      Backup(path, reward);
      CoverPreservedTrans(n1, n2, nodes, e);
    }

    /**
     * findNextEventChoiceResults: no choice is an error, a single choice is
     * taken at once; otherwise simulations run from the (cached or fresh) root
     * until maxSim of them are done or the root is proven an AI win, and the
     * child with the best getDecision gives the choice index.
     */
    method FindNextEventChoiceResults(g: Game, rchoices: seq<Desc>, maxSim: nat, uct: (Node, Node) -> real,
                                      playout: seq<nat> -> Playout)
      returns (res: Result<nat, Error>, sims: nat, ghost root: nat)
      requires Valid()
      modifies this
      ensures Valid()
      ensures |rchoices| == 0 ==> res == Err(NoChoice) && nodes == old(nodes) && cache == old(cache)
      ensures |rchoices| == 1 ==> res == Ok(0) && sims == 0 && nodes == old(nodes) && cache == old(cache)
      ensures |rchoices| >= 2 ==>
                && root < |nodes| && sims <= maxSim
                && root == (if g.gameId([]) in old(cache) then old(cache)[g.gameId([])] else |old(nodes)|)
                && nodes[root].numSim == (if root < |old(nodes)| then old(nodes)[root].numSim else 0) + sims
                && CoverPreserved(old(nodes), nodes, nodes[root].parent)
                && old(cache).Keys <= cache.Keys
      ensures |rchoices| >= 2 && sims < maxSim && !IsAIWin(nodes[root]) ==>
                res.Err? && (res.error == NoChoice || res.error == InconsistentNode || res.error == ShortPath)
      ensures |rchoices| >= 2 && (sims == maxSim || IsAIWin(nodes[root])) ==>
                (res == Err(NoChildren) <==> |nodes[root].children| == 0)
      ensures |rchoices| >= 2 && (sims == maxSim || IsAIWin(nodes[root])) && |nodes[root].children| > 0 ==>
                && InRange(nodes, nodes[root].children)
                && exists k: nat :: IsBestDecision(nodes, nodes[root].children, k)
                     && (res == Err(ChoiceOutOfRange) <==> k >= |rchoices|)
                     && (res.Ok? ==> res.value == k)
      ensures |rchoices| >= 2 && res.Ok? ==>
                && root < |nodes|
                && (sims < maxSim ==> IsAIWin(nodes[root]))
                && res.value < |rchoices|
                && InRange(nodes, nodes[root].children)
                && IsBestDecision(nodes, nodes[root].children, res.value)
    {
      sims := 0;
      root := 0;
      if |rchoices| == 0 {
        return Err(NoChoice), sims, root;
      }
      if |rchoices| == 1 {
        return Ok(0), sims, root;
      }
      ghost var first := nodes;
      var r := GetNode(g.gameId([]));
      root := r;
      CoverFrame(first, nodes);
      ghost var start := nodes;
      ghost var base := nodes[r].numSim;
      ghost var e := nodes[r].parent;
      CoverPreservedWeaken(first, start, e);
      while sims < maxSim && !IsAIWin(nodes[r])
        invariant Valid() && r < |nodes| && |start| <= |nodes| && sims <= maxSim
        invariant nodes[r].numSim == base + sims && nodes[r].parent == e
        invariant CoverPreserved(first, nodes, e) && old(cache).Keys <= cache.Keys
        decreases maxSim - sims
      {
        ghost var n0 := nodes;
        ghost var path, hist, grown, views, firstAI;
        var err;
        err, path, hist, grown, views, firstAI := Simulate(g, r, uct, playout);
        CoverPreservedTrans(first, n0, nodes, e);
        if err.Some? {
          return Err(err.value), sims, root;
        }
        sims := sims + 1;
      }
      if |nodes[r].children| == 0 {
        return Err(NoChildren), sims, root;
      }
      var k := SelectDecision(r);
      if k >= |rchoices| {
        return Err(ChoiceOutOfRange), sims, root;
      }
      res := Ok(k);
    }
  }
}
