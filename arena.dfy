/**
 * The search tree as an arena: every MCTSGameTree object of MCTSAI.java is a
 * slot of a sequence of nodes, and parent/children links are slot indices.
 * This module states the shape the tree keeps, the effect of one backup
 * pass (the while loop of findNextEventChoiceResults) as a function, and what
 * that pass does to visit counts and solved states.
 */
module Arena {
  import opened Wrappers
  import opened GameTree

  /** Every child link points forward to a node that names its parent back. */
  ghost predicate Valid(nodes: seq<Node>) {
    && (forall i :: 0 <= i < |nodes| ==> WellFormed(nodes[i]))
    && (forall i :: 0 <= i < |nodes| ==> -1 <= nodes[i].parent < i)
    && (forall i, k :: 0 <= i < |nodes| && 0 <= k < |nodes[i].children| ==>
          && i < nodes[i].children[k] < |nodes|
          && nodes[nodes[i].children[k]].parent == i
          // element k of the child list carries choice index k
          && nodes[nodes[i].children[k]].choice == k)
    && (forall i, k1, k2 :: 0 <= i < |nodes| && 0 <= k1 < k2 < |nodes[i].children| ==>
          nodes[i].children[k1] < nodes[i].children[k2])
    && (forall i :: 0 <= i < |nodes| ==>
          if HasDetails(nodes[i]) then
            |nodes[i].children| <= nodes[i].maxChildren == |nodes[i].choicesStr|
          else nodes[i].children == [])
  }

  predicate AllWellFormed(nodes: seq<Node>) {
    forall i :: 0 <= i < |nodes| ==> WellFormed(nodes[i])
  }

  predicate InRange(nodes: seq<Node>, ix: seq<nat>) {
    forall k :: 0 <= k < |ix| ==> ix[k] < |nodes|
  }

  /** The fields backup never touches. */
  predicate SameNodeShape(a: Node, b: Node) {
    && a.parent == b.parent && a.choice == b.choice && a.isAI == b.isAI
    && a.maxChildren == b.maxChildren && a.children == b.children
    && a.choicesStr == b.choicesStr && a.desc == b.desc && a.isCached == b.isCached
  }

  predicate SameShape(a: seq<Node>, b: seq<Node>) {
    |a| == |b| && forall i :: 0 <= i < |a| ==> SameNodeShape(a[i], b[i])
  }

  lemma ValidTransfer(a: seq<Node>, b: seq<Node>)
    requires Valid(a) && SameShape(a, b) && AllWellFormed(b)
    ensures Valid(b)
  {
    forall i, k | 0 <= i < |b| && 0 <= k < |b[i].children|
      ensures ChildOk(b, i, k)
    {
      assert SameNodeShape(a[i], b[i]);
      assert SameNodeShape(a[a[i].children[k]], b[b[i].children[k]]);
    }
  }

  predicate ChildOk(nodes: seq<Node>, i: nat, k: nat)
    requires i < |nodes| && k < |nodes[i].children|
  {
    && i < nodes[i].children[k] < |nodes|
    && nodes[nodes[i].children[k]].parent == i
    && nodes[nodes[i].children[k]].choice == k
  }

  /** The visits of the listed children, added up. */
  function ChildSimSum(nodes: seq<Node>, cs: seq<nat>): int
    requires InRange(nodes, cs)
  {
    if cs == [] then 0 else nodes[cs[0]].numSim + ChildSimSum(nodes, cs[1..])
  }

  /** The visit-count invariant at x: a node has at least as many visits as its children together. */
  ghost predicate Covered(nodes: seq<Node>, x: nat)
    requires Valid(nodes) && x < |nodes|
  {
    ChildSimSum(nodes, nodes[x].children) <= nodes[x].numSim
  }

  /** One iteration of the backup loop: updateScore at p, then proof propagation from child c. */
  function StepAt(nodes: seq<Node>, p: nat, c: Option<nat>, score: real): (r: seq<Node>)
    requires p < |nodes| && (c.Some? ==> c.value < |nodes|)
    ensures |r| == |nodes| && r == nodes[p := r[p]]
    ensures r[p].numSim == nodes[p].numSim + 1 && SameNodeShape(nodes[p], r[p])
  {
    var child := if c.Some? then Some(nodes[c.value]) else None;
    var updated := UpdateScore(nodes[p], child, score);
    if c.Some? then nodes[p := Propagate(updated, nodes[c.value])]
    else nodes[p := updated]
  }

  /** A backup step changes no link, and keeps every node well formed. */
  lemma StepAtShape(nodes: seq<Node>, p: nat, c: Option<nat>, score: real)
    requires p < |nodes| && (c.Some? ==> c.value < |nodes|)
    ensures SameShape(nodes, StepAt(nodes, p, c, score))
    ensures AllWellFormed(nodes) ==> AllWellFormed(StepAt(nodes, p, c, score))
  {
    var child := if c.Some? then Some(nodes[c.value]) else None;
    if WellFormed(nodes[p]) {
      UpdateScoreKeepsWellFormed(nodes[p], child, score);
    }
  }

  /**
   * The backup pass over path[j..]: nodes are popped from the end of the path,
   * so path[j] is updated after everything below it.
   */
  function BackupFrom(nodes: seq<Node>, path: seq<nat>, j: nat, score: real): (r: seq<Node>)
    requires j <= |path| && InRange(nodes, path)
    ensures |r| == |nodes|
    decreases |path| - j
  {
    if j == |path| then nodes
    else
      var mid := BackupFrom(nodes, path, j + 1, score);
      StepAt(mid, path[j], if j + 1 < |path| then Some(path[j + 1]) else None, score)
  }

  /**
   * The backup loop itself: the path is popped from its end, each node takes
   * the reward into its statistics, and a solved child passes its result up.
   */
  method BackupPass(nodes: seq<Node>, path: seq<nat>, score: real) returns (ns: seq<Node>)
    requires InRange(nodes, path)
    ensures ns == BackupFrom(nodes, path, 0, score)
  {
    ns := nodes;
    var child: Option<nat> := None;
    var rest := |path|;
    while rest > 0
      invariant 0 <= rest <= |path| && |ns| == |nodes|
      invariant ns == BackupFrom(nodes, path, rest, score)
      invariant child == if rest < |path| then Some(path[rest]) else None
    {
      rest := rest - 1;
      var parent := path[rest];
      ns := StepAt(ns, parent, child, score);
      child := Some(parent);
    }
  }

  /** The whole pass changes no link and keeps every node well formed. */
  lemma {:induction false} BackupFromShape(nodes: seq<Node>, path: seq<nat>, j: nat, score: real)
    requires j <= |path| && InRange(nodes, path)
    ensures SameShape(nodes, BackupFrom(nodes, path, j, score))
    ensures AllWellFormed(nodes) ==> AllWellFormed(BackupFrom(nodes, path, j, score))
    decreases |path| - j
  {
    if j < |path| {
      BackupFromShape(nodes, path, j + 1, score);
      var mid := BackupFrom(nodes, path, j + 1, score);
      StepAtShape(mid, path[j], if j + 1 < |path| then Some(path[j + 1]) else None, score);
    }
  }

  /** A path of the tree: each node is a child of the one before. */
  ghost predicate IsPath(nodes: seq<Node>, path: seq<nat>) {
    && |path| >= 1
    && InRange(nodes, path)
    && forall k :: 0 <= k < |path| - 1 ==> path[k + 1] in nodes[path[k]].children
  }

  predicate Increasing(s: seq<nat>) {
    forall i, j :: 0 <= i < j < |s| ==> s[i] < s[j]
  }

  lemma {:induction false} PathShape(nodes: seq<Node>, path: seq<nat>)
    requires Valid(nodes) && IsPath(nodes, path)
    ensures Increasing(path)
    ensures forall k :: 0 < k < |path| ==> nodes[path[k]].parent == path[k - 1]
  {
    forall k | 0 <= k < |path| - 1
      ensures path[k] < path[k + 1] && nodes[path[k + 1]].parent == path[k]
    {
      var cs := nodes[path[k]].children;
      var m :| 0 <= m < |cs| && cs[m] == path[k + 1];
      assert ChildOk(nodes, path[k], m);
    }
    forall i, j | 0 <= i < j < |path| ensures path[i] < path[j] {
      StepUp(path, i, j);
    }
  }

  lemma {:induction false} StepUp(s: seq<nat>, i: nat, j: nat)
    requires i < j < |s|
    requires forall k :: 0 <= k < |s| - 1 ==> s[k] < s[k + 1]
    ensures s[i] < s[j]
    decreases j - i
  {
    if i + 1 < j {
      StepUp(s, i + 1, j);
    }
  }

  /** Visits after the pass over path[j..]: one more for each node of path[j..], none elsewhere. */
  lemma {:induction false} BackupFromVisits(nodes: seq<Node>, path: seq<nat>, j: nat, score: real)
    requires j <= |path| && InRange(nodes, path) && Increasing(path)
    ensures var r := BackupFrom(nodes, path, j, score);
            forall x :: 0 <= x < |nodes| ==>
              r[x].numSim == nodes[x].numSim + (if x in path[j..] then 1 else 0)
    decreases |path| - j
  {
    if j < |path| {
      BackupFromVisits(nodes, path, j + 1, score);
      forall x | 0 <= x < |nodes|
        ensures x in path[j..] <==> x == path[j] || x in path[j + 1..]
      {
        assert path[j..] == [path[j]] + path[j + 1..];
      }
      assert path[j] !in path[j + 1..];
    }
  }

  /** Every node of the path gets exactly one more visit; every other node none. */
  lemma BackupVisits(nodes: seq<Node>, path: seq<nat>, score: real)
    requires Valid(nodes) && IsPath(nodes, path)
    ensures var r := BackupFrom(nodes, path, 0, score);
            |r| == |nodes| &&
            forall x :: 0 <= x < |nodes| ==> r[x].numSim == nodes[x].numSim + (if x in path then 1 else 0)
  {
    PathShape(nodes, path);
    BackupFromVisits(nodes, path, 0, score);
    assert path[0..] == path;
  }

  /** Once path[j] is updated, the rest of the pass (path[m..j]) leaves it alone. */
  lemma {:induction false} BackupFrozen(nodes: seq<Node>, path: seq<nat>, m: nat, j: nat, score: real)
    requires m <= j < |path| && InRange(nodes, path)
    requires forall k :: m <= k < j ==> path[k] != path[j]
    ensures BackupFrom(nodes, path, m, score)[path[j]] == BackupFrom(nodes, path, j, score)[path[j]]
    decreases j - m
  {
    if m < j {
      BackupFrozen(nodes, path, m + 1, j, score);
    }
  }

  /**
   * After the pass, a node of the path whose next node is won for its side
   * is itself solved that way, one step further from the end.
   */
  lemma BackupSolves(nodes: seq<Node>, path: seq<nat>, score: real, j: nat)
    requires Valid(nodes) && IsPath(nodes, path) && j + 1 < |path|
    ensures var r := BackupFrom(nodes, path, 0, score);
            var p := r[path[j]];
            var c := r[path[j + 1]];
            WonForParent(p.isAI, c) ==>
              p.steps == c.steps + 1 && (if p.isAI then IsAIWin(p) else IsAILose(p))
  {
    PathShape(nodes, path);
    BackupFrozen(nodes, path, 0, j, score);
    BackupFrozen(nodes, path, 0, j + 1, score);
    BackupFrozen(nodes, path, j, j + 1, score);
    var mid := BackupFrom(nodes, path, j + 1, score);
    assert BackupFrom(nodes, path, j, score)[path[j + 1]] == mid[path[j + 1]];
  }

  /** The number of elements of cs that occur in ps. */
  function CountIn(cs: seq<nat>, ps: seq<nat>): nat
  {
    if cs == [] then 0 else (if cs[0] in ps then 1 else 0) + CountIn(cs[1..], ps)
  }

  lemma {:induction false} ChildSimSumShift(a: seq<Node>, b: seq<Node>, cs: seq<nat>, ps: seq<nat>)
    requires |a| == |b| && InRange(a, cs)
    requires forall x :: 0 <= x < |a| ==> b[x].numSim == a[x].numSim + (if x in ps then 1 else 0)
    ensures ChildSimSum(b, cs) == ChildSimSum(a, cs) + CountIn(cs, ps)
  {
    if cs != [] {
      ChildSimSumShift(a, b, cs[1..], ps);
    }
  }

  lemma {:induction false} CountAtMostOne(cs: seq<nat>, ps: seq<nat>, v: nat)
    requires Increasing(cs)
    requires forall k :: 0 <= k < |cs| && cs[k] in ps ==> cs[k] == v
    ensures CountIn(cs, ps) <= 1
    ensures v !in cs ==> CountIn(cs, ps) == 0
  {
    if cs != [] {
      CountAtMostOne(cs[1..], ps, v);
      if cs[0] == v {
        assert v !in cs[1..];
      }
    }
  }

  /** A path node whose parent is x follows x on the path, unless it is the first node. */
  lemma ChildOnPath(nodes: seq<Node>, path: seq<nat>, x: nat, c: nat)
    requires Valid(nodes) && IsPath(nodes, path) && x < |nodes| && c < |nodes|
    requires c in path && nodes[c].parent == x && x != nodes[path[0]].parent
    ensures exists ix :: 0 <= ix < |path| - 1 && path[ix] == x && path[ix + 1] == c
  {
    PathShape(nodes, path);
    var m :| 0 <= m < |path| && path[m] == c;
    assert m > 0;
    assert path[m - 1] == x;
  }

  /** The children of x that lie on the path: at most one, and none when x is off the path. */
  lemma ChildrenOnPath(nodes: seq<Node>, path: seq<nat>, x: nat)
    requires Valid(nodes) && IsPath(nodes, path) && x < |nodes| && x != nodes[path[0]].parent
    ensures InRange(nodes, nodes[x].children)
    ensures CountIn(nodes[x].children, path) <= (if x in path then 1 else 0)
  {
    PathShape(nodes, path);
    var cs := nodes[x].children;
    assert InRange(nodes, cs) by {
      forall k | 0 <= k < |cs| ensures cs[k] < |nodes| { assert ChildOk(nodes, x, k); }
    }
    assert Increasing(cs);
    if ix :| 0 <= ix < |path| - 1 && path[ix] == x {
      var v := path[ix + 1];
      forall k | 0 <= k < |cs| && cs[k] in path ensures cs[k] == v {
        assert ChildOk(nodes, x, k);
        ChildOnPath(nodes, path, x, cs[k]);
        var jx :| 0 <= jx < |path| - 1 && path[jx] == x && path[jx + 1] == cs[k];
        assert jx == ix;
      }
      CountAtMostOne(cs, path, v);
    } else {
      forall k | 0 <= k < |cs| ensures cs[k] !in path {
        assert ChildOk(nodes, x, k);
        if cs[k] in path {
          ChildOnPath(nodes, path, x, cs[k]);
        }
      }
      CountNone(cs, path);
    }
  }

  /**
   * The visit-count invariant survives a backup pass at every node except the
   * parent of the path's first node (that node gains a visit its parent does not see).
   */
  lemma BackupCovers(nodes: seq<Node>, path: seq<nat>, score: real, x: nat)
    requires Valid(nodes) && IsPath(nodes, path) && x < |nodes|
    requires Covered(nodes, x) && x != nodes[path[0]].parent
    ensures Valid(BackupFrom(nodes, path, 0, score))
    ensures Covered(BackupFrom(nodes, path, 0, score), x)
  {
    var r := BackupFrom(nodes, path, 0, score);
    BackupFromShape(nodes, path, 0, score);
    ValidTransfer(nodes, r);
    BackupVisits(nodes, path, score);
    ChildrenOnPath(nodes, path, x);
    assert SameNodeShape(nodes[x], r[x]);
    ChildSimSumShift(nodes, r, nodes[x].children, path);
  }

  lemma {:induction false} CountNone(cs: seq<nat>, ps: seq<nat>)
    requires forall k :: 0 <= k < |cs| ==> cs[k] !in ps
    ensures CountIn(cs, ps) == 0
  {
    if cs != [] {
      CountNone(cs[1..], ps);
    }
  }

  lemma {:induction false} ChildSimSumFrame(a: seq<Node>, b: seq<Node>, cs: seq<nat>)
    requires InRange(a, cs) && InRange(b, cs)
    requires forall k :: 0 <= k < |cs| ==> a[cs[k]].numSim == b[cs[k]].numSim
    ensures ChildSimSum(a, cs) == ChildSimSum(b, cs)
  {
    if cs != [] {
      ChildSimSumFrame(a, b, cs[1..]);
    }
  }

  /**
   * The expansion step of growTree: a fresh node for choice |children| is
   * created and appended to p's children (addChild requires room for it).
   */
  function AddChild(nodes: seq<Node>, p: nat, evalScore: int, desc: Desc): (r: seq<Node>)
    requires p < |nodes|
    ensures |r| == |nodes| + 1
    ensures r[|nodes|] == NewNode(p, |nodes[p].children|, evalScore, desc)
    ensures r[p].children == nodes[p].children + [|nodes|]
    ensures r[p] == nodes[p].(children := r[p].children)
    ensures forall i :: 0 <= i < |nodes| && i != p ==> r[i] == nodes[i]
  {
    var parent := nodes[p].(children := nodes[p].children + [|nodes|]);
    nodes[p := parent] + [NewNode(p, |nodes[p].children|, evalScore, desc)]
  }

  /** Expansion keeps the tree's shape when the node has room for one more child. */
  lemma AddChildKeepsValid(nodes: seq<Node>, p: nat, evalScore: int, desc: Desc)
    requires Valid(nodes) && p < |nodes| && HasDetails(nodes[p])
    requires |nodes[p].children| < nodes[p].maxChildren
    ensures Valid(AddChild(nodes, p, evalScore, desc))
  {
    AddChildNodes(nodes, p, evalScore, desc);
    AddChildLinks(nodes, p, evalScore, desc);
    AddChildOrder(nodes, p, evalScore, desc);
  }

  /** After expansion every node is well formed, follows its parent and has room for its children. */
  lemma AddChildNodes(nodes: seq<Node>, p: nat, evalScore: int, desc: Desc)
    requires Valid(nodes) && p < |nodes| && HasDetails(nodes[p])
    requires |nodes[p].children| < nodes[p].maxChildren
    ensures var r := AddChild(nodes, p, evalScore, desc);
            forall i | 0 <= i < |r| ::
              && WellFormed(r[i]) && -1 <= r[i].parent < i
              && if HasDetails(r[i]) then |r[i].children| <= r[i].maxChildren == |r[i].choicesStr|
                 else r[i].children == []
  {
  }

  /** After expansion every child link still points forward to a node naming its parent back. */
  lemma AddChildLinks(nodes: seq<Node>, p: nat, evalScore: int, desc: Desc)
    requires Valid(nodes) && p < |nodes|
    ensures var r := AddChild(nodes, p, evalScore, desc);
            forall i, k | 0 <= i < |r| && 0 <= k < |r[i].children| :: ChildOk(r, i, k)
  {
    var r := AddChild(nodes, p, evalScore, desc);
    forall i, k | 0 <= i < |r| && 0 <= k < |r[i].children| ensures ChildOk(r, i, k) {
      if i != p || k < |nodes[p].children| {
        assert ChildOk(nodes, i, k);
      }
    }
  }

  /** After expansion every child list is still in increasing slot order. */
  lemma AddChildOrder(nodes: seq<Node>, p: nat, evalScore: int, desc: Desc)
    requires Valid(nodes) && p < |nodes|
    ensures var r := AddChild(nodes, p, evalScore, desc);
            forall i, k1, k2 | 0 <= i < |r| && 0 <= k1 < k2 < |r[i].children| :: r[i].children[k1] < r[i].children[k2]
  {
    var r := AddChild(nodes, p, evalScore, desc);
    forall i, k1, k2 | 0 <= i < |r| && 0 <= k1 < k2 < |r[i].children|
      ensures r[i].children[k1] < r[i].children[k2]
    {
      if i == p && k2 == |nodes[p].children| {
        assert ChildOk(nodes, i, k1);
      }
    }
  }

  /** A new child has no visits, so the visit-count invariant holds wherever it held. */
  lemma AddChildKeepsCovered(nodes: seq<Node>, p: nat, evalScore: int, desc: Desc, x: nat)
    requires Valid(nodes) && p < |nodes| && HasDetails(nodes[p])
    requires |nodes[p].children| < nodes[p].maxChildren
    requires x < |nodes| && Covered(nodes, x)
    ensures Valid(AddChild(nodes, p, evalScore, desc))
    ensures Covered(AddChild(nodes, p, evalScore, desc), x)
  {
    var r := AddChild(nodes, p, evalScore, desc);
    AddChildKeepsValid(nodes, p, evalScore, desc);
    var cs := nodes[x].children;
    assert InRange(nodes, cs) by {
      forall k | 0 <= k < |cs| ensures cs[k] < |nodes| { assert ChildOk(nodes, x, k); }
    }
    ChildSimSumFrame(nodes, r, cs);
    if x == p {
      ChildSimSumSnoc(r, cs, |nodes|);
    }
  }

  lemma {:induction false} ChildSimSumSnoc(nodes: seq<Node>, cs: seq<nat>, c: nat)
    requires InRange(nodes, cs) && c < |nodes|
    ensures InRange(nodes, cs + [c])
    ensures ChildSimSum(nodes, cs + [c]) == ChildSimSum(nodes, cs) + nodes[c].numSim
  {
    if cs != [] {
      assert (cs + [c])[1..] == cs[1..] + [c];
      ChildSimSumSnoc(nodes, cs[1..], c);
    }
  }
}
