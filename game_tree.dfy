/**
 * One node of the Monte Carlo search tree (class MCTSGameTree of MCTSAI.java)
 * and the pure rules that update its statistics and its solved state.
 *
 * A node is a value here; the search engine (module Mcts) keeps all nodes in
 * an arena and replaces a slot where the source assigns a field in place.
 */
module GameTree {
  import opened Wrappers

  /** evalScore of a node proven won for the AI: Integer.MAX_VALUE. */
  const AI_WIN: int := 0x7fff_ffff
  /** evalScore of a node proven lost for the AI: Integer.MIN_VALUE. */
  const AI_LOSE: int := -0x8000_0000
  /** Initial maxChildSim: a child needs more simulations than this before robust max applies. */
  const MIN_ROBUST_SIM: int := 100
  /** Bonus getDecision gives to a child proven won for the AI. */
  const BOOST: int := 1000000
  /** getVar reports 1.0 below this many simulations. */
  const MIN_SAMPLES: int := 10

  /** The rendered descriptor of a choice (obj2String of its first element). */
  type Desc = string

  /**
   * The fields of MCTSGameTree. `parent` and `children` are arena indices
   * (-1 for a root); `maxChildren == -1` means the details are not filled in yet.
   */
  datatype Node = Node(
    parent: int,
    choice: int,
    isAI: bool,
    isCached: bool,
    maxChildren: int,
    numLose: nat,
    numSim: nat,
    evalScore: int,
    steps: nat,
    sum: real,
    S: real,
    maxChildSim: nat,
    children: seq<nat>,
    choicesStr: seq<Desc>,
    desc: Desc)

  /** What every node satisfies from creation on and every update keeps. */
  predicate WellFormed(n: Node) {
    && (n.numSim == 0 ==> n.sum == 0.0)
    && n.S >= 0.0
    && n.maxChildSim >= MIN_ROBUST_SIM
    && n.maxChildren >= -1
  }

  function Max(a: nat, b: nat): nat { if a >= b then a else b }

  function MaxR(a: real, b: real): real { if a >= b then a else b }

  function MinR(a: real, b: real): real { if a <= b then a else b }

  /** The constructor MCTSGameTree(parent, choice, evalScore): empty statistics, no details. */
  function NewNode(parent: int, choice: int, evalScore: int, desc: Desc): (r: Node)
    ensures WellFormed(r)
    ensures r.numSim == 0 && r.sum == 0.0 && r.S == 0.0 && r.children == []
    ensures r.maxChildren == -1 && r.maxChildSim == MIN_ROBUST_SIM && !r.isCached
    ensures r.parent == parent && r.choice == choice && r.evalScore == evalScore
  {
    Node(parent, choice, false, false, -1, 0, 0, evalScore, 0, 0.0, 0.0,
         MIN_ROBUST_SIM, [], [], desc)
  }

  predicate HasDetails(n: Node) { n.maxChildren != -1 }

  predicate IsAIWin(n: Node) { n.evalScore == AI_WIN }

  predicate IsAILose(n: Node) { n.evalScore == AI_LOSE }

  /** isSolved: the one evalScore field makes a proven win and a proven loss exclusive. */
  function IsSolved(n: Node): (r: bool)
    ensures r <==> IsAIWin(n) || IsAILose(n)
    ensures !(IsAIWin(n) && IsAILose(n))
  {
    n.evalScore == AI_WIN || n.evalScore == AI_LOSE
  }

  /** getAvg: the plain average reward, from the AI's side. */
  function Avg(n: Node): real
    requires n.numSim > 0
  {
    n.sum / n.numSim as real
  }

  /** The running mean updateScore starts from (0 for an unvisited node). */
  function OldMean(n: Node): real
  {
    if n.numSim > 0 then n.sum / n.numSim as real else 0.0
  }

  /** The robust-max override applies when the child has more simulations than maxChildSim. */
  predicate Fires(n: Node, child: Option<Node>) {
    child.Some? && child.value.numSim > n.maxChildSim
  }

  /** The Welford algebra on plain reals: with s = m * c, (d - m) * (d - (s + d) / (c + 1)) = c / (c + 1) * (d - m)^2. */
  lemma WelfordReal(c: real, m: real, s: real, d: real)
    requires c >= 0.0 && m * c == s
    ensures (d - m) * (d - (s + d) / (c + 1.0)) == c / (c + 1.0) * (d - m) * (d - m)
    ensures c / (c + 1.0) * (d - m) * (d - m) >= 0.0
  {
    var newMean := (s + d) / (c + 1.0);
    assert newMean * (c + 1.0) == m * c + d;
    assert (d - newMean) * (c + 1.0) == c * (d - m);
    assert d - newMean == c / (c + 1.0) * (d - m);
    assert c / (c + 1.0) >= 0.0;
    assert (d - m) * (d - m) >= 0.0;
  }

  /** The running mean after one more reward d. */
  function NewMean(n: Node, d: real): real
  {
    (n.sum + d) / (n.numSim + 1) as real
  }

  /** Welford's gain for a new sample d: (d - mean before) * (d - mean after). */
  function WelfordGain(d: real, before: real, after: real): real
  {
    (d - before) * (d - after)
  }

  /** The term Welford's step adds to S. */
  function WelfordIncrement(n: Node, d: real): real
  {
    WelfordGain(d, OldMean(n), NewMean(n, d))
  }

  /**
   * Since sum = old mean * count, the Welford term is
   * count/(count+1) * (d - old mean)^2, which is never negative.
   */
  lemma WelfordTerm(n: Node, d: real)
    requires WellFormed(n)
    ensures WelfordIncrement(n, d)
              == n.numSim as real / (n.numSim + 1) as real * (d - OldMean(n)) * (d - OldMean(n))
    ensures WelfordIncrement(n, d) >= 0.0
  {
    var c := n.numSim as real;
    assert (n.numSim + 1) as real == c + 1.0;
    if n.numSim > 0 {
      assert OldMean(n) * c == n.sum;
    }
    WelfordReal(c, OldMean(n), n.sum, d);
  }

  lemma ScaleBack(x: real, k: int)
    requires k > 0
    ensures x * k as real / k as real == x
  {
  }

  /**
   * updateScore(child, delta): one more simulation with reward delta, Welford's
   * variance step, then the robust-max override when the child is sampled enough.
   */
  function UpdateScore(n: Node, child: Option<Node>, delta: real): (r: Node)
    ensures r.numSim == n.numSim + 1
    // without the override the sum is a plain running sum
    ensures !Fires(n, child) ==> r.sum == n.sum + delta && r.maxChildSim == n.maxChildSim
    ensures Fires(n, child) ==> r.maxChildSim == child.value.numSim
    ensures r.maxChildSim >= n.maxChildSim
    ensures r == n.(numSim := r.numSim, sum := r.sum, S := r.S, maxChildSim := r.maxChildSim)
  {
    var num1 := n.numSim + 1;
    var sum1 := n.sum + delta;
    var newMean := NewMean(n, delta);
    var s1 := n.S + WelfordIncrement(n, delta);
    if Fires(n, child) then
      var cAvg := Avg(child.value);
      var sum2 := if (n.isAI && cAvg > newMean) || (!n.isAI && cAvg < newMean) then cAvg * num1 as real
                  else sum1;
      n.(numSim := num1, sum := sum2, S := s1, maxChildSim := child.value.numSim)
    else
      n.(numSim := num1, sum := sum1, S := s1)
  }

  /** updateScore keeps a node well formed, and the variance accumulator never shrinks. */
  lemma UpdateScoreKeepsWellFormed(n: Node, child: Option<Node>, delta: real)
    requires WellFormed(n)
    ensures WellFormed(UpdateScore(n, child, delta))
    ensures UpdateScore(n, child, delta).S >= n.S
  {
    WelfordTerm(n, delta);
  }

  /** The variance accumulator grows by exactly count/(count+1) * (delta - old mean)^2. */
  lemma UpdateScoreVariance(n: Node, child: Option<Node>, delta: real)
    requires WellFormed(n)
    ensures UpdateScore(n, child, delta).S
              == n.S + n.numSim as real / (n.numSim + 1) as real * (delta - OldMean(n)) * (delta - OldMean(n))
  {
    WelfordTerm(n, delta);
  }

  /**
   * With the robust-max override, an AI node keeps the better of its own
   * average and the child's, an opponent node the worse.
   */
  lemma UpdateScoreRobustMax(n: Node, child: Option<Node>, delta: real)
    requires WellFormed(n) && Fires(n, child)
    ensures var r := UpdateScore(n, child, delta);
            var plain := NewMean(n, delta);
            Avg(r) == if n.isAI then MaxR(plain, Avg(child.value)) else MinR(plain, Avg(child.value))
  {
    ScaleBack(Avg(child.value), n.numSim + 1);
  }

  /** setAIWin(steps). */
  function SetAIWin(n: Node, steps: nat): (r: Node)
    ensures IsAIWin(r) && r.steps == steps
    ensures r == n.(evalScore := AI_WIN, steps := steps)
  {
    n.(evalScore := AI_WIN, steps := steps)
  }

  /** setAILose(steps). */
  function SetAILose(n: Node, steps: nat): (r: Node)
    ensures IsAILose(r) && r.steps == steps
    ensures r == n.(evalScore := AI_LOSE, steps := steps)
  {
    n.(evalScore := AI_LOSE, steps := steps)
  }

  /**
   * incLose(lsteps): one more backup through a child that is lost for this
   * node's side; when the count reaches maxChildren the node is solved the other way.
   */
  function IncLose(n: Node, lsteps: nat): (r: Node)
    ensures r.numLose == n.numLose + 1
    ensures r.steps == Max(n.steps, lsteps)
    ensures r.numLose == n.maxChildren ==> (if n.isAI then IsAILose(r) else IsAIWin(r))
    ensures r.numLose != n.maxChildren ==> r.evalScore == n.evalScore
    ensures r == n.(numLose := r.numLose, steps := r.steps, evalScore := r.evalScore)
  {
    var m := n.(numLose := n.numLose + 1, steps := Max(n.steps, lsteps));
    if m.numLose == m.maxChildren then
      if m.isAI then SetAILose(m, m.steps) else SetAIWin(m, m.steps)
    else m
  }

  /** The child is a proven loss for the side that moves at its parent. */
  predicate LostForParent(parentIsAI: bool, c: Node) {
    (parentIsAI && IsAILose(c)) || (!parentIsAI && IsAIWin(c))
  }

  /** The child is a proven win for the side that moves at its parent. */
  predicate WonForParent(parentIsAI: bool, c: Node) {
    (parentIsAI && IsAIWin(c)) || (!parentIsAI && IsAILose(c))
  }

  /**
   * The AND/OR proof step of the backup loop: a child won for the parent's
   * side solves the parent at once, a child lost for it counts towards exhaustion.
   */
  function Propagate(p: Node, c: Node): (r: Node)
    ensures !IsSolved(c) ==> r == p
    ensures WonForParent(p.isAI, c) ==>
              r.steps == c.steps + 1 && (if p.isAI then IsAIWin(r) else IsAILose(r))
              && r.numLose == p.numLose
    ensures LostForParent(p.isAI, c) ==> r == IncLose(p, c.steps + 1)
    ensures r.numSim == p.numSim && r.sum == p.sum && r.S == p.S && r.maxChildSim == p.maxChildSim
    ensures r.children == p.children && r.isAI == p.isAI && r.maxChildren == p.maxChildren
    ensures r.parent == p.parent && r.choice == p.choice && r.choicesStr == p.choicesStr
    ensures r.desc == p.desc && r.isCached == p.isCached
  {
    if IsSolved(c) then
      var steps := c.steps + 1;
      if p.isAI && IsAIWin(c) then SetAIWin(p, steps)
      else if !p.isAI && IsAILose(c) then SetAILose(p, steps)
      else if p.isAI && IsAILose(c) then IncLose(p, steps)
      else IncLose(p, steps)
    else p
  }

  /**
   * numLose counts backups through lost children, not distinct lost
   * children: the same lost child backed up twice counts twice.
   */
  lemma LostChildCountsEachBackup(p: Node, c: Node)
    requires LostForParent(p.isAI, c)
    ensures Propagate(Propagate(p, c), c).numLose == p.numLose + 2
  {
  }

  /** modify(sc): the exploration score of a proven child is shifted by 2.0 towards its outcome. */
  function Modify(parentIsAI: bool, c: Node, sc: real): (r: real)
    ensures LostForParent(parentIsAI, c) ==> r == sc - 2.0
    ensures WonForParent(parentIsAI, c) ==> r == sc + 2.0
    ensures !IsSolved(c) ==> r == sc
  {
    if (!parentIsAI && IsAIWin(c)) || (parentIsAI && IsAILose(c)) then sc - 2.0
    else if (parentIsAI && IsAIWin(c)) || (!parentIsAI && IsAILose(c)) then sc + 2.0
    else sc
  }

  /** The shift biases but never forbids: the order of two equally-solved children is kept. */
  lemma ModifyKeepsOrder(parentIsAI: bool, a: Node, b: Node, x: real, y: real)
    requires IsAIWin(a) == IsAIWin(b) && IsAILose(a) == IsAILose(b) && x < y
    ensures Modify(parentIsAI, a, x) < Modify(parentIsAI, b, y)
  {
  }

  /** getDecision: visit count, plus BOOST for a proven AI win. */
  function Decision(n: Node): (r: int)
    ensures IsAIWin(n) ==> r == BOOST + n.numSim
    ensures !IsAIWin(n) ==> r == n.numSim
  {
    if IsAIWin(n) then BOOST + n.numSim
    else if IsAILose(n) then n.numSim
    else n.numSim
  }

  /** A proven win outranks an unproven child unless the latter has BOOST more visits. */
  lemma WinOutranks(w: Node, u: Node)
    requires IsAIWin(w) && !IsAIWin(u)
    requires u.numSim < w.numSim + BOOST
    ensures Decision(w) > Decision(u)
  {
  }

  /** getSum: the reward sum seen from the side that moves at the parent. */
  function GetSum(parentIsAI: bool, n: Node): (r: real)
    ensures parentIsAI ==> r == n.sum
    ensures !parentIsAI ==> r + n.sum == 1.0
  {
    if parentIsAI then n.sum else 1.0 - n.sum
  }

  /** getV: getSum / numSim. */
  function GetV(parentIsAI: bool, n: Node): (r: real)
    requires n.numSim > 0
    ensures parentIsAI ==> r == Avg(n)
    ensures !parentIsAI ==> r == 1.0 / n.numSim as real - Avg(n)
  {
    GetSum(parentIsAI, n) / n.numSim as real
  }

  /**
   * Under an opponent parent getV is (1 - sum)/numSim, which is not the
   * zero-sum complement 1 - sum/numSim once the node has two or more simulations.
   */
  lemma OpponentValueIsNotComplement(n: Node)
    requires n.numSim >= 2
    ensures GetV(false, n) < 1.0 - Avg(n)
  {
    var k := n.numSim as real;
    assert 1.0 / k < 1.0;
  }

  /** getVar: 1.0 until MIN_SAMPLES simulations, then the sample variance S/(numSim-1). */
  function GetVar(n: Node): (r: real)
    requires WellFormed(n)
    ensures r >= 0.0
    ensures n.numSim < MIN_SAMPLES ==> r == 1.0
    ensures n.numSim >= MIN_SAMPLES ==> r * (n.numSim - 1) as real == n.S
  {
    if n.numSim < MIN_SAMPLES then 1.0 else n.S / (n.numSim - 1) as real
  }
}
