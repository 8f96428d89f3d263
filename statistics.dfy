/**
 * A reference definition of the statistics a node keeps: the sum of the
 * rewards seen, and the sum of squared deviations from their mean (M2).
 * Welford's update in updateScore (MCTSAI.java) computes M2 incrementally.
 *
 * The algebra is done in lemmas over plain reals; the lemmas about sequences
 * only hand values to them through the named forms Sq, Expanded, Closed and
 * IsMeanOf.
 */
module Statistics {
  import opened Wrappers
  import opened GameTree

  function Sq(x: real): real { x * x }

  function Sum(xs: seq<real>): real
  {
    if xs == [] then 0.0 else Sum(xs[..|xs| - 1]) + xs[|xs| - 1]
  }

  function SumSq(xs: seq<real>): real
  {
    if xs == [] then 0.0 else SumSq(xs[..|xs| - 1]) + Sq(xs[|xs| - 1])
  }

  /** The squared deviations of xs from m, added up. */
  function SqDev(xs: seq<real>, m: real): real
  {
    if xs == [] then 0.0 else SqDev(xs[..|xs| - 1], m) + Sq(xs[|xs| - 1] - m)
  }

  function Mean(xs: seq<real>): real
  {
    if xs == [] then 0.0 else Sum(xs) / |xs| as real
  }

  /** M2: the squared deviations from the sample mean. */
  function M2(xs: seq<real>): real
  {
    SqDev(xs, Mean(xs))
  }

  /** SumSq - 2 m Sum + n m^2: the squared deviations from m, expanded. */
  function Expanded(sumSq: real, sum: real, n: real, m: real): real
  {
    sumSq - 2.0 * m * sum + n * Sq(m)
  }

  /** SumSq - n m^2: the squared deviations from the mean m, in closed form. */
  function Closed(sumSq: real, n: real, m: real): real
  {
    sumSq - n * Sq(m)
  }

  /** m is the mean of n values adding up to s. */
  predicate IsMeanOf(m: real, s: real, n: real)
  {
    s == m * n
  }

  /** One step of SqDevExpand: d is the deviation sum of some samples, dd that of those and x. */
  lemma ExpandStep(d: real, q: real, s: real, k: real, x: real, m: real,
                   dd: real, qq: real, ss: real, kk: real)
    requires d == Expanded(q, s, k, m) && dd == d + Sq(x - m)
    requires qq == q + Sq(x) && ss == s + x && kk == k + 1.0
    ensures dd == Expanded(qq, ss, kk, m)
  {
  }

  /** The last element of a non-empty sequence, split off. */
  lemma SplitLast(xs: seq<real>, m: real)
    requires xs != []
    ensures Sum(xs) == Sum(xs[..|xs| - 1]) + xs[|xs| - 1]
    ensures SumSq(xs) == SumSq(xs[..|xs| - 1]) + Sq(xs[|xs| - 1])
    ensures SqDev(xs, m) == SqDev(xs[..|xs| - 1], m) + Sq(xs[|xs| - 1] - m)
    ensures |xs| as real == |xs[..|xs| - 1]| as real + 1.0
  {
  }

  /** Deviations from m expand into SumSq - 2 m Sum + n m^2. */
  lemma {:induction false} SqDevExpand(xs: seq<real>, m: real)
    ensures SqDev(xs, m) == Expanded(SumSq(xs), Sum(xs), |xs| as real, m)
  {
    if xs != [] {
      SqDevExpand(xs[..|xs| - 1], m);
      SplitLast(xs, m);
      ExpandStep(SqDev(xs[..|xs| - 1], m), SumSq(xs[..|xs| - 1]), Sum(xs[..|xs| - 1]),
                 |xs[..|xs| - 1]| as real, xs[|xs| - 1], m,
                 SqDev(xs, m), SumSq(xs), Sum(xs), |xs| as real);
    }
  }

  /** Appending one sample. */
  lemma AppendOne(xs: seq<real>, x: real)
    ensures Sum(xs + [x]) == Sum(xs) + x
    ensures SumSq(xs + [x]) == SumSq(xs) + Sq(x)
    ensures |xs + [x]| as real == |xs| as real + 1.0
  {
    var ys := xs + [x];
    assert ys[..|ys| - 1] == xs && ys[|ys| - 1] == x;
    SplitLast(ys, 0.0);
  }

  lemma DivMul(s: real, n: real)
    requires n != 0.0
    ensures IsMeanOf(s / n, s, n)
  {
  }

  /** The mean times the count gives back the sum. */
  lemma MeanOfSum(xs: seq<real>)
    ensures IsMeanOf(Mean(xs), Sum(xs), |xs| as real)
  {
    if xs != [] {
      DivMul(Sum(xs), |xs| as real);
    }
  }

  /** Expanding around the mean leaves SumSq - n m^2. */
  lemma ClosedStep(d: real, q: real, s: real, n: real, m: real)
    requires d == Expanded(q, s, n, m) && IsMeanOf(m, s, n)
    ensures d == Closed(q, n, m)
  {
  }

  /** M2 in terms of SumSq and the mean: SumSq - n * mean^2. */
  lemma M2Closed(xs: seq<real>)
    ensures M2(xs) == Closed(SumSq(xs), |xs| as real, Mean(xs))
  {
    SqDevExpand(xs, Mean(xs));
    MeanOfSum(xs);
    ClosedStep(M2(xs), SumSq(xs), Sum(xs), |xs| as real, Mean(xs));
  }

  /** The algebra behind Welford's identity, for means a of n values and b of those and x. */
  lemma WelfordAlgebra(d1: real, d2: real, q1: real, q2: real, n1: real, n2: real,
                       s1: real, s2: real, a: real, b: real, x: real)
    requires d1 == Closed(q1, n1, a) && d2 == Closed(q2, n2, b)
    requires q2 == q1 + Sq(x) && n2 == n1 + 1.0 && s2 == s1 + x
    requires IsMeanOf(a, s1, n1) && IsMeanOf(b, s2, n2)
    ensures d2 == d1 + WelfordGain(x, a, b)
  {
    assert x == n2 * b - n1 * a;
    assert x * b == n2 * b * b - n1 * a * b;
    assert a * x == n2 * a * b - n1 * a * a;
  }

  /**
   * Welford's identity: adding x to the samples grows M2 by
   * (x - old mean) * (x - new mean).
   */
  lemma WelfordStep(xs: seq<real>, x: real)
    ensures M2(xs + [x]) == M2(xs) + WelfordGain(x, Mean(xs), Mean(xs + [x]))
  {
    AppendOne(xs, x);
    M2Closed(xs);
    M2Closed(xs + [x]);
    MeanOfSum(xs);
    MeanOfSum(xs + [x]);
    WelfordAlgebra(M2(xs), M2(xs + [x]), SumSq(xs), SumSq(xs + [x]), |xs| as real, |xs + [x]| as real,
                   Sum(xs), Sum(xs + [x]), Mean(xs), Mean(xs + [x]), x);
  }

  /** The node's statistics are those of the sample sequence xs. */
  predicate Summarises(n: Node, xs: seq<real>) {
    n.numSim == |xs| && n.sum == Sum(xs) && n.S == M2(xs)
  }

  /**
   * Without the robust-max override, updateScore keeps a node's sum and S
   * equal to the sum and M2 of all rewards backed up through it.
   */
  lemma UpdateScoreTracksSamples(n: Node, child: Option<Node>, xs: seq<real>, delta: real)
    requires WellFormed(n) && Summarises(n, xs) && !Fires(n, child)
    ensures Summarises(UpdateScore(n, child, delta), xs + [delta])
  {
    AppendOne(xs, delta);
    WelfordStep(xs, delta);
    assert OldMean(n) == Mean(xs);
    assert NewMean(n, delta) == Mean(xs + [delta]);
  }
}
