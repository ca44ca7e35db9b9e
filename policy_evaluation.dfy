/** Evaluation of a fixed policy, optionally ε-greedy: each sweep visits the
    states in order and overwrites V(s) in place with the one-step lookahead
    of the action taken in s. That action is the policy's, except that with
    probability ε a uniformly random action is taken instead. The loop stops
    after a sweep in which no value moved by more than the tolerance, or
    after 10000 sweeps. */
module PolicyEvaluationSolver {
  import opened Tables
  import opened MdpModel
  import opened ValueIterationSolver

  /** The random numbers run draws: coin(i, s) is the uniform draw in [0, 1)
      made for state s in sweep i, and action(i, s) the index of the random
      action drawn when that coin falls below ε. */
  datatype Draws = Draws(coin: (nat, nat) -> real, action: (nat, nat) -> nat)

  /** Every state has a policy action, and it is an action of the model. */
  predicate ValidPolicy(m: Mdp, policy: map<nat, nat>) {
    forall s :: 0 <= s < m.numStates ==> s in policy && policy[s] < m.numActions
  }

  /** The random action index is drawn among the model's actions, and the coin lies in [0, 1). */
  ghost predicate ValidDraws(m: Mdp, draws: Draws) {
    (forall i: nat, s: nat :: s < m.numStates ==> draws.action(i, s) < m.numActions) &&
    (forall i: nat, s: nat :: 0.0 <= draws.coin(i, s) < 1.0)
  }

  /** The action run takes in state s during sweep i. It is an action of the
      model; with ε = 0 it is the policy's action, and with ε = 1 it is the
      random one. */
  function Chosen(m: Mdp, policy: map<nat, nat>, epsilon: real, draws: Draws, i: nat, s: nat): (a: nat)
    requires ValidPolicy(m, policy) && ValidDraws(m, draws) && s < m.numStates
    ensures a < m.numActions
    ensures epsilon <= 0.0 ==> a == policy[s]
    ensures epsilon >= 1.0 ==> a == draws.action(i, s)
  {
    if draws.coin(i, s) < epsilon then draws.action(i, s) else policy[s]
  }

  /** The rest of sweep i, from state k on: each state in turn gets the
      lookahead of its chosen action under the current values. */
  function EvalSweepFrom(m: Mdp, gamma: real, policy: map<nat, nat>, epsilon: real, draws: Draws, i: nat,
                         V: seq<real>, k: nat): (r: seq<real>)
    requires HasTables(m) && ValidPolicy(m, policy) && ValidDraws(m, draws)
    requires |V| == m.numStates && k <= m.numStates
    ensures |r| == m.numStates
    decreases m.numStates - k
  {
    if k == m.numStates then V
    else
      var a := Chosen(m, policy, epsilon, draws, i, k);
      EvalSweepFrom(m, gamma, policy, epsilon, draws, i, V[k := QValue(m, gamma, V, k, a)], k + 1)
  }

  function EvalSweep(m: Mdp, gamma: real, policy: map<nat, nat>, epsilon: real, draws: Draws, i: nat,
                     V: seq<real>): (r: seq<real>)
    requires HasTables(m) && ValidPolicy(m, policy) && ValidDraws(m, draws) && |V| == m.numStates
  {
    EvalSweepFrom(m, gamma, policy, epsilon, draws, i, V, 0)
  }

  /** How run ends: the values before and after its last sweep, the number of
      sweeps, and whether the last sweep was within the tolerance. */
  datatype EvalOutcome = EvalOutcome(previous: seq<real>, last: seq<real>, sweeps: nat, converged: bool)

  /** run from sweep i on. It performs between one and MaxIter - i more
      sweeps, its last result is one sweep from the values before it, and it
      stops before the cap only when that last sweep converged. */
  function EvalRunFrom(m: Mdp, gamma: real, policy: map<nat, nat>, epsilon: real, draws: Draws,
                       V: seq<real>, i: nat): (r: EvalOutcome)
    requires HasTables(m) && ValidPolicy(m, policy) && ValidDraws(m, draws)
    requires |V| == m.numStates && i < MaxIter
    ensures i < r.sweeps <= MaxIter
    ensures |r.previous| == m.numStates
    ensures r.last == EvalSweep(m, gamma, policy, epsilon, draws, r.sweeps - 1, r.previous)
    ensures r.converged <==> Converged(r.previous, r.last)
    ensures !r.converged ==> r.sweeps == MaxIter
    decreases MaxIter - i
  {
    var next := EvalSweep(m, gamma, policy, epsilon, draws, i, V);
    if Converged(V, next) || i + 1 == MaxIter then
      EvalOutcome(V, next, i + 1, Converged(V, next))
    else
      EvalRunFrom(m, gamma, policy, epsilon, draws, next, i + 1)
  }

  // ---------------------------------------------------------------------------
  // What a sweep computes.

  /** State s of sweep i from V that ended in r: its value is the lookahead of
      its chosen action under the values the states before s received in this
      sweep and the old values of s and the states after it. */
  predicate EvalGaussSeidelAt(m: Mdp, gamma: real, policy: map<nat, nat>, epsilon: real, draws: Draws, i: nat,
                              V: seq<real>, r: seq<real>, s: nat)
    requires HasTables(m) && ValidPolicy(m, policy) && ValidDraws(m, draws)
    requires |V| == m.numStates && |r| == m.numStates && s < m.numStates
  {
    r[s] == QValue(m, gamma, r[..s] + V[s..], s, Chosen(m, policy, epsilon, draws, i, s))
  }

  /** The rest of a sweep from state k leaves the states before k alone. */
  lemma {:induction false} EvalSweepFromKeeps(m: Mdp, gamma: real, policy: map<nat, nat>, epsilon: real, draws: Draws,
                                              i: nat, V: seq<real>, k: nat)
    requires HasTables(m) && ValidPolicy(m, policy) && ValidDraws(m, draws)
    requires |V| == m.numStates && k <= m.numStates
    ensures forall t :: 0 <= t < k ==> EvalSweepFrom(m, gamma, policy, epsilon, draws, i, V, k)[t] == V[t]
    decreases m.numStates - k
  {
    if k < m.numStates {
      var a := Chosen(m, policy, epsilon, draws, i, k);
      EvalSweepFromKeeps(m, gamma, policy, epsilon, draws, i, V[k := QValue(m, gamma, V, k, a)], k + 1);
    }
  }

  /** A sweep is Gauss–Seidel at every state. */
  lemma EvalSweepIsGaussSeidel(m: Mdp, gamma: real, policy: map<nat, nat>, epsilon: real, draws: Draws,
                               i: nat, V: seq<real>)
    requires HasTables(m) && ValidPolicy(m, policy) && ValidDraws(m, draws) && |V| == m.numStates
    ensures forall s :: 0 <= s < m.numStates ==>
      EvalGaussSeidelAt(m, gamma, policy, epsilon, draws, i, V, EvalSweep(m, gamma, policy, epsilon, draws, i, V), s)
  {
    EvalSweepFromIsGaussSeidel(m, gamma, policy, epsilon, draws, i, V, 0);
  }

  lemma {:induction false} EvalSweepFromIsGaussSeidel(m: Mdp, gamma: real, policy: map<nat, nat>, epsilon: real,
                                                      draws: Draws, i: nat, V: seq<real>, k: nat)
    requires HasTables(m) && ValidPolicy(m, policy) && ValidDraws(m, draws)
    requires |V| == m.numStates && k <= m.numStates
    ensures forall s :: k <= s < m.numStates ==>
      EvalGaussSeidelAt(m, gamma, policy, epsilon, draws, i, V, EvalSweepFrom(m, gamma, policy, epsilon, draws, i, V, k), s)
    decreases m.numStates - k
  {
    if k < m.numStates {
      var a := Chosen(m, policy, epsilon, draws, i, k);
      var V1 := V[k := QValue(m, gamma, V, k, a)];
      var r := EvalSweepFrom(m, gamma, policy, epsilon, draws, i, V, k);
      assert r == EvalSweepFrom(m, gamma, policy, epsilon, draws, i, V1, k + 1);
      EvalSweepFromIsGaussSeidel(m, gamma, policy, epsilon, draws, i, V1, k + 1);
      forall s | k < s < m.numStates
        ensures EvalGaussSeidelAt(m, gamma, policy, epsilon, draws, i, V, r, s)
      {
        assert EvalGaussSeidelAt(m, gamma, policy, epsilon, draws, i, V1, r, s);
        assert V[s..] == V1[s..];
      }
      EvalSweepFromFirstState(m, gamma, policy, epsilon, draws, i, V, k);
    }
  }

  /** The first state of the rest of a sweep is computed from V itself. */
  lemma EvalSweepFromFirstState(m: Mdp, gamma: real, policy: map<nat, nat>, epsilon: real, draws: Draws,
                                i: nat, V: seq<real>, k: nat)
    requires HasTables(m) && ValidPolicy(m, policy) && ValidDraws(m, draws)
    requires |V| == m.numStates && k < m.numStates
    ensures EvalGaussSeidelAt(m, gamma, policy, epsilon, draws, i, V, EvalSweepFrom(m, gamma, policy, epsilon, draws, i, V, k), k)
  {
    var a := Chosen(m, policy, epsilon, draws, i, k);
    var V1 := V[k := QValue(m, gamma, V, k, a)];
    var r := EvalSweepFrom(m, gamma, policy, epsilon, draws, i, V1, k + 1);
    assert r == EvalSweepFrom(m, gamma, policy, epsilon, draws, i, V, k);
    EvalSweepFromKeeps(m, gamma, policy, epsilon, draws, i, V1, k + 1);
    Splice(r, V, k);
  }

  /** A value function that already satisfies every state's equation
      V(s) = lookahead of the chosen action is left as it is by the sweep. */
  lemma {:induction false} EvalSweepFromFixedPoint(m: Mdp, gamma: real, policy: map<nat, nat>, epsilon: real,
                                                   draws: Draws, i: nat, V: seq<real>, k: nat)
    requires HasTables(m) && ValidPolicy(m, policy) && ValidDraws(m, draws)
    requires |V| == m.numStates && k <= m.numStates
    requires forall s :: k <= s < m.numStates ==> V[s] == QValue(m, gamma, V, s, Chosen(m, policy, epsilon, draws, i, s))
    ensures EvalSweepFrom(m, gamma, policy, epsilon, draws, i, V, k) == V
    decreases m.numStates - k
  {
    if k < m.numStates {
      assert V[k := QValue(m, gamma, V, k, Chosen(m, policy, epsilon, draws, i, k))] == V;
      EvalSweepFromFixedPoint(m, gamma, policy, epsilon, draws, i, V, k + 1);
    }
  }

  /** Evaluating the policy itself (ε = 0) from a solution of its Bellman
      equation V(s) = Σ_{s'} T(s, π(s), s') · (R(s, π(s), s') + γ · V(s'))
      ends after one sweep, converged, with V unchanged. */
  lemma PolicyFixedPointIsStable(m: Mdp, gamma: real, policy: map<nat, nat>, draws: Draws, V: seq<real>)
    requires HasTables(m) && ValidPolicy(m, policy) && ValidDraws(m, draws) && |V| == m.numStates
    requires forall s :: 0 <= s < m.numStates ==> V[s] == QValue(m, gamma, V, s, policy[s])
    ensures EvalRunFrom(m, gamma, policy, 0.0, draws, V, 0) == EvalOutcome(V, V, 1, true)
  {
    EvalSweepFromFixedPoint(m, gamma, policy, 0.0, draws, 0, V, 0);
  }

  /** With γ = 0 and ε = 0, a sweep sets every V(s) to the expected immediate
      reward of the policy's action, whatever V it starts from. */
  lemma MyopicEvalSweep(m: Mdp, policy: map<nat, nat>, draws: Draws, i: nat, V: seq<real>)
    requires HasTables(m) && ValidPolicy(m, policy) && ValidDraws(m, draws) && |V| == m.numStates
    ensures forall s :: 0 <= s < m.numStates ==>
      EvalSweep(m, 0.0, policy, 0.0, draws, i, V)[s] == ExpectedReward(m, s, policy[s], m.numStates)
  {
    var r := EvalSweep(m, 0.0, policy, 0.0, draws, i, V);
    EvalSweepIsGaussSeidel(m, 0.0, policy, 0.0, draws, i, V);
    forall s | 0 <= s < m.numStates
      ensures r[s] == ExpectedReward(m, s, policy[s], m.numStates)
    {
      assert EvalGaussSeidelAt(m, 0.0, policy, 0.0, draws, i, V, r, s);
      MyopicBackup(m, r[..s] + V[s..], s, policy[s], m.numStates);
    }
  }

  /** With γ = 0 and ε = 0, run ends within two sweeps. */
  lemma MyopicEvalStopsWithinTwoSweeps(m: Mdp, policy: map<nat, nat>, draws: Draws, V: seq<real>)
    requires HasTables(m) && ValidPolicy(m, policy) && ValidDraws(m, draws) && |V| == m.numStates
    ensures EvalRunFrom(m, 0.0, policy, 0.0, draws, V, 0).sweeps <= 2
    ensures forall s :: 0 <= s < m.numStates ==>
      EvalRunFrom(m, 0.0, policy, 0.0, draws, V, 0).last[s] == ExpectedReward(m, s, policy[s], m.numStates)
  {
    var first := EvalSweep(m, 0.0, policy, 0.0, draws, 0, V);
    MyopicEvalSweep(m, policy, draws, 0, V);
    if !Converged(V, first) {
      var second := EvalSweep(m, 0.0, policy, 0.0, draws, 1, first);
      MyopicEvalSweep(m, policy, draws, 1, first);
      assert forall s :: 0 <= s < m.numStates ==> second[s] == first[s];
      assert Converged(first, second);
    }
  }

  class PolicyEvaluation {
    const policy: map<nat, nat>
    var V: seq<real>
    const mdp: Mdp
    const gamma: real
    const epsilon: real

    /** The four-argument form: V(s) = 0 for every state. */
    constructor (m: Mdp, discount: real, eps: real, pol: map<nat, nat>)
      ensures mdp == m && gamma == discount && epsilon == eps && policy == pol
      ensures V == Zeros(m.numStates)
    {
      var values := ZeroValues(m.numStates);
      mdp, gamma, epsilon, policy := m, discount, eps, pol;
      V := values;
    }

    /** The three-argument form: the policy itself, ε = 0. */
    constructor WithoutEpsilon(m: Mdp, discount: real, pol: map<nat, nat>)
      ensures mdp == m && gamma == discount && epsilon == 0.0 && policy == pol
      ensures V == Zeros(m.numStates)
    {
      var values := ZeroValues(m.numStates);
      mdp, gamma, epsilon, policy := m, discount, 0.0, pol;
      V := values;
    }

    /** run: sweeps until one is within the tolerance or the cap is reached.
        The result is EvalRunFrom's. Returns the number of sweeps, which the
        original keeps in a local. */
    method Run(draws: Draws) returns (sweeps: nat)
      requires WellFormed(mdp) && ValidPolicy(mdp, policy) && ValidDraws(mdp, draws) && |V| == mdp.numStates
      modifies this
      ensures var r := EvalRunFrom(mdp, gamma, policy, epsilon, draws, old(V), 0);
        V == r.last && sweeps == r.sweeps
    {
      ghost var target := EvalRunFrom(mdp, gamma, policy, epsilon, draws, V, 0);
      var i := 0;
      var convergence := false;
      while i < MaxIter && !convergence
        invariant i <= MaxIter && |V| == mdp.numStates
        invariant !convergence && i < MaxIter ==> EvalRunFrom(mdp, gamma, policy, epsilon, draws, V, i) == target
        invariant convergence || i == MaxIter ==> V == target.last && i == target.sweeps
        decreases MaxIter - i
      {
        convergence := SweepInPlace(draws, i);
        i := i + 1;
      }
      sweeps := i;
    }

    /** Sweep i of run's outer loop: returns whether no value moved by more
        than the tolerance. */
    method SweepInPlace(draws: Draws, i: nat) returns (convergence: bool)
      requires WellFormed(mdp) && ValidPolicy(mdp, policy) && ValidDraws(mdp, draws) && |V| == mdp.numStates
      modifies this
      ensures V == EvalSweep(mdp, gamma, policy, epsilon, draws, i, old(V))
      ensures convergence <==> Converged(old(V), V)
    {
      ghost var V0 := V;
      ghost var target := EvalSweep(mdp, gamma, policy, epsilon, draws, i, V0);
      convergence := true;
      var state := 0;
      while state < mdp.numStates
        invariant state <= mdp.numStates && |V| == mdp.numStates
        invariant EvalSweepFrom(mdp, gamma, policy, epsilon, draws, i, V, state) == target
        invariant forall t :: state <= t < mdp.numStates ==> V[t] == V0[t]
        invariant convergence <==> forall t :: 0 <= t < state ==> Abs(V0[t] - V[t]) <= Tolerance
      {
        var action := Chosen(mdp, policy, epsilon, draws, i, state);
        var sum := ExpectedValue(mdp, gamma, V, state, action);
        var currentV := V[state];
        V := V[state := sum];
        if convergence && Abs(currentV - V[state]) > Tolerance {
          convergence := false;
        }
        state := state + 1;
      }
    }
  }
}
