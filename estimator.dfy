/** The maximum-likelihood model: pool the counter tables of all trajectories,
    divide the transition counts and the reward totals of each (s, a) by its
    visit count, and fall back to a uniform row with reward 0.5 for pairs that
    were never visited. */
module Estimator {
  import opened Tables
  import opened MdpModel
  import opened Trajectories

  /** The reward given to every entry of a (s, a) pair that no trajectory visited. */
  const UnseenReward: real := 0.5

  predicate AllShaped(data: seq<Counts>, numStates: nat, numActions: nat) {
    forall i :: 0 <= i < |data| ==> Shaped(data[i], numStates, numActions)
  }

  predicate AllConserving(data: seq<Counts>, numStates: nat, numActions: nat) {
    forall i :: 0 <= i < |data| ==> Conserving(data[i], numStates, numActions)
  }

  /** Visits of (s, a), summed over the trajectories. */
  function PooledVisits(data: seq<Counts>, numStates: nat, numActions: nat, s: nat, a: nat): nat
    requires AllShaped(data, numStates, numActions) && s < numStates && a < numActions
  {
    if |data| == 0 then 0
    else PooledVisits(data[..|data| - 1], numStates, numActions, s, a) + data[|data| - 1].visits[s][a]
  }

  /** Reward observed after (s, a), summed over the trajectories. */
  function PooledReward(data: seq<Counts>, numStates: nat, numActions: nat, s: nat, a: nat): real
    requires AllShaped(data, numStates, numActions) && s < numStates && a < numActions
  {
    if |data| == 0 then 0.0
    else PooledReward(data[..|data| - 1], numStates, numActions, s, a) + data[|data| - 1].rewardTotals[s][a]
  }

  /** Transitions from (s, a) into `next`, summed over the trajectories. */
  function PooledTransitions(data: seq<Counts>, numStates: nat, numActions: nat, s: nat, a: nat, next: nat): nat
    requires AllShaped(data, numStates, numActions) && s < numStates && a < numActions && next < numStates
  {
    if |data| == 0 then 0
    else PooledTransitions(data[..|data| - 1], numStates, numActions, s, a, next) + data[|data| - 1].transitions[s][a][next]
  }

  /** The pooled transition counts of (s, a), one per next state. */
  function PooledRow(data: seq<Counts>, numStates: nat, numActions: nat, s: nat, a: nat): (row: seq<nat>)
    requires AllShaped(data, numStates, numActions) && s < numStates && a < numActions
    ensures |row| == numStates
  {
    seq(numStates, next requires 0 <= next < numStates => PooledTransitions(data, numStates, numActions, s, a, next))
  }

  /** When every trajectory conserves its counts, so does the pool: the pooled
      transition counts of (s, a) add up to its pooled visits. */
  lemma {:induction false} PooledRowSumsToVisits(data: seq<Counts>, numStates: nat, numActions: nat, s: nat, a: nat)
    requires AllConserving(data, numStates, numActions) && s < numStates && a < numActions
    ensures Sum(PooledRow(data, numStates, numActions, s, a)) == PooledVisits(data, numStates, numActions, s, a)
  {
    if |data| == 0 {
      SumOfZeros(PooledRow(data, numStates, numActions, s, a));
    } else {
      var init := data[..|data| - 1];
      var last := data[|data| - 1].transitions[s][a];
      assert AllConserving(init, numStates, numActions);
      PooledRowSumsToVisits(init, numStates, numActions, s, a);
      assert PooledRow(data, numStates, numActions, s, a) == Add(PooledRow(init, numStates, numActions, s, a), last);
      SumAdd(PooledRow(init, numStates, numActions, s, a), last);
    }
  }

  /** The estimated transition row of (s, a). */
  function EstimatedTransitionRow(data: seq<Counts>, numStates: nat, numActions: nat, s: nat, a: nat): (row: seq<real>)
    requires AllShaped(data, numStates, numActions) && s < numStates && a < numActions
    ensures |row| == numStates && NonNegative(row)
  {
    var n := PooledVisits(data, numStates, numActions, s, a);
    if n > 0 then Ratios(PooledRow(data, numStates, numActions, s, a), n)
    else Constant(numStates, 1.0 / numStates as real)
  }

  /** The estimated reward row of (s, a): one value broadcast to every next state. */
  function EstimatedRewardRow(data: seq<Counts>, numStates: nat, numActions: nat, s: nat, a: nat): (row: seq<real>)
    requires AllShaped(data, numStates, numActions) && s < numStates && a < numActions
    ensures |row| == numStates
    ensures forall next :: 0 <= next < numStates ==> row[next] == row[0]
  {
    var n := PooledVisits(data, numStates, numActions, s, a);
    if n > 0 then Constant(numStates, PooledReward(data, numStates, numActions, s, a) / n as real)
    else Constant(numStates, UnseenReward)
  }

  /** The central theorem: if every trajectory conserves its counts, every
      estimated row is a distribution that sums to exactly 1, whether the pair
      was visited or not. */
  lemma EstimatedRowIsDistribution(data: seq<Counts>, numStates: nat, numActions: nat, s: nat, a: nat)
    requires AllConserving(data, numStates, numActions) && s < numStates && a < numActions
    ensures NonNegative(EstimatedTransitionRow(data, numStates, numActions, s, a))
    ensures SumR(EstimatedTransitionRow(data, numStates, numActions, s, a)) == 1.0
  {
    var n := PooledVisits(data, numStates, numActions, s, a);
    if n > 0 {
      VisitedRowSumsToOne(data, numStates, numActions, s, a);
    } else {
      UniformConstantSum(numStates);
    }
  }

  lemma VisitedRowSumsToOne(data: seq<Counts>, numStates: nat, numActions: nat, s: nat, a: nat)
    requires AllConserving(data, numStates, numActions) && s < numStates && a < numActions
    requires PooledVisits(data, numStates, numActions, s, a) > 0
    ensures SumR(Ratios(PooledRow(data, numStates, numActions, s, a), PooledVisits(data, numStates, numActions, s, a))) == 1.0
  {
    PooledRowSumsToVisits(data, numStates, numActions, s, a);
    RatiosOfTotal(PooledRow(data, numStates, numActions, s, a), PooledVisits(data, numStates, numActions, s, a));
  }

  lemma RatiosOfTotal(xs: seq<int>, n: int)
    requires n > 0 && Sum(xs) == n
    ensures SumR(Ratios(xs, n)) == 1.0
  {
    SumRatios(xs, n);
    var x := n as real;
    assert Sum(xs) as real / x == x / x == 1.0;
  }

  /** Entry by entry: a visited pair's transition probability into `next` is the
      pooled count of (s, a, next) over the pooled visits, and its reward is
      the pooled reward over the pooled visits; an unvisited pair gets 1 / |S|
      and 0.5. */
  lemma EstimatedEntries(data: seq<Counts>, numStates: nat, numActions: nat, s: nat, a: nat, next: nat)
    requires AllShaped(data, numStates, numActions) && s < numStates && a < numActions && next < numStates
    ensures var n := PooledVisits(data, numStates, numActions, s, a);
      && EstimatedTransitionRow(data, numStates, numActions, s, a)[next] ==
           (if n > 0 then PooledTransitions(data, numStates, numActions, s, a, next) as real / n as real
            else 1.0 / numStates as real)
      && EstimatedRewardRow(data, numStates, numActions, s, a)[next] ==
           (if n > 0 then PooledReward(data, numStates, numActions, s, a) / n as real else UnseenReward)
  {
  }

  /** With no trajectories every pair is unseen: each row is uniform with reward 0.5. */
  lemma NoDataGivesFallback(numStates: nat, numActions: nat, s: nat, a: nat)
    requires s < numStates && a < numActions
    ensures EstimatedTransitionRow([], numStates, numActions, s, a) == Constant(numStates, 1.0 / numStates as real)
    ensures EstimatedRewardRow([], numStates, numActions, s, a) == Constant(numStates, UnseenReward)
  {
  }

  /** estimateModel: for each (s, a) in order, pool the counts and fill one
      transition row and one reward row, entry by entry. */
  method EstimateModel(numStates: nat, numActions: nat, data: seq<Counts>)
    returns (transitions: Table3, rewards: Table3)
    requires AllShaped(data, numStates, numActions)
    ensures IsTable3(transitions, numStates, numActions) && IsTable3(rewards, numStates, numActions)
    ensures forall s, a :: 0 <= s < numStates && 0 <= a < numActions ==>
      transitions[s][a] == EstimatedTransitionRow(data, numStates, numActions, s, a) &&
      rewards[s][a] == EstimatedRewardRow(data, numStates, numActions, s, a)
    ensures AllConserving(data, numStates, numActions) ==> Stochastic(transitions, numStates, numActions)
  {
    transitions, rewards := [], [];
    var s := 0;
    while s < numStates
      invariant s <= numStates
      invariant |transitions| == s && |rewards| == s
      invariant forall i :: 0 <= i < s ==> |transitions[i]| == numActions && |rewards[i]| == numActions
      invariant forall i, a :: 0 <= i < s && 0 <= a < numActions ==>
        transitions[i][a] == EstimatedTransitionRow(data, numStates, numActions, i, a) &&
        rewards[i][a] == EstimatedRewardRow(data, numStates, numActions, i, a)
    {
      var transitionRows, rewardRows := EstimateState(numStates, numActions, data, s);
      transitions, rewards := transitions + [transitionRows], rewards + [rewardRows];
      s := s + 1;
    }
    if AllConserving(data, numStates, numActions) {
      EstimatedTableIsStochastic(data, numStates, numActions, transitions);
    }
  }

  /** Under conservation a table of estimated rows passes the model's validation. */
  lemma EstimatedTableIsStochastic(data: seq<Counts>, numStates: nat, numActions: nat, transitions: Table3)
    requires AllConserving(data, numStates, numActions) && IsTable3(transitions, numStates, numActions)
    requires forall s, a :: 0 <= s < numStates && 0 <= a < numActions ==>
      transitions[s][a] == EstimatedTransitionRow(data, numStates, numActions, s, a)
    ensures Stochastic(transitions, numStates, numActions)
  {
    forall s, a | 0 <= s < numStates && 0 <= a < numActions
      ensures RowStochastic(transitions[s][a])
    {
      EstimatedRowIsDistribution(data, numStates, numActions, s, a);
    }
  }

  /** The loop of estimateModel over the actions of one state. */
  method EstimateState(numStates: nat, numActions: nat, data: seq<Counts>, s: nat)
    returns (transitionRows: seq<seq<real>>, rewardRows: seq<seq<real>>)
    requires AllShaped(data, numStates, numActions) && s < numStates
    ensures |transitionRows| == numActions && |rewardRows| == numActions
    ensures forall a :: 0 <= a < numActions ==>
      transitionRows[a] == EstimatedTransitionRow(data, numStates, numActions, s, a) &&
      rewardRows[a] == EstimatedRewardRow(data, numStates, numActions, s, a)
  {
    transitionRows, rewardRows := [], [];
    var a := 0;
    while a < numActions
      invariant a <= numActions
      invariant |transitionRows| == a && |rewardRows| == a
      invariant forall j :: 0 <= j < a ==>
        transitionRows[j] == EstimatedTransitionRow(data, numStates, numActions, s, j) &&
        rewardRows[j] == EstimatedRewardRow(data, numStates, numActions, s, j)
    {
      var transitionMap, rewardMap := EstimateRow(numStates, numActions, data, s, a);
      transitionRows, rewardRows := transitionRows + [transitionMap], rewardRows + [rewardMap];
      a := a + 1;
    }
  }

  /** The body of estimateModel for one (s, a): the visited case divides the
      pooled counts and the pooled reward by the visit count, the unvisited
      case fills in the uniform row and reward 0.5. */
  method EstimateRow(numStates: nat, numActions: nat, data: seq<Counts>, s: nat, a: nat)
    returns (transitionMap: seq<real>, rewardMap: seq<real>)
    requires AllShaped(data, numStates, numActions) && s < numStates && a < numActions
    ensures transitionMap == EstimatedTransitionRow(data, numStates, numActions, s, a)
    ensures rewardMap == EstimatedRewardRow(data, numStates, numActions, s, a)
  {
    transitionMap, rewardMap := [], [];
    var observedSA := PooledVisits(data, numStates, numActions, s, a);
    if observedSA > 0 {
      var rewardSum := PooledReward(data, numStates, numActions, s, a);
      var next := 0;
      while next < numStates
        invariant next <= numStates
        invariant transitionMap == EstimatedTransitionRow(data, numStates, numActions, s, a)[..next]
        invariant rewardMap == EstimatedRewardRow(data, numStates, numActions, s, a)[..next]
      {
        var observedSASP := PooledTransitions(data, numStates, numActions, s, a, next);
        transitionMap := transitionMap + [observedSASP as real / observedSA as real];
        rewardMap := rewardMap + [rewardSum / observedSA as real];
        next := next + 1;
      }
    } else {
      var next := 0;
      while next < numStates
        invariant next <= numStates
        invariant transitionMap == EstimatedTransitionRow(data, numStates, numActions, s, a)[..next]
        invariant rewardMap == EstimatedRewardRow(data, numStates, numActions, s, a)[..next]
      {
        rewardMap := rewardMap + [UnseenReward];
        transitionMap := transitionMap + [1.0 / numStates as real];
        next := next + 1;
      }
    }
  }

  /** The counter tables of each trajectory, in list order, as the stream sums
      read them. Read from valid trajectories of the estimator's shape, they
      satisfy the conservation invariant the estimate relies on. */
  function Snapshot(data: seq<Trajectory>, numStates: nat, numActions: nat): (counts: seq<Counts>)
    requires forall i :: 0 <= i < |data| ==>
      data[i].Valid() && data[i].numStates == numStates && data[i].numActions == numActions
    reads data
    ensures |counts| == |data| && forall i :: 0 <= i < |data| ==> counts[i] == data[i].Counters()
    ensures AllConserving(counts, numStates, numActions)
  {
    seq(|data|, i requires 0 <= i < |data| && data[i].Valid() reads data => data[i].Stats())
  }

  /** The constructor's work on values: estimate both tables and build the MDP
      from them, which cannot fail because the estimated rows sum to 1. */
  method EstimateMdp(numStates: nat, numActions: nat, data: seq<Counts>)
    returns (transitions: Table3, rewards: Table3, mdp: Mdp)
    requires AllConserving(data, numStates, numActions)
    ensures IsTable3(transitions, numStates, numActions) && IsTable3(rewards, numStates, numActions)
    ensures forall s, a :: 0 <= s < numStates && 0 <= a < numActions ==>
      transitions[s][a] == EstimatedTransitionRow(data, numStates, numActions, s, a) &&
      rewards[s][a] == EstimatedRewardRow(data, numStates, numActions, s, a)
    ensures mdp == Mdp(numStates, numActions, transitions, rewards) && WellFormed(mdp)
  {
    transitions, rewards := EstimateModel(numStates, numActions, data);
    var built := NewMdp(numStates, numActions, transitions, rewards);
    mdp := built.mdp;
  }

  class MdpEstimator {
    const numStates: nat
    const numActions: nat
    /** The counter tables the estimate was taken from. */
    ghost const counts: seq<Counts>
    var transitions: Table3
    var rewards: Table3
    var mdp: Mdp

    /** Estimates the model from the trajectories and builds the MDP from it.
        The construction cannot fail: the estimated rows always sum to 1. */
    constructor (states: nat, actions: nat, data: seq<Trajectory>)
      requires forall i :: 0 <= i < |data| ==>
        data[i].Valid() && data[i].numStates == states && data[i].numActions == actions
      ensures numStates == states && numActions == actions
      ensures counts == Snapshot(data, states, actions) && AllConserving(counts, states, actions)
      ensures IsTable3(transitions, states, actions) && IsTable3(rewards, states, actions)
      ensures forall s, a :: 0 <= s < states && 0 <= a < actions ==>
        transitions[s][a] == EstimatedTransitionRow(counts, states, actions, s, a) &&
        rewards[s][a] == EstimatedRewardRow(counts, states, actions, s, a)
      ensures mdp == Mdp(states, actions, transitions, rewards) && WellFormed(mdp)
    {
      var snapshot := Snapshot(data, states, actions);
      var transitionMap, rewardMap, built := EstimateMdp(states, actions, snapshot);
      numStates, numActions, counts := states, actions, snapshot;
      transitions, rewards, mdp := transitionMap, rewardMap, built;
    }
  }
}
