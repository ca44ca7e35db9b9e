/** The statistics of one episode: the log of visited states, taken actions
    and observed rewards, and three counter tables over (state, action) and
    (state, action, next state) that every step updates together with the log. */
module Trajectories {
  import opened Tables

  /** The three counter tables of a trajectory, as values: the visit count of
      each (s, a), the total reward observed after each (s, a), and the number
      of times each (s, a) led to each next state. */
  datatype Counts = Counts(visits: seq<seq<nat>>, rewardTotals: seq<seq<real>>, transitions: seq<seq<seq<nat>>>)

  predicate Shaped(c: Counts, numStates: nat, numActions: nat) {
    IsTable2(c.visits, numStates, numActions) &&
    IsTable2(c.rewardTotals, numStates, numActions) &&
    IsTable3(c.transitions, numStates, numActions)
  }

  /** The conservation invariant: the transition counts out of (s, a) add up
      to the visit count of (s, a). */
  predicate Conserving(c: Counts, numStates: nat, numActions: nat) {
    Shaped(c, numStates, numActions) &&
    forall s, a :: 0 <= s < numStates && 0 <= a < numActions ==>
      Sum(c.transitions[s][a]) == c.visits[s][a]
  }

  /** The counter tables after one more step from `current` under action a
      with reward r into `next`. */
  function Record(c: Counts, current: nat, a: nat, r: real, next: nat): Counts
    requires current < |c.visits| && a < |c.visits[current]|
    requires current < |c.rewardTotals| && a < |c.rewardTotals[current]|
    requires current < |c.transitions| && a < |c.transitions[current]| && next < |c.transitions[current][a]|
  {
    Counts(
      c.visits[current := c.visits[current][a := c.visits[current][a] + 1]],
      c.rewardTotals[current := c.rewardTotals[current][a := c.rewardTotals[current][a] + r]],
      c.transitions[current := c.transitions[current][a := c.transitions[current][a][next := c.transitions[current][a][next] + 1]]])
  }

  /** A step adds one visit and one transition to (current, a) and r to its
      reward total, and leaves every other entry as it was. */
  lemma RecordTouchesOnlyCurrent(c: Counts, numStates: nat, numActions: nat, current: nat, a: nat, r: real, next: nat)
    requires Shaped(c, numStates, numActions)
    requires current < numStates && a < numActions && next < numStates
    ensures var c' := Record(c, current, a, r, next);
      && Shaped(c', numStates, numActions)
      && c'.visits[current][a] == c.visits[current][a] + 1
      && c'.rewardTotals[current][a] == c.rewardTotals[current][a] + r
      && c'.transitions[current][a][next] == c.transitions[current][a][next] + 1
      && (forall s' :: 0 <= s' < numStates && s' != next ==> c'.transitions[current][a][s'] == c.transitions[current][a][s'])
      && (forall s, b :: 0 <= s < numStates && 0 <= b < numActions && (s != current || b != a) ==>
            c'.visits[s][b] == c.visits[s][b] && c'.rewardTotals[s][b] == c.rewardTotals[s][b] &&
            c'.transitions[s][b] == c.transitions[s][b])
  {
  }

  /** A step keeps the conservation invariant, and raises the visit total by 1
      and the reward total by r. */
  lemma RecordKeepsConservation(c: Counts, numStates: nat, numActions: nat, current: nat, a: nat, r: real, next: nat)
    requires Conserving(c, numStates, numActions)
    requires current < numStates && a < numActions && next < numStates
    ensures var c' := Record(c, current, a, r, next);
      && Conserving(c', numStates, numActions)
      && Sum2(c'.visits) == Sum2(c.visits) + 1
      && Sum2R(c'.rewardTotals) == Sum2R(c.rewardTotals) + r
  {
    RecordConserves(c, numStates, numActions, current, a, r, next);
    RecordTotals(c, numStates, numActions, current, a, r, next);
  }

  lemma RecordConserves(c: Counts, numStates: nat, numActions: nat, current: nat, a: nat, r: real, next: nat)
    requires Conserving(c, numStates, numActions)
    requires current < numStates && a < numActions && next < numStates
    ensures Conserving(Record(c, current, a, r, next), numStates, numActions)
  {
    var c' := Record(c, current, a, r, next);
    RecordTouchesOnlyCurrent(c, numStates, numActions, current, a, r, next);
    var row := c.transitions[current][a];
    SumUpdate(row, next, row[next] + 1);
    forall s, b | 0 <= s < numStates && 0 <= b < numActions
      ensures Sum(c'.transitions[s][b]) == c'.visits[s][b]
    {
      if s == current && b == a {
        assert c'.transitions[s][b] == row[next := row[next] + 1];
      }
    }
  }

  lemma RecordTotals(c: Counts, numStates: nat, numActions: nat, current: nat, a: nat, r: real, next: nat)
    requires Shaped(c, numStates, numActions)
    requires current < numStates && a < numActions && next < numStates
    ensures Sum2(Record(c, current, a, r, next).visits) == Sum2(c.visits) + 1
    ensures Sum2R(Record(c, current, a, r, next).rewardTotals) == Sum2R(c.rewardTotals) + r
  {
    var visitRow := c.visits[current];
    SumUpdate(visitRow, a, visitRow[a] + 1);
    Sum2Update(c.visits, current, visitRow[a := visitRow[a] + 1]);
    var rewardRow := c.rewardTotals[current];
    SumRUpdate(rewardRow, a, rewardRow[a] + r);
    Sum2RUpdate(c.rewardTotals, current, rewardRow[a := rewardRow[a] + r]);
  }

  /** The invariant of a trajectory, on values: the counters conserve, the
      log has one action and one reward per step and one state per step plus
      one per start, the visits add up to the length and the reward totals to
      the logged rewards. */
  ghost predicate Consistent(c: Counts, numStates: nat, numActions: nat, states: seq<nat>, actions: seq<nat>,
                             rewards: seq<real>, length: nat, starts: nat)
  {
    Conserving(c, numStates, numActions) &&
    |actions| == length && |rewards| == length && |states| == starts + length &&
    Sum2(c.visits) == length &&
    Sum2R(c.rewardTotals) == SumR(rewards)
  }

  /** One recorded step, logged at the same time, keeps the invariant. */
  lemma StepKeepsConsistent(c: Counts, numStates: nat, numActions: nat, states: seq<nat>, actions: seq<nat>,
                            rewards: seq<real>, length: nat, starts: nat, current: nat, a: nat, r: real, next: nat)
    requires Consistent(c, numStates, numActions, states, actions, rewards, length, starts)
    requires current < numStates && a < numActions && next < numStates
    ensures Consistent(Record(c, current, a, r, next), numStates, numActions,
                       states + [next], actions + [a], rewards + [r], length + 1, starts)
  {
    RecordKeepsConservation(c, numStates, numActions, current, a, r, next);
    SumRAppend(rewards, r);
  }

  /** All three counter tables filled with zeros. */
  function ZeroCounters(numStates: nat, numActions: nat): Counts {
    Counts(seq(numStates, _ => seq(numActions, _ => 0)),
           seq(numStates, _ => seq(numActions, _ => 0.0)),
           seq(numStates, _ => seq(numActions, _ => ZeroCounts(numStates))))
  }

  /** The zero tables of a fresh trajectory satisfy the invariant with an empty log. */
  lemma ZeroCountersConsistent(numStates: nat, numActions: nat)
    ensures Consistent(ZeroCounters(numStates, numActions), numStates, numActions, [], [], [], 0, 0)
  {
    var c := ZeroCounters(numStates, numActions);
    forall s, a | 0 <= s < numStates && 0 <= a < numActions
      ensures Sum(c.transitions[s][a]) == c.visits[s][a]
    {
      SumOfZeros(c.transitions[s][a]);
    }
    Sum2OfZeros(c.visits);
    Sum2ROfZeros(c.rewardTotals);
  }

  /** The constructor's loops: one zero row per action for every state. */
  method NewCounters(numStates: nat, numActions: nat) returns (c: Counts)
    ensures c == ZeroCounters(numStates, numActions)
    ensures Consistent(c, numStates, numActions, [], [], [], 0, 0)
  {
    var counter: seq<seq<nat>> := [];
    var reward: seq<seq<real>> := [];
    var transition: seq<seq<seq<nat>>> := [];
    var s := 0;
    while s < numStates
      invariant s <= numStates
      invariant |counter| == s && |reward| == s && |transition| == s
      invariant forall i :: 0 <= i < s ==>
        counter[i] == seq(numActions, _ => 0) && reward[i] == seq(numActions, _ => 0.0) &&
        transition[i] == seq(numActions, _ => ZeroCounts(numStates))
    {
      var counterRow: seq<nat> := [];
      var rewardRow: seq<real> := [];
      var transitionRow: seq<seq<nat>> := [];
      var a := 0;
      while a < numActions
        invariant a <= numActions
        invariant |counterRow| == a && |rewardRow| == a && |transitionRow| == a
        invariant forall j :: 0 <= j < a ==>
          counterRow[j] == 0 && rewardRow[j] == 0.0 && transitionRow[j] == ZeroCounts(numStates)
      {
        var next: seq<nat> := [];
        var s' := 0;
        while s' < numStates
          invariant s' <= numStates
          invariant next == ZeroCounts(s')
        {
          next := next + [0];
          s' := s' + 1;
        }
        counterRow, rewardRow, transitionRow := counterRow + [0], rewardRow + [0.0], transitionRow + [next];
        a := a + 1;
      }
      counter, reward, transition := counter + [counterRow], reward + [rewardRow], transition + [transitionRow];
      s := s + 1;
    }
    c := Counts(counter, reward, transition);
    ZeroCountersConsistent(numStates, numActions);
  }

  class Trajectory {
    const numStates: nat
    const numActions: nat

    /** The visited states; the last one is the current state. */
    var states: seq<nat>
    var actions: seq<nat>
    var rewards: seq<real>
    var stateActionCounter: seq<seq<nat>>
    var stateActionReward: seq<seq<real>>
    var stateActionTransition: seq<seq<seq<nat>>>
    var length: nat

    /** How many times Initialize has been called. */
    ghost var starts: nat

    ghost predicate Valid()
      reads this
    {
      Consistent(Counters(), numStates, numActions, states, actions, rewards, length, starts)
    }

    /** The three counter tables as one value. */
    function Counters(): Counts
      reads this
    {
      Counts(stateActionCounter, stateActionReward, stateActionTransition)
    }

    /** An empty episode over the given numbers of states and actions: every
        counter is zero and the log is empty. */
    constructor (mdpStates: nat, mdpActions: nat)
      ensures Valid()
      ensures numStates == mdpStates && numActions == mdpActions
      ensures states == [] && actions == [] && rewards == [] && length == 0 && starts == 0
      ensures Counters() == ZeroCounters(mdpStates, mdpActions)
    {
      var counters := NewCounters(mdpStates, mdpActions);
      numStates, numActions := mdpStates, mdpActions;
      states, actions, rewards := [], [], [];
      stateActionCounter, stateActionReward, stateActionTransition := counters.visits, counters.rewardTotals, counters.transitions;
      length := 0;
      starts := 0;
    }

    /** Starts the episode (again) in state s. */
    method Initialize(s: nat)
      requires Valid()
      modifies this
      ensures Valid()
      ensures states == old(states) + [s] && starts == old(starts) + 1
      ensures actions == old(actions) && rewards == old(rewards) && length == old(length)
      ensures stateActionCounter == old(stateActionCounter)
      ensures stateActionReward == old(stateActionReward)
      ensures stateActionTransition == old(stateActionTransition)
    {
      states := states + [s];
      starts := starts + 1;
    }

    /** Records taking action a in the current state, observing reward r and
        landing in next: the three counters of (current, a) move together and
        the log grows by one step. */
    method Step(a: nat, r: real, next: nat)
      requires Valid()
      requires |states| > 0 && states[|states| - 1] < numStates
      requires a < numActions && next < numStates
      modifies this
      ensures Valid()
      ensures states == old(states) + [next]
      ensures actions == old(actions) + [a]
      ensures rewards == old(rewards) + [r]
      ensures length == old(length) + 1 && starts == old(starts)
      ensures Counters() == Record(old(Counters()), old(states[|states| - 1]), a, r, next)
    {
      var current := states[|states| - 1];
      StepKeepsConsistent(Counters(), numStates, numActions, states, actions, rewards, length, starts, current, a, r, next);

      var currentCount := stateActionCounter[current][a];
      var currentReward := stateActionReward[current][a];
      var currentTransCount := stateActionTransition[current][a];
      currentTransCount := currentTransCount[next := currentTransCount[next] + 1];
      stateActionCounter := stateActionCounter[current := stateActionCounter[current][a := currentCount + 1]];
      stateActionReward := stateActionReward[current := stateActionReward[current][a := currentReward + r]];
      stateActionTransition := stateActionTransition[current := stateActionTransition[current][a := currentTransCount]];

      states := states + [next];
      actions := actions + [a];
      rewards := rewards + [r];
      length := length + 1;
    }

    /** The three counter tables, as the estimator reads them. They satisfy the
        conservation invariant, the visit counts add up to the length, and the
        reward totals add up to the sum of the logged rewards. */
    function Stats(): (c: Counts)
      reads this
      requires Valid()
      ensures Conserving(c, numStates, numActions)
      ensures Sum2(c.visits) == length && Sum2R(c.rewardTotals) == SumR(rewards)
    {
      Counters()
    }
  }
}
