/** The finite MDP: states and actions are the ids 0 .. n-1, the transition
    and reward tables are indexed [from][action][to]. Construction checks the
    probability-simplex invariant row by row and fails on the first bad row;
    afterwards the model is a read-only lookup table. */
module MdpModel {
  import opened Tables

  /** Row sums must be within this distance of 1. */
  const Tolerance: real := 0.0001

  /** The standard deviation of the Gaussian noise added to rewards; the
      constructor always sets it to zero. */
  const RewardNoise: real := 0.0

  datatype Mdp = Mdp(numStates: nat, numActions: nat, transition: Table3, reward: Table3)

  /** Why construction failed, naming the state whose row is at fault. */
  datatype MdpError =
    | NegativeTransition(state: nat)
    | BadRowSum(state: nat, sum: real)

  datatype Construction = Built(mdp: Mdp) | Failed(error: MdpError)

  /** A single (from, action) row is a probability distribution up to the tolerance. */
  predicate RowStochastic(row: seq<real>) {
    NonNegative(row) && Abs(SumR(row) - 1.0) <= Tolerance
  }

  predicate Stochastic(t: Table3, numStates: nat, numActions: nat)
    requires IsTable3(t, numStates, numActions)
  {
    forall s, a :: 0 <= s < numStates && 0 <= a < numActions ==> RowStochastic(t[s][a])
  }

  /** The error the constructor raises for this row of state s, if any: a
      negative entry is reported before the row sum is looked at. */
  function RowError(row: seq<real>, s: nat): Option<MdpError> {
    if exists i :: 0 <= i < |row| && row[i] < 0.0 then Some(NegativeTransition(s))
    else if Abs(SumR(row) - 1.0) > Tolerance then Some(BadRowSum(s, SumR(row)))
    else None
  }

  datatype Option<T> = None | Some(value: T)

  /** Every row before (s, a), in state-major then action order, passes. */
  predicate RowsPassBefore(t: Table3, numStates: nat, numActions: nat, s: nat, a: nat)
    requires IsTable3(t, numStates, numActions) && s <= numStates && a <= numActions
    requires s == numStates ==> a == 0
  {
    (forall s', a' :: 0 <= s' < s && 0 <= a' < numActions ==> RowError(t[s'][a'], s') == None) &&
    (forall a' :: 0 <= a' < a ==> RowError(t[s][a'], s) == None)
  }

  /** Both tables are indexed [from][action][to] over the model's states and actions. */
  predicate HasTables(m: Mdp) {
    IsTable3(m.transition, m.numStates, m.numActions) &&
    IsTable3(m.reward, m.numStates, m.numActions)
  }

  /** The model the rest of the system may look things up in: both tables have
      the right shape and every transition row is a distribution. */
  predicate WellFormed(m: Mdp) {
    HasTables(m) && Stochastic(m.transition, m.numStates, m.numActions)
  }

  lemma RowErrorIsRowStochastic(row: seq<real>, s: nat)
    ensures RowError(row, s) == None <==> RowStochastic(row)
  {
  }

  /** The constructor: scan every (state, action) row in order, summing the
      entries and failing on the first negative entry; then fail if the sum is
      off by more than the tolerance. Rewards are stored unchecked. */
  method NewMdp(numStates: nat, numActions: nat, transition: Table3, reward: Table3)
    returns (r: Construction)
    requires IsTable3(transition, numStates, numActions)
    ensures r.Built? <==> Stochastic(transition, numStates, numActions)
    ensures r.Built? ==> r.mdp == Mdp(numStates, numActions, transition, reward)
    ensures r.Failed? ==>
      exists s, a :: 0 <= s < numStates && 0 <= a < numActions &&
        RowError(transition[s][a], s) == Some(r.error) &&
        RowsPassBefore(transition, numStates, numActions, s, a)
  {
    var s := 0;
    while s < numStates
      invariant s <= numStates
      invariant RowsPassBefore(transition, numStates, numActions, s, 0)
    {
      var a := 0;
      while a < numActions
        invariant a <= numActions
        invariant RowsPassBefore(transition, numStates, numActions, s, a)
      {
        var row := transition[s][a];
        var p := 0.0;
        var j := 0;
        while j < |row|
          invariant j <= |row|
          invariant p == SumR(row[..j])
          invariant NonNegative(row[..j])
        {
          assert row[..j + 1] == row[..j] + [row[j]];
          SumRAppend(row[..j], row[j]);
          p := p + row[j];
          if row[j] < 0.0 {
            return Failed(NegativeTransition(s));
          }
          j := j + 1;
        }
        assert row[..j] == row;
        if Abs(p - 1.0) > Tolerance {
          return Failed(BadRowSum(s, p));
        }
        a := a + 1;
      }
      s := s + 1;
    }
    forall s', a' | 0 <= s' < numStates && 0 <= a' < numActions
      ensures RowStochastic(transition[s'][a'])
    {
      RowErrorIsRowStochastic(transition[s'][a'], s');
    }
    r := Built(Mdp(numStates, numActions, transition, reward));
  }

  /** The probability of landing in `to` from `from` under action a. For a
      validated model it lies between 0 and 1 plus the tolerance. */
  function GetTransition(m: Mdp, from: nat, to: nat, a: nat): (p: real)
    requires WellFormed(m) && from < m.numStates && to < m.numStates && a < m.numActions
    ensures p == m.transition[from][a][to]
    ensures 0.0 <= p <= 1.0 + Tolerance
  {
    EntryAtMostSum(m.transition[from][a], to);
    m.transition[from][a][to]
  }

  /** The reward for the transition, plus `gaussian` (a standard normal draw
      supplied by the caller) times the reward noise; the noise is zero, so
      this is the stored reward whatever the draw. */
  function GetReward(m: Mdp, from: nat, to: nat, a: nat, gaussian: real): (r: real)
    requires IsTable3(m.reward, m.numStates, m.numActions)
    requires from < m.numStates && to < m.numStates && a < m.numActions
    ensures r == m.reward[from][a][to]
  {
    m.reward[from][a][to] + gaussian * RewardNoise
  }

  // ---------------------------------------------------------------------------
  // The proposal distribution of sampleRandomTransition: uniform over the
  // next states that have positive probability.

  /** The next states with positive probability in `row`, in increasing order. */
  function Support(row: seq<real>): (r: seq<nat>)
    ensures forall i :: 0 <= i < |r| ==> r[i] < |row| && row[r[i]] > 0.0
    ensures forall i, j :: 0 <= i < j < |r| ==> r[i] < r[j]
    ensures forall to :: 0 <= to < |row| && row[to] > 0.0 ==> to in r
  {
    if |row| == 0 then []
    else
      var head := Support(row[..|row| - 1]);
      assert forall i :: 0 <= i < |head| ==> row[..|row| - 1][head[i]] == row[head[i]];
      if row[|row| - 1] > 0.0 then head + [|row| - 1] else head
  }

  /** The pmf handed to the sampler: each supported next state with weight
      1 / (number of supported next states). */
  function UniformSupportPmf(row: seq<real>): (pmf: seq<(nat, real)>)
  {
    var sup := Support(row);
    seq(|sup|, i requires 0 <= i < |sup| => (sup[i], 1.0 / |sup| as real))
  }

  function Weights(pmf: seq<(nat, real)>): (w: seq<real>)
    ensures |w| == |pmf| && forall i :: 0 <= i < |pmf| ==> w[i] == pmf[i].1
  {
    seq(|pmf|, i requires 0 <= i < |pmf| => pmf[i].1)
  }

  /** The pmf names exactly the next states with positive probability, each
      once and in increasing order, gives each the same weight 1 / |pmf|, and,
      when the row has a positive sum, is non-empty with weights summing to 1. */
  lemma UniformSupportIsDistribution(row: seq<real>)
    requires SumR(row) > 0.0
    ensures var pmf := UniformSupportPmf(row);
      && |pmf| > 0
      && (forall to :: 0 <= to < |row| ==> (row[to] > 0.0 <==> exists i :: 0 <= i < |pmf| && pmf[i].0 == to))
      && (forall i, j :: 0 <= i < j < |pmf| ==> pmf[i].0 < pmf[j].0)
      && (forall i :: 0 <= i < |pmf| ==> pmf[i].1 == 1.0 / |pmf| as real)
      && SumR(Weights(pmf)) == 1.0
  {
    var i := PositiveSumHasPositiveEntry(row);
    assert i in Support(row);
    SupportMembership(row);
    UniformWeights(row);
  }

  lemma SupportMembership(row: seq<real>)
    ensures var pmf := UniformSupportPmf(row);
      forall to :: 0 <= to < |row| ==> (row[to] > 0.0 <==> exists i :: 0 <= i < |pmf| && pmf[i].0 == to)
  {
    var pmf := UniformSupportPmf(row);
    var sup := Support(row);
    forall to | 0 <= to < |row| && row[to] > 0.0
      ensures exists k :: 0 <= k < |pmf| && pmf[k].0 == to
    {
      var k :| 0 <= k < |sup| && sup[k] == to;
      assert pmf[k].0 == to;
    }
  }

  lemma UniformWeights(row: seq<real>)
    requires |Support(row)| > 0
    ensures var pmf := UniformSupportPmf(row);
      (forall i :: 0 <= i < |pmf| ==> pmf[i].1 == 1.0 / |pmf| as real) && SumR(Weights(pmf)) == 1.0
  {
    var pmf := UniformSupportPmf(row);
    var n := |pmf|;
    var w := Weights(pmf);
    assert forall i :: 0 <= i < n ==> w[i] == 1.0 / n as real;
    assert w == Constant(n, 1.0 / n as real);
    UniformConstantSum(n);
  }

  lemma UniformConstantSum(n: nat)
    requires n > 0
    ensures SumR(Constant(n, 1.0 / n as real)) == 1.0
  {
    SumConstant(n, 1.0 / n as real);
    var x := n as real;
    assert x * (1.0 / x) == 1.0;
  }

  /** Every row of a validated model has a positive sum. */
  lemma ValidRowHasPositiveSum(m: Mdp, s: nat, a: nat)
    requires WellFormed(m) && s < m.numStates && a < m.numActions
    ensures SumR(m.transition[s][a]) > 0.0
  {
  }

  /** The proposal pmf of every (s, a) of a validated model is a distribution
      over the next states of positive probability, each listed once. */
  lemma ModelPmfIsDistribution(m: Mdp, s: nat, a: nat)
    requires WellFormed(m) && s < m.numStates && a < m.numActions
    ensures var pmf := UniformSupportPmf(m.transition[s][a]);
      && |pmf| > 0
      && (forall i :: 0 <= i < |pmf| ==> pmf[i].0 < m.numStates && m.transition[s][a][pmf[i].0] > 0.0)
      && (forall i, j :: 0 <= i < j < |pmf| ==> pmf[i].0 < pmf[j].0)
      && SumR(Weights(pmf)) == 1.0
  {
    ValidRowHasPositiveSum(m, s, a);
    UniformSupportIsDistribution(m.transition[s][a]);
  }

  /** sampleRandomTransition with the sampler's draw supplied as an index into
      the pmf: the next state always has positive probability. */
  function SampleRandomTransition(m: Mdp, s: nat, a: nat, draw: nat): (next: nat)
    requires WellFormed(m) && s < m.numStates && a < m.numActions
    requires draw < |UniformSupportPmf(m.transition[s][a])|
    ensures next < m.numStates && m.transition[s][a][next] > 0.0
  {
    UniformSupportPmf(m.transition[s][a])[draw].0
  }
}
