/** Action-marginal regularisation of a transition table: every row of raw
    draws is divided by its own sum, the rows of each state are summed over
    actions into a mean row shared by every action of that state, the mean
    rows are normalised the same way, and each row is blended with its
    state's mean as (1 − ε) · T + ε · mean. */
module Regularization {
  import opened Tables
  import opened MdpModel

  /** A row whose entries are non-negative and add up to exactly 1. */
  predicate Distribution(row: seq<real>) {
    NonNegative(row) && SumR(row) == 1.0
  }

  /** Every (state, action) row of t has a non-zero sum, so it can be divided by it. */
  predicate NonZeroRows(t: Table3, numStates: nat, numActions: nat)
    requires IsTable3(t, numStates, numActions)
  {
    forall s, a :: 0 <= s < numStates && 0 <= a < numActions ==> SumR(t[s][a]) != 0.0
  }

  // ---------------------------------------------------------------------------
  // Dividing a row by its own sum.

  /** The row divided by its sum; an empty row has nothing to divide. */
  function Normalized(row: seq<real>): (r: seq<real>)
    requires |row| == 0 || SumR(row) != 0.0
    ensures |r| == |row|
  {
    if |row| == 0 then [] else DivideBy(row, SumR(row))
  }

  /** A non-empty row with a non-zero sum sums to 1 once normalised. */
  lemma NormalizedSumsToOne(row: seq<real>)
    requires |row| > 0 && SumR(row) != 0.0
    ensures SumR(Normalized(row)) == 1.0
  {
    var c := SumR(row);
    SumDivideBy(row, c);
    SelfQuotient(c);
  }

  lemma SelfQuotient(c: real)
    requires c != 0.0
    ensures c / c == 1.0
  {
  }

  /** A non-negative row with a positive sum becomes a distribution once normalised. */
  lemma NormalizedIsDistribution(row: seq<real>)
    requires |row| > 0 && NonNegative(row) && SumR(row) > 0.0
    ensures Distribution(Normalized(row))
  {
    NormalizedSumsToOne(row);
    var c := SumR(row);
    forall i | 0 <= i < |row|
      ensures Normalized(row)[i] >= 0.0
    {
      QuotientNonNegative(row[i], c);
    }
  }

  lemma QuotientNonNegative(x: real, c: real)
    requires x >= 0.0 && c > 0.0
    ensures x / c >= 0.0
  {
  }

  /** The sum of a row, accumulated entry by entry. */
  method RowSum(row: seq<real>) returns (sum: real)
    ensures sum == SumR(row)
  {
    sum := 0.0;
    var j := 0;
    while j < |row|
      invariant j <= |row| && sum == SumR(row[..j])
    {
      assert row[..j + 1] == row[..j] + [row[j]];
      SumRAppend(row[..j], row[j]);
      sum := sum + row[j];
      j := j + 1;
    }
    assert row[..j] == row;
  }

  /** Takes the norm of the row first, then divides each entry by it in place. */
  method NormalizeRow(row: seq<real>) returns (r: seq<real>)
    requires |row| == 0 || SumR(row) != 0.0
    ensures r == Normalized(row)
  {
    var norm := RowSum(row);
    r := row;
    var j := 0;
    while j < |r|
      invariant j <= |r| == |row|
      invariant forall k :: 0 <= k < j ==> r[k] == row[k] / norm
      invariant forall k :: j <= k < |r| ==> r[k] == row[k]
    {
      r := r[j := r[j] / norm];
      j := j + 1;
    }
    if |row| > 0 {
      assert r == DivideBy(row, norm);
    }
  }

  /** Normalises every (state, action) row of the table in place. Used both
      for the rows of raw draws and for the mean rows. */
  method NormalizeTable(t: Table3, numStates: nat, numActions: nat) returns (r: Table3)
    requires IsTable3(t, numStates, numActions) && NonZeroRows(t, numStates, numActions)
    ensures IsTable3(r, numStates, numActions)
    ensures forall s, a :: 0 <= s < numStates && 0 <= a < numActions ==> r[s][a] == Normalized(t[s][a])
  {
    r := t;
    var s := 0;
    while s < numStates
      invariant s <= numStates && IsTable3(r, numStates, numActions)
      invariant forall s', a :: 0 <= s' < s && 0 <= a < numActions ==> r[s'][a] == Normalized(t[s'][a])
      invariant forall s' :: s <= s' < numStates ==> r[s'] == t[s']
    {
      var rows := r[s];
      var a := 0;
      while a < numActions
        invariant a <= numActions && |rows| == numActions
        invariant forall b :: 0 <= b < numActions ==> |rows[b]| == numStates
        invariant forall b :: 0 <= b < a ==> rows[b] == Normalized(t[s][b])
        invariant forall b :: a <= b < numActions ==> rows[b] == t[s][b]
      {
        var normalized := NormalizeRow(rows[a]);
        rows := rows[a := normalized];
        a := a + 1;
      }
      r := r[s := rows];
      s := s + 1;
    }
  }

  // ---------------------------------------------------------------------------
  // The mean over actions.

  /** Σ_{a' < k} t[s][a'][to]. */
  function ColumnSum(t: Table3, numStates: nat, numActions: nat, s: nat, to: nat, k: nat): real
    requires IsTable3(t, numStates, numActions) && s < numStates && to < numStates && k <= numActions
  {
    if k == 0 then 0.0 else ColumnSum(t, numStates, numActions, s, to, k - 1) + t[s][k - 1][to]
  }

  /** The column sums over the first k actions of state s. */
  function PartialMean(t: Table3, numStates: nat, numActions: nat, s: nat, k: nat): (row: seq<real>)
    requires IsTable3(t, numStates, numActions) && s < numStates && k <= numActions
    ensures |row| == numStates
    ensures forall to :: 0 <= to < numStates ==> row[to] == ColumnSum(t, numStates, numActions, s, to, k)
  {
    seq(numStates, to requires 0 <= to < numStates => ColumnSum(t, numStates, numActions, s, to, k))
  }

  /** The mean row of state s before normalisation: Σ_{a'} t[s][a'][to] for
      every next state. It does not depend on the action. */
  function MeanRow(t: Table3, numStates: nat, numActions: nat, s: nat): (row: seq<real>)
    requires IsTable3(t, numStates, numActions) && s < numStates
  {
    PartialMean(t, numStates, numActions, s, numActions)
  }

  /** When every row of state s sums to 1, the column sums over the first k
      actions add up to k. */
  lemma {:induction false} PartialMeanSum(t: Table3, numStates: nat, numActions: nat, s: nat, k: nat)
    requires IsTable3(t, numStates, numActions) && s < numStates && k <= numActions
    requires forall a :: 0 <= a < numActions ==> SumR(t[s][a]) == 1.0
    ensures SumR(PartialMean(t, numStates, numActions, s, k)) == k as real
  {
    if k == 0 {
      SumROfZeros(PartialMean(t, numStates, numActions, s, 0));
    } else {
      var before := PartialMean(t, numStates, numActions, s, k - 1);
      PartialMeanSum(t, numStates, numActions, s, k - 1);
      assert PartialMean(t, numStates, numActions, s, k) == AddR(before, t[s][k - 1]);
      SumAddR(before, t[s][k - 1]);
    }
  }

  lemma {:induction false} ColumnSumNonNegative(t: Table3, numStates: nat, numActions: nat, s: nat, to: nat, k: nat)
    requires IsTable3(t, numStates, numActions) && s < numStates && to < numStates && k <= numActions
    requires forall a :: 0 <= a < numActions ==> NonNegative(t[s][a])
    ensures ColumnSum(t, numStates, numActions, s, to, k) >= 0.0
  {
    if k > 0 {
      ColumnSumNonNegative(t, numStates, numActions, s, to, k - 1);
      assert t[s][k - 1][to] >= 0.0;
    }
  }

  /** Over rows that each sum to 1, the mean row sums to the number of actions. */
  lemma MeanRowSum(t: Table3, numStates: nat, numActions: nat, s: nat)
    requires IsTable3(t, numStates, numActions) && s < numStates
    requires forall a :: 0 <= a < numActions ==> SumR(t[s][a]) == 1.0
    ensures SumR(MeanRow(t, numStates, numActions, s)) == numActions as real
  {
    PartialMeanSum(t, numStates, numActions, s, numActions);
  }

  /** The mean row of state s after normalisation. */
  function NormalizedMean(t: Table3, numStates: nat, numActions: nat, s: nat): (row: seq<real>)
    requires IsTable3(t, numStates, numActions) && s < numStates && numActions > 0
    requires forall a :: 0 <= a < numActions ==> SumR(t[s][a]) == 1.0
    ensures |row| == numStates
  {
    MeanRowSum(t, numStates, numActions, s);
    Normalized(MeanRow(t, numStates, numActions, s))
  }

  /** Over rows that each sum to 1, normalising the mean row divides every
      column sum by the number of actions, so the result is the average over
      actions; it sums to 1, and is a distribution when the rows are. */
  lemma NormalizedMeanIsAverage(t: Table3, numStates: nat, numActions: nat, s: nat)
    requires IsTable3(t, numStates, numActions) && s < numStates && numActions > 0
    requires forall a :: 0 <= a < numActions ==> SumR(t[s][a]) == 1.0
    ensures forall to :: 0 <= to < numStates ==>
      NormalizedMean(t, numStates, numActions, s)[to] ==
        ColumnSum(t, numStates, numActions, s, to, numActions) / numActions as real
    ensures SumR(NormalizedMean(t, numStates, numActions, s)) == 1.0
    ensures (forall a :: 0 <= a < numActions ==> NonNegative(t[s][a])) ==>
      Distribution(NormalizedMean(t, numStates, numActions, s))
  {
    var mean := MeanRow(t, numStates, numActions, s);
    MeanRowSum(t, numStates, numActions, s);
    NormalizedSumsToOne(mean);
    if forall a :: 0 <= a < numActions ==> NonNegative(t[s][a]) {
      forall to | 0 <= to < numStates
        ensures mean[to] >= 0.0
      {
        ColumnSumNonNegative(t, numStates, numActions, s, to, numActions);
      }
      NormalizedIsDistribution(mean);
    }
  }

  /** The four nested loops of the mean: for each (s, a) and next state, the
      sum over every action a' of t[s][a'][next]. Every action of a state
      gets the same row. */
  method ActionSums(t: Table3, numStates: nat, numActions: nat) returns (mean: Table3)
    requires IsTable3(t, numStates, numActions)
    ensures IsTable3(mean, numStates, numActions)
    ensures forall s, a :: 0 <= s < numStates && 0 <= a < numActions ==>
      mean[s][a] == MeanRow(t, numStates, numActions, s)
  {
    mean := [];
    var s := 0;
    while s < numStates
      invariant s <= numStates && |mean| == s
      invariant forall s' :: 0 <= s' < s ==> |mean[s']| == numActions
      invariant forall s', a :: 0 <= s' < s && 0 <= a < numActions ==>
        mean[s'][a] == MeanRow(t, numStates, numActions, s')
    {
      var rows: seq<seq<real>> := [];
      var a := 0;
      while a < numActions
        invariant a <= numActions && |rows| == a
        invariant forall b :: 0 <= b < a ==> rows[b] == MeanRow(t, numStates, numActions, s)
      {
        var row := ColumnSums(t, numStates, numActions, s);
        rows := rows + [row];
        a := a + 1;
      }
      mean := mean + [rows];
      s := s + 1;
    }
  }

  /** The two innermost loops of the mean for one (s, a): one column sum per
      next state. */
  method ColumnSums(t: Table3, numStates: nat, numActions: nat, s: nat) returns (row: seq<real>)
    requires IsTable3(t, numStates, numActions) && s < numStates
    ensures row == MeanRow(t, numStates, numActions, s)
  {
    row := [];
    var next := 0;
    while next < numStates
      invariant next <= numStates && |row| == next
      invariant forall to :: 0 <= to < next ==> row[to] == ColumnSum(t, numStates, numActions, s, to, numActions)
    {
      var mean := 0.0;
      var b := 0;
      while b < numActions
        invariant b <= numActions && mean == ColumnSum(t, numStates, numActions, s, next, b)
      {
        mean := mean + t[s][b][next];
        b := b + 1;
      }
      row := row + [mean];
      next := next + 1;
    }
  }

  // ---------------------------------------------------------------------------
  // The blend.

  /** ε = 0 keeps the row and ε = 1 replaces it with the mean. */
  lemma BlendEndpoints(row: seq<real>, mean: seq<real>)
    requires |row| == |mean|
    ensures Mix(row, mean, 0.0) == row
    ensures Mix(row, mean, 1.0) == mean
  {
    assert forall i :: 0 <= i < |row| ==> Mix(row, mean, 0.0)[i] == row[i];
    assert forall i :: 0 <= i < |row| ==> Mix(row, mean, 1.0)[i] == mean[i];
  }

  /** A blend with ε in [0, 1] of two distributions is a distribution. */
  lemma BlendIsDistribution(row: seq<real>, mean: seq<real>, epsilon: real)
    requires |row| == |mean| && 0.0 <= epsilon <= 1.0
    requires Distribution(row) && Distribution(mean)
    ensures Distribution(Mix(row, mean, epsilon))
  {
    SumMix(row, mean, epsilon);
    forall i | 0 <= i < |row|
      ensures Mix(row, mean, epsilon)[i] >= 0.0
    {
      BlendedEntryNonNegative(row[i], mean[i], epsilon);
    }
  }

  lemma BlendedEntryNonNegative(x: real, y: real, epsilon: real)
    requires x >= 0.0 && y >= 0.0 && 0.0 <= epsilon <= 1.0
    ensures (1.0 - epsilon) * x + epsilon * y >= 0.0
  {
    assert (1.0 - epsilon) * x >= 0.0;
    assert epsilon * y >= 0.0;
  }

  /** Each regularised entry is (1 − ε) · t[s][a][next] + ε · mean[s][a][next]. */
  method Blend(t: Table3, mean: Table3, numStates: nat, numActions: nat, epsilon: real) returns (reg: Table3)
    requires IsTable3(t, numStates, numActions) && IsTable3(mean, numStates, numActions)
    ensures IsTable3(reg, numStates, numActions)
    ensures forall s, a :: 0 <= s < numStates && 0 <= a < numActions ==>
      reg[s][a] == Mix(t[s][a], mean[s][a], epsilon)
  {
    reg := [];
    var s := 0;
    while s < numStates
      invariant s <= numStates && |reg| == s
      invariant forall s' :: 0 <= s' < s ==> |reg[s']| == numActions
      invariant forall s', a :: 0 <= s' < s && 0 <= a < numActions ==> reg[s'][a] == Mix(t[s'][a], mean[s'][a], epsilon)
    {
      var rows: seq<seq<real>> := [];
      var a := 0;
      while a < numActions
        invariant a <= numActions && |rows| == a
        invariant forall b :: 0 <= b < a ==> rows[b] == Mix(t[s][b], mean[s][b], epsilon)
      {
        var row: seq<real> := [];
        var next := 0;
        while next < numStates
          invariant next <= numStates && |row| == next
          invariant forall k :: 0 <= k < next ==> row[k] == (1.0 - epsilon) * t[s][a][k] + epsilon * mean[s][a][k]
        {
          row := row + [(1.0 - epsilon) * t[s][a][next] + epsilon * mean[s][a][next]];
          next := next + 1;
        }
        rows := rows + [row];
        a := a + 1;
      }
      reg := reg + [rows];
      s := s + 1;
    }
  }

  // ---------------------------------------------------------------------------
  // The whole transform.

  /** The regularised row of (s, a) for the normalised table t. */
  function RegularizedRow(t: Table3, numStates: nat, numActions: nat, epsilon: real, s: nat, a: nat): (row: seq<real>)
    requires IsTable3(t, numStates, numActions) && s < numStates && a < numActions
    requires forall b :: 0 <= b < numActions ==> SumR(t[s][b]) == 1.0
  {
    Mix(t[s][a], NormalizedMean(t, numStates, numActions, s), epsilon)
  }

  /** With ε = 0 the regularised row is the normalised row itself; with ε = 1
      it is the normalised mean, the same row for every action of the state. */
  lemma RegularizedEndpoints(t: Table3, numStates: nat, numActions: nat, s: nat, a: nat, b: nat)
    requires IsTable3(t, numStates, numActions) && s < numStates && a < numActions && b < numActions
    requires forall c :: 0 <= c < numActions ==> SumR(t[s][c]) == 1.0
    ensures RegularizedRow(t, numStates, numActions, 0.0, s, a) == t[s][a]
    ensures RegularizedRow(t, numStates, numActions, 1.0, s, a) == NormalizedMean(t, numStates, numActions, s)
    ensures RegularizedRow(t, numStates, numActions, 1.0, s, a) == RegularizedRow(t, numStates, numActions, 1.0, s, b)
  {
    BlendEndpoints(t[s][a], NormalizedMean(t, numStates, numActions, s));
    BlendEndpoints(t[s][b], NormalizedMean(t, numStates, numActions, s));
  }

  /** For ε in [0, 1], when every row of state s is a distribution, so is
      every regularised row; no renormalisation after the blend is needed. */
  lemma RegularizedIsDistribution(t: Table3, numStates: nat, numActions: nat, epsilon: real, s: nat, a: nat)
    requires IsTable3(t, numStates, numActions) && s < numStates && a < numActions
    requires forall b :: 0 <= b < numActions ==> NonNegative(t[s][b]) && SumR(t[s][b]) == 1.0
    requires 0.0 <= epsilon <= 1.0
    ensures Distribution(RegularizedRow(t, numStates, numActions, epsilon, s, a))
  {
    NormalizedMeanIsAverage(t, numStates, numActions, s);
    BlendIsDistribution(t[s][a], NormalizedMean(t, numStates, numActions, s), epsilon);
  }

  /** Lines 203–254 of the experiment runner, from the table of raw draws:
      normalise every row, take the mean over actions, normalise it and blend.
      For ε in [0, 1] and non-negative draws the result passes the model's
      validation. */
  method Regularize(raw: Table3, numStates: nat, numActions: nat, epsilon: real)
    returns (transition: Table3, reg: Table3)
    requires IsTable3(raw, numStates, numActions) && NonZeroRows(raw, numStates, numActions)
    ensures IsTable3(transition, numStates, numActions) && IsTable3(reg, numStates, numActions)
    ensures forall s, a :: 0 <= s < numStates && 0 <= a < numActions ==>
      transition[s][a] == Normalized(raw[s][a]) && SumR(transition[s][a]) == 1.0
    ensures forall s, a :: 0 <= s < numStates && 0 <= a < numActions ==>
      reg[s][a] == RegularizedRow(transition, numStates, numActions, epsilon, s, a)
    ensures 0.0 <= epsilon <= 1.0 && (forall s, a :: 0 <= s < numStates && 0 <= a < numActions ==> NonNegative(raw[s][a])) ==>
      Stochastic(reg, numStates, numActions)
  {
    transition := NormalizeTable(raw, numStates, numActions);
    NormalizedRowsSumToOne(raw, transition, numStates, numActions);
    var mean := ActionSums(transition, numStates, numActions);
    MeanRowsNonZero(transition, mean, numStates, numActions);
    var meanNormalized := NormalizeTable(mean, numStates, numActions);
    reg := Blend(transition, meanNormalized, numStates, numActions, epsilon);
    if 0.0 <= epsilon <= 1.0 && forall s, a :: 0 <= s < numStates && 0 <= a < numActions ==> NonNegative(raw[s][a]) {
      RegularizedIsStochastic(raw, transition, reg, numStates, numActions, epsilon);
    }
  }

  lemma NormalizedRowsSumToOne(raw: Table3, transition: Table3, numStates: nat, numActions: nat)
    requires IsTable3(raw, numStates, numActions) && NonZeroRows(raw, numStates, numActions)
    requires IsTable3(transition, numStates, numActions)
    requires forall s, a :: 0 <= s < numStates && 0 <= a < numActions ==> transition[s][a] == Normalized(raw[s][a])
    ensures forall s, a :: 0 <= s < numStates && 0 <= a < numActions ==> SumR(transition[s][a]) == 1.0
  {
    forall s, a | 0 <= s < numStates && 0 <= a < numActions
      ensures SumR(transition[s][a]) == 1.0
    {
      NormalizedSumsToOne(raw[s][a]);
    }
  }

  lemma MeanRowsNonZero(t: Table3, mean: Table3, numStates: nat, numActions: nat)
    requires IsTable3(t, numStates, numActions) && IsTable3(mean, numStates, numActions)
    requires forall s, a :: 0 <= s < numStates && 0 <= a < numActions ==> SumR(t[s][a]) == 1.0
    requires forall s, a :: 0 <= s < numStates && 0 <= a < numActions ==> mean[s][a] == MeanRow(t, numStates, numActions, s)
    ensures NonZeroRows(mean, numStates, numActions)
  {
    forall s, a | 0 <= s < numStates && 0 <= a < numActions
      ensures SumR(mean[s][a]) != 0.0
    {
      MeanRowSum(t, numStates, numActions, s);
    }
  }

  lemma RegularizedIsStochastic(raw: Table3, transition: Table3, reg: Table3, numStates: nat, numActions: nat, epsilon: real)
    requires IsTable3(raw, numStates, numActions) && NonZeroRows(raw, numStates, numActions)
    requires IsTable3(transition, numStates, numActions) && IsTable3(reg, numStates, numActions)
    requires forall s, a :: 0 <= s < numStates && 0 <= a < numActions ==> NonNegative(raw[s][a])
    requires forall s, a :: 0 <= s < numStates && 0 <= a < numActions ==>
      transition[s][a] == Normalized(raw[s][a]) && SumR(transition[s][a]) == 1.0
    requires forall s, a :: 0 <= s < numStates && 0 <= a < numActions ==>
      reg[s][a] == RegularizedRow(transition, numStates, numActions, epsilon, s, a)
    requires 0.0 <= epsilon <= 1.0
    ensures Stochastic(reg, numStates, numActions)
  {
    forall s, a | 0 <= s < numStates && 0 <= a < numActions
      ensures RowStochastic(reg[s][a])
    {
      forall b | 0 <= b < numActions
        ensures NonNegative(transition[s][b]) && SumR(transition[s][b]) == 1.0
      {
        SumRNonNegative(raw[s][b]);
        NormalizedIsDistribution(raw[s][b]);
      }
      RegularizedIsDistribution(transition, numStates, numActions, epsilon, s, a);
    }
  }
}
