/** Value iteration with the hard-max Bellman backup. Each sweep visits the
    states in order and overwrites V(s) in place, so a state later in the
    sweep already sees the new values of the states before it (Gauss–Seidel).
    The loop stops after a sweep in which no value moved by more than the
    tolerance, or after 10000 sweeps. The policy is then read off the stored
    Q table with a random tie-break. */
module ValueIterationSolver {
  import opened Tables
  import opened MdpModel

  /** The cap on the number of sweeps. */
  const MaxIter: nat := 10000

  /** The Q table, keyed by (state, action). */
  type QTable = map<(nat, nat), real>

  /** The one-step lookahead of action a in state s, summed over the first k
      next states: Σ_{s' < k} T(s, a, s') · (R(s, a, s') + γ · V(s')). */
  function Backup(m: Mdp, gamma: real, V: seq<real>, s: nat, a: nat, k: nat): real
    requires HasTables(m) && |V| == m.numStates && s < m.numStates && a < m.numActions && k <= m.numStates
  {
    if k == 0 then 0.0
    else Backup(m, gamma, V, s, a, k - 1) + m.transition[s][a][k - 1] * (m.reward[s][a][k - 1] + gamma * V[k - 1])
  }

  function QValue(m: Mdp, gamma: real, V: seq<real>, s: nat, a: nat): real
    requires HasTables(m) && |V| == m.numStates && s < m.numStates && a < m.numActions
  {
    Backup(m, gamma, V, s, a, m.numStates)
  }

  /** The Q values of every action in state s. */
  function QRow(m: Mdp, gamma: real, V: seq<real>, s: nat): (row: seq<real>)
    requires HasTables(m) && |V| == m.numStates && s < m.numStates
    ensures |row| == m.numActions
    ensures forall a :: 0 <= a < m.numActions ==> row[a] == QValue(m, gamma, V, s, a)
  {
    seq(m.numActions, a requires 0 <= a < m.numActions => QValue(m, gamma, V, s, a))
  }

  /** Q after putting row[a] at (s, a) for every a, in action order. */
  function StoreRow(Q: QTable, s: nat, row: seq<real>): QTable
  {
    if |row| == 0 then Q
    else StoreRow(Q, s, row[..|row| - 1])[(s, |row| - 1) := row[|row| - 1]]
  }

  /** Storing a row sets (s, a) to row[a] for every a and leaves the rows of
      the other states as they were. */
  lemma {:induction false} StoreRowFacts(Q: QTable, s: nat, row: seq<real>)
    ensures forall a :: 0 <= a < |row| ==> (s, a) in StoreRow(Q, s, row) && StoreRow(Q, s, row)[(s, a)] == row[a]
    ensures forall key :: key in Q && key.0 != s ==> key in StoreRow(Q, s, row) && StoreRow(Q, s, row)[key] == Q[key]
  {
    if |row| > 0 {
      var init := row[..|row| - 1];
      StoreRowFacts(Q, s, init);
      forall a | 0 <= a < |init|
        ensures init[a] == row[a]
      {
      }
    }
  }

  /** The value function and the Q table between two updates of a sweep. */
  datatype ValueTables = ValueTables(V: seq<real>, Q: QTable)

  /** The update of one state: its Q row is computed from the current V and
      stored, and V(s) becomes the row's maximum. No other value changes. */
  function BackedUp(m: Mdp, gamma: real, V: seq<real>, Q: QTable, s: nat): (r: ValueTables)
    requires HasTables(m) && m.numActions > 0 && |V| == m.numStates && s < m.numStates
    ensures |r.V| == |V| && forall t :: 0 <= t < |V| && t != s ==> r.V[t] == V[t]
  {
    var row := QRow(m, gamma, V, s);
    ValueTables(V[s := Max(row)], StoreRow(Q, s, row))
  }

  /** The rest of a sweep, from state k on: each state in turn is backed up. */
  function SweepFrom(m: Mdp, gamma: real, V: seq<real>, Q: QTable, k: nat): (r: ValueTables)
    requires HasTables(m) && m.numActions > 0 && |V| == m.numStates && k <= m.numStates
    ensures |r.V| == m.numStates
    decreases m.numStates - k
  {
    if k == m.numStates then ValueTables(V, Q)
    else
      var next := BackedUp(m, gamma, V, Q, k);
      SweepFrom(m, gamma, next.V, next.Q, k + 1)
  }

  /** The rest of a sweep from state k leaves the states before k alone, in V
      and in Q. */
  lemma {:induction false} SweepFromKeeps(m: Mdp, gamma: real, V: seq<real>, Q: QTable, k: nat)
    requires HasTables(m) && m.numActions > 0 && |V| == m.numStates && k <= m.numStates
    ensures forall t :: 0 <= t < k ==> SweepFrom(m, gamma, V, Q, k).V[t] == V[t]
    ensures forall key :: key in Q && key.0 < k ==>
      key in SweepFrom(m, gamma, V, Q, k).Q && SweepFrom(m, gamma, V, Q, k).Q[key] == Q[key]
    decreases m.numStates - k
  {
    if k < m.numStates {
      var row := QRow(m, gamma, V, k);
      SweepFromKeeps(m, gamma, V[k := Max(row)], StoreRow(Q, k, row), k + 1);
      StoreRowFacts(Q, k, row);
    }
  }

  function Sweep(m: Mdp, gamma: real, V: seq<real>, Q: QTable): (r: ValueTables)
    requires HasTables(m) && m.numActions > 0 && |V| == m.numStates
  {
    SweepFrom(m, gamma, V, Q, 0)
  }

  /** No value moved by more than the tolerance. */
  predicate Converged(V: seq<real>, V': seq<real>)
    requires |V| == |V'|
  {
    forall s :: 0 <= s < |V| ==> Abs(V[s] - V'[s]) <= Tolerance
  }

  /** How run ends: the tables before and after its last sweep, the number of
      sweeps, and whether the last sweep was within the tolerance. */
  datatype Outcome = Outcome(previous: ValueTables, last: ValueTables, sweeps: nat, converged: bool)

  /** run from sweep i on. It performs between one and MaxIter - i more sweeps,
      its last result is one sweep from the tables before it, and it stops
      before the cap only when that last sweep converged. */
  function RunFrom(m: Mdp, gamma: real, V: seq<real>, Q: QTable, i: nat): (r: Outcome)
    requires HasTables(m) && m.numActions > 0 && |V| == m.numStates && i < MaxIter
    ensures i < r.sweeps <= MaxIter
    ensures |r.previous.V| == m.numStates
    ensures r.last == Sweep(m, gamma, r.previous.V, r.previous.Q)
    ensures r.converged <==> Converged(r.previous.V, r.last.V)
    ensures !r.converged ==> r.sweeps == MaxIter
    decreases MaxIter - i
  {
    var next := Sweep(m, gamma, V, Q);
    if Converged(V, next.V) || i + 1 == MaxIter then
      Outcome(ValueTables(V, Q), next, i + 1, Converged(V, next.V))
    else
      RunFrom(m, gamma, next.V, next.Q, i + 1)
  }

  /** State s of a sweep from V that ended in r: its Q row was computed from
      the values the states before s received in this sweep and the old values
      of s and the states after it, and V(s) is the maximum of that row. */
  predicate GaussSeidelAt(m: Mdp, gamma: real, V: seq<real>, r: ValueTables, s: nat)
    requires HasTables(m) && m.numActions > 0 && |V| == m.numStates && |r.V| == m.numStates && s < m.numStates
  {
    var seen := r.V[..s] + V[s..];
    && r.V[s] == Max(QRow(m, gamma, seen, s))
    && forall a :: 0 <= a < m.numActions ==> (s, a) in r.Q && r.Q[(s, a)] == QValue(m, gamma, seen, s, a)
  }

  /** A sweep is Gauss–Seidel at every state. */
  lemma SweepIsGaussSeidel(m: Mdp, gamma: real, V: seq<real>, Q: QTable)
    requires HasTables(m) && m.numActions > 0 && |V| == m.numStates
    ensures forall s :: 0 <= s < m.numStates ==> GaussSeidelAt(m, gamma, V, Sweep(m, gamma, V, Q), s)
  {
    SweepFromIsGaussSeidel(m, gamma, V, Q, 0);
  }

  lemma SweepFromIsGaussSeidel(m: Mdp, gamma: real, V: seq<real>, Q: QTable, k: nat)
    requires HasTables(m) && m.numActions > 0 && |V| == m.numStates && k <= m.numStates
    ensures forall s :: k <= s < m.numStates ==> GaussSeidelAt(m, gamma, V, SweepFrom(m, gamma, V, Q, k), s)
  {
    forall s | k <= s < m.numStates
      ensures GaussSeidelAt(m, gamma, V, SweepFrom(m, gamma, V, Q, k), s)
    {
      SweepFromIsGaussSeidelAt(m, gamma, V, Q, k, s);
    }
  }

  /** One state s of the rest of a sweep from k: by induction on the states
      updated before it. */
  lemma {:induction false} SweepFromIsGaussSeidelAt(m: Mdp, gamma: real, V: seq<real>, Q: QTable, k: nat, s: nat)
    requires HasTables(m) && m.numActions > 0 && |V| == m.numStates && k <= s < m.numStates
    ensures GaussSeidelAt(m, gamma, V, SweepFrom(m, gamma, V, Q, k), s)
    decreases s - k
  {
    if s == k {
      SweepFromFirstState(m, gamma, V, Q, k);
    } else {
      var next := BackedUp(m, gamma, V, Q, k);
      SweepFromIsGaussSeidelAt(m, gamma, next.V, next.Q, k + 1, s);
      GaussSeidelAfterUpdate(m, gamma, V, k, Max(QRow(m, gamma, V, k)), SweepFrom(m, gamma, V, Q, k), s);
    }
  }

  /** a[..k] + b[k..] is b when a and b agree below k. */
  lemma Splice(a: seq<real>, b: seq<real>, k: nat)
    requires |a| == |b| && k <= |b|
    requires forall t :: 0 <= t < k ==> a[t] == b[t]
    ensures a[..k] + b[k..] == b
  {
  }

  /** The first state of the rest of a sweep is computed from V itself. */
  lemma SweepFromFirstState(m: Mdp, gamma: real, V: seq<real>, Q: QTable, k: nat)
    requires HasTables(m) && m.numActions > 0 && |V| == m.numStates && k < m.numStates
    ensures GaussSeidelAt(m, gamma, V, SweepFrom(m, gamma, V, Q, k), k)
  {
    var row := QRow(m, gamma, V, k);
    var V1, Q1 := V[k := Max(row)], StoreRow(Q, k, row);
    var r := SweepFrom(m, gamma, V1, Q1, k + 1);
    assert r == SweepFrom(m, gamma, V, Q, k);
    SweepFromKeeps(m, gamma, V1, Q1, k + 1);
    StoreRowFacts(Q, k, row);
    Splice(r.V, V, k);
    assert r.V[k] == Max(row);
  }

  /** Updating a state before s does not change what s saw. */
  lemma GaussSeidelAfterUpdate(m: Mdp, gamma: real, V: seq<real>, k: nat, x: real, r: ValueTables, s: nat)
    requires HasTables(m) && m.numActions > 0 && |V| == m.numStates && |r.V| == m.numStates && k < s < m.numStates
    requires GaussSeidelAt(m, gamma, V[k := x], r, s)
    ensures GaussSeidelAt(m, gamma, V, r, s)
  {
    assert V[s..] == V[k := x][s..];
  }

  /** After run, every (state, action) has a Q value. */
  lemma RunFillsQ(m: Mdp, gamma: real, V: seq<real>, Q: QTable)
    requires HasTables(m) && m.numActions > 0 && |V| == m.numStates
    ensures forall s, a :: 0 <= s < m.numStates && 0 <= a < m.numActions ==>
      (s, a) in RunFrom(m, gamma, V, Q, 0).last.Q
  {
    var r := RunFrom(m, gamma, V, Q, 0);
    SweepIsGaussSeidel(m, gamma, r.previous.V, r.previous.Q);
    forall s, a | 0 <= s < m.numStates && 0 <= a < m.numActions
      ensures (s, a) in r.last.Q
    {
      assert GaussSeidelAt(m, gamma, r.previous.V, r.last, s);
    }
  }

  // ---------------------------------------------------------------------------
  // γ = 0: only the immediate reward counts.

  /** Σ_{s' < k} T(s, a, s') · R(s, a, s'). */
  function ExpectedReward(m: Mdp, s: nat, a: nat, k: nat): real
    requires HasTables(m) && s < m.numStates && a < m.numActions && k <= m.numStates
  {
    if k == 0 then 0.0
    else ExpectedReward(m, s, a, k - 1) + m.transition[s][a][k - 1] * m.reward[s][a][k - 1]
  }

  /** With γ = 0 the backup ignores V: it is the expected immediate reward. */
  lemma {:induction false} MyopicBackup(m: Mdp, V: seq<real>, s: nat, a: nat, k: nat)
    requires HasTables(m) && |V| == m.numStates && s < m.numStates && a < m.numActions && k <= m.numStates
    ensures Backup(m, 0.0, V, s, a, k) == ExpectedReward(m, s, a, k)
  {
    if k > 0 {
      MyopicBackup(m, V, s, a, k - 1);
    }
  }

  /** The expected immediate reward of every action in state s. */
  function ImmediateRow(m: Mdp, s: nat): (row: seq<real>)
    requires HasTables(m) && s < m.numStates
    ensures |row| == m.numActions
    ensures forall a :: 0 <= a < m.numActions ==> row[a] == ExpectedReward(m, s, a, m.numStates)
  {
    seq(m.numActions, a requires 0 <= a < m.numActions => ExpectedReward(m, s, a, m.numStates))
  }

  /** max_a Σ_{s'} T(s, a, s') · R(s, a, s'), for every state. */
  function MyopicValues(m: Mdp): (W: seq<real>)
    requires HasTables(m) && m.numActions > 0
    ensures |W| == m.numStates
    ensures forall s :: 0 <= s < m.numStates ==> W[s] == Max(ImmediateRow(m, s))
  {
    seq(m.numStates, s requires 0 <= s < m.numStates => Max(ImmediateRow(m, s)))
  }

  /** With γ = 0, whatever V it starts from, a sweep sets every V(s) to the
      best expected immediate reward. */
  lemma MyopicSweep(m: Mdp, V: seq<real>, Q: QTable)
    requires HasTables(m) && m.numActions > 0 && |V| == m.numStates
    ensures Sweep(m, 0.0, V, Q).V == MyopicValues(m)
  {
    var r := Sweep(m, 0.0, V, Q);
    SweepIsGaussSeidel(m, 0.0, V, Q);
    forall s | 0 <= s < m.numStates
      ensures r.V[s] == MyopicValues(m)[s]
    {
      assert GaussSeidelAt(m, 0.0, V, r, s);
      var seen := r.V[..s] + V[s..];
      forall a | 0 <= a < m.numActions
        ensures QRow(m, 0.0, seen, s)[a] == ImmediateRow(m, s)[a]
      {
        MyopicBackup(m, seen, s, a, m.numStates);
      }
      assert QRow(m, 0.0, seen, s) == ImmediateRow(m, s);
    }
  }

  /** With γ = 0, run ends within two sweeps, with V(s) the best expected
      immediate reward. */
  lemma MyopicRunStopsWithinTwoSweeps(m: Mdp, V: seq<real>, Q: QTable)
    requires HasTables(m) && m.numActions > 0 && |V| == m.numStates
    ensures RunFrom(m, 0.0, V, Q, 0).sweeps <= 2
    ensures RunFrom(m, 0.0, V, Q, 0).last.V == MyopicValues(m)
  {
    var first := Sweep(m, 0.0, V, Q);
    MyopicSweep(m, V, Q);
    if !Converged(V, first.V) {
      MyopicSweep(m, first.V, first.Q);
      assert Converged(first.V, Sweep(m, 0.0, first.V, first.Q).V);
    }
  }

  // ---------------------------------------------------------------------------
  // Fixed points of the Bellman optimality equation.

  /** A value function with V(s) = max_a Q(s, a) under V itself, at every
      state from k on, is left as it is by the rest of the sweep. */
  lemma {:induction false} SweepFromFixedPoint(m: Mdp, gamma: real, V: seq<real>, Q: QTable, k: nat)
    requires HasTables(m) && m.numActions > 0 && |V| == m.numStates && k <= m.numStates
    requires forall s :: k <= s < m.numStates ==> V[s] == Max(QRow(m, gamma, V, s))
    ensures SweepFrom(m, gamma, V, Q, k).V == V
    decreases m.numStates - k
  {
    if k < m.numStates {
      var next := BackedUp(m, gamma, V, Q, k);
      assert next.V == V;
      SweepFromFixedPoint(m, gamma, V, next.Q, k + 1);
    }
  }

  /** run started from a solution of the Bellman optimality equation ends
      after one sweep, converged, with V unchanged. */
  lemma BellmanFixedPointIsStable(m: Mdp, gamma: real, V: seq<real>, Q: QTable)
    requires HasTables(m) && m.numActions > 0 && |V| == m.numStates
    requires forall s :: 0 <= s < m.numStates ==> V[s] == Max(QRow(m, gamma, V, s))
    ensures RunFrom(m, gamma, V, Q, 0).sweeps == 1
    ensures RunFrom(m, gamma, V, Q, 0).converged
    ensures RunFrom(m, gamma, V, Q, 0).last.V == V
  {
    SweepFromFixedPoint(m, gamma, V, Q, 0);
  }

  // ---------------------------------------------------------------------------
  // computePolicy

  /** The indices i >= lo of q with q[i] == M, in increasing order. */
  function Ties(q: seq<real>, M: real, lo: nat): (r: seq<nat>)
    decreases |q| - lo
  {
    if |q| <= lo then []
    else (if q[lo] == M then [lo] else []) + Ties(q, M, lo + 1)
  }

  /** How many times x occurs in xs. */
  function Count(xs: seq<nat>, x: nat): nat
  {
    if |xs| == 0 then 0 else (if xs[0] == x then 1 else 0) + Count(xs[1..], x)
  }

  lemma {:induction false} CountAppend(xs: seq<nat>, ys: seq<nat>, x: nat)
    ensures Count(xs + ys, x) == Count(xs, x) + Count(ys, x)
  {
    if |xs| == 0 {
      assert xs + ys == ys;
    } else {
      assert (xs + ys)[0] == xs[0];
      assert (xs + ys)[1..] == xs[1..] + ys;
      CountAppend(xs[1..], ys, x);
    }
  }

  /** Every entry of a list occurs in it. */
  lemma {:induction false} CountOfEntry(xs: seq<nat>, j: nat)
    requires j < |xs|
    ensures Count(xs, xs[j]) > 0
  {
    if j > 0 {
      CountOfEntry(xs[1..], j - 1);
    }
  }

  /** Each tie from lo on appears in the list exactly once, and nothing else does. */
  lemma {:induction false} TiesCount(q: seq<real>, M: real, lo: nat, i: nat)
    ensures Count(Ties(q, M, lo), i) == if lo <= i < |q| && q[i] == M then 1 else 0
    decreases |q| - lo
  {
    if |q| > lo {
      var head: seq<nat> := if q[lo] == M then [lo] else [];
      CountAppend(head, Ties(q, M, lo + 1), i);
      TiesCount(q, M, lo + 1, i);
    }
  }

  /** One more entry adds its index at the end when it ties. */
  lemma {:induction false} TiesAppend(xs: seq<real>, x: real, M: real, lo: nat)
    requires lo <= |xs|
    ensures Ties(xs + [x], M, lo) == Ties(xs, M, lo) + (if x == M then [|xs|] else [])
    decreases |xs| - lo
  {
    var q := xs + [x];
    var tail: seq<nat> := if x == M then [|xs|] else [];
    if lo == |xs| {
      assert q[lo] == x;
      assert Ties(q, M, lo) == tail + [];
    } else {
      var head: seq<nat> := if xs[lo] == M then [lo] else [];
      assert q[lo] == xs[lo];
      TiesAppend(xs, x, M, lo + 1);
      assert Ties(q, M, lo) == head + (Ties(xs, M, lo + 1) + tail);
      assert head + (Ties(xs, M, lo + 1) + tail) == (head + Ties(xs, M, lo + 1)) + tail;
    }
  }

  /** The list computePolicy draws from: the first maximiser twice (it is
      added once on the strict improvement and once more by the equality test
      that follows), then every later maximiser once. */
  function TieList(q: seq<real>): (r: seq<nat>)
    requires |q| > 0
  {
    var f := FirstArgMax(q);
    [f, f] + Ties(q, Max(q), f + 1)
  }

  /** The list names every maximiser and nothing else; the first one twice,
      the others once. */
  lemma TieListMultiplicity(q: seq<real>, i: nat)
    requires |q| > 0
    ensures Count(TieList(q), i) ==
      if i == FirstArgMax(q) then 2 else if i < |q| && q[i] == Max(q) then 1 else 0
  {
    var f := FirstArgMax(q);
    CountAppend([f, f], Ties(q, Max(q), f + 1), i);
    TiesCount(q, Max(q), f + 1, i);
  }

  /** Every entry of the list is an action whose Q value is the maximum. */
  lemma TieListIsMaximisers(q: seq<real>)
    requires |q| > 0
    ensures |TieList(q)| >= 2
    ensures forall j :: 0 <= j < |TieList(q)| ==> TieList(q)[j] < |q| && q[TieList(q)[j]] == Max(q)
  {
    var ties := TieList(q);
    forall j | 0 <= j < |ties|
      ensures ties[j] < |q| && q[ties[j]] == Max(q)
    {
      var i := ties[j];
      CountOfEntry(ties, j);
      TieListMultiplicity(q, i);
    }
  }

  /** How the list grows with one more action. */
  lemma TieListAppend(xs: seq<real>, x: real)
    requires |xs| > 0
    ensures TieList(xs + [x]) ==
      if x > Max(xs) then [|xs|, |xs|]
      else if x == Max(xs) then TieList(xs) + [|xs|]
      else TieList(xs)
  {
    MaxAppend(xs, x);
    var q := xs + [x];
    var f := FirstArgMax(xs);
    if x <= Max(xs) {
      TiesAppend(xs, x, Max(xs), f + 1);
    }
  }

  /** The tie list and maximum of the prefix q[..a + 1], from those of q[..a]. */
  lemma TieListStep(q: seq<real>, a: nat)
    requires a < |q|
    ensures a == 0 ==> Max(q[..a + 1]) == q[a] && TieList(q[..a + 1]) == [a, a]
    ensures a > 0 ==> Max(q[..a + 1]) == (if q[a] > Max(q[..a]) then q[a] else Max(q[..a]))
    ensures a > 0 ==>
      TieList(q[..a + 1]) ==
        if q[a] > Max(q[..a]) then [a, a]
        else if q[a] == Max(q[..a]) then TieList(q[..a]) + [a]
        else TieList(q[..a])
  {
    if a == 0 {
      assert q[..1] == [q[0]];
    } else {
      assert q[..a + 1] == q[..a] + [q[a]];
      MaxAppend(q[..a], q[a]);
      TieListAppend(q[..a], q[a]);
    }
  }

  /** The loop of computePolicy over one state's actions. maxQ starts at
      -Infinity, which the first action always beats. */
  method MaxActions(q: seq<real>) returns (maxActions: seq<nat>)
    ensures |q| == 0 ==> maxActions == []
    ensures |q| > 0 ==> maxActions == TieList(q)
  {
    maxActions := [];
    var maxQ := 0.0;
    var a := 0;
    while a < |q|
      invariant a <= |q|
      invariant a == 0 ==> maxActions == []
      invariant a > 0 ==> maxQ == Max(q[..a]) && maxActions == TieList(q[..a])
    {
      var v := q[a];
      TieListStep(q, a);
      if a == 0 || v > maxQ {
        maxActions := [a];
        maxQ := v;
      }
      if v == maxQ {
        maxActions := maxActions + [a];
      }
      a := a + 1;
    }
    assert |q| > 0 ==> q[..a] == q;
  }

  /** The stored Q values of state s, in action order. */
  function QRowOf(Q: QTable, s: nat, numActions: nat): (row: seq<real>)
    requires forall a :: 0 <= a < numActions ==> (s, a) in Q
    ensures |row| == numActions && forall a :: 0 <= a < numActions ==> row[a] == Q[(s, a)]
  {
    seq(numActions, a requires 0 <= a < numActions => Q[(s, a)])
  }

  /** The action computePolicy gives state s, with the random index supplied
      as draw(s, n) < n. It is always a greedy action. */
  function Pick(Q: QTable, numActions: nat, draw: (nat, nat) -> nat, s: nat): (a: nat)
    requires numActions > 0
    requires forall b :: 0 <= b < numActions ==> (s, b) in Q
    requires forall t, n :: 0 < n ==> draw(t, n) < n
    ensures a < numActions && Q[(s, a)] == Max(QRowOf(Q, s, numActions))
  {
    var q := QRowOf(Q, s, numActions);
    TieListIsMaximisers(q);
    var ties := TieList(q);
    ties[draw(s, |ties|)]
  }

  class ValueIteration {
    const mdp: Mdp
    const gamma: real
    /** Used only by the Boltzmann variant, which is not part of this model. */
    const beta: real
    var V: seq<real>
    var Q: QTable
    var P: map<nat, nat>

    /** V(s) = 0 for every state and Q(s, a) = 0 for every pair. */
    constructor (m: Mdp, discount: real, temperature: real)
      ensures mdp == m && gamma == discount && beta == temperature
      ensures V == Zeros(m.numStates) && P == map[]
      ensures forall s, a :: 0 <= s < m.numStates && 0 <= a < m.numActions ==> (s, a) in Q && Q[(s, a)] == 0.0
      ensures forall key :: key in Q ==> key.0 < m.numStates && key.1 < m.numActions
    {
      var values := ZeroValues(m.numStates);
      var q: QTable := map[];
      var s := 0;
      while s < m.numStates
        invariant s <= m.numStates
        invariant forall t, a :: 0 <= t < s && 0 <= a < m.numActions ==> (t, a) in q && q[(t, a)] == 0.0
        invariant forall key :: key in q ==> key.0 < s && key.1 < m.numActions
      {
        var a := 0;
        while a < m.numActions
          invariant a <= m.numActions
          invariant forall t, b :: ((0 <= t < s && 0 <= b < m.numActions) || (t == s && 0 <= b < a)) ==>
            (t, b) in q && q[(t, b)] == 0.0
          invariant forall key :: key in q ==> (key.0 < s && key.1 < m.numActions) || (key.0 == s && key.1 < a)
        {
          q := q[(s, a) := 0.0];
          a := a + 1;
        }
        s := s + 1;
      }
      mdp, gamma, beta := m, discount, temperature;
      V, Q, P := values, q, map[];
    }

    /** The two-argument form: beta is 0 and only V is initialised; Q starts empty. */
    constructor WithoutBeta(m: Mdp, discount: real)
      ensures mdp == m && gamma == discount && beta == 0.0
      ensures V == Zeros(m.numStates) && Q == map[] && P == map[]
    {
      var values := ZeroValues(m.numStates);
      mdp, gamma, beta := m, discount, 0.0;
      V, Q, P := values, map[], map[];
    }

    /** run: sweeps until one is within the tolerance or the cap is reached.
        The result is RunFrom's: between 1 and 10000 sweeps, the last one a
        Gauss–Seidel sweep, early exit only on convergence. Returns the
        number of sweeps, which the original keeps in a local. */
    method Run() returns (sweeps: nat)
      requires WellFormed(mdp) && mdp.numActions > 0 && |V| == mdp.numStates
      modifies this
      ensures var r := RunFrom(mdp, gamma, old(V), old(Q), 0);
        V == r.last.V && Q == r.last.Q && sweeps == r.sweeps
      ensures P == old(P)
      ensures forall s, a :: 0 <= s < mdp.numStates && 0 <= a < mdp.numActions ==> (s, a) in Q
    {
      ghost var target := RunFrom(mdp, gamma, V, Q, 0);
      RunFillsQ(mdp, gamma, V, Q);
      var i := 0;
      var convergence := false;
      while i < MaxIter && !convergence
        invariant i <= MaxIter && |V| == mdp.numStates && P == old(P)
        invariant !convergence && i < MaxIter ==> RunFrom(mdp, gamma, V, Q, i) == target
        invariant convergence || i == MaxIter ==> V == target.last.V && Q == target.last.Q && i == target.sweeps
        decreases MaxIter - i
      {
        ghost var before := ValueTables(V, Q);
        convergence := SweepInPlace();
        assert ValueTables(V, Q) == Sweep(mdp, gamma, before.V, before.Q);
        i := i + 1;
      }
      sweeps := i;
    }

    /** One sweep of run's outer loop: returns whether no value moved by more
        than the tolerance. */
    method SweepInPlace() returns (convergence: bool)
      requires WellFormed(mdp) && mdp.numActions > 0 && |V| == mdp.numStates
      modifies this
      ensures ValueTables(V, Q) == Sweep(mdp, gamma, old(V), old(Q))
      ensures convergence <==> Converged(old(V), V)
      ensures P == old(P)
    {
      var values, qs;
      values, qs, convergence := SweepValues(mdp, gamma, V, Q);
      V, Q := values, qs;
    }

    /** computePolicy: each state gets one of its greedy actions, chosen by
        the draw from the tie list; entries of P for other keys stay. */
    method ComputePolicy(draw: (nat, nat) -> nat)
      requires mdp.numActions > 0
      requires forall s, a :: 0 <= s < mdp.numStates && 0 <= a < mdp.numActions ==> (s, a) in Q
      requires forall t, n :: 0 < n ==> draw(t, n) < n
      modifies this
      ensures V == old(V) && Q == old(Q)
      ensures PolicyAgrees(old(P), P, Q, mdp.numActions, draw, mdp.numStates)
    {
      ghost var P0 := P;
      var s := 0;
      while s < mdp.numStates
        invariant s <= mdp.numStates
        invariant V == old(V) && Q == old(Q)
        invariant PolicyAgrees(P0, P, Q, mdp.numActions, draw, s)
      {
        var maxActions := MaxActions(QRowOf(Q, s, mdp.numActions));
        var tie := draw(s, |maxActions|);
        assert maxActions[tie] == Pick(Q, mdp.numActions, draw, s);
        PolicyAgreesStep(P0, P, Q, mdp.numActions, draw, s, maxActions[tie]);
        P := P[s := maxActions[tie]];
        s := s + 1;
      }
    }
  }

  /** P is P0 with the states below s given their computePolicy choice. */
  ghost predicate PolicyAgrees(P0: map<nat, nat>, P: map<nat, nat>, Q: QTable, numActions: nat, draw: (nat, nat) -> nat, s: nat)
    requires numActions > 0
    requires forall t, a :: 0 <= t < s && 0 <= a < numActions ==> (t, a) in Q
    requires forall t, n :: 0 < n ==> draw(t, n) < n
  {
    PolicyKeys(P0, P, s) && PolicyChosen(P, Q, numActions, draw, s) && PolicyKept(P0, P, s)
  }

  /** The keys of P are those of P0 and the states below s. */
  ghost predicate PolicyKeys(P0: map<nat, nat>, P: map<nat, nat>, s: nat) {
    forall t: nat :: t in P <==> t in P0 || t < s
  }

  /** Every state below s is mapped to its pick. */
  ghost predicate PolicyChosen(P: map<nat, nat>, Q: QTable, numActions: nat, draw: (nat, nat) -> nat, s: nat)
    requires numActions > 0
    requires forall t, a :: 0 <= t < s && 0 <= a < numActions ==> (t, a) in Q
    requires forall t, n :: 0 < n ==> draw(t, n) < n
  {
    forall t: nat :: t < s ==> t in P && P[t] == Pick(Q, numActions, draw, t)
  }

  /** The other keys of P0 keep their value. */
  ghost predicate PolicyKept(P0: map<nat, nat>, P: map<nat, nat>, s: nat) {
    forall t: nat :: t in P0 && t >= s ==> t in P && P[t] == P0[t]
  }

  lemma PolicyAgreesStep(P0: map<nat, nat>, P: map<nat, nat>, Q: QTable, numActions: nat, draw: (nat, nat) -> nat, s: nat, x: nat)
    requires numActions > 0
    requires forall t, a :: 0 <= t <= s && 0 <= a < numActions ==> (t, a) in Q
    requires forall t, n :: 0 < n ==> draw(t, n) < n
    requires PolicyAgrees(P0, P, Q, numActions, draw, s)
    requires x == Pick(Q, numActions, draw, s)
    ensures PolicyAgrees(P0, P[s := x], Q, numActions, draw, s + 1)
  {
    PolicyChosenStep(P, Q, numActions, draw, s, x);
    assert PolicyKeys(P0, P[s := x], s + 1);
    assert PolicyKept(P0, P[s := x], s + 1);
  }

  lemma PolicyChosenStep(P: map<nat, nat>, Q: QTable, numActions: nat, draw: (nat, nat) -> nat, s: nat, x: nat)
    requires numActions > 0
    requires forall t, a :: 0 <= t <= s && 0 <= a < numActions ==> (t, a) in Q
    requires forall t, n :: 0 < n ==> draw(t, n) < n
    requires PolicyChosen(P, Q, numActions, draw, s)
    requires x == Pick(Q, numActions, draw, s)
    ensures PolicyChosen(P[s := x], Q, numActions, draw, s + 1)
  {
    forall t: nat | t < s + 1
      ensures t in P[s := x] && P[s := x][t] == Pick(Q, numActions, draw, t)
    {
      if t < s {
        assert P[s := x][t] == P[t];
      }
    }
  }

  /** One action of the backup loop: storing row[k] extends the stored
      prefix by one, and the running maximum moves only on a strictly larger
      entry. */
  lemma BackupStep(Q: QTable, s: nat, row: seq<real>, k: nat)
    requires k < |row|
    ensures StoreRow(Q, s, row[..k])[(s, k) := row[k]] == StoreRow(Q, s, row[..k + 1])
    ensures k == 0 ==> Max(row[..k + 1]) == row[k]
    ensures k > 0 ==> Max(row[..k + 1]) == if row[k] > Max(row[..k]) then row[k] else Max(row[..k])
  {
    StoreRowStep(Q, s, row, k);
    MaxStep(row, k);
  }

  lemma StoreRowStep(Q: QTable, s: nat, row: seq<real>, k: nat)
    requires k < |row|
    ensures StoreRow(Q, s, row[..k])[(s, k) := row[k]] == StoreRow(Q, s, row[..k + 1])
  {
    var prefix := row[..k + 1];
    assert prefix[..k] == row[..k];
  }

  lemma MaxStep(row: seq<real>, k: nat)
    requires k < |row|
    ensures k == 0 ==> Max(row[..k + 1]) == row[k]
    ensures k > 0 ==> Max(row[..k + 1]) == if row[k] > Max(row[..k]) then row[k] else Max(row[..k])
  {
    if k > 0 {
      MaxAppend(row[..k], row[k]);
      assert row[..k + 1] == row[..k] + [row[k]];
    }
  }

  /** The body of the sweep for one state: store Q(state, a) for every
      action, then set V(state) to the largest. */
  method BackupRow(m: Mdp, gamma: real, V: seq<real>, Q: QTable, state: nat) returns (V': seq<real>, Q': QTable)
    requires WellFormed(m) && m.numActions > 0 && |V| == m.numStates && state < m.numStates
    ensures V' == BackedUp(m, gamma, V, Q, state).V && Q' == BackedUp(m, gamma, V, Q, state).Q
  {
    ghost var row := QRow(m, gamma, V, state);
    Q' := Q;
    var maxSum := 0.0;
    var action := 0;
    while action < m.numActions
      invariant action <= m.numActions
      invariant Q' == StoreRow(Q, state, row[..action])
      invariant action > 0 ==> maxSum == Max(row[..action])
    {
      var sum := ExpectedValue(m, gamma, V, state, action);
      BackupStep(Q, state, row, action);
      Q' := Q'[(state, action) := sum];
      // maxSum starts at -Infinity, which the first action always beats
      if action == 0 || sum > maxSum {
        maxSum := sum;
      }
      action := action + 1;
    }
    assert row[..action] == row;
    V' := V[state := maxSum];
  }

  /** The loop of run over the states for one sweep, on values: each state is
      backed up in turn from the values already updated in this sweep, and the
      flag records whether every state moved by at most the tolerance. */
  method SweepValues(m: Mdp, gamma: real, V0: seq<real>, Q0: QTable) returns (V: seq<real>, Q: QTable, convergence: bool)
    requires WellFormed(m) && m.numActions > 0 && |V0| == m.numStates
    ensures ValueTables(V, Q) == Sweep(m, gamma, V0, Q0)
    ensures |V| == |V0| && (convergence <==> Converged(V0, V))
  {
    ghost var target := Sweep(m, gamma, V0, Q0);
    V, Q := V0, Q0;
    convergence := true;
    var state := 0;
    while state < m.numStates
      invariant state <= m.numStates && |V| == m.numStates
      invariant SweepFrom(m, gamma, V, Q, state) == target
      invariant forall t :: state <= t < m.numStates ==> V[t] == V0[t]
      invariant convergence == ConvergedBelow(V0, V, state)
    {
      var currentV := V[state];
      ghost var before := V;
      V, Q := BackupRow(m, gamma, V, Q, state);
      ConvergedBelowFrame(V0, before, V, state);
      if convergence && Abs(currentV - V[state]) > Tolerance {
        convergence := false;
      }
      state := state + 1;
    }
    ConvergedBelowAll(V0, V, state);
  }

  /** The first k values moved by at most the tolerance. */
  function ConvergedBelow(V0: seq<real>, V: seq<real>, k: nat): bool
    requires k <= |V0| && k <= |V|
  {
    k == 0 || (ConvergedBelow(V0, V, k - 1) && Abs(V0[k - 1] - V[k - 1]) <= Tolerance)
  }

  /** Only the values below k matter. */
  lemma {:induction false} ConvergedBelowFrame(V0: seq<real>, V: seq<real>, V': seq<real>, k: nat)
    requires k <= |V0| && k <= |V| && k <= |V'|
    requires forall t :: 0 <= t < k ==> V[t] == V'[t]
    ensures ConvergedBelow(V0, V, k) == ConvergedBelow(V0, V', k)
  {
    if k > 0 {
      ConvergedBelowFrame(V0, V, V', k - 1);
    }
  }

  /** Over all the states, it is convergence of the sweep. */
  lemma {:induction false} ConvergedBelowAll(V0: seq<real>, V: seq<real>, k: nat)
    requires k <= |V0| && k <= |V|
    ensures ConvergedBelow(V0, V, k) <==> forall t :: 0 <= t < k ==> Abs(V0[t] - V[t]) <= Tolerance
  {
    if k > 0 {
      ConvergedBelowAll(V0, V, k - 1);
    }
  }

  /** The loop that sets V(s) = 0 for every state. */
  method ZeroValues(n: nat) returns (values: seq<real>)
    ensures values == Zeros(n)
  {
    values := [];
    var s := 0;
    while s < n
      invariant s <= n && values == Zeros(s)
    {
      values := values + [0.0];
      s := s + 1;
    }
  }

  /** The inner sum of run for one (state, action), accumulated over the next
      states in order. The Gaussian draw getReward takes does not matter: the
      noise is zero. */
  method ExpectedValue(m: Mdp, gamma: real, V: seq<real>, s: nat, a: nat) returns (sum: real)
    requires WellFormed(m) && |V| == m.numStates && s < m.numStates && a < m.numActions
    ensures sum == QValue(m, gamma, V, s, a)
  {
    sum := 0.0;
    var sprime := 0;
    while sprime < m.numStates
      invariant sprime <= m.numStates && sum == Backup(m, gamma, V, s, a, sprime)
    {
      sum := sum + GetTransition(m, s, sprime, a) * (GetReward(m, s, sprime, a, 0.0) + gamma * V[sprime]);
      sprime := sprime + 1;
    }
  }
}
