/** Dense tables indexed by state and action ids, and the sums, maxima and
    arg-maxima the rest of the model states its contracts with.
    A state id and an action id are the naturals 0 .. n-1; a transition or
    reward table is indexed [from][action][to]. */
module Tables {

  type Table2 = seq<seq<real>>
  type Table3 = seq<seq<seq<real>>>

  /** t has one row per state, one entry per action in each row. */
  predicate IsTable2<T>(t: seq<seq<T>>, numStates: nat, numActions: nat) {
    |t| == numStates && forall s :: 0 <= s < numStates ==> |t[s]| == numActions
  }

  /** t has a (from, action) row for every pair, each with one entry per next state. */
  predicate IsTable3<T>(t: seq<seq<seq<T>>>, numStates: nat, numActions: nat) {
    IsTable2(t, numStates, numActions) &&
    forall s, a :: 0 <= s < numStates && 0 <= a < numActions ==> |t[s][a]| == numStates
  }

  function Abs(x: real): real {
    if x < 0.0 then -x else x
  }

  /** Sum of a sequence of integers, accumulated left to right. */
  function Sum(xs: seq<int>): int {
    if |xs| == 0 then 0 else Sum(xs[..|xs| - 1]) + xs[|xs| - 1]
  }

  /** Sum of a sequence of reals, accumulated left to right. */
  function SumR(xs: seq<real>): real {
    if |xs| == 0 then 0.0 else SumR(xs[..|xs| - 1]) + xs[|xs| - 1]
  }

  /** Sum of every entry of a two-level table. */
  function Sum2(t: seq<seq<int>>): int {
    if |t| == 0 then 0 else Sum2(t[..|t| - 1]) + Sum(t[|t| - 1])
  }

  function Sum2R(t: seq<seq<real>>): real {
    if |t| == 0 then 0.0 else Sum2R(t[..|t| - 1]) + SumR(t[|t| - 1])
  }

  function Zeros(n: nat): (r: seq<real>)
    ensures |r| == n && forall i :: 0 <= i < n ==> r[i] == 0.0
  {
    seq(n, _ => 0.0)
  }

  function ZeroCounts(n: nat): (r: seq<nat>)
    ensures |r| == n && forall i :: 0 <= i < n ==> r[i] == 0
  {
    seq(n, _ => 0)
  }

  predicate NonNegative(xs: seq<real>) {
    forall i :: 0 <= i < |xs| ==> xs[i] >= 0.0
  }

  // ---------------------------------------------------------------------------
  // Sums under point updates and appends

  lemma {:induction false} SumAppend(xs: seq<int>, x: int)
    ensures Sum(xs + [x]) == Sum(xs) + x
  {
    assert (xs + [x])[..|xs|] == xs;
  }

  lemma {:induction false} SumRAppend(xs: seq<real>, x: real)
    ensures SumR(xs + [x]) == SumR(xs) + x
  {
    assert (xs + [x])[..|xs|] == xs;
  }

  /** Overwriting one entry changes the sum by the difference. */
  lemma {:induction false} SumUpdate(xs: seq<int>, i: nat, v: int)
    requires i < |xs|
    ensures Sum(xs[i := v]) == Sum(xs) - xs[i] + v
  {
    var n := |xs| - 1;
    if i == n {
      assert xs[i := v][..n] == xs[..n];
    } else {
      assert xs[i := v][..n] == xs[..n][i := v];
      SumUpdate(xs[..n], i, v);
    }
  }

  lemma {:induction false} SumRUpdate(xs: seq<real>, i: nat, v: real)
    requires i < |xs|
    ensures SumR(xs[i := v]) == SumR(xs) - xs[i] + v
  {
    var n := |xs| - 1;
    if i == n {
      assert xs[i := v][..n] == xs[..n];
    } else {
      assert xs[i := v][..n] == xs[..n][i := v];
      SumRUpdate(xs[..n], i, v);
    }
  }

  /** Overwriting one row of a table changes its total by the row difference. */
  lemma {:induction false} Sum2Update(t: seq<seq<int>>, i: nat, row: seq<int>)
    requires i < |t|
    ensures Sum2(t[i := row]) == Sum2(t) - Sum(t[i]) + Sum(row)
  {
    var n := |t| - 1;
    if i == n {
      assert t[i := row][..n] == t[..n];
    } else {
      assert t[i := row][..n] == t[..n][i := row];
      Sum2Update(t[..n], i, row);
    }
  }

  lemma {:induction false} Sum2RUpdate(t: seq<seq<real>>, i: nat, row: seq<real>)
    requires i < |t|
    ensures Sum2R(t[i := row]) == Sum2R(t) - SumR(t[i]) + SumR(row)
  {
    var n := |t| - 1;
    if i == n {
      assert t[i := row][..n] == t[..n];
    } else {
      assert t[i := row][..n] == t[..n][i := row];
      Sum2RUpdate(t[..n], i, row);
    }
  }

  /** A row of zeros sums to zero. */
  lemma {:induction false} SumOfZeros(xs: seq<int>)
    requires forall i :: 0 <= i < |xs| ==> xs[i] == 0
    ensures Sum(xs) == 0
  {
    if |xs| > 0 {
      SumOfZeros(xs[..|xs| - 1]);
    }
  }

  lemma {:induction false} SumROfZeros(xs: seq<real>)
    requires forall i :: 0 <= i < |xs| ==> xs[i] == 0.0
    ensures SumR(xs) == 0.0
  {
    if |xs| > 0 {
      SumROfZeros(xs[..|xs| - 1]);
    }
  }

  /** A table of zeros has total zero. */
  lemma {:induction false} Sum2OfZeros(t: seq<seq<int>>)
    requires forall i, j :: 0 <= i < |t| && 0 <= j < |t[i]| ==> t[i][j] == 0
    ensures Sum2(t) == 0
  {
    if |t| > 0 {
      SumOfZeros(t[|t| - 1]);
      Sum2OfZeros(t[..|t| - 1]);
    }
  }

  lemma {:induction false} Sum2ROfZeros(t: seq<seq<real>>)
    requires forall i, j :: 0 <= i < |t| && 0 <= j < |t[i]| ==> t[i][j] == 0.0
    ensures Sum2R(t) == 0.0
  {
    if |t| > 0 {
      SumROfZeros(t[|t| - 1]);
      Sum2ROfZeros(t[..|t| - 1]);
    }
  }

  /** A non-negative entry never exceeds the sum of a non-negative sequence. */
  lemma {:induction false} EntryAtMostSum(xs: seq<real>, i: nat)
    requires NonNegative(xs) && i < |xs|
    ensures 0.0 <= xs[i] <= SumR(xs)
  {
    var n := |xs| - 1;
    SumRNonNegative(xs[..n]);
    if i < n {
      EntryAtMostSum(xs[..n], i);
    }
  }

  lemma {:induction false} SumRNonNegative(xs: seq<real>)
    requires NonNegative(xs)
    ensures SumR(xs) >= 0.0
  {
    if |xs| > 0 {
      SumRNonNegative(xs[..|xs| - 1]);
    }
  }

  /** A non-negative sequence whose sum is positive has a positive entry. */
  lemma {:induction false} PositiveSumHasPositiveEntry(xs: seq<real>) returns (i: nat)
    requires SumR(xs) > 0.0
    ensures i < |xs| && xs[i] > 0.0
  {
    var n := |xs| - 1;
    if xs[n] > 0.0 {
      i := n;
    } else {
      i := PositiveSumHasPositiveEntry(xs[..n]);
    }
  }

  // ---------------------------------------------------------------------------
  // Element-wise row transforms and their sums

  /** Every entry of xs divided by c. */
  function DivideBy(xs: seq<real>, c: real): (r: seq<real>)
    requires c != 0.0
    ensures |r| == |xs| && forall i :: 0 <= i < |xs| ==> r[i] == xs[i] / c
  {
    seq(|xs|, i requires 0 <= i < |xs| => xs[i] / c)
  }

  lemma {:induction false} SumDivideBy(xs: seq<real>, c: real)
    requires c != 0.0
    ensures SumR(DivideBy(xs, c)) == SumR(xs) / c
  {
    if |xs| > 0 {
      var n := |xs| - 1;
      assert DivideBy(xs, c)[..n] == DivideBy(xs[..n], c);
      SumDivideBy(xs[..n], c);
    }
  }

  /** The count row xs as proportions of n. */
  function Ratios(xs: seq<int>, n: int): (r: seq<real>)
    requires n != 0
    ensures |r| == |xs| && forall i :: 0 <= i < |xs| ==> r[i] == xs[i] as real / n as real
  {
    seq(|xs|, i requires 0 <= i < |xs| => xs[i] as real / n as real)
  }

  lemma {:induction false} SumRatios(xs: seq<int>, n: int)
    requires n != 0
    ensures SumR(Ratios(xs, n)) == Sum(xs) as real / n as real
  {
    if |xs| > 0 {
      var k := |xs| - 1;
      assert Ratios(xs, n)[..k] == Ratios(xs[..k], n);
      SumRatios(xs[..k], n);
    }
  }

  /** The constant row [c, c, ..., c] of length n. */
  function Constant(n: nat, c: real): (r: seq<real>)
    ensures |r| == n && forall i :: 0 <= i < n ==> r[i] == c
  {
    seq(n, _ => c)
  }

  lemma {:induction false} SumConstant(n: nat, c: real)
    ensures SumR(Constant(n, c)) == n as real * c
  {
    if n > 0 {
      assert Constant(n, c)[..n - 1] == Constant(n - 1, c);
      SumConstant(n - 1, c);
    }
  }

  /** Element-wise sum of two rows of equal length. */
  function Add(xs: seq<int>, ys: seq<int>): (r: seq<int>)
    requires |xs| == |ys|
    ensures |r| == |xs| && forall i :: 0 <= i < |xs| ==> r[i] == xs[i] + ys[i]
  {
    seq(|xs|, i requires 0 <= i < |xs| => xs[i] + ys[i])
  }

  lemma {:induction false} SumAdd(xs: seq<int>, ys: seq<int>)
    requires |xs| == |ys|
    ensures Sum(Add(xs, ys)) == Sum(xs) + Sum(ys)
  {
    if |xs| > 0 {
      var n := |xs| - 1;
      assert Add(xs, ys)[..n] == Add(xs[..n], ys[..n]);
      SumAdd(xs[..n], ys[..n]);
    }
  }

  function AddR(xs: seq<real>, ys: seq<real>): (r: seq<real>)
    requires |xs| == |ys|
    ensures |r| == |xs| && forall i :: 0 <= i < |xs| ==> r[i] == xs[i] + ys[i]
  {
    seq(|xs|, i requires 0 <= i < |xs| => xs[i] + ys[i])
  }

  lemma {:induction false} SumAddR(xs: seq<real>, ys: seq<real>)
    requires |xs| == |ys|
    ensures SumR(AddR(xs, ys)) == SumR(xs) + SumR(ys)
  {
    if |xs| > 0 {
      var n := |xs| - 1;
      assert AddR(xs, ys)[..n] == AddR(xs[..n], ys[..n]);
      SumAddR(xs[..n], ys[..n]);
    }
  }

  /** The convex combination (1 - eps) * xs + eps * ys, entry by entry. */
  function Mix(xs: seq<real>, ys: seq<real>, eps: real): (r: seq<real>)
    requires |xs| == |ys|
    ensures |r| == |xs|
    ensures forall i :: 0 <= i < |xs| ==> r[i] == (1.0 - eps) * xs[i] + eps * ys[i]
  {
    seq(|xs|, i requires 0 <= i < |xs| => (1.0 - eps) * xs[i] + eps * ys[i])
  }

  /** Every entry of xs multiplied by c. */
  function Scale(xs: seq<real>, c: real): (r: seq<real>)
    ensures |r| == |xs| && forall i :: 0 <= i < |xs| ==> r[i] == c * xs[i]
  {
    seq(|xs|, i requires 0 <= i < |xs| => c * xs[i])
  }

  lemma {:induction false} SumScale(xs: seq<real>, c: real)
    ensures SumR(Scale(xs, c)) == c * SumR(xs)
  {
    if |xs| > 0 {
      var n := |xs| - 1;
      var l, r := Scale(xs, c)[..n], Scale(xs[..n], c);
      forall i | 0 <= i < n ensures l[i] == r[i] {
        assert xs[..n][i] == xs[i];
      }
      assert l == r;
      SumScale(xs[..n], c);
      var head, last := SumR(xs[..n]), xs[n];
      assert c * head + c * last == c * (head + last);
    }
  }

  lemma {:induction false} SumMix(xs: seq<real>, ys: seq<real>, eps: real)
    requires |xs| == |ys|
    ensures SumR(Mix(xs, ys, eps)) == (1.0 - eps) * SumR(xs) + eps * SumR(ys)
  {
    assert Mix(xs, ys, eps) == AddR(Scale(xs, 1.0 - eps), Scale(ys, eps));
    SumAddR(Scale(xs, 1.0 - eps), Scale(ys, eps));
    SumScale(xs, 1.0 - eps);
    SumScale(ys, eps);
  }

  // ---------------------------------------------------------------------------
  // Maxima

  /** The first index holding the largest entry: scanning left to right, the
      index moves only on a strictly larger entry. */
  function FirstArgMax(xs: seq<real>): (r: nat)
    requires |xs| > 0
    ensures r < |xs|
    ensures forall j :: 0 <= j < |xs| ==> xs[j] <= xs[r]
    ensures forall j :: 0 <= j < r ==> xs[j] < xs[r]
  {
    if |xs| == 1 then 0
    else
      var f := FirstArgMax(xs[..|xs| - 1]);
      if xs[|xs| - 1] > xs[f] then |xs| - 1 else f
  }

  /** The largest entry. */
  function Max(xs: seq<real>): (m: real)
    requires |xs| > 0
    ensures m in xs
    ensures forall j :: 0 <= j < |xs| ==> xs[j] <= m
  {
    xs[FirstArgMax(xs)]
  }

  /** Appending x to a non-empty prefix moves the maximum only if x is strictly larger. */
  lemma MaxAppend(xs: seq<real>, x: real)
    requires |xs| > 0
    ensures (xs + [x])[..|xs|] == xs
    ensures FirstArgMax(xs + [x]) == if x > Max(xs) then |xs| else FirstArgMax(xs)
    ensures Max(xs + [x]) == if x > Max(xs) then x else Max(xs)
  {
    assert (xs + [x])[..|xs|] == xs;
  }
}
