# A verified model of a finite-MDP pipeline

This project models the core of a small Java library for finite Markov
decision processes. It covers the whole pipeline:

- Validate a model (`MDP`).
- Record episodes (`Trajectory`).
- Estimate a model from them by counting (`MDPEstimator`).
- Solve the estimate with value iteration (`ValueIteration`).
- Evaluate a fixed, optionally ε-greedy, policy (`PolicyEvaluation`).
- Regularise a transition table towards its action-marginal mean (the table
  transforms of `EpsilonExperimentRunner`).

States and actions are the ids `0 .. n-1`. Every table is dense and indexed
`[from][action][to]`. Iteration over the Java hash sets is modelled as
increasing id order. Java `double`s are Dafny `real`s. The tolerance 0.0001
and the cap of 10000 sweeps are kept. Every random draw is a parameter:
- the tie-break of `computePolicy`;
- the ε coin and the random action of policy evaluation;
- the Gaussian draw of `getReward`;
- the sampler's index;
- the raw draws of the regularisation experiment.

Modules, one per file:

- `Tables` (`tables.dfy`): sums, maxima and row arithmetic shared by the others.
- `MdpModel` (`mdp.dfy`): the model as a datatype, the validating
  constructor, the lookups and the proposal distribution of
  `sampleRandomTransition`.
- `Trajectories` (`trajectory.dfy`): the episode log as a class with three
  counter tables that every step updates together. Its invariant is the
  conservation law: for every (s, a), the transition counts add up to the
  visit count.
- `Estimator` (`estimator.dfy`): the maximum-likelihood estimate. The central
  theorem is that its output always passes the model's validation.
- `ValueIterationSolver` (`value_iteration.dfy`): value iteration with
  in-place (Gauss–Seidel) sweeps, specified by the functions `SweepFrom` and
  `RunFrom`, plus policy extraction with its duplicated first maximiser.
- `PolicyEvaluationSolver` (`policy_evaluation.dfy`): the same loop for a
  fixed policy, specified by `EvalSweepFrom` and `EvalRunFrom`.
- `Regularization` (`regularization.dfy`): row normalisation, the mean over
  actions and the ε-blend.

## Model

| member | source | states |
|---|---|---|
| MdpModel.RowStochastic | src/main/java/simple/MDP/MDP.java:66-78 | the acceptance test for one row: every entry non-negative and the sum within 0.0001 of 1 |
| MdpModel.Stochastic | src/main/java/simple/MDP/MDP.java:66-80 | every (s, a) row of the table passes the row test |
| MdpModel.RowError | src/main/java/simple/MDP/MDP.java:69-78 | the error the validation loop raises for one row: a negative entry first, then a sum more than 0.0001 away from 1, otherwise none |
| MdpModel.NewMdp | src/main/java/simple/MDP/MDP.java:59-83 | construction succeeds exactly when every row is non-negative and sums to 1 within 0.0001; on success the model holds the given tables; on failure the error is the one raised for the first bad row in state-then-action order |
| MdpModel.RowErrorIsRowStochastic | src/main/java/simple/MDP/MDP.java:66-80 | a row raises no error iff it is non-negative and sums to 1 within the tolerance |
| MdpModel.GetTransition | src/main/java/simple/MDP/MDP.java:93-95 | the stored probability, which for a validated model lies in [0, 1 + tolerance] |
| MdpModel.GetReward | src/main/java/simple/MDP/MDP.java:105-107 | the stored reward whatever the Gaussian draw, since the noise is 0 |
| MdpModel.ValidRowHasPositiveSum | src/main/java/simple/MDP/MDP.java:66-80 | every row of a validated model has a positive sum |
| MdpModel.Support | src/main/java/simple/MDP/MDP.java:153-155 | the next states with positive probability, each once, in increasing order |
| MdpModel.UniformSupportPmf | src/main/java/simple/MDP/MDP.java:153-156 | the pmf pairs every supported next state with weight 1 / numReachable |
| MdpModel.UniformSupportIsDistribution | src/main/java/simple/MDP/MDP.java:152-159 | the proposal pmf is non-empty, names exactly the next states of positive probability, each once and in increasing order, gives each 1/n, and its weights sum to 1; so every reachable state has probability 1/numReachable |
| MdpModel.SupportMembership | src/main/java/simple/MDP/MDP.java:153-156 | a next state is in the pmf iff its probability is positive |
| MdpModel.SampleRandomTransition | src/main/java/simple/MDP/MDP.java:152-159 | the sampled next state is a state of the model with positive probability |
| MdpModel.ModelPmfIsDistribution | src/main/java/simple/MDP/MDP.java:152-159 | for every (s, a) of a validated model the proposal pmf is non-empty, lists distinct next states of the model with positive probability, and its weights sum to 1, so the sampler always has something to draw |
| Trajectories.Trajectory.constructor | src/main/java/simple/MDP/Trajectory.java:48-66 | empty log, length 0, every counter zero, invariant established |
| Trajectories.NewCounters | src/main/java/simple/MDP/Trajectory.java:55-64 | the nested loops produce all-zero tables of the right shape that satisfy the invariant |
| Trajectories.ZeroCountersConsistent | src/main/java/simple/MDP/Trajectory.java:48-66 | zero tables conserve, and their totals match an empty log |
| Trajectories.Trajectory.Initialize | src/main/java/simple/MDP/Trajectory.java:68-70 | appends the state to the log and changes nothing else |
| Trajectories.Trajectory.Step | src/main/java/simple/MDP/Trajectory.java:72-91 | the counters become Record of the old ones; the log grows by next state, action and reward; length grows by 1; the invariant is kept |
| Trajectories.Record | src/main/java/simple/MDP/Trajectory.java:74-85 | the counter update of one step: one more visit, r more reward and one more transition at (current, a, next) |
| Trajectories.RecordTouchesOnlyCurrent | src/main/java/simple/MDP/Trajectory.java:74-85 | a step adds 1 visit, r reward and 1 transition to (current, a, next) and leaves every other entry unchanged |
| Trajectories.RecordKeepsConservation | src/main/java/simple/MDP/Trajectory.java:72-91 | a step keeps conservation, raises the visit total by 1 and the reward total by r |
| Trajectories.RecordTotals | src/main/java/simple/MDP/Trajectory.java:75-80 | the visit total grows by 1 and the reward total by r |
| Trajectories.StepKeepsConsistent | src/main/java/simple/MDP/Trajectory.java:72-91 | recording and logging one step together preserve the whole invariant |
| Trajectories.Trajectory.Stats | src/main/java/simple/MDP/Trajectory.java:106-116 | the counter tables conserve; visits add up to the length; reward totals add up to the logged rewards |
| Estimator.PooledVisits | src/main/java/simple/experiment/model_based/MDPEstimator.java:64 | the stream sum of the visit counts of (s, a) over all trajectories |
| Estimator.PooledReward | src/main/java/simple/experiment/model_based/MDPEstimator.java:66 | the stream sum of the reward totals of (s, a) over all trajectories |
| Estimator.PooledTransitions | src/main/java/simple/experiment/model_based/MDPEstimator.java:68 | the stream sum of the transition counts (s, a, s') over all trajectories |
| Estimator.PooledRow | src/main/java/simple/experiment/model_based/MDPEstimator.java:67-68 | the pooled transition counts of (s, a), one per next state |
| Estimator.PooledRowSumsToVisits | src/main/java/simple/experiment/model_based/MDPEstimator.java:64-68 | if every trajectory conserves, the pooled transition counts of (s, a) add up to its pooled visits |
| Estimator.EstimatedTransitionRow | src/main/java/simple/experiment/model_based/MDPEstimator.java:64-77 | an estimated row has one entry per next state, all non-negative |
| Estimator.EstimatedRewardRow | src/main/java/simple/experiment/model_based/MDPEstimator.java:66-75 | one reward per (s, a) is broadcast to every next state |
| Estimator.EstimatedRowIsDistribution | src/main/java/simple/experiment/model_based/MDPEstimator.java:59-83 | under conservation every estimated row is non-negative and sums to exactly 1, visited or not |
| Estimator.VisitedRowSumsToOne | src/main/java/simple/experiment/model_based/MDPEstimator.java:65-71 | a visited pair's ratios count / visits sum to 1 |
| Estimator.EstimatedEntries | src/main/java/simple/experiment/model_based/MDPEstimator.java:64-77 | entry by entry: count/visits and reward/visits for a visited pair; 1/\|S\| and 0.5 for an unvisited one |
| Estimator.NoDataGivesFallback | src/main/java/simple/experiment/model_based/MDPEstimator.java:73-77 | with no trajectories every row is uniform with reward 0.5 |
| Estimator.EstimateModel | src/main/java/simple/experiment/model_based/MDPEstimator.java:59-83 | the loops fill both tables with exactly the estimated rows; under conservation the transition table is stochastic |
| Estimator.EstimateState | src/main/java/simple/experiment/model_based/MDPEstimator.java:61-81 | the loop over the actions of one state yields, for every action, the estimated transition and reward rows |
| Estimator.EstimatedTableIsStochastic | src/main/java/simple/experiment/model_based/MDPEstimator.java:59-83 | under conservation a table made of the estimated rows passes the model's validation |
| Estimator.EstimateRow | src/main/java/simple/experiment/model_based/MDPEstimator.java:62-80 | the per-pair loop yields the estimated transition and reward rows |
| Estimator.Snapshot | src/main/java/simple/experiment/model_based/MDPEstimator.java:64-68 | the counter tables the stream sums read, one per trajectory, equal to its current counters; read from valid trajectories of the estimator's shape they all conserve |
| Estimator.EstimateMdp | src/main/java/simple/experiment/model_based/MDPEstimator.java:55-56 | estimating and then constructing the model never fails, and yields a well-formed model holding the estimated tables |
| Estimator.MdpEstimator.constructor | src/main/java/simple/experiment/model_based/MDPEstimator.java:50-57 | the estimator holds the estimated tables and a well-formed model built from them |
| ValueIterationSolver.ValueIteration.constructor | src/main/java/simple/algorithms/ValueIteration.java:64-80 | V(s) = 0 for every state; Q(s, a) = 0 for every pair and no other key; P empty |
| ValueIterationSolver.ValueIteration.WithoutBeta | src/main/java/simple/algorithms/ValueIteration.java:82-93 | beta 0, V(s) = 0 for every state, Q and P empty |
| ValueIterationSolver.ZeroValues | src/main/java/simple/algorithms/ValueIteration.java:72-74 | the loop yields one 0 per state |
| ValueIterationSolver.Backup | src/main/java/simple/algorithms/ValueIteration.java:109-112 | the partial sum of T·(R + γ·V) over the first k next states |
| ValueIterationSolver.QValue | src/main/java/simple/algorithms/ValueIteration.java:109-113 | the value stored as Q(s, a): the lookahead over all next states |
| ValueIterationSolver.QRow | src/main/java/simple/algorithms/ValueIteration.java:108-117 | one Q value per action of a state, each the lookahead of that action |
| ValueIterationSolver.StoreRow | src/main/java/simple/algorithms/ValueIteration.java:113 | the Q table after Q.put(s, a, row[a]) for each action in order |
| ValueIterationSolver.ExpectedValue | src/main/java/simple/algorithms/ValueIteration.java:109-112 | the inner sum equals the Bellman lookahead Σ T·(R + γ·V) of (s, a) |
| ValueIterationSolver.BackupRow | src/main/java/simple/algorithms/ValueIteration.java:106-121 | stores the Q row of the state and sets V(state) to its maximum (the first action beats the initial -Infinity): exactly the backup BackedUp |
| ValueIterationSolver.BackupStep | src/main/java/simple/algorithms/ValueIteration.java:108-117 | one action of the backup loop extends the stored Q row by that action, and the running maximum moves only on a strictly larger value |
| ValueIterationSolver.SweepFrom | src/main/java/simple/algorithms/ValueIteration.java:105-126 | the rest of a sweep from state k: back up each later state in order from the values as updated so far |
| ValueIterationSolver.Sweep | src/main/java/simple/algorithms/ValueIteration.java:103-126 | one whole in-place sweep over the states |
| ValueIterationSolver.Converged | src/main/java/simple/algorithms/ValueIteration.java:123-125 | no value moved by more than the tolerance |
| ValueIterationSolver.SweepValues | src/main/java/simple/algorithms/ValueIteration.java:103-126 | the loop over the states yields the Gauss–Seidel sweep Sweep of the starting tables; the flag is true iff no value moved by more than the tolerance |
| ValueIterationSolver.ConvergedBelowFrame | src/main/java/simple/algorithms/ValueIteration.java:123-125 | whether the first k states converged depends only on their values, so later updates do not change it |
| ValueIterationSolver.ConvergedBelowAll | src/main/java/simple/algorithms/ValueIteration.java:123-125 | the flag kept over the first k states is true iff each of them moved by at most the tolerance |
| ValueIterationSolver.ValueIteration.SweepInPlace | src/main/java/simple/algorithms/ValueIteration.java:103-126 | one pass over the states is the Gauss–Seidel sweep; the flag says no value moved by more than the tolerance |
| ValueIterationSolver.ValueIteration.Run | src/main/java/simple/algorithms/ValueIteration.java:98-130 | the final V and Q are those of RunFrom, with its sweep count; afterwards every (s, a) has a Q value |
| ValueIterationSolver.RunFrom | src/main/java/simple/algorithms/ValueIteration.java:98-130 | between 1 and 10000 sweeps; the last result is one sweep of the tables before it; converged iff that sweep moved no value by more than the tolerance; early exit only on convergence |
| ValueIterationSolver.BackedUp | src/main/java/simple/algorithms/ValueIteration.java:106-121 | updating one state changes V at that state only |
| ValueIterationSolver.StoreRowFacts | src/main/java/simple/algorithms/ValueIteration.java:108-117 | storing a Q row sets every (s, a) of that state and keeps the other states' entries |
| ValueIterationSolver.SweepFromKeeps | src/main/java/simple/algorithms/ValueIteration.java:105-126 | the rest of a sweep leaves the earlier states alone in V and Q |
| ValueIterationSolver.SweepIsGaussSeidel | src/main/java/simple/algorithms/ValueIteration.java:105-126 | each state's Q row is computed from the new values of the states before it and the old values of the rest; its V is that row's maximum |
| ValueIterationSolver.SweepFromIsGaussSeidel | src/main/java/simple/algorithms/ValueIteration.java:105-126 | the same for the rest of a sweep from any state |
| ValueIterationSolver.SweepFromIsGaussSeidelAt | src/main/java/simple/algorithms/ValueIteration.java:105-126 | for one state at or after the start of the rest of a sweep: its Q row comes from the values already updated before it, and its V is that row's maximum |
| ValueIterationSolver.SweepFromFirstState | src/main/java/simple/algorithms/ValueIteration.java:106-121 | the first state of the rest of a sweep is backed up from the values as they are |
| ValueIterationSolver.RunFillsQ | src/main/java/simple/algorithms/ValueIteration.java:105-117 | after run every (s, a) has a Q value, even when Q started empty |
| ValueIterationSolver.MyopicBackup | src/main/java/simple/algorithms/ValueIteration.java:109-112 | with γ = 0 the lookahead is the expected immediate reward, whatever V is |
| ValueIterationSolver.MyopicSweep | src/main/java/simple/algorithms/ValueIteration.java:105-126 | with γ = 0 one sweep sets V(s) = max_a Σ T·R for every state |
| ValueIterationSolver.MyopicRunStopsWithinTwoSweeps | src/main/java/simple/algorithms/ValueIteration.java:98-130 | with γ = 0 run ends within 2 sweeps with V(s) = max_a Σ T·R |
| ValueIterationSolver.SweepFromFixedPoint | src/main/java/simple/algorithms/ValueIteration.java:105-126 | a solution of V(s) = max_a Q(s, a) is left unchanged by a sweep |
| ValueIterationSolver.BellmanFixedPointIsStable | src/main/java/simple/algorithms/ValueIteration.java:98-130 | run from a solution of the Bellman optimality equation ends after 1 converged sweep with V unchanged |
| ValueIterationSolver.CountAppend | src/main/java/simple/algorithms/ValueIteration.java:177-179 | the occurrences of a value in a concatenation are those in each part |
| ValueIterationSolver.CountOfEntry | src/main/java/simple/algorithms/ValueIteration.java:184 | every entry of the tie list occurs in it |
| ValueIterationSolver.TiesCount | src/main/java/simple/algorithms/ValueIteration.java:177-179 | each later maximiser is listed exactly once, and no other index occurs |
| ValueIterationSolver.TiesAppend | src/main/java/simple/algorithms/ValueIteration.java:177-179 | one more action adds its index at the end of the later ties exactly when its value equals the maximum |
| ValueIterationSolver.TieList | src/main/java/simple/algorithms/ValueIteration.java:168-180 | the list the action loop builds: the first maximiser twice, then the later maximisers in order |
| ValueIterationSolver.TieListMultiplicity | src/main/java/simple/algorithms/ValueIteration.java:168-180 | the tie list holds the first maximiser twice, every other maximiser once, and no other action |
| ValueIterationSolver.TieListIsMaximisers | src/main/java/simple/algorithms/ValueIteration.java:168-180 | the tie list has at least 2 entries, and every entry is an action with the maximal Q value |
| ValueIterationSolver.TieListAppend | src/main/java/simple/algorithms/ValueIteration.java:170-180 | one more action restarts the list on a strict improvement, extends it on a tie, leaves it otherwise |
| ValueIterationSolver.TieListStep | src/main/java/simple/algorithms/ValueIteration.java:168-180 | one iteration of the action loop: the maximum and the tie list of the first a + 1 actions follow from those of the first a |
| ValueIterationSolver.MaxActions | src/main/java/simple/algorithms/ValueIteration.java:168-180 | the loop builds exactly the tie list (empty for no actions) |
| ValueIterationSolver.Pick | src/main/java/simple/algorithms/ValueIteration.java:168-184 | the drawn action is an action whose Q value is the maximum of its state's row |
| ValueIterationSolver.ValueIteration.ComputePolicy | src/main/java/simple/algorithms/ValueIteration.java:166-193 | every state gets its Pick; keys of P outside the states keep their values; V and Q unchanged |
| ValueIterationSolver.PolicyAgreesStep | src/main/java/simple/algorithms/ValueIteration.java:184 | putting one state's pick into P extends the agreement to that state |
| ValueIterationSolver.PolicyChosenStep | src/main/java/simple/algorithms/ValueIteration.java:184 | after the put, every state up to this one maps to its pick |
| PolicyEvaluationSolver.PolicyEvaluation.constructor | src/main/java/simple/algorithms/PolicyEvaluation.java:75-85 | keeps ε and the policy; V(s) = 0 for every state |
| PolicyEvaluationSolver.PolicyEvaluation.WithoutEpsilon | src/main/java/simple/algorithms/PolicyEvaluation.java:63-73 | ε = 0; V(s) = 0 for every state |
| PolicyEvaluationSolver.Chosen | src/main/java/simple/algorithms/PolicyEvaluation.java:99-105 | the action taken is an action of the model; with ε ≤ 0 it is always the policy's; with ε ≥ 1 it is always the random one |
| PolicyEvaluationSolver.EvalSweepFrom | src/main/java/simple/algorithms/PolicyEvaluation.java:97-120 | the rest of a sweep from state k: each later state gets the lookahead of its chosen action under the values as updated so far |
| PolicyEvaluationSolver.EvalSweep | src/main/java/simple/algorithms/PolicyEvaluation.java:95-120 | one whole in-place sweep over the states |
| PolicyEvaluationSolver.EvalRunFrom | src/main/java/simple/algorithms/PolicyEvaluation.java:90-124 | between 1 and 10000 sweeps; the last result is one sweep of the values before it; converged iff within the tolerance; early exit only on convergence |
| PolicyEvaluationSolver.PolicyEvaluation.SweepInPlace | src/main/java/simple/algorithms/PolicyEvaluation.java:95-120 | one pass over the states is the sweep of EvalSweep; the flag says no value moved by more than the tolerance |
| PolicyEvaluationSolver.PolicyEvaluation.Run | src/main/java/simple/algorithms/PolicyEvaluation.java:90-124 | the final V is that of EvalRunFrom, with its sweep count |
| PolicyEvaluationSolver.EvalSweepFromKeeps | src/main/java/simple/algorithms/PolicyEvaluation.java:97-120 | the rest of a sweep leaves the earlier states alone |
| PolicyEvaluationSolver.EvalSweepIsGaussSeidel | src/main/java/simple/algorithms/PolicyEvaluation.java:97-120 | each state's value is the lookahead of its chosen action under the new values of the states before it and the old values of the rest |
| PolicyEvaluationSolver.EvalSweepFromIsGaussSeidel | src/main/java/simple/algorithms/PolicyEvaluation.java:97-120 | the same for the rest of a sweep from any state |
| PolicyEvaluationSolver.EvalSweepFromFirstState | src/main/java/simple/algorithms/PolicyEvaluation.java:107-115 | the first state of the rest of a sweep is evaluated from the values as they are |
| PolicyEvaluationSolver.EvalSweepFromFixedPoint | src/main/java/simple/algorithms/PolicyEvaluation.java:97-120 | values that already satisfy every state's equation are left unchanged by a sweep |
| PolicyEvaluationSolver.PolicyFixedPointIsStable | src/main/java/simple/algorithms/PolicyEvaluation.java:90-124 | with ε = 0, run from a solution of the policy's Bellman equation ends after 1 converged sweep with V unchanged |
| PolicyEvaluationSolver.MyopicEvalSweep | src/main/java/simple/algorithms/PolicyEvaluation.java:107-119 | with γ = 0 and ε = 0 a sweep sets V(s) = Σ T(s, π(s), s')·R(s, π(s), s') |
| PolicyEvaluationSolver.MyopicEvalStopsWithinTwoSweeps | src/main/java/simple/algorithms/PolicyEvaluation.java:90-124 | with γ = 0 and ε = 0 run ends within 2 sweeps with those values |
| Regularization.RowSum | src/main/java/simple/experiment/full/EpsilonExperimentRunner.java:210 | the norm is the sum of the row |
| Regularization.NormalizeRow | src/main/java/simple/experiment/full/EpsilonExperimentRunner.java:210-213 | the row divided by its own sum |
| Regularization.Normalized | src/main/java/simple/experiment/full/EpsilonExperimentRunner.java:210-213 | a row divided by its sum, entry by entry |
| Regularization.NormalizedSumsToOne | src/main/java/simple/experiment/full/EpsilonExperimentRunner.java:210-213 | a row with a non-zero sum sums to 1 after normalisation |
| Regularization.NormalizedIsDistribution | src/main/java/simple/experiment/full/EpsilonExperimentRunner.java:206-213 | non-negative draws with a positive sum become a distribution |
| Regularization.NormalizeTable | src/main/java/simple/experiment/full/EpsilonExperimentRunner.java:204-216 | every (s, a) row of the table is replaced by its normalised row (the same loop normalises the mean rows at 235-242) |
| Regularization.NormalizedRowsSumToOne | src/main/java/simple/experiment/full/EpsilonExperimentRunner.java:203-216 | every normalised row sums to 1 |
| Regularization.ColumnSums | src/main/java/simple/experiment/full/EpsilonExperimentRunner.java:222-231 | the inner loops give Σ_{a'} T(s, a', s') for each next state |
| Regularization.ActionSums | src/main/java/simple/experiment/full/EpsilonExperimentRunner.java:218-233 | every (s, a) gets the mean row of s: the same row for every action of the state |
| Regularization.PartialMeanSum | src/main/java/simple/experiment/full/EpsilonExperimentRunner.java:226-229 | over rows that sum to 1, the column sums over k actions add up to k |
| Regularization.ColumnSumNonNegative | src/main/java/simple/experiment/full/EpsilonExperimentRunner.java:226-229 | column sums of non-negative rows are non-negative |
| Regularization.MeanRow | src/main/java/simple/experiment/full/EpsilonExperimentRunner.java:220-231 | the column sums of a state's rows over all actions, before normalisation |
| Regularization.NormalizedMean | src/main/java/simple/experiment/full/EpsilonExperimentRunner.java:235-242 | the mean row divided by its own norm |
| Regularization.MeanRowSum | src/main/java/simple/experiment/full/EpsilonExperimentRunner.java:235-237 | over rows that sum to 1, the mean row's norm is the number of actions |
| Regularization.MeanRowsNonZero | src/main/java/simple/experiment/full/EpsilonExperimentRunner.java:235-242 | no mean row has a zero norm, so the second normalisation is defined |
| Regularization.NormalizedMeanIsAverage | src/main/java/simple/experiment/full/EpsilonExperimentRunner.java:235-242 | the normalised mean entry is Σ_{a'} T(s, a', s') / \|A\|; it sums to 1 and is a distribution when the rows are |
| Regularization.Blend | src/main/java/simple/experiment/full/EpsilonExperimentRunner.java:244-254 | every entry is (1 − ε)·T + ε·mean |
| Regularization.BlendEndpoints | src/main/java/simple/experiment/full/EpsilonExperimentRunner.java:250 | ε = 0 gives the row; ε = 1 gives the mean |
| Regularization.BlendedEntryNonNegative | src/main/java/simple/experiment/full/EpsilonExperimentRunner.java:250 | an entry blended with ε in [0, 1] from non-negative entries is non-negative |
| Regularization.BlendIsDistribution | src/main/java/simple/experiment/full/EpsilonExperimentRunner.java:246-254 | a blend with ε in [0, 1] of two distributions is a distribution |
| Regularization.RegularizedEndpoints | src/main/java/simple/experiment/full/EpsilonExperimentRunner.java:250 | ε = 0 returns the normalised table; ε = 1 returns the normalised mean, identical for every action of a state |
| Regularization.RegularizedRow | src/main/java/simple/experiment/full/EpsilonExperimentRunner.java:246-252 | the blend of a normalised row with its state's normalised mean |
| Regularization.RegularizedIsDistribution | src/main/java/simple/experiment/full/EpsilonExperimentRunner.java:244-254 | for ε in [0, 1] every regularised row is a distribution without renormalisation |
| Regularization.RegularizedIsStochastic | src/main/java/simple/experiment/full/EpsilonExperimentRunner.java:244-254 | for ε in [0, 1] and non-negative draws the regularised table passes the model's validation |
| Regularization.Regularize | src/main/java/simple/experiment/full/EpsilonExperimentRunner.java:203-254 | the whole transform: normalised rows, normalised action mean, blend; for ε in [0, 1] and non-negative draws the result is stochastic |

## Left out

- The experiment drivers are not part of this model: the grid loops, policy counting, printing, timing and `main` methods.
- Random MDP generation and trajectory generation (`RandomMDP`, `DataGenerator`) are not part of this model.
- `MDP.sampleTransition`, `getRandomState` and `getRandomAction` draw from library samplers. Only the proposal pmf of `sampleRandomTransition` is modelled; the sampler's draw is an index parameter.
- `ValueIteration.runQ`, `boltzmann` and `getStochasticPolicy` (the Boltzmann variant) are not part of this model. In this model `beta` is stored and never read.
- `MDP.setTransition` and the four-argument `MDPEstimator` constructor, which the experiment runner calls, are not part of this model. The regularised table is returned as a value.
- Getters (`getValueFunction`, `getPolicy`, `getMdp`, `getStates`, …) are field reads of the classes.
- `toString` and every other form of output is left out.
- Floating point: doubles are reals, so rounding, NaN and infinities are not modelled. The equality test that builds the tie list compares exactly, as the source does.
- Concurrency: none in the core.
- HashMap and HashSet iteration order is modelled as increasing id order.
- ValueIterationSolver.ValueIteration.Run: requires at least one action. With none, the source stores -Infinity as every V(s).
- ValueIterationSolver.ValueIteration.ComputePolicy: requires at least one action and a Q value for every pair. With none, `nextInt(0)` throws or a missing Q entry fails to unbox.
- ValueIterationSolver.ValueIteration.ComputePolicy: the tie-break draw is a parameter `draw(state, n) < n` in place of `new Random().nextInt(n)`.
- PolicyEvaluationSolver.PolicyEvaluation.Run: requires every state to have a policy action that is an action of the model. A missing one would throw in the source.
- PolicyEvaluationSolver.PolicyEvaluation.Run: the coin `nextDouble` and the random action index are parameters. They are assumed to lie in [0, 1) and among the actions.
- ValueIterationSolver.ValueIteration.SweepInPlace: the sweep runs on value copies of V and Q (SweepValues) and writes them back to the fields at the end. It is still Gauss–Seidel: each state is backed up from the values already updated in the same sweep. Aliasing of the Java maps during the sweep is not modelled.
- ValueIterationSolver.ValueIteration.Run and PolicyEvaluationSolver.PolicyEvaluation.Run return the number of sweeps, which the source keeps in a local variable.
- Regularization.Regularize: requires every raw row to have a non-zero sum. An all-zero row would make the source divide 0 by 0 and produce NaN.
- Trajectories.Trajectory.Step: `length` and the counters are unbounded, so Java's 32-bit int overflow is not modelled.
- Estimator.EstimateModel: pooled counts are unbounded naturals, so int overflow of the stream sums is not modelled.
- Estimator.MdpEstimator.constructor: the estimator reads each trajectory's counter tables as values (`Snapshot`). Aliasing between the Java maps is not modelled.
- Trajectories.Trajectory.Step: requires a logged state, and requires the last logged state, `a` and `next` to be ids of the model. On an empty log the source throws an IndexOutOfBoundsException; with any other id it unboxes a missing Table or Map entry and throws a NullPointerException. The model does not represent these exceptions.
- Estimator.MdpEstimator.constructor: requires every trajectory to have the estimator's numbers of states and actions. A trajectory of another shape makes the stream sums of the source unbox a missing entry and throw a NullPointerException; the model does not represent that exception.
- Trajectories.Trajectory.Initialize models `intialize` (the source's spelling). It does not check that the state belongs to the model, and neither does the source.
