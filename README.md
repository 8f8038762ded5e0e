# OWD multi-criteria toolkit, modelled in Dafny

This project models the computational core of OWD. OWD is a toolkit for
multi-criteria decision making: it finds the non-dominated points of a data
set and ranks alternatives. The model covers these parts:

- **Points.** Points are vectors with coordinate-wise `<=`, `>=` and `==`. Every comparison bumps a point counter and a coordinate counter. The coordinate counter moves by `argmin(predicate) + 1`, so it moves by 1 when every coordinate passes.
- **Frontier algorithms.** There are three of them: `naive_without_filtering`, `naive_with_filtering` and `ideal_point_method`. Each one runs nested loops over an `active` array of flags. They are modelled as methods over a Dafny `array<bool>`, with the counters held in an explicit `Counter` object.
- **Ideal point and scalarisation.** The ideal point is the coordinate-wise minimum. Scalarisation takes the first point that minimises a metric of its difference to a reference point.
- **`DataPointModel`.** This class stores the data, runs an algorithm over it and splits the data into non-dominated and dominated points.
- **Ranking methods.** Two ranking methods use only field operations: UTA-Star with two parts per criterion, and VIKOR. Both are modelled over exact `real` arithmetic.
- **Ranking comparison.** The two ranking distances are modelled, along with `compare`, which validates its arguments and then dispatches by name.
- **Criteria editor.** The editor keeps criterion labels, directions and data columns in step. It also generates fresh criterion names.
- **Publish/subscribe registry.** It maps each event type to an ordered list of callbacks.
- **Ranking action menu.** It selects the reference sets by class label and makes its calls on the model in a fixed order.

The main results:

- `naive_with_filtering` returns exactly the frontier, each value once.
- `naive_without_filtering` returns only frontier values and covers every input point.
- `ideal_point_method` is sound and pairwise incomparable.
- The version of `ideal_point_method` with a complete loop also covers every input.
- UTA-Star's utility of each point is the closed form `sum of w * (x - min) / (max - min)`. It lies in `[0, sum of weights]` and it is monotone in every criterion.
- VIKOR's Q values lie in `[0, 1)`, are monotone, and are ranked in descending order.
- The criteria editor keeps labels, directions and columns in step.
- `post_event` makes one call per subscription, in subscription order.

Modules follow the source files:

- `Points` (point.py);
- `NaiveWithoutFiltration`, `Filtered` and `IdealPoint` (the three algorithms);
- `ScalarIdealPoint`;
- `Model` (app/model.py);
- `UtaStar`, `Vikor` and `RankingComparison`;
- `CriteriaEditor`, `Events` and `RankingActionMenu`;
- shared foundations: `Wrappers` (Option/Result with the Python exception kinds), `Dominance` (frontier notions), `Sorting` (Python's stable sort), `Rankings` (the `Ranking` pair) and `Matrix` (column minima, maxima and sums);
- `Scenarios`, which runs the algorithms on the repository's test data set and on a three-point counterexample.

These inputs are parameters of the model:

- the frontier algorithm given to `DataPointModel`;
- the metric of `scalarisation`;
- the Spearman and Kendall coefficients (computed by scipy in the source);
- the ranking method registry of the action menu.

## Model

| member | source | states |
|---|---|---|
| Points.LePredicate | app/algorithms/point.py:30 | entry k of `self.x <= other.x` is true exactly when coordinate k of p is at most that of q |
| Points.GePredicate | app/algorithms/point.py:36 | entry k of `self.x >= other.x` is true exactly when coordinate k of p is at least that of q |
| Points.EqPredicate | app/algorithms/point.py:24 | entry k of `self.x == other.x` is true exactly when the coordinates are equal |
| Points.FirstFalse | app/algorithms/point.py:25 | the first false entry of a vector that has one: false, and every earlier entry true |
| Points.ArgMin | app/algorithms/point.py:25 | `np.argmin` of a boolean vector is its first False, or 0 when every entry is True |
| Points.Neg | app/algorithms/point.py:13-14 | `-p` keeps the dimension |
| Points.NegNeg | app/algorithms/point.py:13-14 | `-(-p)` is p |
| Points.NegReversesLeq | app/algorithms/point.py:13-14 | `p <= q` exactly when `-q <= -p` |
| Points.CreatePointsFromDatapoints | app/algorithms/point.py:58-59 | one point per datapoint, same order, same coordinates, dim equal to their number |
| Points.Counter.constructor | app/algorithms/point.py:6-7 | both counters start at 0 |
| Points.Counter.ResetCounter | app/algorithms/point.py:44-47 | both counters become 0 |
| Points.Counter.GetGlobalPointCounter | app/algorithms/point.py:49-51 | returns the point counter and changes nothing |
| Points.Counter.GetGlobalCoordinateCounter | app/algorithms/point.py:53-55 | returns the coordinate counter and changes nothing |
| Points.Counter.Record | app/algorithms/point.py:23-25 | point counter +1, coordinate counter + argmin(predicate) + 1 |
| Points.Counter.Le | app/algorithms/point.py:28-32 | result is coordinate-wise `<=`; point counter +1; coordinate counter + first failing index + 1, or + 1 when all pass |
| Points.Counter.Ge | app/algorithms/point.py:34-38 | result is coordinate-wise `>=`, with the same counter updates |
| Points.Counter.Eq | app/algorithms/point.py:22-26 | result is coordinate-wise equality, which is equality of the points, with the same counter updates |
| Points.LeqReflexive | app/algorithms/point.py:28-32 | `p <= p` always holds |
| Points.LeqTransitive | app/algorithms/point.py:28-32 | `<=` is transitive |
| Points.LeqAntisymmetric | app/algorithms/point.py:28-32 | points below each other are equal |
| Points.GeqIsFlippedLeq | app/algorithms/point.py:28-38 | `p >= q` exactly when `q <= p` |
| NaiveWithoutFiltration.ScanDeactivate | app/algorithms/naive_without_filtration.py:19-20 | a later index is deactivated only when the candidate weakly dominates it; the scan state is kept |
| NaiveWithoutFiltration.ScanPass | app/algorithms/naive_without_filtration.py:17-18 | an inactive or incomparable index changes nothing |
| NaiveWithoutFiltration.ScanReplace | app/algorithms/naive_without_filtration.py:21-23 | on strict improvement only i is deactivated and x becomes the candidate; j stays active |
| NaiveWithoutFiltration.Scan | app/algorithms/naive_without_filtration.py:15-23 | the inner loop: flags only go from True to False; later indices are cleared only below the final candidate; i is cleared only when the candidate was replaced |
| NaiveWithoutFiltration.ScanStep | app/algorithms/naive_without_filtration.py:17-23 | one step of the inner loop keeps the scan invariant |
| NaiveWithoutFiltration.ScannedCandidateNonDominated | app/algorithms/naive_without_filtration.py:15-24 | the candidate appended is strictly dominated by no input point |
| NaiveWithoutFiltration.EmitPreserves | app/algorithms/naive_without_filtration.py:24 | appending the candidate restores the outer invariant |
| NaiveWithoutFiltration.OuterSkip | app/algorithms/naive_without_filtration.py:13-14 | an inactive index whose value is not yet emitted is skipped, keeping the outer invariant |
| NaiveWithoutFiltration.NaiveWithoutFiltering | app/algorithms/naive_without_filtration.py:6-25 | at most one output per input; every output is a non-dominated input point; every input is weakly dominated by an output; empty input gives empty output |
| Filtered.CountTrue | app/algorithms/filtered.py:30 | `sum(active)` is at most the length |
| Filtered.ArgMax | app/algorithms/filtered.py:31 | `argmax(active)` is the first True entry when there is one |
| Filtered.SoleTrue | app/algorithms/filtered.py:30-31 | with exactly one True entry, `argmax` finds it and every other entry is False |
| Filtered.ScanDeactivate | app/algorithms/filtered.py:19-20 | a later index is deactivated only below the candidate |
| Filtered.ScanPass | app/algorithms/filtered.py:18 | an inactive or incomparable index changes nothing |
| Filtered.ScanReplace | app/algorithms/filtered.py:21-25 | on strict improvement both i and the old candidate index are deactivated and x becomes the candidate |
| Filtered.Scan | app/algorithms/filtered.py:15-25 | the inner loop as a whole keeps the scan invariant |
| Filtered.ScannedCandidateNonDominated | app/algorithms/filtered.py:15-26 | the appended candidate is strictly dominated by no input point |
| Filtered.Sweep | app/algorithms/filtered.py:27-29 | exactly the active points the candidate weakly dominates are deactivated, including its own index |
| Filtered.EmitPreserves | app/algorithms/filtered.py:26-29 | emission then sweep keeps outputs sound and pairwise, and the active flags mark exactly the uncovered points |
| Filtered.OuterSkip | app/algorithms/filtered.py:14 | an inactive index is skipped, keeping the outer invariant |
| Filtered.LastActivePreserves | app/algorithms/filtered.py:30-32 | the single point left active joins the output, which is then sound, complete and pairwise |
| Filtered.NaiveWithFiltering | app/algorithms/filtered.py:6-33 | every output is a non-dominated input point; every input is weakly dominated by an output; no output weakly dominates a later one |
| IdealPoint.MinCoord | app/algorithms/ideal_point.py:13 | the minimum of coordinate d is attained by some point and is at most every point's coordinate d |
| IdealPoint.Ideal | app/algorithms/ideal_point.py:11-16 | the ideal point has the points' dimension |
| IdealPoint.IdealBelowAll | app/algorithms/ideal_point.py:11-16 | the ideal point is weakly below every point, and each of its coordinates is attained |
| IdealPoint.ComputeIdealPoint | app/algorithms/ideal_point.py:11-16 | the loop computes the ideal point, which is below every point |
| IdealPoint.SumSquares | app/algorithms/ideal_point.py:7 | a sum of squares is non-negative |
| IdealPoint.DistanceBetweenPoints | app/algorithms/ideal_point.py:6-7 | the squared Euclidean distance is non-negative |
| IdealPoint.SumSquaresZero | app/algorithms/ideal_point.py:7 | the sum of squared differences is 0 exactly for equal vectors |
| IdealPoint.DistanceZero | app/algorithms/ideal_point.py:6-7 | the distance is 0 exactly between equal points |
| IdealPoint.SumSquaresMonotone | app/algorithms/ideal_point.py:6-7 | coordinate-wise nearer to m means a smaller distance, strictly when the points differ |
| IdealPoint.DominatorIsNearer | app/algorithms/ideal_point.py:6-22 | above the ideal point a strict dominator is strictly nearer, so it is visited first |
| IdealPoint.Distances | app/algorithms/ideal_point.py:18-20 | one distance per point, in input order |
| IdealPoint.VisitOrder | app/algorithms/ideal_point.py:18-22 | `sorted_indices` has one entry per point, each an index |
| IdealPoint.VisitOrderValid | app/algorithms/ideal_point.py:18-22 | `sorted_indices` is a permutation along which the distance never decreases |
| IdealPoint.Swept | app/algorithms/ideal_point.py:34-36 | after the sweep a flag is set exactly when it was set and the visited point does not weakly dominate that point |
| IdealPoint.Sweep | app/algorithms/ideal_point.py:34-36 | the sweep compares against every point, active or not, and makes one comparison per point |
| IdealPoint.PositionNotDominating | app/algorithms/ideal_point.py:29-38 | no point at any sorted position strictly dominates the active point being visited |
| IdealPoint.VisitedNonDominated | app/algorithms/ideal_point.py:29-38 | an active visited point is strictly dominated by no input point |
| IdealPoint.SkipPreserves | app/algorithms/ideal_point.py:30-32 | an inactive position is passed over, keeping the invariant |
| IdealPoint.EmitCovered | app/algorithms/ideal_point.py:34-38 | after an emission, every cleared flag belongs to a covered point |
| IdealPoint.EmitDeactivates | app/algorithms/ideal_point.py:34-38 | after an emission, every point an output dominates is cleared |
| IdealPoint.EmitSound | app/algorithms/ideal_point.py:38 | emitting a non-dominated input point keeps the output sound |
| IdealPoint.EmitPairwise | app/algorithms/ideal_point.py:38 | emitting a point no earlier output dominates keeps the output pairwise |
| IdealPoint.EmitPreserves | app/algorithms/ideal_point.py:34-41 | visiting an active position restores the invariant for the next position |
| IdealPoint.Visit | app/algorithms/ideal_point.py:30-41 | a visit emits exactly when the position is active; it deactivates every point the emitted point weakly dominates, itself included; it makes one comparison per input point |
| IdealPoint.TimesIsProduct | app/algorithms/ideal_point.py:34-35 | counting n per emission gives n times the number of emissions |
| IdealPoint.CountedVisit | app/algorithms/ideal_point.py:30-41 | a visit keeps the point counter at n per emitted point |
| IdealPoint.InitialInvariant | app/algorithms/ideal_point.py:24-27 | all flags True and no output satisfy the loop invariant |
| IdealPoint.GuardedExit | app/algorithms/ideal_point.py:29 | when `current_index <= total_points` fails: 1 to n/2 + 1 outputs, and every sorted position up to n - outputs is covered |
| IdealPoint.FullExit | app/algorithms/ideal_point.py:29 | after every sorted position is visited, every input point is covered |
| IdealPoint.Prepare | app/algorithms/ideal_point.py:11-22 | the ideal point and `sorted_indices` satisfy the visiting order's requirements |
| IdealPoint.IdealPointMethod | app/algorithms/ideal_point.py:10-43 | guard as written: outputs are non-dominated input points, pairwise incomparable, between 1 and n/2 + 1 of them; the sorted positions up to n - outputs are covered; n comparisons per output |
| IdealPoint.IdealPointMethodComplete | app/algorithms/ideal_point.py:10-43 | loop over every sorted position: same promises, and every input point is covered |
| Sorting.SortedIndices | app/algorithms/ideal_point.py:21-22 | the stably sorted indices are a permutation of 0..n-1 |
| Sorting.SortedIndicesCorrect | app/algorithms/ideal_point.py:21-22 | the stable ascending sort is a permutation with non-decreasing keys, and equal keys keep ascending index order |
| Sorting.SortedIndicesDescending | app/algorithms/uta_star.py:53 | `sorted(range(n), key, reverse=True)` is a permutation of 0..n-1 |
| Sorting.SortedIndicesDescendingCorrect | app/algorithms/uta_star.py:53 | the descending sort is a permutation with non-increasing keys, and equal keys keep ascending index order |
| Rankings.DescendingRanking | app/algorithms/uta_star.py:52-55 | the ranking is a permutation; its values are the scores read through it, never increasing, with ties in index order |
| ScalarIdealPoint.EstimateIdealPoint | app/algorithms/scalar_ideal_point.py:6-10 | `points[0].dim` coordinates, each the minimum over the points and attained by one; the result equals the ideal point of ideal_point.py |
| ScalarIdealPoint.Difference | app/algorithms/scalar_ideal_point.py:19 | `p.x - ideal.x` coordinate by coordinate |
| ScalarIdealPoint.FirstMinimum | app/algorithms/scalar_ideal_point.py:19 | `min` with a key picks a minimal key, strictly smaller than every earlier key |
| ScalarIdealPoint.Reference | app/algorithms/scalar_ideal_point.py:17-18 | a given ideal point is used unchanged; without one, the estimate is below every point |
| ScalarIdealPoint.MetricKeys | app/algorithms/scalar_ideal_point.py:19 | one key per point, the metric of its difference to the reference |
| ScalarIdealPoint.Scalarisation | app/algorithms/scalar_ideal_point.py:12-19 | the result is an input point with minimal metric, the first such one in list order |
| ScalarIdealPoint.DominatorScoresLower | app/algorithms/scalar_ideal_point.py:19 | under a strictly monotone metric, a strict dominator has a strictly smaller key |
| ScalarIdealPoint.ScalarisationNonDominated | app/algorithms/scalar_ideal_point.py:12-19 | under a strictly monotone metric the chosen point is non-dominated |
| Model.Unmatched | app/model.py:32-37 | the dominated list holds exactly the data points equal to no non-dominated point, and is no longer than the data |
| Model.UnmatchedAppend | app/model.py:34-36 | the filter is order-preserving over concatenation |
| Model.Partition | app/model.py:32-37 | every data point is in exactly one of the two lists, and both lists hold only data points |
| Model.UnmatchedAreDominated | app/model.py:27-37 | with a sound and covering algorithm, every dominated-list point is strictly dominated |
| Model.DataPointModel.constructor | app/model.py:6-9 | all three lists start empty |
| Model.DataPointModel.SetData | app/model.py:15-17 | the stored data is what a later read returns; nothing else changes |
| Model.DataPointModel.ProcessDataWithAlgorithm | app/model.py:27-30 | `non_dominated` is the algorithm's result, `dominated` the unmatched data, and the data is unchanged |
| Model.DataPointModel.FilterNonDominated | app/model.py:32-37 | returns the data points, in order, that equal none of the given points |
| Matrix.MinValue | app/algorithms/vikor.py:39 | the column minimum is attained and is at most every entry |
| Matrix.MaxValue | app/algorithms/vikor.py:40 | the column maximum is attained and is at least every entry |
| Matrix.SeqMin | app/algorithms/vikor.py:47 | `S.min()` is attained and is at most every entry |
| Matrix.SeqMax | app/algorithms/vikor.py:45 | a row maximum is attained and is at least every entry |
| Matrix.Rows | app/algorithms/vikor.py:37 | one row per point holding its coordinates |
| UtaStar.Put | app/algorithms/uta_star.py:20 | dict assignment: an existing key keeps its place and takes the new value; a new key goes last |
| UtaStar.Fill | app/algorithms/uta_star.py:20 | the comprehension's keys are the old keys and the parts, with no repeats |
| UtaStar.Comprehension | app/algorithms/uta_star.py:20 | the dict's keys are exactly the breakpoints, with no repeats |
| UtaStar.TwoPartDict | app/algorithms/uta_star.py:16-22 | with `[lo, hi]` the dict is `{lo: 0, hi: w}`, or `{lo: w}` when lo equals hi |
| UtaStar.PutIntoEmpty | app/algorithms/uta_star.py:20 | the first key put is the only entry |
| UtaStar.PutNewKey | app/algorithms/uta_star.py:20 | a new key goes after the existing one |
| UtaStar.PutExistingKey | app/algorithms/uta_star.py:20 | a repeated key takes the later value |
| UtaStar.Breakpoints | app/algorithms/uta_star.py:11 | two breakpoints, the column minimum and maximum, enclosing every value |
| UtaStar.DivideIntoParts | app/algorithms/uta_star.py:7-13 | one breakpoint pair per coordinate of the first point |
| UtaStar.CreateUsabilityFunctionValues | app/algorithms/uta_star.py:16-22 | criterion i gets `{parts[i][j]: w_i * j}` |
| UtaStar.Slope | app/algorithms/uta_star.py:32 | the slope times the key difference is the value difference |
| UtaStar.Intercept | app/algorithms/uta_star.py:33 | the line with that slope and intercept passes through entry j |
| UtaStar.LineThroughBreakpoints | app/algorithms/uta_star.py:32-33 | `a * k_j + b = v_j` and `a * k_{j+1} + b = v_{j+1}` |
| UtaStar.Segments | app/algorithms/uta_star.py:31-34 | one interval per consecutive key pair, mapped to the line through them |
| UtaStar.SegmentKeysDistinct | app/algorithms/uta_star.py:34 | the interval keys of one criterion are distinct, so no assignment overwrites another |
| UtaStar.CreateFunctions | app/algorithms/uta_star.py:25-36 | one interval dict per criterion |
| UtaStar.LinesOf | app/algorithms/uta_star.py:28-35 | the inner loop builds exactly the segments of one criterion |
| UtaStar.FirstContaining | app/algorithms/uta_star.py:44-47 | the first interval in dict order whose closed range holds x, or none when no interval holds it |
| UtaStar.FirstContainingAt | app/algorithms/uta_star.py:44-47 | the interval a scan stops at is the first containing one |
| UtaStar.Contribution | app/algorithms/uta_star.py:44-47 | a criterion none of whose intervals holds x contributes 0; a non-zero contribution comes from an interval that holds x |
| UtaStar.Contributions | app/algorithms/uta_star.py:43-47 | one contribution per criterion |
| UtaStar.AppendFirstMatch | app/algorithms/uta_star.py:44-47 | the scan adds `a * x + b` of the first containing interval, or nothing |
| UtaStar.PointUtility | app/algorithms/uta_star.py:42-48 | a point's utility is the sum of its contributions |
| UtaStar.Scores | app/algorithms/uta_star.py:45-46 | closed-form marginal utilities, one per criterion |
| UtaStar.Lows | app/algorithms/uta_star.py:11 | the lower breakpoint of each criterion |
| UtaStar.Highs | app/algorithms/uta_star.py:11 | the upper breakpoint of each criterion |
| UtaStar.ScoreBounds | app/algorithms/uta_star.py:32-33 | for w >= 0 a marginal utility lies in [0, w] |
| UtaStar.LineValue | app/algorithms/uta_star.py:32-33 | the line through (lo, 0) and (hi, w) at x is `w * (x - lo) / (hi - lo)` |
| UtaStar.ContributionIsScore | app/algorithms/uta_star.py:16-47 | dict, interval and first match together give the closed-form marginal utility, and 0 for a constant criterion |
| UtaStar.ContributionsAreScores | app/algorithms/uta_star.py:39-47 | a row's contributions over the pipeline's intervals are its closed-form marginal utilities |
| UtaStar.ClosedFormValues | app/algorithms/uta_star.py:58-66 | one utility per point |
| UtaStar.ClosedFormBounds | app/algorithms/uta_star.py:39-48 | with non-negative weights a utility lies in [0, sum of weights] |
| UtaStar.UtilityBounds | app/algorithms/uta_star.py:58-66 | every point's utility lies in [0, sum of weights] |
| UtaStar.ScoreMonotone | app/algorithms/uta_star.py:32-46 | a larger value never has a smaller marginal utility |
| UtaStar.UtilityMonotone | app/algorithms/uta_star.py:58-66 | a point at least as good on every criterion has at least the utility |
| UtaStar.PipelineBounds | app/algorithms/uta_star.py:59-64 | each criterion's intervals come from its min and max |
| UtaStar.RowIsClosedForm | app/algorithms/uta_star.py:39-48 | the solution table's value for a row is its closed-form utility |
| UtaStar.StagesGivePipeline | app/algorithms/uta_star.py:61-64 | the three building stages produce the pipeline's interval dicts |
| UtaStar.CreateSolutionTable | app/algorithms/uta_star.py:39-49 | the table holds every point's closed-form utility, in order |
| UtaStar.BuildIntervals | app/algorithms/uta_star.py:59-64 | breakpoints, dicts and lines give the pipeline's intervals |
| UtaStar.ComputeUtilities | app/algorithms/uta_star.py:59-66 | the stages and the table give the closed-form utilities |
| UtaStar.UtaStar | app/algorithms/uta_star.py:58-68 | the result ranks the points by closed-form utility: a permutation, values read through it, non-increasing, ties in index order |
| Vikor.GetStrategyThresholds | app/algorithms/vikor.py:16-28 | ByConsensus 0.5, MaximumGroupUtility 0.75, ByVeto 0.25; any other value is a ValueError naming it |
| Vikor.WeightedRow | app/algorithms/vikor.py:41-43 | row k of `norm_data * weights` |
| Vikor.GroupUtility | app/algorithms/vikor.py:44 | S is each row's sum |
| Vikor.IndividualRegret | app/algorithms/vikor.py:45 | R is each row's maximum |
| Vikor.Rescale | app/algorithms/vikor.py:47-48 | rescaling with +1e-6 puts every entry in [0, 1), maps the minimum to 0 and keeps the order |
| Vikor.Compromise | app/algorithms/vikor.py:51 | `Q = v * S + (1 - v) * R` entry by entry |
| Vikor.QValues | app/algorithms/vikor.py:37-51 | one Q value per point |
| Vikor.Vikor | app/algorithms/vikor.py:31-56 | no points, or no criteria, raise numpy's ValueError; an unknown strategy raises; otherwise a permutation with the Q values read through it, non-increasing |
| Vikor.DefaultStrategyRanks | app/algorithms/vikor.py:34 | the default strategy never fails on a valid matrix and uses v = 0.5 |
| Vikor.Normalized | app/algorithms/vikor.py:39-41 | the column minimum maps to 0 and the column maximum to 1 |
| Vikor.NormalizedBounds | app/algorithms/vikor.py:39-41 | normalised values lie in [0, 1]: the minimum maps to 0 and the maximum to 1 |
| Vikor.WeightedMonotone | app/algorithms/vikor.py:41-43 | with a non-negative weight a larger value is never weighted smaller |
| Vikor.RegretAtMostUtility | app/algorithms/vikor.py:44-45 | with non-negative weights 0 <= R <= S for every point |
| Vikor.Between | app/algorithms/vikor.py:51 | a weighted mean lies between its arguments |
| Vikor.MixBounds | app/algorithms/vikor.py:51 | a mean of two values in [0, 1) stays in [0, 1) |
| Vikor.MixSwap | app/algorithms/vikor.py:51 | swapping S and R swaps v and 1 - v |
| Vikor.MixMonotone | app/algorithms/vikor.py:51 | the mean grows with both arguments |
| Vikor.QBounds | app/algorithms/vikor.py:47-51 | every Q value lies in [0, 1) |
| Vikor.QMonotone | app/algorithms/vikor.py:39-51 | with non-negative weights a point at least as large on every criterion has at least the Q value |
| RankingComparison.AbsoluteDifference | app/algorithms/ranking_comparison.py:11-13 | the sum of absolute differences is never negative |
| RankingComparison.Weight | app/algorithms/ranking_comparison.py:18 | `np.maximum(n - a, n - b)`: at least both, and one of them |
| RankingComparison.WeightedSum | app/algorithms/ranking_comparison.py:17-19 | identical rankings have weighted sum 0 |
| RankingComparison.WeightedAbsoluteDifference | app/algorithms/ranking_comparison.py:15-19 | with n = len(rank2), identical rankings are at weighted distance 0 |
| RankingComparison.AbsoluteDifferenceZeroIff | app/algorithms/ranking_comparison.py:11-13 | non-negative, and 0 exactly for identical rankings |
| RankingComparison.AbsoluteDifferenceSymmetric | app/algorithms/ranking_comparison.py:11-13 | symmetric in its arguments |
| RankingComparison.AbsoluteDifferenceTriangle | app/algorithms/ranking_comparison.py:11-13 | satisfies the triangle inequality |
| RankingComparison.WeightedTerm | app/algorithms/ranking_comparison.py:17-19 | for ranks at most n a weighted term is non-negative, and 0 exactly for equal ranks |
| RankingComparison.WeightedSumSymmetric | app/algorithms/ranking_comparison.py:15-19 | the weighted sum is symmetric |
| RankingComparison.WeightedSumZeroIff | app/algorithms/ranking_comparison.py:15-19 | for ranks at most n the weighted sum is non-negative, and 0 exactly for identical rankings |
| RankingComparison.WeightedAbsoluteDifferenceProperties | app/algorithms/ranking_comparison.py:15-19 | with n = len(rank2): symmetric, 0 on identical rankings, and for ranks at most n 0 only on identical ones |
| RankingComparison.Compare | app/algorithms/ranking_comparison.py:31-46 | different lengths are a ValueError, checked first; an unknown name is a ValueError; otherwise the registered function's value |
| RankingComparison.CompareDifferencesSymmetric | app/algorithms/ranking_comparison.py:31-46 | comparing with either difference is symmetric, and gives 0 for a ranking against itself |
| CriteriaEditor.NatToString | app/components/criteria_editor.py:49 | decimal digits: one digit exactly below 10 |
| CriteriaEditor.NatToStringRoundTrip | app/components/criteria_editor.py:49 | reading the decimal form back gives the number |
| CriteriaEditor.NatToStringInjective | app/components/criteria_editor.py:49 | distinct numbers have distinct decimal forms |
| CriteriaEditor.DefaultName | app/components/criteria_editor.py:49 | the name is "Nowe Kryterium #" followed by at least one more character |
| CriteriaEditor.DefaultNameInjective | app/components/criteria_editor.py:49 | distinct indices give distinct names |
| CriteriaEditor.NamesBelow | app/components/criteria_editor.py:48-52 | exactly the names for indices 1 .. index - 1 |
| CriteriaEditor.NotBelow | app/components/criteria_editor.py:50-52 | the current name is not among the earlier ones |
| CriteriaEditor.NameStep | app/components/criteria_editor.py:50-52 | a taken name rules out one more label, so the loop ends |
| CriteriaEditor.AppendZeroColumn | app/components/criteria_editor.py:57-60 | same number of rows, each row with a 0 appended |
| CriteriaEditor.DeleteColumn | app/components/criteria_editor.py:67 | same number of rows, column idx removed from each |
| CriteriaEditor.Without | app/components/criteria_editor.py:65-66 | `pop(idx)`: one shorter, entries before idx unchanged, later ones shifted |
| CriteriaEditor.IndexOf | app/components/criteria_editor.py:64 | `list.index` gives the first position holding the value |
| CriteriaEditor.CriteriaModel.constructor | app/components/criteria_editor.py:7-30 | the model holds the given data, labels and directions |
| CriteriaEditor.CriteriaPresenter.constructor | app/components/criteria_editor.py:34-35 | the presenter works on the given model |
| CriteriaEditor.CriteriaPresenter.GetColumns | app/components/criteria_editor.py:44-45 | the columns are the labels |
| CriteriaEditor.CriteriaPresenter.GetDefaultNewCriteriaName | app/components/criteria_editor.py:47-53 | `"Nowe Kryterium #k"` for the smallest k >= 1 whose name is not a label; never already a label |
| CriteriaEditor.CriteriaPresenter.AddColumn | app/components/criteria_editor.py:55-60 | the fresh name appended to labels, "Min" to directions; a zero column appended to the data; rows and cells unchanged; labels, directions and columns stay in step |
| CriteriaEditor.CriteriaPresenter.RemoveColumn | app/components/criteria_editor.py:62-67 | an absent name changes nothing; a present one removes its first index from labels, directions and data columns; the model stays in step |
| CriteriaEditor.CriteriaPresenter.UpdateModel | app/components/criteria_editor.py:69-71 | labels and directions replaced, data untouched; in step when the table keeps its length |
| Events.Subscribers | app/components/events.py:13 | the `defaultdict(list)` lookup: a type's entry, or the empty list for a type with none |
| Events.Invocations | app/components/events.py:20-24 | one call per subscriber of the type, in order, each with the data |
| Events.Subscribed | app/components/events.py:16-17 | fn is appended to its type's list; every other type's list is unchanged |
| Events.CallsOf | app/components/events.py:23-24 | one call per callback, in order, each with the same data |
| Events.SubscribeThenPost | app/components/events.py:16-24 | after subscribing, posting that type makes the earlier calls and then one to fn; other types are unchanged |
| Events.CallsPerSubscription | app/components/events.py:23-24 | a callback subscribed k times is called k times |
| Events.Registry.constructor | app/components/events.py:13 | the registry starts empty |
| Events.Registry.Subscribe | app/components/events.py:16-17 | fn goes at the end of its type's list; other types' lists unchanged |
| Events.Registry.PostEvent | app/components/events.py:20-24 | a type with no entry calls nothing; otherwise every subscriber in order with the data; the registry is not changed |
| RankingActionMenu.Select | app/components/ranking_action_menu.py:26-30 | a boolean mask selects at most all rows |
| RankingActionMenu.Positions | app/components/ranking_action_menu.py:26-27 | exactly the positions whose class name matches, in increasing order |
| RankingActionMenu.SelectIsPositions | app/components/ranking_action_menu.py:26-30 | the selected rows are the rows at the matching positions, in order |
| RankingActionMenu.BuildRsmWithReferenceSets | app/components/ranking_action_menu.py:25-32 | an empty list of class names (an index array of floats) is an IndexError with numpy's float-index message, whatever the data; a non-empty mask of the wrong length is an IndexError with the mask-length message; otherwise the "A1" rows are the ideal set and the "A0" rows the status-quo set |
| RankingActionMenu.ReferenceSetsSplit | app/components/ranking_action_menu.py:26-30 | when the reference sets are built, the two sets hold exactly their rows, in order; they share no row; rows with any other class are in neither |
| RankingActionMenu.RunAlgorithm | app/components/ranking_action_menu.py:42-47 | a missing key is a KeyError; for the reference set method, an IndexError exactly when the reference sets cannot be built; otherwise the ideal point method runs first, then the ranking method; the reference-set partial is used exactly for the reference set method |
| Scenarios.FrontierNonDominated | tests/test_ideal_point.py:7-28 | (3, 3), (4, 1) and (1, 8) are non-dominated in the test data |
| Scenarios.OthersDominated | tests/test_ideal_point.py:7-28 | every other test point is strictly dominated |
| Scenarios.ExactTestFrontier | tests/test_ideal_point.py:24-31 | a sound and covering output on the test data holds exactly the three expected points |
| Scenarios.NaiveWithoutFilteringOnTestPoints | tests/test_naive_without_filtration.py:22-32 | `naive_without_filtering` on the test data gives exactly the expected points |
| Scenarios.NaiveWithFilteringOnTestPoints | app/algorithms/filtered.py:6-33 | `naive_with_filtering` on the same data gives exactly the expected points, each once |
| Scenarios.SoundOutputSize | tests/test_ideal_point.py:22-31 | a pairwise incomparable output of non-dominated test points has at most three entries |
| Scenarios.ShapeIdeal | tests/test_ideal_point.py:7-22 | the ideal point of the test data is (1, 1) |
| Scenarios.FrontierVisitPositions | tests/test_ideal_point.py:7-22 | in any visit order by distance from (1, 1), the three frontier points come among the first ten positions |
| Scenarios.FrontierVisited | app/algorithms/ideal_point.py:29 | an output of at most three points covering the positions the loop as written visits covers the three frontier points |
| Scenarios.CoveredTestFrontier | tests/test_ideal_point.py:24-31 | a sound output on the test data that covers the three expected points holds exactly them |
| Scenarios.IdealPointMethodOnTestPoints | tests/test_ideal_point.py:22-31 | `ideal_point_method` as written on the test data gives exactly the expected points |
| Scenarios.IdealPointMethodCompleteOnTestPoints | tests/test_ideal_point.py:22-31 | the corrected ideal point method on the test data gives exactly the expected points |
| Scenarios.DiagonalIncomparable | app/algorithms/ideal_point.py:29 | (1, 3), (2, 2) and (3, 1) are all non-dominated |
| Scenarios.IdealPointMethodMissesDiagonal | app/algorithms/ideal_point.py:29 | with the guard as written, some non-dominated point of the diagonal is neither emitted nor covered |
| Scenarios.IdealPointMethodCompleteOnDiagonal | app/algorithms/ideal_point.py:29 | the corrected loop emits all three diagonal points |
| Scenarios.NaiveWithFilteringOnSmallInputs | app/algorithms/filtered.py:10-33 | no points give `[]`, and one point p gives `[p]` |

## Left out

- The Streamlit user interface, pages, plots and proof-of-concept screens are presentation only. This includes the views of the criteria editor and the ranking action menu.
- app/components/model.py is not part of this model. It checkpoints into the Streamlit session state and calls a point method that point.py does not define.
- Benchmarking (bench.py) measures wall-clock time and imports a class the registry does not define.
- TOPSIS and the reference set method (topsis.py, rsm.py) rest on floating-point square roots and norms. The reference set method appears only as a name that the action menu selects.
- The Spearman and Kendall coefficients are computed by scipy. `Compare` receives them as function parameters.
- The comparison graph built and drawn with networkx and matplotlib is not modelled.
- General `np.percentile` interpolation is left out. With two parts only the 0th and 100th percentiles occur, and these are the minimum and maximum.
- The dataset generator (random sampling) and the CSV loader are left out.
- Floating point is not modelled:
  - point coordinates are integers, an exact stand-in for the integer datapoints of the tests;
  - UTA-Star and VIKOR use exact reals;
  - 1e-6 is the exact real 0.000001;
  - rounding and NaN are absent.
- List membership (`in`, `not in`) on points calls `__eq__` in Python and so moves the counters. The model treats membership as a plain test and counts only the explicit `<=` comparisons.
- Points.Counter.Le, Points.Counter.Ge, Points.Counter.Eq: require two points of the same positive dimension. numpy broadcasts a one-coordinate point against a longer one, and `np.argmin` of an empty predicate raises ValueError; neither case is modelled.
- NaiveWithoutFiltration.NaiveWithoutFiltering: does not state the counters. It requires all points to share one positive dimension; numpy raises, or broadcasts, on other inputs.
- Filtered.NaiveWithFiltering: does not state the counters. It requires points of one positive dimension.
- IdealPoint.IdealPointMethod: requires a non-empty input of one positive dimension; Python fails on `points[0]` otherwise. Its contract states the point counter but not the coordinate counter.
- Sorting.SortedIndices: a stable insertion order stands in for Python's sort. Both give the same order of (key, index) pairs.
- Vikor.Vikor: `np.argsort` is not stable. The model breaks ties by index, which is one of the orders numpy may produce, and its contract states only a permutation with non-increasing values. It requires every column to take two different values: the source divides by `max - min` without a guard and would produce NaN or infinity. It also requires rows of equal length and one weight per criterion. Rows of unequal length make numpy raise; a single weight would be broadcast over all criteria, a use the model does not cover.
- UtaStar.UtaStar: requires at least one point, one weight per criterion of the first point and rows at least that long. Python raises IndexError otherwise: `points[0]` (app/algorithms/uta_star.py:59) on an empty list, and the weight or coordinate index on the others.
- UtaStar.ClosedFormValues: its own contract states only the length. Its meaning is stated by UtaStar.RowIsClosedForm, UtaStar.UtilityBounds and UtaStar.UtilityMonotone.
- CriteriaEditor.CriteriaPresenter.RemoveColumn: requires labels, directions and data columns to be in step. When they are out of step the source can raise IndexError part way through and leave the lists half changed; that case is not modelled.
- CriteriaEditor.CriteriaPresenter.UpdateModel: takes the edited table as its two columns Nazwa and Kierunek; the pandas DataFrame is not modelled.
- RankingActionMenu.BuildRsmWithReferenceSets: its IndexError messages omit the array sizes numpy prints.
- RankingActionMenu.RunAlgorithm: the registry `RANKING_ALGORITHMS` imported at app/components/ranking_action_menu.py:7 is not defined in app/algorithms/interface.py, so importing the module raises ImportError and none of it can run as written. The model describes the module with that import repaired, and the supported methods are a parameter. The model returns the calls on the model instead of making them.
- Events.Registry.PostEvent: callbacks are numbers, and the call sequence is returned instead of made. What the callbacks do is not modelled.
- ScalarIdealPoint.EstimateIdealPoint: requires a non-empty list and every point at least as long as the first. Python raises IndexError at `points[0]` (app/algorithms/scalar_ideal_point.py:7) on an empty list, and at `p.x[i]` (:9) on a shorter point; neither error is modelled.
- ScalarIdealPoint.Reference: with no ideal point given, requires a non-empty list of points of one positive dimension (`Rectangular`). Python raises IndexError on an empty list through `estimate_ideal_point`, and would accept zero-dimensional points, which the model excludes; points longer than the first pass `estimate_ideal_point` in Python but then fail the subtraction in `scalarisation`. With an ideal point given, requires every point to have its length.
- ScalarIdealPoint.Scalarisation: requires a non-empty list, and points as long as the reference. On an empty list Python raises IndexError via `estimate_ideal_point` when no ideal point is given, and `min` raises ValueError on the empty sequence (:19) when one is. When the lengths differ, `p.x - ideal_point.x` (:19) raises ValueError, or broadcasts a one-coordinate reference; neither case is modelled.
- ScalarIdealPoint.Scalarisation: the metric is a parameter. The import `from numpy import norm` (app/algorithms/scalar_ideal_point.py:2) fails, since numpy has no top-level `norm`, so importing the module raises ImportError and neither of its functions can run as written. The model gives both functions as they would behave with that import repaired.
- Three behaviours of the code that a reader might expect otherwise, modelled as the code has them:
  - VIKOR's first normalisation, `(data - min_values) / (max_values - min_values)`, has no epsilon guard; only the second one, of S and R, adds 1e-6;
  - the sweep of the ideal point method compares the current point with every point, active or not;
  - UTA-Star with two parts per criterion places its breakpoints at the column minimum and maximum, with no middle breakpoint.

## Findings

| source | as written | input that shows it | evidently intended | confidence | as-written member | corrected member |
|---|---|---|---|---|---|---|
| app/algorithms/ideal_point.py:29 | `while current_index <= total_points`, with `total_points` decremented on every emission, ends the visit early | the points (1, 3), (2, 2), (3, 1): (2, 2) and (1, 3) are emitted, then the loop stops before (3, 1), which is non-dominated | visit every sorted position (`while current_index < len(points)`), so that every non-dominated point is found | not executed | Scenarios.IdealPointMethodMissesDiagonal | IdealPoint.IdealPointMethodComplete |
