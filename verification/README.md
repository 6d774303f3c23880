# DiFfRG models

DiFfRG solves functional renormalisation group equations. Most of it drives other libraries, but its headers, one
example, one tutorial and its Python helper hold self-contained algorithms that make strong claims. This project models
those algorithms and proves the claims, or the exact condition under which they hold.

- `Batch`, `Dual`, `Numflux`, `Jacobian`, `Directional`: the flat buffers of a batch of points, the batched
  Lax-Friedrichs and LDG fluxes, and the seed-stacked forward-mode jacobian. Numbers are dual numbers over the reals, a
  model is any function of one point. The stacked forms refine the per-point forms, entry by entry.
- `Smoothness`, `EvaluationCalculus`, `Derivative`, `Calculus`: what the derivative parts mean. For models written as
  expressions the jacobian of a batch contracts to the directional derivative (`EvaluateJacobian`), and wherever the
  model has no kink and divides by nothing that vanishes, that is the limit of plain difference quotients
  (`ExpressionTracks`, `ContractionIsSlope`), also through the numerical flux (`FaceIsSmooth`).
- `RootFinding`, `Probing`, `Tuning`, `StageLaws`, `Bisection`: the bracketing root finders and the tuning of the
  Yang-Mills mass that uses one. Every power-law fit is an arbitrary value, infinities and NaN are absent values, the
  oracle is any function.
- `Tiling`: the pruned search for a tile that divides its extents.
- `Reduction`: the reproducible reduction; its addition is any function, and its schedules are any order of finishing
  leaves and joins.
- `Couplings`: the couplings between LDG levels, read as chains of declared links.
- `LineFilter`: the stream buffer that drops lines with a prefix, read line by line.
- `Kink`, `KinkLaws`, `KinkTests`: the search for the lowest kink of a sampled profile.
- `Cache`: the result cache that several sessions share through one file.
- `Handles`: the reference counting of HDF5 handles.
- `Prelude`, `Slots`: optional results, real and flat-index arithmetic.

Classes hold the fields the originals update in place; each method is proved against a function or predicate of the
history, and the properties are lemmas about those.

Where the code and its comments differ, the code is modelled:

- The answer of a one-sided search is said to be the tightest upper bracket end. It always is exactly for an observable
  that increases above the target, where with acceptance at a positive target only points outside the window of
  acceptance have to lie above the ones before them (`UpperEndExactly`). A flat one keeps the first seed
  (`BestNotUpperEnd`, `FlatKeepsSeed`).
- The coarse bracket is said to contain the coarse separatrix by construction. A coarse stage whose first probe is
  already an answer has no bracket, and hands on an interval that misses it (`HandoverMisses`). The full search then
  widens, so the answer is still a point of its own.
- The index of the kink is said to be just above it. An ideal kink is found `gap` + 1 cells below it; the offset of the
  extractors has to exceed the gap, as it does by default (`IdealKinkFound`, `ExtractorsAboveKink`).
- The tile is said to be the best among all tiles that divide their extents. With an extent of zero only the entry 1 is
  tried there: for a budget above 1, a divisor tile is left out exactly when some extent is zero
  (`AllDivisorTilesCompete`), and for extents 0 and 5 the result is not the largest (`ZeroExtentLeavesOut`).
- The batched flux gives both traces the extractors of side s, and each trace its own position; it agrees with the
  per-point flux when the two batches share extractors and positions (and variables, which are not modelled).
- The cache file is said to be merged with whatever another session has added. What another session adds between the
  merging read and the replace is lost, unless the writing session holds it too, and no write loses anything else
  (`LostExactly`, `LostToAnother`, `NothingLost`).

## Model

| member | source | states |
|---|---|---|
| Batches.Layout.ColumnOfKey | DiFfRG/include/DiFfRG/model/batch.hh:276-282 | every value, derivative and hessian entry has a column of its own: the column decodes back to the entry |
| Batches.Layout.KeyOfColumn | DiFfRG/include/DiFfRG/model/batch.hh:276-282 | and every column of the buffer belongs to exactly one entry, for every dimension and number of components |
| Batches.ColumnsInOrder | DiFfRG/include/DiFfRG/model/batch.hh:276-282 | the columns come in the order values, derivatives, hessians, in each by component and directions |
| Batches.PointBatch.Reinit | DiFfRG/include/DiFfRG/model/batch.hh:154-161 | a resized batch has room for every column of every point |
| Batches.PointBatch.Write | DiFfRG/include/DiFfRG/model/batch.hh:253-267 | a write changes one column of one point and nothing else of any point |
| Batches.PointBatch.WritePosition | DiFfRG/include/DiFfRG/model/batch.hh:264-265 | writing a coordinate changes that coordinate of that point only |
| Batches.PointBatch.Read | DiFfRG/include/DiFfRG/model/batch.hh:174-209 | an accessor returns the entry the loaded point holds |
| Batches.PointBatch.CopyPoint | DiFfRG/include/DiFfRG/model/batch.hh:239-250 | loading the copied point gives the source point, number type converted; every other point is as before |
| Batches.OutLayout.ColumnOfOut | DiFfRG/include/DiFfRG/model/batch.hh:393-408 | every requested output has a column inside the buffer that decodes back to it, for every set of terms |
| Batches.OutLayout.OutOfColumn | DiFfRG/include/DiFfRG/model/batch.hh:393-408 | every column belongs to exactly one requested output |
| Batches.OutLayout.ColumnsDistinct | DiFfRG/include/DiFfRG/model/batch.hh:393-428 | two different requested outputs never share a column |
| Batches.OutputsInOrder | DiFfRG/include/DiFfRG/model/batch.hh:393-428 | the requested outputs come in the order fluxes, sources, diffusion fluxes, in each by component and direction |
| Batches.BatchOutput.ColumnFor | DiFfRG/include/DiFfRG/model/batch.hh:458-463 | a column is found exactly for outputs of a requested term, and is that output's own; otherwise the error says which term is missing |
| Batches.BatchOutput.Reinit | DiFfRG/include/DiFfRG/model/batch.hh:393-408 | all requested outputs of all points are zero on entry |
| Batches.BatchOutput.Write | DiFfRG/include/DiFfRG/model/batch.hh:431-450 | a write changes one output of one point and no other |
| DualNumbers.EvalLinear | DiFfRG/include/DiFfRG/model/batch.hh:739-743 | the derivative part of any expression over sums, products, quotients and smooth functions is linear in the seeded direction |
| PolynomialDerivative.ExpansionExact | DiFfRG/include/DiFfRG/model/batch.hh:739-743 | a polynomial at a point moved by h along the seed is value + h * derivative + h^2 * remainder, exactly |
| PolynomialDerivative.RemainderBounded | DiFfRG/include/DiFfRG/model/batch.hh:739-743 | the remainder stays below a bound that does not depend on h, for all h in [-1, 1] |
| PolynomialDerivative.DerivativeIsLimit | DiFfRG/include/DiFfRG/model/batch.hh:739-743 | so the derivative part is the limit of the difference quotients, with an explicit rate |
| Smoothness.QuotientBack | DiFfRG/include/DiFfRG/model/batch.hh:739-743 | multiplying a dual quotient by its divisor gives the dividend back, in both parts |
| Smoothness.AbsoluteIs | DiFfRG/include/DiFfRG/model/batch.hh:739-743 | the absolute value is the number or its negative, in both parts, and not negative |
| Smoothness.MaximumIs | DiFfRG/include/DiFfRG/model/batch.hh:739-743 | the maximum is one of its two arguments, and neither exceeds it |
| Smoothness.SlopeIsLimit | DiFfRG/include/DiFfRG/model/batch.hh:739-743 | a curve that a dual number tracks has difference quotients within a multiple of the step of its derivative part |
| Smoothness.SlopeUnique | DiFfRG/include/DiFfRG/model/batch.hh:739-743 | and no other derivative part would do |
| Smoothness.ExpressionTracks | DiFfRG/include/DiFfRG/model/batch.hh:739-743 | the chain rule: the dual value of any expression of sums, products, quotients, absolute values, maxima and smooth functions tracks it, wherever no divisor vanishes and no absolute value or maximum has a kink |
| NumericalFlux.EvaluatePerPoint | DiFfRG/include/DiFfRG/model/batch.hh:593-620 | the batch evaluation holds the model's value at every requested output of every point |
| NumericalFlux.NumfluxPoint | DiFfRG/include/DiFfRG/model/numflux.hh:59-98 | the loop that perturbs and restores the traces yields the Lax-Friedrichs flux of the two given traces, both at the point of the face |
| NumericalFlux.FillBlocks | DiFfRG/include/DiFfRG/model/numflux.hh:127-140 | block b, point i of the stacked batch is trace s or n of point i, with component (b - 2) / 2 perturbed from block 2 on |
| NumericalFlux.EvaluateBlocks | DiFfRG/include/DiFfRG/model/numflux.hh:127-143 | one evaluation holds the model's flux of all 2 + 2N copies of every point |
| NumericalFlux.CombinePoint | DiFfRG/include/DiFfRG/model/numflux.hh:145-161 | the blocks of one point combine to its per-point flux; no other point changes |
| NumericalFlux.NumfluxBatch | DiFfRG/include/DiFfRG/model/numflux.hh:105-163 | the batched flux is, at every point, the per-point flux of its traces, each at its own position and both seeing the extractors of side s |
| NumericalFlux.FluxConsistent | DiFfRG/include/DiFfRG/model/numflux.hh:59-98 | equal traces give the model's own flux, derivative part included |
| NumericalFlux.FluxSwapped | DiFfRG/include/DiFfRG/model/numflux.hh:59-98 | swapping the traces and flipping the normal gives the same flux vector, for every normal |
| NumericalFlux.OutflowSwapped | DiFfRG/include/DiFfRG/model/numflux.hh:59-98 | so the outflow through the face changes sign |
| NumericalFlux.FluxConserved | DiFfRG/include/DiFfRG/model/numflux.hh:59-98 | and over any list of faces what leaves the cells of one side enters those of the other |
| NumericalFlux.SpeedIsQuotient | DiFfRG/include/DiFfRG/model/numflux.hh:59-98 | the speed is the larger of the two difference quotients of the flux through the face, for a step of 1e-5 of the mean size of the traces, and never negative |
| NumericalFlux.FluxDissipates | DiFfRG/include/DiFfRG/model/numflux.hh:59-98 | for a unit normal the outflow is the mean of both traces minus half that quotient times the jump, so it never works with the jump |
| NumericalFlux.FluxUpwinds | DiFfRG/include/DiFfRG/model/numflux.hh:59-98 | so a component that is carried with a constant velocity leaves with the value of the trace it comes from |
| NumericalFlux.UpDownSwapped | DiFfRG/include/DiFfRG/model/numflux.hh:209-244 | the LDG up/down flux obeys the same swap law exactly when the components of the normal do not cancel, or the two traces agree anyway |
| NumericalFlux.UpDownSwappedOnAxes | DiFfRG/include/DiFfRG/model/numflux.hh:209-244 | in particular for every axis-aligned normal |
| NumericalFlux.UpDownSide | DiFfRG/include/DiFfRG/model/numflux.hh:209-244 | from the right means trace n exactly when the components of the normal add up to more than zero, and from the left the other one |
| NumericalFlux.UpDownSideOnAxes | DiFfRG/include/DiFfRG/model/numflux.hh:209-244 | on an axis-aligned normal it is the trace of the cell on that side of the axis |
| NumericalFlux.LdgEvaluateTrace | DiFfRG/include/DiFfRG/model/batch.hh:628-643 | the evaluation of a level holds its flux at every point, from the values alone |
| NumericalFlux.LdgNumfluxBatch | DiFfRG/include/DiFfRG/model/numflux.hh:248-282 | the batched LDG flux writes the per-point selection into the flux of every point, whatever extractors the traces carry; every other entry of the output keeps its value |
| SeedStacking.BatchSeeds | DiFfRG/include/DiFfRG/model/batch.hh:745-764 | lists every independent input of every trace exactly once, a hessian entry together with its transpose |
| SeedStacking.FillGroup | DiFfRG/include/DiFfRG/model/batch.hh:812-832 | slot b * n + i holds point i with seed b set on its own trace and no other, for every point and seed of a group |
| SeedStacking.StackNormals | DiFfRG/include/DiFfRG/model/batch.hh:911-919 | normal b * n + i of the stack is normal i |
| SeedStacking.SlotIsSeededPoint | DiFfRG/include/DiFfRG/model/batch.hh:795-832 | the argument a stacked slot evaluates is the unstacked point with one seed set |
| SeedStacking.Evaluate | DiFfRG/include/DiFfRG/model/batch.hh:672-690 | a batch evaluation, per point or through the batched face flux, holds the value of every slot's own argument |
| SeedStacking.ScatterSlot | DiFfRG/include/DiFfRG/model/batch.hh:836-876 | one slot writes the entries of its point and seed, halved into both entries of an off-diagonal hessian pair, and no other |
| SeedStacking.RunGroup | DiFfRG/include/DiFfRG/model/batch.hh:808-877 | one group fills exactly the entries of its seeds, with the derivative of the unstacked evaluation |
| SeedStacking.RunStateSeeds | DiFfRG/include/DiFfRG/model/batch.hh:806-877 | all groups together fill every state entry, whatever max_stacked is |
| SeedStacking.RunExtractor | DiFfRG/include/DiFfRG/model/batch.hh:884-907 | an extractor seed fills its column of side 0 with the total derivative and leaves the rest |
| SeedStacking.SeedStackedJacobian | DiFfRG/include/DiFfRG/model/batch.hh:782-908 | every seeded entry is the derivative of the unstacked evaluation of its point, every other entry keeps its value: the result does not depend on the grouping. Covers the doubly stacked jacobian of the batched face flux |
| JacobianCalculus.EvaluateJacobian | DiFfRG/include/DiFfRG/model/batch.hh:942-953 | from a zero jacobian, at every point, for every requested output, the result contracts with every symmetric direction to the derivative of the unstacked evaluation along it; with frozen extractors, with every such direction that leaves them alone |
| JacobianCalculus.EntriesContract | DiFfRG/include/DiFfRG/model/batch.hh:856-875 | so does any store that holds the expected entries, and nothing else of it matters |
| JacobianCalculus.ContractionIsSlope | DiFfRG/include/DiFfRG/model/batch.hh:856-875 | wherever the evaluation is smooth, contracting the stored jacobian with a direction gives the limit of the plain difference quotients along it |
| JacobianCalculus.DerivativeIsCalculus | DiFfRG/include/DiFfRG/model/batch.hh:739-743 | for a polynomial model that derivative is the limit of the difference quotients of the plain evaluation, with an error linear in h |
| EvaluationCalculus.RegularIsSmooth | DiFfRG/include/DiFfRG/model/batch.hh:831-835 | every model written as an expression is a smooth evaluation away from vanishing divisors and kinks |
| EvaluationCalculus.FaceIsSmooth | DiFfRG/include/DiFfRG/model/numflux.hh:145-161 | so is the Lax-Friedrichs flux of such a model, where its own differences and traces have no kink: its derivative part is the slope of the whole flux, perturbation and division included |
| EvaluationCalculus.DerivativeIsSlope | DiFfRG/include/DiFfRG/model/batch.hh:739-743 | and the derivative part of a smooth evaluation is the limit of its plain difference quotients, with an error linear in the step |
| Directional.ExpressionsDifferentiable | DiFfRG/include/DiFfRG/model/batch.hh:831-835 | every model written as an expression has a derivative part linear in the seeds |
| Directional.LaxFriedrichsCombines | DiFfRG/include/DiFfRG/model/numflux.hh:59-98 | so has the Lax-Friedrichs flux of any such model, through abs, max and the division by the perturbation |
| Directional.FaceFluxDifferentiable | DiFfRG/include/DiFfRG/model/numflux.hh:105-163 | and hence the batched face flux as an evaluation |
| Directional.DerivativeIsSum | DiFfRG/include/DiFfRG/model/batch.hh:767-771 | the derivative along any direction is the sum of the unit derivatives weighted by it |
| Directional.SeedIsDirection | DiFfRG/include/DiFfRG/model/batch.hh:824-831 | seeding a slot is the direction that sets the entry and its transpose |
| Directional.StoredIsMean | DiFfRG/include/DiFfRG/model/batch.hh:856-861 | the halved joint seed stored in both entries is the mean of the two unit derivatives |
| Directional.ContractionExact | DiFfRG/include/DiFfRG/model/batch.hh:856-875 | contracting the stored jacobian with any direction that is symmetric in the hessian gives the exact directional derivative |
| Bisection.Search | DiFfRG/include/DiFfRG/common/root_finding.hh:136-156 | for any rule for the next point: every test is where the rule puts it in the bracket of the last failure and success, it stops at the first bracket narrower than the tolerance with its upper end, and fails exactly when the budget ends before |
| Bisection.MidpointSteps | DiFfRG/include/DiFfRG/common/root_finding.hh:136-164 | with the midpoint rule it succeeds exactly when the budget reaches a halving below the tolerance, at the first such one |
| Bisection.AnswerNearSwitch | DiFfRG/include/DiFfRG/common/root_finding.hh:136-156 | whatever the rule, the answer lies above the switching point of a monotone test by less than the tolerance |
| Bisection.SearchTarget | DiFfRG/include/DiFfRG/common/root_finding.hh:251-305 | tests every point where the rule puts it, returns the last success with the target it wrote (or did not write), and stops at the first success whose target lies within the tolerance of the one before, at a collapse, or at the budget |
| Bisection.SolveShift | DiFfRG/include/DiFfRG/common/root_finding.hh:395-436 | the two walks stop at their first point of the sought sign, at the floor or after 60 steps; the cut between keeps the change of sign and ends after 200 steps or once the mean no longer lies inside; without an answer one of the walks failed or the mean lies outside the floor and the ceiling |
| Bisection.CutsNarrow | DiFfRG/include/DiFfRG/common/root_finding.hh:412-419 | with the geometric mean every cut takes the square root of the ratio of the ends |
| Bisection.ShiftNearRoot | DiFfRG/include/DiFfRG/common/root_finding.hh:395-436 | so the answer misses the root of a decreasing function by at most a factor whose 200-fold square is the power of 16 the inward walk covered |
| RootFinding.BracketMeaning | DiFfRG/include/DiFfRG/common/root_finding.hh:732-775 | the upper end is the least probe at or above the target, the lower ends the greatest low and the greatest failed probe |
| RootFinding.HardBelowSoft | DiFfRG/include/DiFfRG/common/root_finding.hh:723-779 | the hard lower end never exceeds the soft one |
| RootFinding.BracketContainsSwitch | DiFfRG/include/DiFfRG/common/root_finding.hh:723-779 | whatever was probed, the bracket of a monotone oracle contains its switching point |
| RootFinding.SafeguardedLaw | DiFfRG/include/DiFfRG/common/root_finding.hh:988-1020 | whatever the candidate, a bracketed probe lies strictly inside the bracket and is the midpoint when the bracket stalled |
| RootFinding.BracketOrdered | DiFfRG/include/DiFfRG/common/root_finding.hh:723-779 | the bracket of any fits and any oracle is ordered exactly when its two seeds are not inverted |
| RootFinding.InvertedSeedsInvert | DiFfRG/include/DiFfRG/common/root_finding.hh:882-890 | inverted seeds invert the bracket at once |
| RootFinding.ProbeShrinks | DiFfRG/include/DiFfRG/common/root_finding.hh:723-779 | a bracketed probe that is not an answer becomes one of the two ends |
| RootFinding.TwoProbesHalve | DiFfRG/include/DiFfRG/common/root_finding.hh:776-778 | any two consecutive bracketed probes at least halve the width, for every fit |
| RootFinding.Halvings | DiFfRG/include/DiFfRG/common/root_finding.hh:776-778 | 2k bracketed probes shrink the width by 2^k |
| RootFinding.CollapseBound | DiFfRG/include/DiFfRG/common/root_finding.hh:1084-1092 | so the bracketed phase ends within 2k probes once 2^k floors cover the width |
| RootFinding.LawfulProposal | DiFfRG/include/DiFfRG/common/root_finding.hh:880-1021 | whatever the fits, a proposal obeys the policy of the search |
| RootFinding.WideningStep | DiFfRG/include/DiFfRG/common/root_finding.hh:895-914 | each blind widening extends the reach by the next term of the geometric sum |
| RootFinding.GaveUp | DiFfRG/include/DiFfRG/common/root_finding.hh:895-914 | a search that gave up widening proves the switch of a monotone oracle outside its reach |
| RootFinding.BestIsClosest | DiFfRG/include/DiFfRG/common/root_finding.hh:735-765 | the answer is the eligible probe closest to the target |
| RootFinding.ClosestNotKept | DiFfRG/include/DiFfRG/common/root_finding.hh:735-765 | except below-target acceptance with a target of zero and two-sided acceptance: there the two seeds already make a run that keeps the other one |
| RootFinding.ClosestExactly | DiFfRG/include/DiFfRG/common/root_finding.hh:735-765 | so every run keeps the closest probe exactly outside that setting |
| RootFinding.BestIsUpperEnd | DiFfRG/include/DiFfRG/common/root_finding.hh:735-748 | one-sided, the answer is the upper bracket end for every observable that increases above the target |
| RootFinding.UpperEndExactly | DiFfRG/include/DiFfRG/common/root_finding.hh:735-748 | over all runs, none of which goes on after a reason to stop, the answer is always the upper end exactly when the observable increases up to every point above the target that would not have been accepted; unless acceptance is at a positive target, that is simply: increases above the target |
| RootFinding.BestNotUpperEnd | DiFfRG/include/DiFfRG/common/root_finding.hh:735-748 | for a flat observable clearly above the window of acceptance both seeds are probed and rejected, and the answer is not the upper end |
| RootFinding.FlatKeepsSeed | DiFfRG/include/DiFfRG/common/root_finding.hh:735-748 | and it stays so for the rest of the run |
| RootFinding.BestSampled | DiFfRG/include/DiFfRG/common/root_finding.hh:1106-1113 | the returned point was evaluated, with the reported observable |
| RootFinding.InsertSorts | DiFfRG/include/DiFfRG/common/root_finding.hh:733-734 | appending and sorting keeps the samples sorted |
| RootFinding.FlatIsLevelled | DiFfRG/include/DiFfRG/common/root_finding.hh:1096-1102 | flat samples are three finite observables, those of the three largest points, that differ in sequence by less than a part in 10^14 of the one at the largest point, or of 1e-300 |
| ProbingPolicy.CandidateIsFirst | DiFfRG/include/DiFfRG/common/root_finding.hh:916-986 | the candidate is the first offer in the order convergent fit, mixed fit, ladder to the critical point, divergent jump, secant; without a target only the first and the jump |
| ProbingPolicy.BracketedProbe | DiFfRG/include/DiFfRG/common/root_finding.hh:988-1020 | every bracketed probe of a run is that candidate, kept off the ends by the standoff, if it is strictly inside and above all failures and the last step but one has halved the bracket, and the midpoint otherwise |
| ProbingPolicy.ConvergedExactly | DiFfRG/include/DiFfRG/common/root_finding.hh:1061-1081 | a search converges exactly when a probe meets its target within the tolerance, or lies below it if that is what is asked for; with a target of zero when its last two critical points agree |
| ProbingPolicy.CollapsedExactly | DiFfRG/include/DiFfRG/common/root_finding.hh:1084-1092 | a bracket counts as collapsed exactly within the floor of either end, or of one |
| ProbingPolicy.DoublingReach | DiFfRG/include/DiFfRG/common/root_finding.hh:895-914 | e doublings reach 2 + 4 + ... + 2^e widths beyond the bounds |
| ProbingPolicy.GeometricReach | DiFfRG/include/DiFfRG/common/root_finding.hh:895-914 | for any factor the reach is the geometric sum |
| ProbingPolicy.AllBlind | DiFfRG/include/DiFfRG/common/root_finding.hh:895-914 | without divergent fits every probe of an open bracket after the seeds is a blind widening |
| RootFinding.ScalingRootFinder.RecordBracket | DiFfRG/include/DiFfRG/common/root_finding.hh:732-778 | the bracket fields and widths are what the history of probes determines |
| RootFinding.ScalingRootFinder.RecordSample | DiFfRG/include/DiFfRG/common/root_finding.hh:733-773 | the samples are sorted and are exactly the finite evaluations and the informative failures |
| RootFinding.ScalingRootFinder.RecordBest | DiFfRG/include/DiFfRG/common/root_finding.hh:735-765 | the kept answer is what the history determines |
| RootFinding.ScalingRootFinder.Record | DiFfRG/include/DiFfRG/common/root_finding.hh:723-779 | one more probe joins the history and every field is again determined by it |
| RootFinding.ScalingRootFinder.Widen | DiFfRG/include/DiFfRG/common/root_finding.hh:895-914 | with one end open: a fitted jump, one blind widening, or nothing once the budget is spent |
| RootFinding.ScalingRootFinder.Safeguard | DiFfRG/include/DiFfRG/common/root_finding.hh:988-1020 | containment, stagnation and standoff turn any candidate into the safeguarded probe |
| RootFinding.ScalingRootFinder.Propose | DiFfRG/include/DiFfRG/common/root_finding.hh:880-1021 | the two seeds, then widening, then the safeguarded candidate; no proposal exactly when an open bracket may not widen |
| RootFinding.ScalingRootFinder.Settle | DiFfRG/include/DiFfRG/common/root_finding.hh:1059-1103 | filing an outcome ends the search exactly for the reasons given, in their order |
| RootFinding.ScalingRootFinder.Run | DiFfRG/include/DiFfRG/common/root_finding.hh:1052-1104 | the history is a run: every probe the one its fits propose, and none taken after an accepted best probe, a collapsed bracket or flat samples; the reason reported is the first that applies, and the widenings are counted |
| RootFinding.ScalingRootFinder.Search | DiFfRG/include/DiFfRG/common/root_finding.hh:1023-1114 | the errors, the reason for stopping, at the first occasion, and the answer, each tied to the complete history, for all fits; it stagnates exactly at the first history whose three largest points agree to a part in 10^14, unless it converged or collapsed |
| Tuning.Tuner.RunAt | Examples/YangMills/SP/tuning.hh:184-197 | every run is on disk under its folder, and every run with a finite observable is on file |
| Tuning.Track | Examples/YangMills/SP/tuning.hh:255-258 | the bracket tracked by the callback is the finder's hard lower end and upper end after every probe |
| Tuning.Tuner.Pass | Examples/YangMills/SP/tuning.hh:244-262 | the callback ends the search before another flow is run exactly when its own bracket is fine enough |
| Tuning.Tuner.RunStage | Examples/YangMills/SP/tuning.hh:236-313 | the history is a run that neither the finder nor the callback would have ended before, and the result is the one it determines: the upper end when the callback ended it, else the best probe; without a result for a positive target it spent 40 flows or 24 widenings of an open bracket |
| Tuning.NothingFound | Examples/YangMills/SP/tuning.hh:236-313 | a stage without fits that finds nothing gives up after 26 flows: two seeds and 24 widenings |
| Tuning.ExhaustedBelow | Examples/YangMills/SP/tuning.hh:279-288 | and then the separatrix lies more than 2 + 4 + ... + 2^24 widths above its interval |
| Tuning.BracketHoldsSeparatrix | Examples/YangMills/SP/tuning.hh:237-242 | the tracked bracket contains the separatrix |
| Tuning.HandoverContains | Examples/YangMills/SP/tuning.hh:349-359 | the padded handover of a bracketed stage contains the full separatrix whenever it moved by at most the pad constant |
| Tuning.HandedOverContains | Examples/YangMills/SP/tuning.hh:345-368 | the same for the interval the tune actually hands on |
| Tuning.UnbracketedHandover | Examples/YangMills/SP/tuning.hh:351-358 | without a bracket it does exactly when the centre is within the pad of it |
| Tuning.HandoverMisses | Examples/YangMills/SP/tuning.hh:349-359 | a coarse stage answered by its first probe brackets nothing: the result of that very run hands on an interval that misses even an unshifted separatrix |
| StageLaws.ResolvedExactly | Examples/YangMills/SP/tuning.hh:244-253 | the callback ends a coarse stage exactly when its bracket is within 1.5 percent of the sum of its ends, and never with an open one |
| StageLaws.NeverResolved | Examples/YangMills/SP/tuning.hh:371-374 | at full fidelity it never does |
| StageLaws.ReducedHalves | Examples/YangMills/SP/tuning.hh:328-335 | the coarse orders are half the full ones, rounded down, but at least 4, 2, 2 and 2 |
| StageLaws.HalvedUnique | Examples/YangMills/SP/tuning.hh:328-335 | and those conditions leave one choice |
| StageLaws.PreTargetLoosens | Examples/YangMills/SP/tuning.hh:338-340 | the coarse target is thirty times the full one, at most one half; a target of zero stays |
| StageLaws.HandoverPads | Examples/YangMills/SP/tuning.hh:349-359 | a bracket is handed on with three percent of its larger end on both sides |
| StageLaws.HandoverCentres | Examples/YangMills/SP/tuning.hh:349-359 | without one the interval is three percent around the fitted point, or else the answer |
| StageLaws.HandoverKeeps | Examples/YangMills/SP/tuning.hh:353-368 | a stage that did not converge changes nothing |
| StageLaws.StageReports | Examples/YangMills/SP/tuning.hh:285-298 | a stage has converged exactly when its finder has, or when the callback stopped a coarse one on a fine bracket, and then answers with the upper end; it reports its bracket, its fitted point and its flows |
| StageLaws.StageProbe | Examples/YangMills/SP/tuning.hh:236-283 | a bracketed probe of a stage keeps two percent of the width to either end |
| StageLaws.StageLadder | Examples/YangMills/SP/tuning.hh:236-283 | with only the failures fitted a stage goes nine tenths of the way to the critical point, or to the middle |
| StageLaws.StageConverges | Examples/YangMills/SP/tuning.hh:270-276 | a stage with a positive target converges exactly when a flow comes in below it |
| StageLaws.StageCollapses | Examples/YangMills/SP/tuning.hh:279-286 | its bracket collapses within a part in 10^13 |
| Tuning.Tuner.StartBounds | Examples/YangMills/SP/tuning.hh:199-216 | the starting interval is ordered, and symmetric about the hint on a warm start whatever its sign |
| Tuning.Tuner.Prelocate | Examples/YangMills/SP/tuning.hh:323-343 | the coarse stage runs at the reduced orders, which come back unless its search throws |
| Tuning.Tuner.FullStage | Examples/YangMills/SP/tuning.hh:371-374 | no fits and no handover can move the answer: it is a full-fidelity probe, below the target when converged on a positive one |
| Tuning.Tuner.Lookup | Examples/YangMills/SP/tuning.hh:395-409 | the folder of the returned point is always on file, so the re-run is never needed |
| Tuning.Tuner.TuneM2A | Examples/YangMills/SP/tuning.hh:165-412 | the whole tune: its runs, its count of flows, the handover of its coarse stage, the answer of its full one and the output it copies; it fails for a positive target only when a stage has spent 40 flows or 24 widenings |
| Tuning.LastNamedIsOwn | Examples/YangMills/SP/tuning.hh:187-190 | the last run filed under a folder that only one point uses is a run of that point |
| Tuning.OutputIsOwn | Examples/YangMills/SP/tuning.hh:395-409 | if no two points share a twelve-digit folder the copied output is that of the returned point at full fidelity |
| Tiling.Candidates | DiFfRG/include/DiFfRG/common/kokkos.hh:278-284 | the candidates of an extent are exactly its divisors within the budget, ascending; 1 for an empty extent |
| Tiling.PruningSound | DiFfRG/include/DiFfRG/common/kokkos.hh:338-342 | once a candidate overruns the budget, no tile with a larger entry there fits: the break loses nothing |
| Tiling.BetterTransitive | DiFfRG/include/DiFfRG/common/kokkos.hh:318-328 | when no two competing tiles of one size have distances within the tie tolerance, a better tile keeps beating what lost before |
| Tiling.LogDistanceSeparated | DiFfRG/include/DiFfRG/common/kokkos.hh:294-299 | the code's own distance is like that for every block size up to 31622 |
| Tiling.TileSearch.Consider | DiFfRG/include/DiFfRG/common/kokkos.hh:315-336 | a visited leaf is beaten by the new best, and so is everything the old best beat |
| Tiling.TileSearch.Visit | DiFfRG/include/DiFfRG/common/kokkos.hh:314-343 | the recursion covers every competing tile that extends the current prefix |
| Tiling.ComputeDivisibleTile | DiFfRG/include/DiFfRG/common/kokkos.hh:267-347 | the given tile when it already divides everything or nothing fits; else the divisor tile within the budget with a multiple of 32 lanes if there is one, the most lanes, and, when the distances of equal products are more than 1e-9 apart, as the code's own are, the least distance and the larger entries in front |
| Tiling.BeatenIsOptimal | DiFfRG/include/DiFfRG/common/kokkos.hh:318-336 | a tile no other beats has a multiple of 32 lanes if any competing tile has, the most lanes among those of its kind, and, when distances are clear, the least distance and then the larger entries in front |
| Tiling.DivisorTilesCompete | DiFfRG/include/DiFfRG/common/kokkos.hh:261-264 | for positive extents the tiles compared are all divisor tiles within the budget |
| Tiling.AllDivisorTilesCompete | DiFfRG/include/DiFfRG/common/kokkos.hh:279-284 | none is left out exactly when no extent is zero or the budget is 1 |
| Tiling.ZeroExtentLeavesOut | DiFfRG/include/DiFfRG/common/kokkos.hh:279-284 | a range with an empty dimension whose re-tiling loses to a larger divisor tile within the same budget |
| Tiling.LaunchedExact | DiFfRG/include/DiFfRG/common/kokkos.hh:226-229 | a tile launches as many lanes as there are points exactly when every entry divides its extent |
| Tiling.RangeDivisible | DiFfRG/include/DiFfRG/common/kokkos.hh:398-419 | the re-tiled range never has a larger block, and launches exactly its points |
| Reduction.FlatInjective | DiFfRG/include/DiFfRG/common/tbb.hh:40-47 | different multi-indices have different flat indices |
| Reduction.FlatOrder | DiFfRG/include/DiFfRG/common/tbb.hh:40-47 | and the first entry in which two multi-indices differ decides the order of their flat indices |
| Reduction.UnflatFlat | DiFfRG/include/DiFfRG/common/tbb.hh:40-47 | flattening the unflattened index gives it back, inside the grid |
| Reduction.FlatUnflat | DiFfRG/include/DiFfRG/common/tbb.hh:40-47 | unflattening the flattened multi-index gives it back |
| Reduction.UnflattenIndex | DiFfRG/include/DiFfRG/common/tbb.hh:40-47 | the loop over the digits computes the unflattened index |
| Reduction.AdvanceIndex | DiFfRG/include/DiFfRG/common/tbb.hh:50-56 | the odometer adds one to the flat index, wrapping at the end of the grid |
| Reduction.StepIsSuccessor | DiFfRG/include/DiFfRG/common/tbb.hh:50-56 | stepping from index k gives index k + 1, for every grid shape |
| Reduction.SerialSum | DiFfRG/include/DiFfRG/common/tbb.hh:60-71 | the odometer loop sums the functor over the range in row-major order |
| Reduction.TBBReduction | DiFfRG/include/DiFfRG/common/tbb.hh:97-113 | zero for an empty grid, the serial sum up to the cutoff, the value of the fixed tree above it |
| Reduction.EveryScheduleAgrees | DiFfRG/include/DiFfRG/common/tbb.hh:77-80 | any order in which workers finish leaves and joins of the tree gives the same value, for an addition that need not be associative |
| Reduction.NeverStuck | DiFfRG/include/DiFfRG/common/tbb.hh:107-112 | as long as a chunk is unfinished some chunk can be finished now |
| Reduction.RunsEnd | DiFfRG/include/DiFfRG/common/tbb.hh:107-112 | every run ends |
| Reduction.LeafSizes | DiFfRG/include/DiFfRG/common/tbb.hh:31-37 | above the cutoff every leaf holds between 128 and 256 points |
| Reduction.TreeIsSerial | DiFfRG/include/DiFfRG/common/tbb.hh:97-113 | over an associative addition the tree gives the serial sum |
| Reduction.AllIndicesOnce | DiFfRG/include/DiFfRG/common/tbb.hh:60-71 | the indices visited are exactly those of the grid, each once |
| Reduction.ReductionIsSum | DiFfRG/include/DiFfRG/common/tbb.hh:97-113 | so both paths give the sum over all multi-indices |
| Reduction.ReducedWritten | DiFfRG/include/DiFfRG/common/tbb.hh:31-113 | the very additions made: none for an empty grid, from left to right for up to 4096 points, above that halves that differ by at most one point down to leaves of at most 256; each point once, in row-major order |
| Reduction.ReducedEvaluates | DiFfRG/include/DiFfRG/common/tbb.hh:31-113 | every addition and functor makes exactly those |
| LdgCouplings.FactorsThrough | DiFfRG/include/DiFfRG/model/component_descriptor.hh:208-220 | a coupling across several levels factors through every level between, and such factors always compose |
| LdgCouplings.Compose | DiFfRG/include/DiFfRG/model/component_descriptor.hh:211-219 | the nested loops give the relational composition of two lists, without duplicates |
| LdgCouplings.ComposedStands | DiFfRG/include/DiFfRG/model/component_descriptor.hh:208-220 | composing the neighbouring couplings with those of the level below gives those of the level |
| LdgCouplings.ComponentDescriptor.RecomposeLevel | DiFfRG/include/DiFfRG/model/component_descriptor.hh:210-220 | one level is rebuilt from the level below, whatever it held, and no other level changes |
| LdgCouplings.ComponentDescriptor.AddDependency | DiFfRG/include/DiFfRG/model/component_descriptor.hh:201-221 | a call is accepted exactly for neighbouring levels that exist; then every list stands for the chains of declared links, and a rejected one changes nothing |
| LdgCouplings.ComponentDescriptor.SetJacobianConstant | DiFfRG/include/DiFfRG/model/component_descriptor.hh:230-234 | a call for neighbouring levels that exist declares one level constant, any other one nothing |
| LdgCouplings.ComponentDescriptor.JacobiansConstant | DiFfRG/include/DiFfRG/model/component_descriptor.hh:246-252 | holds exactly when every level in between was declared constant |
| LdgCouplings.Declare | DiFfRG/include/DiFfRG/model/component_descriptor.hh:201-221 | any sequence of calls leaves the couplings of the accepted ones |
| LdgCouplings.OrderIrrelevant | DiFfRG/include/DiFfRG/model/component_descriptor.hh:193-200 | descriptors that accepted the same links hold the same couplings, each once, whatever the order and repetition |
| LineFilter.LinePrefixFilter.Overflow | DiFfRG/include/DiFfRG/common/stream_filter.hh:27-56 | after any character the sink is the line-level filter of the input so far; what is held back is the undecided line, always a proper prefix of the pattern |
| LineFilter.LinePrefixFilter.Sync | DiFfRG/include/DiFfRG/common/stream_filter.hh:59-68 | a sync lets the held bytes out, flushes the sink, and exempts that line from dropping |
| LineFilter.NewlineDecidesNothing | DiFfRG/include/DiFfRG/common/stream_filter.hh:34-38 | the newline itself never completes the prefix |
| LineFilter.UndecidedStep | DiFfRG/include/DiFfRG/common/stream_filter.hh:33-46 | the three outcomes of one more character are those of the line-level reading |
| LineFilter.LinesPartition | DiFfRG/include/DiFfRG/common/stream_filter.hh:27-56 | the lines of the reading partition the input |
| LineFilter.LinesEndAtNewlines | DiFfRG/include/DiFfRG/common/stream_filter.hh:27-56 | and are cut exactly at the newlines |
| LineFilter.Feed | DiFfRG/include/DiFfRG/common/stream_filter.hh:11-87 | any interleaving of characters and syncs gives the line-level filter of it |
| LineFilter.ChunkingIrrelevant | DiFfRG/include/DiFfRG/common/stream_filter.hh:15-18 | while no sync falls inside a line that may still become one with the prefix, the output depends on the text alone |
| LineFilter.LetOutExactly | DiFfRG/include/DiFfRG/common/stream_filter.hh:59-68 | and in general it is that of the text alone exactly when no sync has let out a line that starts with the prefix, or the beginning of one |
| LineFilter.TransparentExactly | DiFfRG/include/DiFfRG/common/stream_filter.hh:27-56 | the filter never drops anything exactly for an empty prefix or one with a newline in it |
| KinkDetector.MedianOfPartition | Tutorials/tut5/model.hh:206-212 | whatever order the selection leaves its argument in, the middle entry is the order statistic of the sorted values |
| KinkDetector.MajorityMedian | Tutorials/tut5/model.hh:206-212 | a value held by more than half of the entries is the median |
| KinkDetector.Measure | Tutorials/tut5/model.hh:220-238 | the vectors hold the step and the variation of every scanned cell |
| KinkDetector.CheckCandidate | Tutorials/tut5/model.hh:243-262 | the four tests of a candidate, in the order of the code |
| KinkDetector.FindLowestShock | Tutorials/tut5/model.hh:216-263 | returns the least scanned cell that passes all tests, and none exactly when there is none; every access is in range |
| KinkDetector.ExtractorPoint | Tutorials/tut5/model.hh:151-156 | the sample a few cells above the lowest shock, clamped to the last one, or the given point |
| KinkLaws.AffineInvariant | Tutorials/tut5/model.hh:216-263 | adding any affine function of the position, or scaling by any positive factor, does not change the result |
| KinkLaws.SmoothHasNoShock | Tutorials/tut5/model.hh:216-263 | an affine profile has no shock, nor has any profile with a width of zero |
| KinkLaws.IdealKinkFound | Tutorials/tut5/model.hh:216-263 | an ideal kink at sample m is reported at m - gap - 1 exactly when the locality demand is below 1, for a peak width of at least 3 and a median window that mostly lies outside the kink |
| KinkLaws.ExtractorsAboveKink | Tutorials/tut5/model.hh:151-156 | so the extractors sit at or above it exactly when the offset exceeds the gap |
| KinkTests.MedianCounts | Tutorials/tut5/model.hh:206-212 | a multiple of the median is below a bound exactly when that of more than half of the values is |
| KinkTests.ShockIsKinked | Tutorials/tut5/model.hh:243-262 | a shock is a cell with room on both sides, equal cells at the far ends of its windows to a part in 10^12, a positive step that is the largest within the width and exceeds the contrast times most steps of the window, and enough variation: the whole test without medians |
| KinkTests.StepWindows | Tutorials/tut5/model.hh:226-232 | the step is the difference of the slopes that prevail in the width of cells from one gap below and one gap above |
| KinkTests.VariationNet | Tutorials/tut5/model.hh:233-237 | the variation is at least the net change of slope across the zone, and exactly that where the slopes turn one way |
| ResultCache.Pmap | DiFfRG/python/DiFfRG/parallel.py:82-100 | the chunks finish in any order, the results come back in the order of the items |
| ResultCache.SimMap.Compute | DiFfRG/python/DiFfRG/parallel.py:244-250 | exactly what neither memory nor the copy of the file has is computed, and remembered in both |
| ResultCache.SimMap.Run | DiFfRG/python/DiFfRG/parallel.py:219-252 | the values are those of the function, in order; exactly what neither memory nor the copy holds, or the file if there is no copy yet, is computed; what is written is the session's copy merged with the file as it is then |
| ResultCache.ChunksBalanced | DiFfRG/python/DiFfRG/parallel.py:99 | chunks are just large enough for four rounds per worker, but at most eight items |
| ResultCache.RecallsTruth | DiFfRG/python/DiFfRG/parallel.py:244-252 | after the computation every key is known with the true value |
| ResultCache.RunFaithful | DiFfRG/python/DiFfRG/parallel.py:136-176 | over any interleaving of sessions, failed saves, clearings and damage: every entry in memory, in a copy, in flight or in the file is the true one |
| ResultCache.AnswersAreTrue | DiFfRG/python/DiFfRG/parallel.py:219-252 | so what any session returns at any moment is what the function would give |
| ResultCache.SavedIsReused | DiFfRG/python/DiFfRG/parallel.py:136-146 | a session that loads the file computes nothing that was saved there |
| ResultCache.SavesAll | DiFfRG/python/DiFfRG/parallel.py:149-176 | and what a session has computed by its save is in the file afterwards |
| ResultCache.NothingLost | DiFfRG/python/DiFfRG/parallel.py:149-176 | if no other session writes between a session's read and its replace, whatever else happens in between, the file only grows |
| ResultCache.LostExactly | DiFfRG/python/DiFfRG/parallel.py:149-176 | in any run a replace loses exactly the results that came into the file after its session read it and that the session does not hold |
| ResultCache.LostToAnother | DiFfRG/python/DiFfRG/parallel.py:149-176 | and each of them was put there by another session in between |
| ResultCache.UpdateLost | DiFfRG/python/DiFfRG/parallel.py:149-176 | two sessions that merge before either writes do lose one |
| Handles.HoldersMove | DiFfRG/include/hdf5lib/handle.hh:51-67 | changing the id of one handle moves one holder and no other |
| Handles.Library.NeverDangles | DiFfRG/include/hdf5lib/handle.hh:21-23 | while a live handle holds an id, the id is open |
| Handles.Handle.Share | DiFfRG/include/hdf5lib/handle.hh:29-32 | a handle made from an id adds one reference if the id is open and none otherwise; it owns one exactly if it was |
| Handles.Handle.Take | DiFfRG/include/hdf5lib/handle.hh:37-42 | taking an id moves the caller's reference into the handle and leaves the count |
| Handles.Handle.CopyOf | DiFfRG/include/hdf5lib/handle.hh:44-47 | a copy adds one reference |
| Handles.Handle.MoveOf | DiFfRG/include/hdf5lib/handle.hh:49 | a move leaves the count and empties the source |
| Handles.Handle.AssignCopy | DiFfRG/include/hdf5lib/handle.hh:51-58 | the old id loses and the new one gains one reference; nothing changes between handles of one id, or with itself |
| Handles.Handle.AssignMove | DiFfRG/include/hdf5lib/handle.hh:60-67 | the old id loses one reference and the source is emptied; nothing changes with itself |
| Handles.Handle.Reset | DiFfRG/include/hdf5lib/handle.hh:71-77 | the reference is given up and the handle is empty |
| Handles.Handle.Release | DiFfRG/include/hdf5lib/handle.hh:82-87 | the reference goes back to the caller and the count stays |
| Handles.Handle.Destroy | DiFfRG/include/hdf5lib/handle.hh:69 | a destroyed handle has given up its reference |
| Handles.Execute | DiFfRG/include/hdf5lib/handle.hh:24-91 | after any sequence of these operations every id is counted once per live handle that holds it and once per reference the program owns, so it is open as long as anything holds it and closed once nothing does |

## Left out

- Floating-point rounding everywhere: arithmetic is exact over the reals, and index arithmetic does not overflow.
- The values of the fits: which points they use, their logarithms and their conditioning guards. They are arbitrary
  here.
- The guards of solve_scaling_shift before its three loops; its function is arbitrary.
- The one-dimensional and multi-dimensional root-finder base classes, logging and counters of probe sources.
- The derivative at a kink of abs or max, where one branch is taken and no slope exists, and for a division by zero.
- The shared variables of a batch: no derivative is taken of them, and they are constants of the model here.
- The exception of a frozen extractor that is seeded; per-point jacobian callbacks.
- The per-level arrays of the LDG point state: the components of all levels are one row of columns, as in the buffer.
- Kurganov-Tadmor diffusion fluxes as inputs of a jacobian: the stacked jacobian does not read them.
- Thread-local buffers kept across calls: they are fresh here. The parallel loops write disjoint slots and run in order.
- ComputeDivisibleTile: does not promise the third and fourth level of the ranking when two distances of equal products
  lie within the tie tolerance, because comparing up to a tolerance is not transitive. The code's own distance has no
  such pair up to a block size of 31622 (`LogDistanceSeparated`).
- How Kokkos picks its tile and launches blocks, and how TBB splits ranges: the midpoint split is taken from the code's
  own description.
- The lookups of component names, and the names of vector components.
- Failing sinks, and bytes a sink writes on its own.
- The digest of an analysis and the stamp of a file: a key stands for a function and a file of fixed content, so a file
  that is rewritten between the stamp and the computation is not modelled. Nor is the disabled cache.
- read_metas and its bounded memory: the same argument as for the results, without the file.
- The outer search for the gauge couplings, output other than the folder of a flow, and the exponent carried from the
  coarse stage, which only seeds a fit.
- Failures of the HDF5 library other than on closed ids; the id of a closed object may be handed out again.
- NthElement: stands for the library's selection with a sort, one of the arrangements it may leave; MedianOfPartition
  shows that the median does not depend on which.
