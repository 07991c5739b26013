# pyAmpliCol: a verified model of its studies, guards and build checks

pyAmpliCol evaluates scattering amplitudes. Around the amplitude engine its repository
carries algorithms on which the published numbers, the safety of long runs and the identity
of a build depend. This Dafny project models those algorithms and proves what they promise.

* **NLO limit study.** `FourVectors`, `DipoleMap` and `DipoleInverse` treat the final-final
  dipole map and its inverse over exact real four-vectors: splitting and merging undo each
  other in both directions. `Trajectory` and `Approach` build the collinear and soft approach
  points from the rational Born point and show that every one is exact and physical.
  `StudyPoints` gives the study's vectors, steps and checks in numbers. `Counterterm` and
  `LimitScaling` give the local counterterms and their delta^-2 law, `CountertermValues` their
  values. `RealBatch` is the batched evaluation with diagnostic bisection, and `BatchSlots`
  what each of its slots holds.
* **Memory watchdog.** `Reachability` defines least closed sets and their description by
  walks. `ProcessTree` and `Sampler` are the process-tree sampler, `Retention` says exactly
  what it keeps following. `Watchdog` is the guarding loop with its clean-up as a state
  machine over an arbitrary environment, in which snapshots and terminations of the tree may
  raise; `WatchdogRun` is the loop itself. `WatchdogSafety`, `WatchdogReport`,
  `WatchdogVerdict` and `WatchdogStatus` say what every run keeps, reports and returns.
* **Runtime benchmark.** `Calibration` chooses the repetitions of a block, `Sampling` is the
  measuring loop whose bound moves while it runs. `CalibrationAnswer` and `SamplingPlans`
  describe both by the block times alone.
* **Resource policy.** `ResourcePolicy` shares a CPU budget and merges clamps,
  `ResourceGuarantees` proves that the result is stable and independent of history, and
  `ClampOrder` says when the recorded order is; `ResourceAnswer` says what is resolved.
* **Analytic oracle.** `AnalyticOracle` bounds how far accepted kinematics can violate the
  massless identity, and shows the exchange symmetry of the result; `OracleAnswer` says when
  it answers and with what.
* **Build checks.** `BuildIdentity` is the framed identity stream with a decoder, `PathOrder`
  its order and digits, `CheckoutPath` the canonical patch path. `PackageName`, `LockEntry`
  and `RuntimeLock` are the Python dependency lock over `Ordering`, and `LinkFlags` the
  link-argument parser and printer over `Text`.

The environment of a procedure (an evaluator, a timer, process snapshots, polls, signals) is
an arbitrary function or trace, so a statement about a run holds for every behaviour of it.
Python `Decimal` and `float` values are exact reals throughout; the idealisation is repeated
below for the members it concerns.

Where the code and its own descriptions differ, the model follows the code.

* The sampler is described as retaining descendants that re-parent
  (`tools/ci/memory_watchdog.py:554`). A process is followed exactly when some sample selected
  it for another reason than having followed it, and every snapshot since has shown it
  (`Retention.FollowedExactly`); so a re-parented one that nothing else selects is kept exactly
  while no snapshot misses it (`Retention.KeptExactlyWhileVisible`).
* A run is meant to end with its report (`tools/ci/memory_watchdog.py:1132-1142`), after the
  child was seen exited or a termination of the process tree completed. Both hold except when
  an exception has left the loop, the child is still alive, and terminating it raises as well
  (`WatchdogStatus.ReportsExactly`, `WatchdogStatus.NothingLeftBehind`; a run without report is
  `WatchdogStatus.ReportCanBeMissing`). The tree is not always terminated with the child:
  `WatchdogStatus.TerminationsExactly` says exactly when it is, and
  `WatchdogStatus.DescendantCanOutliveTheRun` is a finished run that leaves a followed process.
* The exit status 137 does not identify a memory limit. `WatchdogStatus.LimitStatusExactly`
  gives the traces that end with it, and `WatchdogStatus.LimitStatusIsAmbiguous` two of them.
* The order of recorded resource clamps, unlike the effective configuration, can remember an
  earlier resolution. `ClampOrder.ClampOrderHistory` and `ClampOrder.RecordedOrder` give the
  exact guard, for any inherited clamps.

## Model

| member | source | states |
|---|---|---|
| DipoleMap.EmittingPair | examples/NLO_limits/nlo_limit_stability_tests.py:388-389 | the product of the emitting pair is y times the product of parent and spectator, so s_ij is fixed by y alone |
| DipoleMap.EmitterMassless | examples/NLO_limits/nlo_limit_stability_tests.py:388 | the emitter built by the inverse map is massless for every admissible transverse vector |
| DipoleMap.EmittedMassless | examples/NLO_limits/nlo_limit_stability_tests.py:389 | so is the emitted leg |
| DipoleMap.SplitConserves | examples/NLO_limits/nlo_limit_stability_tests.py:388-390 | the three legs carry exactly the momentum of parent and spectator |
| DipoleMap.SplitThenMerge | examples/NLO_limits/nlo_limit_stability_tests.py:349-392 | round trip: the forward map of any split with non-zero parent-spectator product and y other than 1 returns the whole Born point, y, z and s_ij exactly |
| DipoleInverse.ForwardMapDomain | examples/NLO_limits/nlo_limit_stability_tests.py:349-360 | the forward map is defined exactly when both denominators are non-zero |
| DipoleInverse.MergeThenSplit | examples/NLO_limits/nlo_limit_stability_tests.py:349-391 | converse round trip: every massless triple the map accepts gives a massless pair of the same momentum, and splitting that pair with the returned variables rebuilds the point |
| Trajectory.BornPoint | examples/NLO_limits/nlo_limit_stability_tests.py:315-331 | the rational Born point is massless, of positive energies and conserving, with a fixed parent-spectator product |
| Trajectory.TransverseBasis | examples/NLO_limits/nlo_limit_stability_tests.py:319-331 | its two basis vectors are orthonormal and orthogonal to parent and spectator |
| StudyPoints.BornVectors | examples/NLO_limits/nlo_limit_stability_tests.py:315-331 | the Born point and its transverse vectors, component by component |
| StudyPoints.StudyDirections | examples/NLO_limits/nlo_limit_stability_tests.py:372-380 | the directions of the spin correlator and of the soft momentum, component by component |
| StudyPoints.StepSize | examples/NLO_limits/nlo_limit_stability_tests.py:371-372 | delta times ten to the exponent is one in both limits |
| StudyPoints.PowersAdd | examples/NLO_limits/nlo_limit_stability_tests.py:371 | powers of ten multiply as exponents add |
| StudyPoints.CollinearOpening | examples/NLO_limits/nlo_limit_stability_tests.py:373-389 | in the collinear limit z is 3/5 and the pair opens along the spin direction by 1000 delta each, the first leg along it |
| StudyPoints.ChecksMeaning | examples/NLO_limits/nlo_limit_stability_tests.py:334-346 | the recorded checks are the largest violations of mass shells, balance and mapped Born point in units of 1000 GeV, the sign of the energies, and the errors of y and z |
| StudyPoints.ImbalanceOfSix | examples/NLO_limits/nlo_limit_stability_tests.py:339-343 | balance is that of two incoming against four outgoing momenta |
| Approach.PhysicalTrajectory | examples/NLO_limits/nlo_limit_stability_tests.py:363-422 | for both limits and every exponent the point is produced, its splitting variables lie in (0,1), all legs are massless with positive energy, momentum balances, the forward map returns Born point and variables, and every recorded check is zero |
| Approach.OnlyArgumentsAreRefused | examples/NLO_limits/nlo_limit_stability_tests.py:365-387 | a point is refused exactly for an unknown limit, an exponent below one or too few digits; the domain error is unreachable |
| Approach.ZeroChecksMeanExact | examples/NLO_limits/nlo_limit_stability_tests.py:334-403 | conversely, recorded checks that are all zero imply an exact point |
| Counterterm.EvaluateCounterterm | examples/NLO_limits/nlo_limit_stability_tests.py:437-458 | the accumulating dipole loop computes the eikonal sum of its specification and fails exactly where a weight does |
| CountertermValues.OneDipoleValue | examples/NLO_limits/nlo_limit_stability_tests.py:451-458 | one dipole of value T between legs a and b contributes -6 pi T (pa.pb) / ((pa.q)(pb.q)), and the soft counterterm is defined exactly where all legs have non-zero products |
| CountertermValues.SoftAdds | examples/NLO_limits/nlo_limit_stability_tests.py:451-458 | the soft counterterm is additive in the dipoles |
| CountertermValues.CollinearValue | examples/NLO_limits/nlo_limit_stability_tests.py:439-450 | the collinear counterterm with cleared denominators: 36 pi ((z^2 + (1-z)^2) born + 2 z^2 (1-z)^2 spin), defined exactly for z other than 0 and 1 and non-zero s_ij |
| Counterterm.EikonalScales | examples/NLO_limits/nlo_limit_stability_tests.py:454-457 | the eikonal sum is homogeneous of degree -2: for every momentum and non-zero scale it fails or succeeds alike, with the value scaled |
| Counterterm.EikonalDefined | examples/NLO_limits/nlo_limit_stability_tests.py:454-457 | it is defined exactly for momenta with a non-zero product with every Born leg |
| Counterterm.LocalAverages | examples/NLO_limits/nlo_limit_stability_tests.py:441-450 | with a spin projection of half the Born term the local collinear counterterm is the averaged one of lines 716-720 |
| LimitScaling.SoftEmission | examples/NLO_limits/nlo_limit_stability_tests.py:378-391 | along the soft trajectory the emitted momentum is exactly delta times a fixed direction |
| LimitScaling.SoftResolvesBorn | examples/NLO_limits/nlo_limit_stability_tests.py:451-457 | no eikonal denominator vanishes for the Born point of the study |
| LimitScaling.InverseSquareGrowth | examples/NLO_limits/nlo_limit_stability_tests.py:437-458 | in both limits, at any two exponents and fixed correlators, the counterterm times delta^2 is the same |
| RealBatch.Evaluation.ScreenValues | examples/NLO_limits/nlo_limit_stability_tests.py:589-593 | the in-place screening loop blanks exactly the unusable values and records their indices |
| RealBatch.Evaluation.Run | examples/NLO_limits/nlo_limit_stability_tests.py:573-599 | the recursion over shared counters has the result, errors and call count of its specification |
| RealBatch.EvaluateRealBatch | examples/NLO_limits/nlo_limit_stability_tests.py:566-602 | the whole call, with bisection reported exactly when a second call was made |
| RealBatch.RunShape | examples/NLO_limits/nlo_limit_stability_tests.py:573-602 | for an evaluator that may answer differently at each call: one slot per point in order, empty exactly where an error is recorded, only positive values kept, other errors untouched, at most 2n-1 calls |
| RealBatch.PointwiseRun | examples/NLO_limits/nlo_limit_stability_tests.py:573-599 | for an evaluator that raises exactly on batches with a raising point: each slot is its own point's verdict and R raising points cost at most 1 + 2 R ceil(log2 n) calls |
| RealBatch.PointwiseEvaluation | examples/NLO_limits/nlo_limit_stability_tests.py:566-602 | both bounds together for the whole evaluation, with errors exactly at the empty slots |
| BatchSlots.EverySlotSettled | examples/NLO_limits/nlo_limit_stability_tests.py:573-602 | for any evaluator each point is settled by one call; its slot is filled exactly when that call answered it with a finite positive value, and with that value, and otherwise the recorded error is that call's |
| BatchSlots.PointwiseSlots | examples/NLO_limits/nlo_limit_stability_tests.py:573-602 | for a pointwise evaluator a slot holds a value exactly when the point's own value is finite and positive |
| BatchSlots.RaisingCountIs | examples/NLO_limits/nlo_limit_stability_tests.py:594-599 | the count in the cost bound is the number of raising points |
| RealBatch.CeilLog2Meaning | examples/NLO_limits/nlo_limit_stability_tests.py:598-599 | the logarithm in the bound is the least exponent whose power of two reaches n |
| ProcessTree.Spread | tools/ci/memory_watchdog.py:576-582 | the worklist ends on any parent relation, cyclic ones included, with the least set closed under children that contains the seeds |
| ProcessTree.SetSumRemove | tools/ci/memory_watchdog.py:594-600 | totals over a process set do not depend on the order of summation |
| ProcessTree.ReportedTotals | tools/ci/memory_watchdog.py:586-602 | a sample's totals are the sums over its listed members, a member without a footprint counting with its resident size |
| Sampler.ProcessTreeSampler.constructor | tools/ci/memory_watchdog.py:556-559 | a new sampler knows the root only |
| Sampler.ProcessTreeSampler.Sample | tools/ci/memory_watchdog.py:561-602 | the followed set becomes the least closed set even when the footprint probe fails; members are listed by process id, and both totals run over exactly that set with the resident size as fallback |
| Retention.SelectedByAncestry | tools/ci/memory_watchdog.py:566-582 | a process is selected exactly when a visible ancestor chain leads to a known process, a member of the root group or the root |
| Retention.SelectedExactly | tools/ci/memory_watchdog.py:566-582 | the same over the parent ids of the records: a chain of visible processes from a known one, a member of the root group or the root |
| Retention.Retained | tools/ci/memory_watchdog.py:553-602 | once selected, a process visible in every later snapshot stays selected whatever its parent and group become |
| Retention.RetainedDescendants | tools/ci/memory_watchdog.py:553-602 | together with every descendant visible at each step |
| Retention.FollowedExactly | tools/ci/memory_watchdog.py:553-602 | a process is followed if and only if some sample selected it for a reason other than having followed it, and every snapshot since shows it |
| Retention.KeptExactlyWhileVisible | tools/ci/memory_watchdog.py:553-602 | a followed process that no later sample selects afresh stays followed exactly when all later snapshots show it |
| Retention.OneMissedSnapshotForgets | tools/ci/memory_watchdog.py:570-584 | a concrete sequence in which one missed snapshot ends the retention |
| Retention.KnownFromSnapshots | tools/ci/memory_watchdog.py:951-960 | over the ticks of a run the followed processes are those of the sampler over the snapshots shown, whichever snapshots or footprint probes failed |
| Retention.RetainedThroughFailures | tools/ci/memory_watchdog.py:951-960 | so a followed process stays followed through failed snapshots and footprint probes while every snapshot shows it |
| WatchdogRun.Guard.Iterate | tools/ci/memory_watchdog.py:913-1120 | one iteration over the watchdog's own counters and sampler goes on, returns after its one report, or throws, as one iteration of the state machine does |
| WatchdogRun.Guard.StopTree | tools/ci/memory_watchdog.py:914-931 | terminate, poll and report in this order; a termination that raises leaves the loop with nothing reported |
| WatchdogRun.Guard.AfterFailure | tools/ci/memory_watchdog.py:960-1014 | the failed-probe branch: counters, pending reason and the three ways to go on |
| WatchdogRun.Guard.AfterSample | tools/ci/memory_watchdog.py:1015-1079 | the sampled branch: recovery check, peaks and the limit |
| WatchdogRun.Guard.EndIteration | tools/ci/memory_watchdog.py:1081-1120 | the closing poll of an iteration |
| WatchdogRun.Guard.FinalCleanUp | tools/ci/memory_watchdog.py:1121-1142 | a child still alive has its tree terminated, then an unreported run is reported as an exception; when that termination raises nothing more is reported; never a second report |
| WatchdogRun.Guard.RunGuarded | tools/ci/memory_watchdog.py:910-1142 | over every trace the loop with its clean-up ends as the state machine does, with at most one report, or is still running with none |
| WatchdogSafety.RunningIsQuiet | tools/ci/memory_watchdog.py:910-1120 | a run is still going exactly when every tick was harmless and left the child alive; its counters then equal trailing failures and followed processes of the trace, and a reason is pending exactly while failures are |
| WatchdogSafety.FinishedExactlyWhenClean | tools/ci/memory_watchdog.py:910-1119 | the outcome is command-finished exactly on a clean trace: no signal acted on, every sample within the limit, no three consecutive failures, the child alive at every poll through the recovering sample, last probe successful |
| WatchdogSafety.StoppingTick | tools/ci/memory_watchdog.py:910-1142 | every stopped run stopped at one tick and stays as it then was, so the statements below about a stopping tick cover every run |
| WatchdogSafety.FailsClosed | tools/ci/memory_watchdog.py:914-1079 | after any harmful tick no run is still going, and none that reached it reports the command finished |
| WatchdogVerdict.EverySampleWithinLimit | tools/ci/memory_watchdog.py:609-615 | while a run goes on, and when it finishes, every sample had its resident total and, when read, its footprint total within the limit |
| WatchdogVerdict.OverLimitExactly | tools/ci/memory_watchdog.py:1044-1045 | a sample stops the run exactly when it is accepted and one of its two totals is above the limit |
| WatchdogVerdict.ReportExactly | tools/ci/memory_watchdog.py:913-1142 | status, child status, outcome and reason of every report, read off the stopping tick: 128 plus the signal, 125, 137 or the child's own, with the footprint reason exactly when a footprint of at least the resident total was read |
| WatchdogVerdict.ShellStatus | tools/ci/memory_watchdog.py:618-621 | return codes become shell statuses: kept from zero on, 128 plus the number of a signal up to 127, and 255 beyond |
| WatchdogVerdict.FailureReasons | tools/ci/memory_watchdog.py:951-972 | a failed probe is the memory probe when its snapshot failed and the footprint probe after it |
| WatchdogReport.NumbersAreExact | tools/ci/memory_watchdog.py:819-866 | however a run ends or goes on, sample and failure counts, the longest failure run, and the peaks of resident, physical and enforced totals and of process numbers are exact for the part of the trace its last tick lets in |
| WatchdogReport.NumbersByOutcome | tools/ci/memory_watchdog.py:910-1142 | which part that is for each reported outcome: the whole trace, everything before a signal or crash, or all counts with the peaks before an exit seen after a recovering sample |
| WatchdogReport.ReportedBounds | tools/ci/memory_watchdog.py:960-1079 | at most three consecutive failures are ever reported, exactly three with a probe-failed verdict, and a limit verdict comes with a peak above the limit |
| WatchdogStatus.ReportsExactly | tools/ci/memory_watchdog.py:1121-1142 | a run ends without its report exactly when an exception leaves the loop with the child alive and the clean-up termination raises; an exception reaches the caller exactly then, when one left the loop, or when the clean-up after a reported stop raises |
| WatchdogStatus.ReportCanBeMissing | tools/ci/memory_watchdog.py:1121-1142 | a one-tick run that ends by an exception without report and without a completed termination |
| WatchdogStatus.NothingLeftBehind | tools/ci/memory_watchdog.py:1121-1142 | when a reported run stops the child was seen exited or a termination completed, at most two; a clean finish terminates nothing; a run without report completed none and last saw the child alive |
| WatchdogStatus.TerminationsExactly | tools/ci/memory_watchdog.py:913-1131 | the number of completed terminations: one in the loop exactly for a signal, a third failure or an exceeded limit, and one in the clean-up exactly when the next poll still sees the child alive |
| WatchdogStatus.DescendantCanOutliveTheRun | tools/ci/memory_watchdog.py:1081-1131 | a finished run in which a followed descendant of the exited child is not terminated |
| WatchdogStatus.ZeroExactlyWhenClean | tools/ci/memory_watchdog.py:705-785 | status zero is returned exactly for a clean run of a child returning zero whose requested report is written and whose bound result is available |
| WatchdogStatus.PassesExactlyWhenZero | tools/ci/memory_watchdog.py:720-785 | a written report passes exactly when the returned status is zero |
| WatchdogStatus.StatusOverriddenExactly | tools/ci/memory_watchdog.py:698-785 | reporting changes a status exactly when the requested report cannot be written or would bind a missing result to status zero |
| WatchdogStatus.WrittenExactly | tools/ci/memory_watchdog.py:705-785 | a report is written exactly when requested and writable, and names the returned status, the child's and the outcome |
| WatchdogStatus.ChildStatusReturned | tools/ci/memory_watchdog.py:618-621 | a clean run returns the child's own status in shell form, unless a requested report cannot be written or would bind a missing result to zero |
| WatchdogStatus.LimitStatusExactly | tools/ci/memory_watchdog.py:911-1119 | status 137 is reported exactly when an accepted sample exceeds the limit and the termination completes, or on a clean run of a command returning 137 or killed by signal 9; it is returned exactly when moreover the clean-up does not raise and a requested report is written |
| WatchdogStatus.LimitStatusIsAmbiguous | tools/ci/memory_watchdog.py:618-621 | for every limit and size, a sampled child then seen killed by signal 9 ends with that status, as a finished command within the limit and as a limit verdict above it |
| WatchdogStatus.NormalizedZero | tools/ci/memory_watchdog.py:618-621 | only return code zero is normalized to zero; codes of signals land between 129 and 255 |
| Calibration.PlanFitsTarget | src/pyamplicol/benchmarking.py:1553-1568 | a plan above the requested minimum is affordable at the probed cost |
| Calibration.PlanIsLargestAffordable | src/pyamplicol/benchmarking.py:1558-1568 | no larger count in the desired range is affordable |
| CalibrationAnswer.PlanIsLargest | src/pyamplicol/benchmarking.py:1553-1568 | one sample for a minimum of one, and otherwise the largest count that is the minimum, or keeps samples below 0.25 s and is affordable |
| Calibration.EstimateBounds | src/pyamplicol/benchmarking.py:1578-1585 | an estimate from an observation whose cost per repetition lies between two bounds lies between the two ideal counts |
| Calibration.CalibrateRepetitions | src/pyamplicol/benchmarking.py:1588-1656 | the for/else loop chooses the specified count, and its running counters are the exact totals of the measured blocks |
| CalibrationAnswer.CalibrationMeaning | src/pyamplicol/benchmarking.py:1588-1656 | for any timer: each refinement block has the least count estimated to reach the target from the observation before it, none but the last is within 0.8 and 1.25 of the target, and the chosen count is that of a last block within, or the estimate from the last observation |
| Calibration.AtMostThreeBlocks | src/pyamplicol/benchmarking.py:1599-1646 | for any timer at most three blocks are measured, two when an initial observation is given |
| Calibration.CalibrationBounds | src/pyamplicol/benchmarking.py:1588-1656 | for any timer whose cost per repetition stays between two bounds the result lies between the two ideal counts, through every exit of the loop |
| Calibration.ConstantCostIsExact | src/pyamplicol/benchmarking.py:1588-1656 | a constant cost is calibrated to exactly the clamped ceiling of target over cost |
| Sampling.SampleBlocks | src/pyamplicol/benchmarking.py:583-705 | the while loop with its moving bound ends, with the outcome of its specification |
| Sampling.SamplingEndsWell | src/pyamplicol/benchmarking.py:563-689 | finished means every planned block measured and the target reached, with a plan between the initial count and four times it; giving up means that cap with the target missed; a failure comes from the first block after completed ones; profiles pair with blocks |
| SamplingPlans.SamplingFollowsPlans | src/pyamplicol/benchmarking.py:645-672 | every run goes through a chain of plans, each the least that should reach the target at the mean block time so far and at most four times the first, and ends at its last |
| SamplingPlans.ProfilesTaken | src/pyamplicol/benchmarking.py:563-622 | the number of profiles in each mode |
| Sampling.UnreachableExactly | src/pyamplicol/benchmarking.py:645-672 | undisturbed, with non-negative times, the target is reported unreachable exactly when four times the initial blocks are too short |
| Sampling.ConstantBlocks | src/pyamplicol/benchmarking.py:645-672 | with constant block times exactly the blocks that fill the target are measured, never fewer than first planned |
| ResourceGuarantees.CpuPartition | src/pyamplicol/licensing.py:157-185 | workers and cores are positive, fit process count, budget and requests, and use the budget as far as automatic cores can |
| ResourceGuarantees.PolicyStable | src/pyamplicol/licensing.py:157-185 | re-running the policy on its own effective values gives no clamps, with an explicit or a detected budget |
| ResourceGuarantees.EffectiveIsLast | src/pyamplicol/config/resolver.py:488-517 | the effective value of a field is that of its last clamp, or the requested one |
| ResourceGuarantees.EffectiveResources | src/pyamplicol/licensing.py:119-249 | a resolution makes the partition effective, one and one in restricted mode, and the request while the process count is unknown |
| ResourceAnswer.ResolutionAnswer | src/pyamplicol/licensing.py:119-249 | which error a resolution gives; otherwise the largest workers within process count, budget and request and then the largest cores, and a record with request, effect and reason for exactly the changed fields |
| ResourceAnswer.ResourceFields | src/pyamplicol/licensing.py:131-185 | the two fields the policy concerns, by name |
| ResourcePolicy.MergeClamps | src/pyamplicol/licensing.py:227-247 | the two merging loops with their emitted set compute the specified merge |
| ResourceGuarantees.MergePreserves | src/pyamplicol/licensing.py:215-243 | unrelated clamps survive the merge unchanged and in order |
| ResourceGuarantees.MergeFollowsPolicy | src/pyamplicol/licensing.py:227-247 | the resource clamps of the merge are exactly the policy's, each once |
| ResourceGuarantees.ResolveMeaning | src/pyamplicol/licensing.py:215-249 | a resolution succeeds exactly when the policy does and every inherited clamp is of a known field |
| ResourceGuarantees.ResolveIdempotent | src/pyamplicol/licensing.py:188-249 | resolving a resolution again with the same inputs returns it, clamp records included |
| ResourceGuarantees.HistoryIndependent | src/pyamplicol/licensing.py:188-249 | earlier resolutions with other inputs, a different detected CPU count included, do not change success or the effective configuration |
| ClampOrder.ClampOrderHistory | src/pyamplicol/licensing.py:227-247 | for any inherited clamps, merging one policy and then another gives the list of the second alone if and only if a guard on inherited clamps and clamped paths holds |
| ClampOrder.RecordedOrder | src/pyamplicol/licensing.py:188-249 | the same for the recorded clamps of two successive resolutions |
| ClampOrder.PolicyInOrder | src/pyamplicol/licensing.py:131-185 | every policy clamps resource fields once each, workers before cores, as the previous rows ask |
| ClampOrder.ClampOrderWitness | src/pyamplicol/licensing.py:157-185 | inputs of the policy for which the guard fails |
| AnalyticOracle.MandelstamBound | tools/developer/analytic_oracles.py:299-339 | accepted massless kinematics violate s + t + u = 0 by at most 12 rho M^2 |
| AnalyticOracle.AcceptedWithinBound | tools/developer/analytic_oracles.py:108-131 | so do the invariants of every point the oracle answers for |
| AnalyticOracle.ExactIdentity | tools/developer/analytic_oracles.py:119-127 | on exact kinematics the identity holds exactly |
| AnalyticOracle.ExchangeSymmetry | tools/developer/analytic_oracles.py:108-142 | on exact kinematics exchanging the incoming or the outgoing legs changes neither result nor error |
| AnalyticOracle.ResolvedSumsToTotal | tools/developer/analytic_oracles.py:128-142 | the resolved entries are non-negative, only the opposite helicities contribute, equally, and they sum to the total |
| OracleAnswer.LegsAre | tools/developer/analytic_oracles.py:299-330 | for any masses, the leg checks pass exactly for positive energies and masses squared within tolerance |
| OracleAnswer.FirstBadLegIs | tools/developer/analytic_oracles.py:299-330 | the first bad leg gives the error, its energy before its shell |
| OracleAnswer.AnsweredExactly | tools/developer/analytic_oracles.py:111-127 | a point is answered exactly when energies and s are positive and mass shells, balance and massless identity hold within their tolerances |
| OracleAnswer.EntryExactly | tools/developer/analytic_oracles.py:108-142 | which precision, accuracy and shapes the entry accepts, with the tolerance 10^-(digits+3) |
| OracleAnswer.AnswerIs | tools/developer/analytic_oracles.py:126-129 | the total is kappa^4 t^2 (s+t)^2 / (16 s^2) |
| OracleAnswer.CentreOfMassAnswer | tools/developer/analytic_oracles.py:126-129 | at exact centre-of-mass points it is kappa^4 pT^4 / 16 |
| BuildIdentity.DecodesBody | build_backend/native_build_identity.py:596-610 | a decoder recovers every framed path and data in order |
| BuildIdentity.FramingInjective | build_backend/native_build_identity.py:596-610 | equal framed streams come from equal file lists |
| BuildIdentity.HashInputs | build_backend/native_build_identity.py:596-610 | the update loop over the sorted distinct paths produces the specified stream, or fails on an unrepresentable length |
| PathOrder.KeyOrderIsPartOrder | build_backend/native_build_identity.py:597 | paths are hashed in the order of their lists of parts |
| Ordering.LessMeaning | build_backend/native_build_identity.py:597 | the order of lists: at the first difference the shorter or smaller one is below |
| PathOrder.LittleEndianDigits | build_backend/native_build_identity.py:601-609 | a length is framed by its base-256 digits, least significant first |
| PathOrder.FrameIs | build_backend/native_build_identity.py:601-609 | a frame is the eight digits of the length and the bytes, for lengths below 2^64 |
| BuildIdentity.EnumerationIrrelevant | build_backend/native_build_identity.py:597-609 | the stream does not depend on order or repetition of the enumerated files |
| BuildIdentity.IdentityInjective | build_backend/native_build_identity.py:596-610 | equal streams mean the same regular files with the same canonical data |
| CheckoutPath.CanonicalIsIdempotent | build_backend/native_build_identity.py:328-344 | canonicalizing an accepted path again changes nothing |
| CheckoutPath.NormalizedExactly | build_backend/native_build_identity.py:328-329 | backslashes become slashes and trailing slashes go |
| CheckoutPath.DecidedExactly | build_backend/native_build_identity.py:330-344 | the fixed checkout by name; else what follows the last checkout directory below the relative one; else a path already below it; and nothing else |
| PackageName.CanonicalIdentifies | build_backend/python_lock.py:12-18 | two names normalize alike exactly when they agree up to case and separator runs, as the "Normalized Names" section of PEP 503 asks |
| PackageName.CanonicalIdempotent | build_backend/python_lock.py:15-18 | normalization is idempotent |
| PackageName.CanonicalIsNormal | build_backend/python_lock.py:12-18 | the normal form has no capitals, only single hyphens as separators, and spells the same name |
| PackageName.LowerCase | build_backend/python_lock.py:18 | ASCII capitals alone change to lower case |
| RuntimeLock.Reach | build_backend/python_lock.py:163-170 | the worklist ends on every dependency graph with the closure of the direct packages |
| RuntimeLock.DirectSetIs | build_backend/python_lock.py:164 | the worklist starts from the names of the direct packages |
| LockEntry.ParseArtifacts | build_backend/python_lock.py:80-100 | the artifact loop reports the first faulty wheel, or accepts an ordered list of plain wheels with lower-case digests |
| LockEntry.ArtifactRefused | build_backend/python_lock.py:86-96 | which error a faulty wheel entry gives |
| LockEntry.ParsePackage | build_backend/python_lock.py:120-147 | the checks of one entry report the first failing one |
| LockEntry.EntryAcceptedExactly | build_backend/python_lock.py:62-147 | an entry is accepted if and only if its raw texts are present, its dependency list is free of repetition and sorted once normalized, and its artifacts are plain digested wheels in strictly increasing order |
| RuntimeLock.CheckGraph | build_backend/python_lock.py:149-180 | order, missing and self dependencies, reachability and repeated wheels are reported in this order |
| RuntimeLock.LoadLock | build_backend/python_lock.py:103-185 | loading a decoded file reports exactly the first failing check, and returns the typed lock exactly when none fails |
| RuntimeLock.LockAcceptedExactly | build_backend/python_lock.py:103-185 | a file is accepted if and only if its fields and entries are good and its packages have strictly increasing names, known dependencies other than themselves, a path from a direct package, and no wheel in common |
| RuntimeLock.AcceptedLock | build_backend/python_lock.py:80-185 | in an accepted lock exactly the packages reachable from direct ones are listed, and every wheel is plain and digested |
| LinkFlags.ParseTokens | build_backend/sdk.py:184-225 | the token loop accepts or rejects as specified |
| LinkFlags.AcceptedExactly | build_backend/sdk.py:184-225 | a token list is accepted if and only if it spells allowed libraries and frameworks of its target |
| LinkFlags.DarwinTargets | build_backend/sdk.py:185-196 | a target is an Apple one exactly when it contains apple-darwin |
| LinkFlags.RefusedExactly | build_backend/sdk.py:184-225 | after allowed tokens the first faulty one decides the error |
| LinkFlags.PrintFlags | build_backend/sdk.py:321-338 | the flags of a record for its own target, libraries before frameworks |
| LinkFlags.PrintThenParse | build_backend/sdk.py:184-338 | parsing the printed flags of a well-formed record returns the record |
| LinkFlags.ParseThenPrint | build_backend/sdk.py:184-338 | printing what was parsed gives the first occurrence of every name, libraries first, and is a fixed point of a second pass |

## Left out

- RealBatch.EvaluateRealBatch: requires that evaluating an empty batch does not raise, because the code halves an empty batch without end in that case; the text of evaluator exceptions is arbitrary, and no arithmetic error arises while values are screened.
- Approach.PhysicalTrajectory: real arithmetic is exact; decimal contexts, rounding to the requested digits and the string form of the record are not modelled.
- LimitScaling.InverseSquareGrowth: correlator values are held fixed along the trajectory; that the amplitude engine returns the same ones is not part of this model.
- Sampler.ProcessTreeSampler.Sample: requires snapshots keyed by the process id of their records, as every snapshot function of the file builds them; processor times are omitted.
- WatchdogRun.Guard.RunGuarded: covers every finite part of a run; argument validation, a command that cannot be started, stderr output, signal handler installation and elapsed times are omitted, and an exception inside report writing or printing, other than the handled ones, is not modelled.
- WatchdogStatus.NothingLeftBehind: a termination either completes or raises; its signals, grace period and own samples are not modelled, and the code treats a failed snapshot during it as an empty sample, so nothing is claimed about the tree being gone afterwards.
- Calibration.ConstantCostIsExact: times are exact reals, and costs below the clock resolution of 1e-12 seconds are excluded as the code replaces them.
- Sampling.SampleBlocks: interruptions and failures happen while a block is measured or profiled, not between the bookkeeping statements after it; per-point values, evaluator attribution and progress output are omitted.
- ResourcePolicy.ResolveConfig: settings are one flat table; defaults, coercion, dynamic fields and the derived colour and compression settings, which touch no resource field, are omitted.
- AnalyticOracle.ScalarGravity: real arithmetic is exact, so decimal conditions and non-finite inputs do not arise; the contact and chiral-current oracles are omitted.
- BuildIdentity.HashInputs: the hash function is opaque, and the canonical forms of the lock, project and candidate files are taken as given data.
- PackageName.CanonicalizeName: lower case is ASCII only.
- RuntimeLock.LoadLock: reading and decoding the file is omitted, file names are those of POSIX hosts, and error texts are reduced to their kind and place.
- LinkFlags.ParseTokens: error texts are reduced to their kind, and absolute paths are those of POSIX hosts.
- The amplitude runtime, colour algebra, Fourier contraction, generated code and native bindings are not modelled.
- Binary64 and double-double arithmetic adapters are not modelled, since their rounding is delegated to libraries that are not part of this model.
- Process snapshots from the operating system, subprocess handling, package installation and plotting are not modelled.
