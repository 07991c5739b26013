/** The final report's decision and the status returned to the caller. */
module WatchdogStatus {
  import opened Prelude
  import opened ProcessTree
  import opened Watchdog
  import opened WatchdogSafety

  /** Whether a result file is to be bound to the report, and whether it is there. */
  datatype Binding = NotBound | Bound(available: bool)

  /** Whether a report is requested, and whether it can be written. */
  datatype Reporting = NoReport | Requested(binding: Binding, writable: bool)

  datatype Report = Report(passes: bool, completedUnderRetryPolicy: bool, watchdogExitCode: int,
                           childExit: Option<int>, outcome: ReportedOutcome)

  datatype ReportedOutcome = Ended(outcome: Outcome) | ResultBindingFailed

  function BindingFails(binding: Binding): bool {
    binding.Bound? && !binding.available
  }

  /** The returned status, and the report when one was written. */
  function EmitFinalReport(reporting: Reporting, v: Verdict): (int, Option<Report>) {
    match reporting
    case NoReport => (v.exitCode, None)
    case Requested(binding, writable) =>
      var rebound := BindingFails(binding) && v.exitCode == 0;
      var exitCode := if rebound then WATCHDOG_ERROR_EXIT_CODE else v.exitCode;
      var outcome := if rebound then ResultBindingFailed else Ended(v.outcome);
      var completed := exitCode == 0 && v.childExit == Some(0) && outcome == Ended(CommandFinished);
      var passes := exitCode == 0 && v.childExit == Some(0) && completed && !BindingFails(binding);
      if writable then (exitCode, Some(Report(passes, completed, exitCode, v.childExit, outcome)))
      else (WATCHDOG_ERROR_EXIT_CODE, None)
  }

  /** What the caller receives: a status, or nothing when an exception escapes. */
  function Returned(reporting: Reporting, ending: Ending): Option<int> {
    match ending.report
    case Some(v) => if ending.raises then None else Some(EmitFinalReport(reporting, v).0)
    case None => None
  }

  /** The report file of a run, when one was written. */
  function Written(reporting: Reporting, ending: Ending): Option<Report> {
    match ending.report
    case Some(v) => EmitFinalReport(reporting, v).1
    case None => None
  }

  lemma NormalizedZero(returncode: int)
    ensures NormalizedExitCode(returncode) == 0 <==> returncode == 0
    ensures returncode < 0 ==> 129 <= NormalizedExitCode(returncode) <= 255
  {
  }

  // ----- how the loop is left

  /** What is known about leaving the loop at a tick. */
  predicate LeavesWell(leaving: Leaving, tick: Tick) {
    if leaving.report.None? then !leaving.terminated
    else
      var v := leaving.report.value;
      && (v.exitCode == 0 <==> v.outcome == CommandFinished && tick.pollEnd == Some(0))
      && (v.exitCode == MEMORY_LIMIT_EXIT_CODE <==>
            || v.outcome == LimitExceeded
            || (v.outcome == CommandFinished && (tick.pollEnd == Some(137) || tick.pollEnd == Some(-9))))
      && (v.outcome == CommandFinished ==>
            && tick.pollEnd.Some? && v.exitCode == NormalizedExitCode(tick.pollEnd.value)
            && v.childExit == Some(v.exitCode) && !leaving.terminated)
      && (v.childExit.Some? ==> v.childExit == Normalized(tick.pollLate))
      && (leaving.terminated || tick.pollLate.Some?)
      && v.outcome != WatchdogException
  }

  lemma IterationLeavesWell(cfg: Config, st: State, tick: Tick)
    requires ValidTick(cfg, tick) && Iteration(cfg, st, tick).Leaves?
    ensures LeavesWell(Iteration(cfg, st, tick).leaving, tick)
  {
    hide Tracked, RssOf, FootprintOf, WellKeyed;
  }

  /** How a stopped run left its loop, and what the clean-up made of it. */
  lemma LeavingOf(cfg: Config, ticks: seq<Tick>) returns (leaving: Leaving)
    requires ValidTrace(cfg, ticks) && StopsNow(cfg, ticks)
    ensures var last := |ticks| - 1;
            && Run(cfg, ticks).ending == CleanUp(leaving, ticks[last])
            && LeavesWell(leaving, ticks[last]) && ValidTick(cfg, ticks[last])
            && (leaving.report.None? <==> Escapes(cfg, ticks, last))
            && (leaving.terminated <==> Terminates(cfg, ticks, last) && ticks[last].terminate.Completes?)
            && (leaving.report.Some? && leaving.report.value.outcome == LimitExceeded
                <==> OverLimit(cfg, ticks, last) && ticks[last].terminate.Completes?)
  {
    hide CleanUp, Iteration, Faithful, Quiet, Escapes, Terminates, OverLimit, LeavesWell, ValidTick;
    var before := ticks[..|ticks| - 1];
    var st := Run(cfg, before).state;
    RunningIsQuiet(cfg, before);
    StepLeaves(cfg, ticks, st);
    leaving := Iteration(cfg, st, ticks[|ticks| - 1]).leaving;
    IterationLeavesWell(cfg, st, ticks[|ticks| - 1]);
  }

  // ----- reports, exceptions and terminations

  /**
   * The reports and exceptions of every run. It ends without its report exactly when an
   * exception leaves the loop with the child still alive, and terminating it raises as well;
   * a report of an exception is made exactly when one left the loop and the report is made
   * at all. An exception reaches the caller exactly when one left the loop, or when a
   * reported stop finds the child still alive and terminating it again raises.
   */
  lemma ReportsExactly(cfg: Config, ticks: seq<Tick>)
    requires ValidTrace(cfg, ticks) && StopsNow(cfg, ticks)
    ensures var run := Run(cfg, ticks); var last := |ticks| - 1; var tick := ticks[last];
            && (run.ending.report.None? <==> Escapes(cfg, ticks, last) && tick.pollLate.None? && tick.cleanUp.Raises?)
            && (Reported(run, WatchdogException) <==> Escapes(cfg, ticks, last) && run.ending.report.Some?)
            && (run.ending.raises <==>
                  || Escapes(cfg, ticks, last)
                  || (Terminates(cfg, ticks, last) && tick.pollLast.None? && tick.cleanUp.Raises?))
  {
    hide Step, ValidTrace, Terminates;
    var leaving := LeavingOf(cfg, ticks);
  }

  /**
   * No reported run abandons the child: when it stops, either the child was seen exited or
   * a termination of the tree completed, two at most, and a clean finish terminates nothing.
   * A run without its report completed no termination and last saw the child alive.
   */
  lemma NothingLeftBehind(cfg: Config, ticks: seq<Tick>)
    requires ValidTrace(cfg, ticks) && StopsNow(cfg, ticks)
    ensures var run := Run(cfg, ticks); var tick := ticks[|ticks| - 1];
            && (run.ending.report.Some? ==> tick.pollLast.Some? || 1 <= run.ending.terminations)
            && (run.ending.report.None? ==> tick.pollLate.None? && run.ending.terminations == 0 && run.ending.raises)
            && run.ending.terminations <= 2
            && (Reported(run, CommandFinished) ==> run.ending.terminations == 0 && !run.ending.raises)
  {
    hide Step, ValidTrace, Escapes, Terminates;
    var leaving := LeavingOf(cfg, ticks);
  }

  /** How often a run terminates the tree: once inside the loop when a tick asks for it, and
      once in the clean-up when the next poll still sees the child alive, each time provided
      that the termination completes. */
  lemma TerminationsExactly(cfg: Config, ticks: seq<Tick>)
    requires ValidTrace(cfg, ticks) && StopsNow(cfg, ticks)
    ensures var last := |ticks| - 1; var tick := ticks[last];
            var inLoop := Terminates(cfg, ticks, last) && tick.terminate.Completes?;
            var alive := if inLoop then tick.pollLast.None? else tick.pollLate.None?;
            Run(cfg, ticks).ending.terminations == Count(inLoop) + Count(alive && tick.cleanUp.Completes?)
  {
    hide Step, ValidTrace, Escapes, Terminates, OverLimit;
    var leaving := LeavingOf(cfg, ticks);
  }

  /** A run can end without its report: the probe crashes with the child alive, and so does
      the termination in the clean-up. */
  lemma ReportCanBeMissing()
    ensures var cfg := Config(100, 1, false);
            var ticks := [Tick(None, None, Crashes, None, None, Completes, None, Raises, None)];
            && ValidTrace(cfg, ticks) && StopsNow(cfg, ticks)
            && Run(cfg, ticks).ending == Ending(None, true, 0)
  {
    assert [Tick(None, None, Crashes, None, None, Completes, None, Raises, None)][..0] == [];
  }

  /** A followed process 2, the child of the root process 1. */
  const TWO_PROCESSES: Snapshot := map[1 := ProcessInfo(1, 0, 1, 5), 2 := ProcessInfo(2, 1, 2, 5)]

  const ROOT_EXITS :=
    Tick(None, None, Observed(TWO_PROCESSES, NotRequested), None, Some(0), Completes, Some(0), Completes, Some(0))

  /** The tree need not be terminated with the child: a command that exits while a descendant
      is followed ends its run with nothing terminated. */
  lemma DescendantCanOutliveTheRun()
    ensures var cfg := Config(100, 1, false); var run := Run(cfg, [ROOT_EXITS]);
            && ValidTrace(cfg, [ROOT_EXITS]) && StopsNow(cfg, [ROOT_EXITS])
            && Reported(run, CommandFinished) && run.ending.terminations == 0 && !run.ending.raises
            && 2 in run.state.known
  {
    hide Tracked, SetSum, RssWeights;
    TwoProcesses();
    assert [ROOT_EXITS][..0] == [];
  }

  lemma TwoProcesses()
    ensures Tracked(1, 1, {1}, TWO_PROCESSES) == {1, 2} && SetSum({1, 2}, RssWeights(TWO_PROCESSES)) == 10
  {
    var edges := ChildrenOf(TWO_PROCESSES);
    assert 1 in Seeds(1, 1, {1}, TWO_PROCESSES);
    assert 1 in edges && 2 in edges[1];
    SetSumRemove({1, 2}, RssWeights(TWO_PROCESSES), 1);
    assert {1, 2} - {1} == {2};
    SetSumRemove({2}, RssWeights(TWO_PROCESSES), 2);
    assert {2} - {2} == {};
  }

  // ----- what a status means

  /**
   * A successful status is earned: it is returned exactly for a clean run whose child
   * returned zero and, when a report was requested, whose result is available and whose
   * report was written.
   */
  lemma ZeroExactlyWhenClean(cfg: Config, ticks: seq<Tick>, reporting: Reporting)
    requires ValidTrace(cfg, ticks) && StopsNow(cfg, ticks)
    ensures Returned(reporting, Run(cfg, ticks).ending) == Some(0)
       <==> && CleanFinish(cfg, ticks, 0)
            && (reporting.Requested? ==> reporting.writable && !BindingFails(reporting.binding))
  {
    hide Step, CleanFinish, ValidTrace, NormalizedExitCode, Escapes, Terminates;
    var leaving := LeavingOf(cfg, ticks);
    FinishedExactlyWhenClean(cfg, ticks, 0);
  }

  /** A written report passes exactly when the returned status is zero. */
  lemma PassesExactlyWhenZero(cfg: Config, ticks: seq<Tick>, reporting: Reporting)
    requires ValidTrace(cfg, ticks) && StopsNow(cfg, ticks)
    requires Written(reporting, Run(cfg, ticks).ending).Some?
    ensures var ending := Run(cfg, ticks).ending; var report := Written(reporting, ending).value;
            && (report.passes <==> Returned(reporting, ending) == Some(0))
            && (report.passes <==> report.completedUnderRetryPolicy)
  {
    hide Step, ValidTrace, NormalizedExitCode, Escapes, Terminates;
    var leaving := LeavingOf(cfg, ticks);
  }

  /** A clean run returns the child's own status, in the form shells give it, unless a
      requested report replaces it. */
  lemma ChildStatusReturned(cfg: Config, ticks: seq<Tick>, returncode: int, binding: Binding, writable: bool)
    requires ValidTrace(cfg, ticks) && CleanFinish(cfg, ticks, returncode)
    ensures var status := NormalizedExitCode(returncode); var run := Run(cfg, ticks);
            && run.Stopped?
            && Returned(NoReport, run.ending) == Some(status)
            && Returned(Requested(binding, writable), run.ending)
               == Some(if writable && !(BindingFails(binding) && returncode == 0) then status
                       else WATCHDOG_ERROR_EXIT_CODE)
  {
    hide Step, CleanFinish, ValidTrace, NormalizedExitCode, Escapes, Terminates, OverLimit;
    FinishedExactlyWhenClean(cfg, ticks, returncode);
    NormalizedZero(returncode);
    var leaving := LeavingOf(cfg, ticks);
  }

  /**
   * The status of the memory limit does not identify a limit verdict. A run reports it
   * exactly when an accepted sample exceeds the limit and the termination completes, or on a
   * clean run of a command that itself returned 137 or was killed by signal 9; and it returns
   * it exactly when in addition the clean-up does not raise and a requested report is written.
   */
  lemma LimitStatusExactly(cfg: Config, ticks: seq<Tick>, reporting: Reporting)
    requires ValidTrace(cfg, ticks) && StopsNow(cfg, ticks)
    ensures var ending := Run(cfg, ticks).ending; var last := |ticks| - 1; var tick := ticks[last];
            var exceeded := OverLimit(cfg, ticks, last) && tick.terminate.Completes?;
            var own := CleanFinish(cfg, ticks, 137) || CleanFinish(cfg, ticks, -9);
            && (ending.report.Some? && ending.report.value.exitCode == MEMORY_LIMIT_EXIT_CODE <==> exceeded || own)
            && (Returned(reporting, ending) == Some(MEMORY_LIMIT_EXIT_CODE) <==>
                  && ((exceeded && !(tick.pollLast.None? && tick.cleanUp.Raises?)) || own)
                  && (reporting.Requested? ==> reporting.writable))
  {
    hide Step, CleanFinish, ValidTrace, NormalizedExitCode, Escapes, OverLimit, ThirdFailure;
    var leaving := LeavingOf(cfg, ticks);
    FinishedExactlyWhenClean(cfg, ticks, 137);
    FinishedExactlyWhenClean(cfg, ticks, -9);
  }

  /** A tick in which the only process uses `rss` bytes and the child is then seen killed
      by signal 9. */
  function KilledTick(rss: nat): Tick {
    Tick(None, None, Observed(map[1 := ProcessInfo(1, 0, 1, rss)], NotRequested), None, Some(-9), Completes, Some(-9),
         Completes, Some(-9))
  }

  /** The sample of a single root process. */
  lemma OneProcess(rss: nat)
    ensures var records: Snapshot := map[1 := ProcessInfo(1, 0, 1, rss)];
            && Tracked(1, 1, {1}, records) == {1}
            && SetSum({1}, RssWeights(records)) == rss
  {
    var records: Snapshot := map[1 := ProcessInfo(1, 0, 1, rss)];
    assert 1 in Seeds(1, 1, {1}, records);
    SetSumRemove({1}, RssWeights(records), 1);
    assert {1} - {1} == {};
  }

  /** The same status for different outcomes: whatever the limit, a run over that tick ends
      with status 137, as a finished command within the limit and as a limit verdict above. */
  lemma LimitStatusIsAmbiguous(rss: nat, limit: nat)
    ensures var cfg := Config(limit, 1, false); var run := Run(cfg, [KilledTick(rss)]);
            && ValidTrace(cfg, [KilledTick(rss)]) && StopsNow(cfg, [KilledTick(rss)])
            && Returned(NoReport, run.ending) == Some(MEMORY_LIMIT_EXIT_CODE)
            && Reported(run, if rss <= limit then CommandFinished else LimitExceeded)
  {
    hide Tracked, SetSum, RssWeights;
    OneProcess(rss);
    assert [KilledTick(rss)][..0] == [];
  }

  /** A reporting request changes the status of a verdict exactly when the report cannot be
      written, or would bind a missing result to a successful status. */
  lemma StatusOverriddenExactly(reporting: Reporting, v: Verdict)
    ensures EmitFinalReport(reporting, v).0 != v.exitCode
       <==> && reporting.Requested? && v.exitCode != WATCHDOG_ERROR_EXIT_CODE
            && (!reporting.writable || (v.exitCode == 0 && BindingFails(reporting.binding)))
  {
  }

  /** A report is written exactly when one is requested and can be; it names the returned
      status and the child's, and the outcome unless a missing result replaced a success. */
  lemma WrittenExactly(reporting: Reporting, v: Verdict)
    ensures var (status, report) := EmitFinalReport(reporting, v);
            && (report.Some? <==> reporting.Requested? && reporting.writable)
            && (report.Some? ==>
                  && report.value.watchdogExitCode == status && report.value.childExit == v.childExit
                  && report.value.outcome
                     == if reporting.binding == Bound(false) && v.exitCode == 0 then ResultBindingFailed
                        else Ended(v.outcome))
  {
  }
}
