/** The guarding loop itself and its clean-up, over the watchdog's own variables. */
module WatchdogRun {
  import opened Prelude
  import opened ProcessTree
  import opened Sampler
  import opened Watchdog
  import WatchdogSafety

  lemma {:induction false} MembersCount(members: seq<ProcessInfo>, records: Snapshot, pids: set<int>)
    requires pids <= records.Keys && ListsMembers(members, records, pids)
    ensures |members| == |pids|
  {
    if members == [] {
      assert forall pid :: pid !in pids;
      assert |pids| == 0;
    } else {
      var last := members[|members| - 1].pid;
      var fewer := members[..|members| - 1];
      forall pid | pid in pids - {last} ensures exists i :: 0 <= i < |fewer| && fewer[i].pid == pid {
        var i :| 0 <= i < |members| && members[i].pid == pid;
        assert fewer[i].pid == pid;
      }
      MembersCount(fewer, records, pids - {last});
    }
  }

  /** How a part of the loop body ends: the loop goes on, returns after its report, or is left
      by an exception. */
  datatype Exit = GoesOn | Returns | Throws

  class Guard {
    const cfg: Config
    const sampler: ProcessTreeSampler
    var consecutiveProbeFailures: nat
    var pendingProbeReason: Option<Reason>
    var probeSampleCount: nat
    var probeFailureCount: nat
    var maximumConsecutiveProbeFailures: nat
    var peakRss: nat
    var peakPhysicalFootprint: Option<nat>
    var peakGuard: nat
    var peakProcesses: nat
    var reportEmitted: bool
    var reports: seq<Verdict>
    var terminations: nat
    var polledLate: bool

    ghost predicate Valid()
      reads this, sampler
    {
      sampler.rootPid == sampler.rootPgid == cfg.rootPid
    }

    /** The loop's variables as one value. */
    ghost function Contents(): State
      reads this, sampler
    {
      State(sampler.knownPids, consecutiveProbeFailures, pendingProbeReason, probeSampleCount, probeFailureCount,
            maximumConsecutiveProbeFailures, peakRss, peakPhysicalFootprint, peakGuard, peakProcesses)
    }

    /** Nothing has been reported, terminated or polled outside an iteration. */
    predicate Untouched()
      reads this
    {
      !reportEmitted && reports == [] && terminations == 0 && !polledLate
    }

    /** The outside effects that go with an exit: a return has made its one report, after at
        most one termination and the poll that follows it; anything else has none. */
    predicate Effects(exit: Exit)
      reads this
    {
      if exit.Returns? then reportEmitted && |reports| == 1 && terminations <= 1 && (polledLate <==> terminations == 1)
      else Untouched()
    }

    /** How the loop body ended, as the specification sees it. */
    ghost function FlowOf(exit: Exit): Flow
      reads this, sampler
      requires Effects(exit)
    {
      match exit
      case GoesOn => Continues(Contents())
      case Returns => Leaves(Leaving(Some(reports[0]), terminations == 1), Contents())
      case Throws => Leaves(Leaving(None, false), Contents())
    }

    constructor (cfg: Config)
      ensures this.cfg == cfg && Valid() && Contents() == Initial(cfg) && Untouched() && fresh(sampler)
    {
      this.cfg := cfg;
      sampler := new ProcessTreeSampler(cfg.rootPid, cfg.rootPid);
      consecutiveProbeFailures, pendingProbeReason := 0, None;
      probeSampleCount, probeFailureCount, maximumConsecutiveProbeFailures := 0, 0, 0;
      peakRss, peakGuard, peakProcesses := 0, 0, 0;
      peakPhysicalFootprint := if cfg.footprintProbe then Some(0) else None;
      reportEmitted, reports, terminations, polledLate := false, [], 0, false;
    }

    // ----- effects outside the loop's variables

    method Finish(exitCode: int, childExit: Option<int>, outcome: Outcome, reason: Option<Reason>)
      modifies this`reportEmitted, this`reports
      ensures reportEmitted && reports == old(reports) + [Verdict(exitCode, childExit, outcome, reason)]
    {
      reportEmitted := true;
      reports := reports + [Verdict(exitCode, childExit, outcome, reason)];
    }

    method TerminateTree(termination: Termination) returns (raised: bool)
      modifies this`terminations
      ensures raised == termination.Raises?
      ensures terminations == old(terminations) + Count(!raised)
    {
      raised := termination.Raises?;
      if !raised {
        terminations := terminations + 1;
      }
    }

    /** The next poll after the iteration's own. */
    method PollAgain(tick: Tick) returns (poll: Poll)
      modifies this`polledLate
      ensures polledLate && poll == if old(polledLate) then tick.pollLast else tick.pollLate
    {
      poll := if polledLate then tick.pollLast else tick.pollLate;
      polledLate := true;
    }

    // ----- the loop body

    method StopTree(tick: Tick, exitCode: int, outcome: Outcome, reason: Reason) returns (exit: Exit)
      requires Untouched()
      modifies this`reportEmitted, this`reports, this`terminations, this`polledLate
      ensures Effects(exit) && FlowOf(exit) == Watchdog.StopTree(Contents(), tick, exitCode, outcome, reason)
    {
      var raised := TerminateTree(tick.terminate);
      if raised {
        return Throws;
      }
      var poll := PollAgain(tick);
      Finish(exitCode, Normalized(poll), outcome, Some(reason));
      exit := Returns;
    }

    method Unavailable(returncode: int, reason: Reason) returns (exit: Exit)
      requires Untouched()
      modifies this`reportEmitted, this`reports
      ensures Effects(exit) && FlowOf(exit) == Watchdog.Unavailable(Contents(), returncode, reason)
    {
      Finish(WATCHDOG_ERROR_EXIT_CODE, Some(NormalizedExitCode(returncode)), EnforcementUnavailable, Some(reason));
      exit := Returns;
    }

    method RecordFailure(reason: Reason)
      requires Untouched()
      modifies this
      ensures Contents() == old(Contents()).(consecutive := old(consecutiveProbeFailures) + 1,
                                             failures := old(probeFailureCount) + 1,
                                             maxConsecutive := Max(old(maximumConsecutiveProbeFailures),
                                                                   old(consecutiveProbeFailures) + 1),
                                             pending := Some(reason))
      ensures Untouched()
    {
      consecutiveProbeFailures := consecutiveProbeFailures + 1;
      probeFailureCount := probeFailureCount + 1;
      maximumConsecutiveProbeFailures := Max(maximumConsecutiveProbeFailures, consecutiveProbeFailures);
      pendingProbeReason := Some(reason);
    }

    method RecordSample(sample: MemorySample) returns (guard: nat, reason: Reason)
      requires Untouched()
      modifies this
      ensures (guard, reason) == GuardObservation(sample.rss, sample.footprint)
      ensures Contents() == old(Contents()).(consecutive := 0, pending := None,
                                             peakRss := Max(old(peakRss), sample.rss),
                                             peakFootprint := PeakFootprint(old(peakPhysicalFootprint),
                                                                            sample.footprint),
                                             peakGuard := Max(old(peakGuard), guard),
                                             peakProcesses := Max(old(peakProcesses), |sample.members|))
      ensures Untouched()
    {
      consecutiveProbeFailures := 0;
      pendingProbeReason := None;
      peakRss := Max(peakRss, sample.rss);
      if sample.footprint.Some? {
        var peak := if peakPhysicalFootprint.Some? then peakPhysicalFootprint.value else 0;
        peakPhysicalFootprint := Some(Max(peak, sample.footprint.value));
      }
      var observation := GuardObservation(sample.rss, sample.footprint);
      guard, reason := observation.0, observation.1;
      peakGuard := Max(peakGuard, guard);
      peakProcesses := Max(peakProcesses, |sample.members|);
    }

    /** The last part of an iteration, after a probe that did not end the run. */
    method EndIteration(tick: Tick) returns (exit: Exit)
      requires Untouched()
      modifies this`reportEmitted, this`reports
      ensures Effects(exit) && FlowOf(exit) == EndOfIteration(Contents(), tick)
    {
      if tick.pollEnd.None? {
        return GoesOn;
      }
      if consecutiveProbeFailures > 0 && pendingProbeReason.Some? {
        exit := Unavailable(tick.pollEnd.value, pendingProbeReason.value);
      } else {
        var normalized := NormalizedExitCode(tick.pollEnd.value);
        Finish(normalized, Some(normalized), CommandFinished, None);
        exit := Returns;
      }
    }

    method AfterFailure(tick: Tick) returns (exit: Exit)
      requires Untouched() && Failed(tick.probe)
      modifies this
      ensures Effects(exit) && FlowOf(exit) == Watchdog.AfterFailure(old(Contents()), tick)
    {
      var reason := FailureReason(tick.probe);
      RecordFailure(reason);
      if tick.pollProbe.Some? {
        exit := Unavailable(tick.pollProbe.value, reason);
      } else if consecutiveProbeFailures >= 3 {
        exit := StopTree(tick, WATCHDOG_ERROR_EXIT_CODE, ProbeFailed, reason);
      } else {
        exit := EndIteration(tick);
      }
    }

    method AfterSample(tick: Tick, sample: MemorySample) returns (exit: Exit)
      requires Untouched() && Sampled(tick.probe) && sampler.knownPids <= tick.probe.records.Keys
      requires Reports(sample, tick.probe.records, sampler.knownPids, tick.probe.footprints)
      modifies this
      ensures Effects(exit) && FlowOf(exit) == Watchdog.AfterSample(cfg, old(Contents()), tick)
    {
      MembersCount(sample.members, tick.probe.records, sampler.knownPids);
      probeSampleCount := probeSampleCount + 1;
      if pendingProbeReason.Some? && tick.pollProbe.Some? {
        exit := Unavailable(tick.pollProbe.value, pendingProbeReason.value);
        return;
      }
      var guard, limitReason := RecordSample(sample);
      if guard > cfg.limit {
        exit := StopTree(tick, MEMORY_LIMIT_EXIT_CODE, LimitExceeded, limitReason);
      } else {
        exit := EndIteration(tick);
      }
    }

    method Iterate(tick: Tick) returns (exit: Exit)
      requires Valid() && Untouched() && ValidTick(cfg, tick)
      modifies this, sampler
      ensures Valid() && Effects(exit) && FlowOf(exit) == Iteration(cfg, old(Contents()), tick)
    {
      if tick.signal.Some? {
        exit := StopTree(tick, 128 + tick.signal.value, Signalled, Signal(tick.signal.value));
        return;
      }
      if pendingProbeReason.Some? && tick.pollTop.Some? {
        exit := Unavailable(tick.pollTop.value, pendingProbeReason.value);
        return;
      }
      match tick.probe
      case Crashes =>
        exit := Throws;
      case SnapshotFails =>
        exit := AfterFailure(tick);
      case Observed(records, footprints) =>
        var sample := sampler.Sample(records, footprints);
        if sample.None? {
          exit := AfterFailure(tick);
        } else {
          exit := AfterSample(tick, sample.value);
        }
    }

    // ----- the whole run

    /** The clean-up on every way out of the loop. A run is reported at most once. */
    method FinalCleanUp(tick: Tick, exit: Exit) returns (ending: Ending)
      requires Effects(exit) && !exit.GoesOn?
      modifies this`reportEmitted, this`reports, this`terminations, this`polledLate
      ensures ending == CleanUp(old(FlowOf(exit)).leaving, tick) && terminations == ending.terminations
      ensures reports == if ending.report.Some? then [ending.report.value] else []
      ensures reportEmitted == (reports != [])
    {
      var raises := exit.Throws?;
      var poll := PollAgain(tick);
      if poll.None? {
        var raised := TerminateTree(tick.cleanUp);
        if raised {
          return Ending(if reports == [] then None else Some(reports[0]), true, terminations);
        }
      }
      if !reportEmitted {
        var last := PollAgain(tick);
        Finish(WATCHDOG_ERROR_EXIT_CODE, Normalized(last), WatchdogException, Some(Exception));
      }
      ending := Ending(Some(reports[0]), raises, terminations);
    }

    /**
     * The loop over a trace, with its clean-up. It ends as the specification says, with at
     * most one report, or is still running without one.
     */
    method RunGuarded(ticks: seq<Tick>) returns (ending: Option<Ending>)
      requires Valid() && Contents() == Initial(cfg) && Untouched()
      requires ValidTrace(cfg, ticks)
      modifies this, sampler
      ensures Run(cfg, ticks)
           == if ending.None? then Running(Contents()) else Stopped(ending.value, Contents())
      ensures reports == if ending.Some? && ending.value.report.Some? then [ending.value.report.value] else []
      ensures terminations == if ending.Some? then ending.value.terminations else 0
    {
      for i := 0 to |ticks|
        invariant Valid() && Untouched()
        invariant Run(cfg, ticks[..i]) == Running(Contents())
      {
        assert ticks[..i + 1][..i] == ticks[..i];
        var exit := Iterate(ticks[i]);
        if !exit.GoesOn? {
          var last := FinalCleanUp(ticks[i], exit);
          WatchdogSafety.StoppedStays(cfg, ticks, i + 1);
          return Some(last);
        }
      }
      assert ticks[..|ticks|] == ticks;
      ending := None;
    }
  }
}
