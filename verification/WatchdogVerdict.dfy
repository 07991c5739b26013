/** What limits a run, and the whole report of every way to stop, read off the trace. */
module WatchdogVerdict {
  import opened Prelude
  import opened ProcessTree
  import opened Watchdog
  import opened WatchdogSafety
  import opened WatchdogStatus

  // ----- both totals are limited

  /** The resident total of the followed processes at the j-th tick, or their footprint total
      when one was read, is above the limit. */
  ghost predicate SomeTotalAbove(cfg: Config, ticks: seq<Tick>, j: nat)
    requires j < |ticks| && Sampled(ticks[j].probe)
  {
    var pids, probe := FollowedAt(cfg, ticks, j), ticks[j].probe;
    || RssOf(pids, probe) > cfg.limit
    || (probe.footprints.Measured? && SetSum(pids, FootprintWeights(probe.records, probe.footprints.bytes)) > cfg.limit)
  }

  /** The processes followed by the sample of the j-th tick. */
  ghost function FollowedAt(cfg: Config, ticks: seq<Tick>, j: nat): (pids: set<int>)
    requires j < |ticks| && Sampled(ticks[j].probe)
    ensures pids <= ticks[j].probe.records.Keys
  {
    assert ticks[..j + 1][..j] == ticks[..j];
    KnownAt(cfg, ticks[..j + 1])
  }

  lemma GuardIsLargest(rss: nat, footprint: Option<nat>, limit: nat)
    ensures GuardObservation(rss, footprint).0 > limit <==> rss > limit || (footprint.Some? && footprint.value > limit)
  {
  }

  lemma AboveByEither(cfg: Config, ticks: seq<Tick>, j: nat)
    requires j < |ticks| && Sampled(ticks[j].probe)
    ensures GuardAt(cfg, ticks, j) > cfg.limit <==> SomeTotalAbove(cfg, ticks, j)
  {
    hide RssOf, GuardObservation, KnownAt, SetSum, FootprintWeights;
    var pids, probe := FollowedAt(cfg, ticks, j), ticks[j].probe;
    GuardIsLargest(RssOf(pids, probe), FootprintOf(pids, probe), cfg.limit);
  }

  /** A sample exceeds the limit exactly when it is accepted and one of its two totals does. */
  lemma OverLimitExactly(cfg: Config, ticks: seq<Tick>, j: nat)
    requires j < |ticks|
    ensures OverLimit(cfg, ticks, j)
       <==> && ticks[j].signal.None? && !(FailedAt(ticks, j - 1) && ticks[j].pollTop.Some?)
            && Sampled(ticks[j].probe) && !(FailedAt(ticks, j - 1) && ticks[j].pollProbe.Some?)
            && SomeTotalAbove(cfg, ticks, j)
  {
    hide GuardAt, SomeTotalAbove;
    if Sampled(ticks[j].probe) {
      AboveByEither(cfg, ticks, j);
    }
  }

  /** While a run goes on, and when it finishes cleanly, every sample had both its resident
      total and its footprint total within the limit. */
  lemma EverySampleWithinLimit(cfg: Config, ticks: seq<Tick>, j: nat)
    requires j < |ticks| && Sampled(ticks[j].probe)
    requires Run(cfg, ticks).Running? || (StopsNow(cfg, ticks) && Reported(Run(cfg, ticks), CommandFinished))
    ensures !SomeTotalAbove(cfg, ticks, j)
  {
    hide Step, Harmless, GuardAt, SomeTotalAbove, Faithful;
    AboveByEither(cfg, ticks, j);
    RunningIsQuiet(cfg, ticks);
    HarmlessWithin(cfg, ticks, j);
    if !Run(cfg, ticks).Running? {
      var last := |ticks| - 1;
      RunningIsQuiet(cfg, ticks[..last]);
      StepMeaning(cfg, ticks, Run(cfg, ticks[..last]).state);
      if j < last {
        PrefixViews(cfg, ticks, j);
        assert Harmless(cfg, ticks[..last], j);
      }
    }
  }

  lemma HarmlessWithin(cfg: Config, ticks: seq<Tick>, j: nat)
    requires j < |ticks| && Sampled(ticks[j].probe)
    ensures Harmless(cfg, ticks, j) ==> GuardAt(cfg, ticks, j) <= cfg.limit
  {
  }

  // ----- the report of every stop

  /** Exit codes as shells give them: a return code of zero or more is kept, and a signal's
      number is added to 128, up to 255. */
  lemma ShellStatus(returncode: int)
    ensures returncode >= 0 ==> NormalizedExitCode(returncode) == returncode
    ensures -127 <= returncode < 0 ==> NormalizedExitCode(returncode) == 128 - returncode
    ensures returncode < -127 ==> NormalizedExitCode(returncode) == 255
  {
  }

  /** The failure reason of a probe: the memory probe when the snapshot failed, and the
      footprint probe after it. */
  lemma FailureReasons(probe: Probe)
    requires Failed(probe)
    ensures FailureReason(probe) == if probe.SnapshotFails? then MemoryProbe else FootprintProbe
  {
  }

  /** The reported limit is the footprint's exactly when a footprint was read that is at least
      the resident total. */
  ghost function LimitReason(cfg: Config, ticks: seq<Tick>, j: nat): Reason
    requires j < |ticks| && Sampled(ticks[j].probe)
  {
    var pids, probe := FollowedAt(cfg, ticks, j), ticks[j].probe;
    if probe.footprints.Measured?
       && SetSum(pids, FootprintWeights(probe.records, probe.footprints.bytes)) >= RssOf(pids, probe)
    then FootprintLimit else RssLimit
  }

  /** The poll that showed the child's exit while enforcement was unavailable, and why it was:
      the poll before the probe or after a sample with the reason of the failed probe before,
      and the polls after a failed probe with its own. */
  ghost function UnavailableAt(ticks: seq<Tick>, j: nat): Option<(int, Reason)>
    requires j < |ticks|
  {
    var tick := ticks[j];
    if tick.signal.Some? then None
    else if FailedAt(ticks, j - 1) && tick.pollTop.Some? then
      Some((tick.pollTop.value, FailureReason(ticks[j - 1].probe)))
    else if Failed(tick.probe) && tick.pollProbe.Some? then Some((tick.pollProbe.value, FailureReason(tick.probe)))
    else if FailedAt(ticks, j - 1) && Sampled(tick.probe) && tick.pollProbe.Some? then
      Some((tick.pollProbe.value, FailureReason(ticks[j - 1].probe)))
    else if Failed(tick.probe) && !ThirdFailure(ticks, j) && tick.pollEnd.Some? then
      Some((tick.pollEnd.value, FailureReason(tick.probe)))
    else None
  }

  /** The report with which a stopping tick leaves the loop, when its termination completes. */
  ghost function ReportAt(cfg: Config, ticks: seq<Tick>, j: nat): Verdict
    requires j < |ticks| && (Terminates(cfg, ticks, j) || UnavailableAt(ticks, j).Some? || ticks[j].pollEnd.Some?)
  {
    var tick := ticks[j];
    if tick.signal.Some? then
      Verdict(128 + tick.signal.value, Normalized(tick.pollLate), Signalled, Some(Signal(tick.signal.value)))
    else if UnavailableAt(ticks, j).Some? then
      Verdict(125, Some(NormalizedExitCode(UnavailableAt(ticks, j).value.0)), EnforcementUnavailable,
              Some(UnavailableAt(ticks, j).value.1))
    else if ThirdFailure(ticks, j) then
      Verdict(125, Normalized(tick.pollLate), ProbeFailed, Some(FailureReason(tick.probe)))
    else if OverLimit(cfg, ticks, j) then
      Verdict(137, Normalized(tick.pollLate), LimitExceeded, Some(LimitReason(cfg, ticks, j)))
    else
      Verdict(NormalizedExitCode(tick.pollEnd.value), Some(NormalizedExitCode(tick.pollEnd.value)), CommandFinished,
              None)
  }

  lemma GuardReason(rss: nat, footprint: Option<nat>)
    ensures GuardObservation(rss, footprint).1
         == if footprint.Some? && footprint.value >= rss then FootprintLimit else RssLimit
  {
  }

  lemma StepReport(cfg: Config, ticks: seq<Tick>, st: State)
    requires ticks != [] && Faithful(cfg, ticks[..|ticks| - 1], st)
    requires Iteration(cfg, st, ticks[|ticks| - 1]).Leaves?
    requires Iteration(cfg, st, ticks[|ticks| - 1]).leaving.report.Some?
    ensures var last := |ticks| - 1;
            && (Terminates(cfg, ticks, last) || UnavailableAt(ticks, last).Some? || ticks[last].pollEnd.Some?)
            && Iteration(cfg, st, ticks[last]).leaving.report == Some(ReportAt(cfg, ticks, last))
  {
    hide KnownWith, RssOf, SetSum, FootprintWeights, GuardObservation, NormalizedExitCode;
    var last := |ticks| - 1;
    var before := ticks[..last];
    TrailingBounds(before);
    assert forall k :: 0 <= k < last ==> before[k] == ticks[k];
    assert FailedAt(before, last - 1) <==> FailedAt(ticks, last - 1);
    assert FailedAt(before, last - 2) <==> FailedAt(ticks, last - 2);
    assert ticks[..last + 1] == ticks;
    if Sampled(ticks[last].probe) {
      var pids := FollowedAt(cfg, ticks, last);
      GuardReason(RssOf(pids, ticks[last].probe), FootprintOf(pids, ticks[last].probe));
    }
  }

  /**
   * The whole report of every run that an exception does not leave: status, the child's
   * status, outcome and reason.
   */
  lemma ReportExactly(cfg: Config, ticks: seq<Tick>)
    requires ValidTrace(cfg, ticks) && StopsNow(cfg, ticks)
    ensures var last := |ticks| - 1;
            !Escapes(cfg, ticks, last) ==>
              && (Terminates(cfg, ticks, last) || UnavailableAt(ticks, last).Some? || ticks[last].pollEnd.Some?)
              && Run(cfg, ticks).ending.report == Some(ReportAt(cfg, ticks, last))
    ensures var last := |ticks| - 1;
            Escapes(cfg, ticks, last) && Run(cfg, ticks).ending.report.Some? ==>
              Run(cfg, ticks).ending.report.value
              == Verdict(125, Normalized(ticks[last].pollLast), WatchdogException, Some(Exception))
  {
    hide Iteration, Escapes, Terminates, Faithful, Quiet, ReportAt, UnavailableAt, LeavesWell, ValidTick;
    var before := ticks[..|ticks| - 1];
    var st := Run(cfg, before).state;
    RunningIsQuiet(cfg, before);
    StepLeaves(cfg, ticks, st);
    if !Escapes(cfg, ticks, |ticks| - 1) {
      StepReport(cfg, ticks, st);
    }
  }
}
