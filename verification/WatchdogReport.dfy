/** The counters and peaks the watchdog reports. */
module WatchdogReport {
  import opened Prelude
  import opened Watchdog
  import opened WatchdogSafety

  // ----- what the trace shows

  /** The resident totals of the successful samples, in order. */
  ghost function RssSeries(cfg: Config, ticks: seq<Tick>): seq<nat> {
    if ticks == [] then []
    else
      var last := |ticks| - 1;
      RssSeries(cfg, ticks[..last])
      + if Sampled(ticks[last].probe) then [RssOf(KnownAt(cfg, ticks), ticks[last].probe)] else []
  }

  /** The enforced totals of the successful samples, in order. */
  ghost function GuardSeries(cfg: Config, ticks: seq<Tick>): seq<nat> {
    if ticks == [] then []
    else
      var last := |ticks| - 1;
      GuardSeries(cfg, ticks[..last])
      + if Sampled(ticks[last].probe) then [GuardOf(KnownAt(cfg, ticks), ticks[last].probe)] else []
  }

  ghost function GuardOf(pids: set<int>, probe: Probe): nat
    requires Sampled(probe) && pids <= probe.records.Keys
  {
    GuardObservation(RssOf(pids, probe), FootprintOf(pids, probe)).0
  }

  /** The physical-footprint totals of the successful samples, in order. */
  ghost function FootprintSeries(cfg: Config, ticks: seq<Tick>): seq<nat> {
    if ticks == [] then []
    else
      var last := |ticks| - 1;
      FootprintSeries(cfg, ticks[..last])
      + if Sampled(ticks[last].probe) && ticks[last].probe.footprints.Measured?
        then [FootprintOf(KnownAt(cfg, ticks), ticks[last].probe).value] else []
  }

  /** The numbers of followed processes at the successful samples, in order. */
  ghost function ProcessSeries(cfg: Config, ticks: seq<Tick>): seq<nat> {
    if ticks == [] then []
    else
      var last := |ticks| - 1;
      ProcessSeries(cfg, ticks[..last]) + if Sampled(ticks[last].probe) then [|KnownAt(cfg, ticks)|] else []
  }

  function FailureCount(ticks: seq<Tick>): nat {
    if ticks == [] then 0
    else FailureCount(ticks[..|ticks| - 1]) + if Failed(ticks[|ticks| - 1].probe) then 1 else 0
  }

  /** The largest element of a series, or zero when there is none. */
  predicate PeakOf(peak: nat, series: seq<nat>) {
    (forall v :: v in series ==> v <= peak) && (peak == 0 || peak in series)
  }

  /** The number of consecutive failures up to and including each tick. */
  function FailureRuns(ticks: seq<Tick>): seq<nat> {
    if ticks == [] then [] else FailureRuns(ticks[..|ticks| - 1]) + [TrailingFailures(ticks)]
  }

  /** The reported counts are exact for the trace. */
  ghost predicate CountsExact(cfg: Config, ticks: seq<Tick>, st: State) {
    && st.samples == |RssSeries(cfg, ticks)|
    && st.failures == FailureCount(ticks)
    && PeakOf(st.maxConsecutive, FailureRuns(ticks))
  }

  /** The reported peaks are exact for the trace. */
  ghost predicate PeaksExact(cfg: Config, ticks: seq<Tick>, st: State) {
    && PeakOf(st.peakRss, RssSeries(cfg, ticks))
    && PeakOf(st.peakGuard, GuardSeries(cfg, ticks))
    && PeakOf(st.peakProcesses, ProcessSeries(cfg, ticks))
    && (st.peakFootprint.Some? <==> cfg.footprintProbe)
    && (cfg.footprintProbe ==> PeakOf(st.peakFootprint.value, FootprintSeries(cfg, ticks)))
  }

  ghost predicate Exact(cfg: Config, ticks: seq<Tick>, st: State) {
    CountsExact(cfg, ticks, st) && PeaksExact(cfg, ticks, st)
  }

  lemma PeakExtends(peak: nat, series: seq<nat>, v: nat)
    requires PeakOf(peak, series)
    ensures PeakOf(Max(peak, v), series + [v])
  {
  }

  lemma ExactInitially(cfg: Config)
    ensures Exact(cfg, [], Initial(cfg))
  {
  }

  predicate SamePeaks(a: State, b: State) {
    && a.peakRss == b.peakRss && a.peakGuard == b.peakGuard
    && a.peakFootprint == b.peakFootprint && a.peakProcesses == b.peakProcesses
  }

  /** Counters after a failed probe. */
  lemma FailureCounted(cfg: Config, ticks: seq<Tick>, st: State, next: State)
    requires ticks != [] && Failed(ticks[|ticks| - 1].probe)
    requires Faithful(cfg, ticks[..|ticks| - 1], st) && Exact(cfg, ticks[..|ticks| - 1], st)
    requires next.samples == st.samples && next.failures == st.failures + 1
    requires next.maxConsecutive == Max(st.maxConsecutive, st.consecutive + 1) && SamePeaks(next, st)
    ensures Exact(cfg, ticks, next)
  {
  }

  /** Counters after a successful probe, accepted or not. */
  lemma SampleCounted(cfg: Config, ticks: seq<Tick>, st: State, next: State)
    requires ticks != [] && Sampled(ticks[|ticks| - 1].probe)
    requires CountsExact(cfg, ticks[..|ticks| - 1], st)
    requires next.samples == st.samples + 1 && next.failures == st.failures
    requires next.maxConsecutive == st.maxConsecutive
    ensures CountsExact(cfg, ticks, next)
  {
    hide PeakOf, RssOf;
    PeakExtends(st.maxConsecutive, FailureRuns(ticks[..|ticks| - 1]), 0);
  }

  /** Peaks after an accepted sample. */
  lemma SamplePeaks(cfg: Config, ticks: seq<Tick>, st: State, next: State)
    requires ticks != [] && Sampled(ticks[|ticks| - 1].probe)
    requires ValidTick(cfg, ticks[|ticks| - 1]) && PeaksExact(cfg, ticks[..|ticks| - 1], st)
    requires var known := KnownAt(cfg, ticks); var probe := ticks[|ticks| - 1].probe;
             && next.peakRss == Max(st.peakRss, RssOf(known, probe))
             && next.peakGuard == Max(st.peakGuard, GuardOf(known, probe))
             && next.peakFootprint == PeakFootprint(st.peakFootprint, FootprintOf(known, probe))
             && next.peakProcesses == Max(st.peakProcesses, |known|)
    ensures PeaksExact(cfg, ticks, next)
  {
    hide PeakOf, RssOf, GuardOf;
    var before, known, probe := ticks[..|ticks| - 1], KnownAt(cfg, ticks), ticks[|ticks| - 1].probe;
    PeakExtends(st.peakRss, RssSeries(cfg, before), RssOf(known, probe));
    PeakExtends(st.peakGuard, GuardSeries(cfg, before), GuardOf(known, probe));
    PeakExtends(st.peakProcesses, ProcessSeries(cfg, before), |known|);
    if probe.footprints.NotRequested? {
      assert FootprintSeries(cfg, ticks) == FootprintSeries(cfg, before);
    } else {
      PeakExtends(st.peakFootprint.value, FootprintSeries(cfg, before), FootprintOf(known, probe).value);
    }
  }

  // ----- the numbers of every run

  /**
   * The part of the trace the numbers describe. A last tick that ends the run before its
   * probe answers enters nothing; a last sample that only shows the child's exit during a
   * failure episode is counted but enters no peak; every other tick enters everything.
   */
  ghost predicate NumbersFit(cfg: Config, ticks: seq<Tick>, st: State) {
    if ticks == [] then Exact(cfg, ticks, st)
    else
      var last := |ticks| - 1;
      if !Probes(ticks, last) || ticks[last].probe.Crashes? then Exact(cfg, ticks[..last], st)
      else if ExitBeforeRecovery(ticks, last) then CountsExact(cfg, ticks, st) && PeaksExact(cfg, ticks[..last], st)
      else Exact(cfg, ticks, st)
  }

  /** What one step does to counts and peaks. */
  lemma StepNumbers(cfg: Config, ticks: seq<Tick>, st: State)
    requires ticks != [] && Faithful(cfg, ticks[..|ticks| - 1], st)
    ensures var last := |ticks| - 1; var probe := ticks[last].probe; var next := Step(cfg, st, ticks[last]).state;
            if !Probes(ticks, last) || probe.Crashes? then next == st
            else if Failed(probe) then
              && next.samples == st.samples && next.failures == st.failures + 1
              && next.maxConsecutive == Max(st.maxConsecutive, st.consecutive + 1) && SamePeaks(next, st)
            else
              var known := KnownAt(cfg, ticks);
              && next.samples == st.samples + 1 && next.failures == st.failures
              && next.maxConsecutive == st.maxConsecutive
              && if ExitBeforeRecovery(ticks, last) then SamePeaks(next, st)
                 else
                   && next.peakRss == Max(st.peakRss, RssOf(known, probe))
                   && next.peakGuard == Max(st.peakGuard, GuardOf(known, probe))
                   && next.peakFootprint == PeakFootprint(st.peakFootprint, FootprintOf(known, probe))
                   && next.peakProcesses == Max(st.peakProcesses, |known|)
  {
    hide KnownWith, RssOf, FootprintOf, GuardObservation, CleanUp;
    var last := |ticks| - 1;
    TrailingBounds(ticks[..last]);
    assert FailedAt(ticks[..last], last - 1) <==> FailedAt(ticks, last - 1);
  }

  lemma StepFits(cfg: Config, ticks: seq<Tick>, st: State)
    requires ticks != [] && ValidTick(cfg, ticks[|ticks| - 1])
    requires Faithful(cfg, ticks[..|ticks| - 1], st) && Exact(cfg, ticks[..|ticks| - 1], st)
    ensures NumbersFit(cfg, ticks, Step(cfg, st, ticks[|ticks| - 1]).state)
  {
    hide CountsExact, Step, Faithful, RssOf, GuardOf, FootprintOf, KnownAt;
    var last := |ticks| - 1;
    var next := Step(cfg, st, ticks[last]).state;
    StepNumbers(cfg, ticks, st);
    if Probes(ticks, last) && !ticks[last].probe.Crashes? {
      if Failed(ticks[last].probe) {
        FailureCounted(cfg, ticks, st, next);
      } else {
        SampleCounted(cfg, ticks, st, next);
        if !ExitBeforeRecovery(ticks, last) {
          SamplePeaks(cfg, ticks, st, next);
        }
      }
    }
  }

  /**
   * On every trace, however the run ends on it, the numbers are exact: sample and failure
   * counts, the longest run of failures, and the peaks of the resident, physical and
   * enforced totals and of the number of followed processes.
   */
  lemma {:induction false} NumbersAreExact(cfg: Config, ticks: seq<Tick>)
    requires ValidTrace(cfg, ticks)
    ensures Run(cfg, ticks).Running? || StopsNow(cfg, ticks) ==> NumbersFit(cfg, ticks, Run(cfg, ticks).state)
    ensures Run(cfg, ticks).Running? ==> Exact(cfg, ticks, Run(cfg, ticks).state)
  {
    hide Step, Exact, Faithful, Harmless, ValidTick;
    if ticks == [] {
      ExactInitially(cfg);
    } else {
      var before, last := ticks[..|ticks| - 1], |ticks| - 1;
      RunningIsQuiet(cfg, before);
      RunningIsQuiet(cfg, ticks);
      if Run(cfg, before).Running? {
        NumbersAreExact(cfg, before);
        StepFits(cfg, ticks, Run(cfg, before).state);
        if Run(cfg, ticks).Running? {
          QuietIsAccepted(cfg, ticks, last);
        }
      }
    }
  }

  lemma QuietIsAccepted(cfg: Config, ticks: seq<Tick>, j: nat)
    requires j < |ticks| && Quiet(cfg, ticks)
    ensures Probes(ticks, j) && !ticks[j].probe.Crashes? && !ExitBeforeRecovery(ticks, j)
  {
    assert Harmless(cfg, ticks, j);
  }

  /**
   * The same by reported outcome. A finished command, a limit verdict and a third probe
   * failure report the whole trace, a signal everything before its tick. When enforcement
   * was unavailable, the numbers depend on what showed the child's exit: the poll before the
   * probe, the poll after a recovering sample, or a later one.
   */
  lemma NumbersByOutcome(cfg: Config, ticks: seq<Tick>)
    requires ValidTrace(cfg, ticks) && StopsNow(cfg, ticks)
    ensures var run := Run(cfg, ticks); var last := |ticks| - 1; var before := ticks[..last]; var tick := ticks[last];
            && ((Reported(run, CommandFinished) || Reported(run, LimitExceeded) || Reported(run, ProbeFailed)) ==>
                  Exact(cfg, ticks, run.state))
            && (Reported(run, Signalled) ==> Exact(cfg, before, run.state))
            && (Reported(run, EnforcementUnavailable) ==>
                  if FailedAt(ticks, last - 1) && tick.pollTop.Some? then Exact(cfg, before, run.state)
                  else if Sampled(tick.probe) then
                    CountsExact(cfg, ticks, run.state) && PeaksExact(cfg, before, run.state)
                  else Exact(cfg, ticks, run.state))
            && (Reported(run, WatchdogException) ==>
                  if tick.signal.Some? || tick.probe.Crashes? then Exact(cfg, before, run.state)
                  else Exact(cfg, ticks, run.state))
  {
    hide CountsExact, PeaksExact, Step, Faithful, Quiet;
    NumbersAreExact(cfg, ticks);
    RunningIsQuiet(cfg, ticks[..|ticks| - 1]);
    OutcomeCause(cfg, ticks, Run(cfg, ticks[..|ticks| - 1]).state);
  }

  /** Where in a tick each outcome arises. */
  lemma OutcomeCause(cfg: Config, ticks: seq<Tick>, st: State)
    requires ticks != [] && Faithful(cfg, ticks[..|ticks| - 1], st)
    requires Step(cfg, st, ticks[|ticks| - 1]).Stopped?
    ensures var last := |ticks| - 1; var tick := ticks[last]; var next := Step(cfg, st, tick);
            var answered := Probes(ticks, last) && !tick.probe.Crashes?;
            var recovering := ExitBeforeRecovery(ticks, last);
            var early := FailedAt(ticks, last - 1) && tick.pollTop.Some?;
            && ((Reported(next, CommandFinished) || Reported(next, LimitExceeded) || Reported(next, ProbeFailed)) ==>
                  answered && !recovering)
            && (Reported(next, Signalled) ==> tick.signal.Some?)
            && (Reported(next, EnforcementUnavailable) ==>
                  if early then !answered else answered && (recovering <==> Sampled(tick.probe)))
            && (Reported(next, WatchdogException) && tick.signal.None? && !tick.probe.Crashes? ==>
                  answered && !recovering)
  {
    hide KnownWith, RssOf, FootprintOf, GuardObservation;
    var last := |ticks| - 1;
    TrailingBounds(ticks[..last]);
    assert FailedAt(ticks[..last], last - 1) <==> FailedAt(ticks, last - 1);
  }

  lemma StepReported(cfg: Config, st: State, tick: Tick)
    requires st.consecutive <= 2 && st.maxConsecutive <= 2
    ensures var next := Step(cfg, st, tick);
            && next.state.maxConsecutive <= 3
            && (next.Running? ==> next.state.maxConsecutive <= 2)
            && (Reported(next, LimitExceeded) ==> next.state.peakGuard > cfg.limit)
            && (Reported(next, ProbeFailed) ==> next.state.maxConsecutive == 3)
  {
  }

  /** Every reported run of failures is at most three long, however the run ended; and a
      limit verdict comes with a reported peak above the limit. */
  lemma {:induction false} ReportedBounds(cfg: Config, ticks: seq<Tick>)
    ensures Run(cfg, ticks).state.maxConsecutive <= 3
    ensures Run(cfg, ticks).Running? ==> Run(cfg, ticks).state.maxConsecutive <= 2
    ensures Reported(Run(cfg, ticks), LimitExceeded) ==> Run(cfg, ticks).state.peakGuard > cfg.limit
    ensures Reported(Run(cfg, ticks), ProbeFailed) ==> Run(cfg, ticks).state.maxConsecutive == 3
  {
    hide Quiet, Step;
    if ticks != [] {
      var before := ticks[..|ticks| - 1];
      ReportedBounds(cfg, before);
      RunningIsQuiet(cfg, before);
      if Run(cfg, before).Running? {
        StepReported(cfg, Run(cfg, before).state, ticks[|ticks| - 1]);
      }
    }
  }
}
