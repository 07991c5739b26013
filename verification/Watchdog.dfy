/**
 * The memory watchdog as a state machine over an arbitrary environment.
 *
 * One tick is everything the environment shows to one iteration of the guarding loop: a
 * signal remembered at its start, the memory probe, the child's state at each place where
 * the loop may poll it, and what becomes of each attempt to terminate the process tree.
 */
module Watchdog {
  import opened Prelude
  import opened ProcessTree

  const MEMORY_LIMIT_EXIT_CODE := 137
  const WATCHDOG_ERROR_EXIT_CODE := 125

  /** The signals with a remembering handler: hang-up, interrupt and terminate. */
  const HANDLED_SIGNALS := {1, 2, 15}

  /** `footprintProbe` says whether a physical-footprint probe is configured. */
  datatype Config = Config(limit: nat, rootPid: int, footprintProbe: bool)

  datatype Probe =
    | SnapshotFails
    | Observed(records: Snapshot, footprints: Footprints)
    | Crashes

  /** A poll gives the child's return code once it has exited. */
  type Poll = Option<int>

  /** Terminating the tree signals it and returns, or is cut short by an exception of the
      snapshot function, possibly before any signal is sent. */
  datatype Termination = Completes | Raises

  /** `pollTop`, `pollProbe` and `pollEnd` are the polls inside an iteration, `pollLate` and
      `pollLast` the two polls after it. `terminate` is the termination the iteration may
      ask for, `cleanUp` that of the final clean-up. */
  datatype Tick = Tick(signal: Option<int>, pollTop: Poll, probe: Probe, pollProbe: Poll, pollEnd: Poll,
                       terminate: Termination, pollLate: Poll, cleanUp: Termination, pollLast: Poll)

  datatype Reason = MemoryProbe | FootprintProbe | RssLimit | FootprintLimit | Signal(number: int) | Exception

  datatype Outcome = CommandFinished | EnforcementUnavailable | ProbeFailed | LimitExceeded | Signalled
                   | WatchdogException

  /** What a report says about the end of a run. */
  datatype Verdict = Verdict(exitCode: int, childExit: Option<int>, outcome: Outcome, reason: Option<Reason>)

  /** How an iteration leaves the loop: returning what was reported, or by an exception with
      nothing reported; and whether it terminated the tree before. */
  datatype Leaving = Leaving(report: Option<Verdict>, terminated: bool)

  /** How a run ended: the report, whether an exception escapes to the caller, and how many
      terminations of the tree completed. */
  datatype Ending = Ending(report: Option<Verdict>, raises: bool, terminations: nat)

  datatype State = State(known: set<int>, consecutive: nat, pending: Option<Reason>,
                         samples: nat, failures: nat, maxConsecutive: nat,
                         peakRss: nat, peakFootprint: Option<nat>, peakGuard: nat, peakProcesses: nat)

  datatype Flow = Continues(state: State) | Leaves(leaving: Leaving, state: State)

  datatype Progress = Running(state: State) | Stopped(ending: Ending, state: State)

  // ----- small decisions

  /** The enforced byte count of a sample and the reason code that goes with it. */
  function GuardObservation(rss: nat, footprint: Option<nat>): (nat, Reason) {
    if footprint.Some? && footprint.value >= rss then (footprint.value, FootprintLimit) else (rss, RssLimit)
  }

  function NormalizedExitCode(returncode: int): int {
    if returncode >= 0 then returncode else 128 + Min(-returncode, 127)
  }

  function Normalized(poll: Poll): Option<int> {
    if poll.Some? then Some(NormalizedExitCode(poll.value)) else None
  }

  predicate Failed(probe: Probe) {
    probe.SnapshotFails? || (probe.Observed? && probe.footprints.Unavailable?)
  }

  predicate Sampled(probe: Probe) {
    probe.Observed? && !probe.footprints.Unavailable?
  }

  function FailureReason(probe: Probe): Reason {
    if probe.Observed? then FootprintProbe else MemoryProbe
  }

  // ----- one sample

  /** The processes followed after a probe; a failed snapshot changes nothing. */
  ghost function KnownWith(cfg: Config, known: set<int>, probe: Probe): set<int> {
    if probe.Observed? then Tracked(cfg.rootPid, cfg.rootPid, known, probe.records) else known
  }

  ghost function RssOf(pids: set<int>, probe: Probe): nat
    requires Sampled(probe) && pids <= probe.records.Keys
  {
    SetSum(pids, RssWeights(probe.records))
  }

  ghost function FootprintOf(pids: set<int>, probe: Probe): Option<nat>
    requires Sampled(probe) && pids <= probe.records.Keys
  {
    if probe.footprints.Measured? then Some(SetSum(pids, FootprintWeights(probe.records, probe.footprints.bytes)))
    else None
  }

  // ----- one iteration of the loop

  /** The loop returns after a report. */
  function Return(st: State, v: Verdict): Flow {
    Leaves(Leaving(Some(v), false), st)
  }

  /** The loop terminates the tree and then reports, unless the termination raises. */
  function StopTree(st: State, tick: Tick, exitCode: int, outcome: Outcome, reason: Reason): Flow {
    if tick.terminate.Raises? then Leaves(Leaving(None, false), st)
    else Leaves(Leaving(Some(Verdict(exitCode, Normalized(tick.pollLate), outcome, Some(reason))), true), st)
  }

  function Unavailable(st: State, returncode: int, reason: Reason): Flow {
    Return(st, Verdict(WATCHDOG_ERROR_EXIT_CODE, Some(NormalizedExitCode(returncode)), EnforcementUnavailable,
                       Some(reason)))
  }

  ghost function Iteration(cfg: Config, st: State, tick: Tick): Flow {
    if tick.signal.Some? then
      StopTree(st, tick, 128 + tick.signal.value, Signalled, Signal(tick.signal.value))
    else if st.pending.Some? && tick.pollTop.Some? then
      Unavailable(st, tick.pollTop.value, st.pending.value)
    else if tick.probe.Crashes? then
      Leaves(Leaving(None, false), st)
    else
      var probed := st.(known := KnownWith(cfg, st.known, tick.probe));
      if Failed(tick.probe) then AfterFailure(probed, tick) else AfterSample(cfg, probed, tick)
  }

  function AfterFailure(st: State, tick: Tick): Flow
    requires Failed(tick.probe)
  {
    var reason := FailureReason(tick.probe);
    var consecutive := st.consecutive + 1;
    var counted := st.(consecutive := consecutive, failures := st.failures + 1,
                       maxConsecutive := Max(st.maxConsecutive, consecutive), pending := Some(reason));
    if tick.pollProbe.Some? then Unavailable(counted, tick.pollProbe.value, reason)
    else if consecutive >= 3 then StopTree(counted, tick, WATCHDOG_ERROR_EXIT_CODE, ProbeFailed, reason)
    else EndOfIteration(counted, tick)
  }

  ghost function AfterSample(cfg: Config, st: State, tick: Tick): Flow
    requires Sampled(tick.probe) && st.known <= tick.probe.records.Keys
  {
    var counted := st.(samples := st.samples + 1);
    if st.pending.Some? && tick.pollProbe.Some? then
      Unavailable(counted, tick.pollProbe.value, st.pending.value)
    else
      Accept(cfg, counted, tick, RssOf(st.known, tick.probe), FootprintOf(st.known, tick.probe))
  }

  function Accept(cfg: Config, st: State, tick: Tick, rss: nat, footprint: Option<nat>): Flow {
    var (guard, reason) := GuardObservation(rss, footprint);
    var accepted := st.(consecutive := 0, pending := None,
                        peakRss := Max(st.peakRss, rss),
                        peakFootprint := PeakFootprint(st.peakFootprint, footprint),
                        peakGuard := Max(st.peakGuard, guard),
                        peakProcesses := Max(st.peakProcesses, |st.known|));
    if guard > cfg.limit then StopTree(accepted, tick, MEMORY_LIMIT_EXIT_CODE, LimitExceeded, reason)
    else EndOfIteration(accepted, tick)
  }

  function PeakFootprint(peak: Option<nat>, footprint: Option<nat>): Option<nat> {
    match footprint
    case None => peak
    case Some(f) => Some(Max(if peak.Some? then peak.value else 0, f))
  }

  function EndOfIteration(st: State, tick: Tick): Flow {
    if tick.pollEnd.None? then Continues(st)
    else if st.consecutive > 0 && st.pending.Some? then Unavailable(st, tick.pollEnd.value, st.pending.value)
    else
      var code := NormalizedExitCode(tick.pollEnd.value);
      Return(st, Verdict(code, Some(code), CommandFinished, None))
  }

  // ----- the final clean-up

  function Count(b: bool): nat {
    if b then 1 else 0
  }

  /**
   * The clean-up on the way out: a child still alive has its tree terminated, and a run that
   * has not been reported yet is reported as an exception, but only if that termination
   * does not raise as well.
   */
  function CleanUp(leaving: Leaving, tick: Tick): Ending {
    var poll := if leaving.terminated then tick.pollLast else tick.pollLate;
    if poll.None? && tick.cleanUp.Raises? then Ending(leaving.report, true, Count(leaving.terminated))
    else
      var report := if leaving.report.Some? then leaving.report.value
                    else Verdict(WATCHDOG_ERROR_EXIT_CODE, Normalized(tick.pollLast), WatchdogException,
                                 Some(Exception));
      Ending(Some(report), leaving.report.None?, Count(leaving.terminated) + Count(poll.None?))
  }

  ghost function Step(cfg: Config, st: State, tick: Tick): Progress {
    match Iteration(cfg, st, tick)
    case Continues(next) => Running(next)
    case Leaves(leaving, next) => Stopped(CleanUp(leaving, tick), next)
  }

  // ----- whole runs

  function Initial(cfg: Config): State {
    State({cfg.rootPid}, 0, None, 0, 0, 0, 0, if cfg.footprintProbe then Some(0) else None, 0, 0)
  }

  /** The run over a trace of ticks; it stays stopped once it has stopped. */
  ghost function Run(cfg: Config, ticks: seq<Tick>): Progress {
    if ticks == [] then Running(Initial(cfg))
    else
      var last := |ticks| - 1;
      match Run(cfg, ticks[..last])
      case Running(st) => Step(cfg, st, ticks[last])
      case Stopped(ending, st) => Stopped(ending, st)
  }

  /** The run has ended with a report of the given outcome. */
  predicate Reported(progress: Progress, outcome: Outcome) {
    progress.Stopped? && progress.ending.report.Some? && progress.ending.report.value.outcome == outcome
  }

  /** The child stays exited, with the same return code, at every later poll. */
  predicate Later(first: Poll, second: Poll) {
    first.Some? ==> second == first
  }

  predicate ValidTick(cfg: Config, tick: Tick) {
    && (tick.signal.Some? ==> tick.signal.value in HANDLED_SIGNALS)
    && (tick.probe.Observed? ==>
          WellKeyed(tick.probe.records) && (tick.probe.footprints.NotRequested? <==> !cfg.footprintProbe))
    && Later(tick.pollTop, tick.pollProbe) && Later(tick.pollProbe, tick.pollEnd)
    && Later(tick.pollEnd, tick.pollLate) && Later(tick.pollLate, tick.pollLast)
  }

  predicate ValidTrace(cfg: Config, ticks: seq<Tick>) {
    && (forall i :: 0 <= i < |ticks| ==> ValidTick(cfg, ticks[i]))
    && (forall i :: 0 < i < |ticks| ==> Later(ticks[i - 1].pollEnd, ticks[i].pollTop))
  }
}
