/** What every run of the watchdog keeps, over every environment trace. */
module WatchdogSafety {
  import opened Prelude
  import opened Watchdog

  // ----- the trace read without the loop's bookkeeping

  /** The processes followed after the given ticks. */
  ghost function KnownAt(cfg: Config, ticks: seq<Tick>): set<int> {
    if ticks == [] then {cfg.rootPid}
    else
      var last := |ticks| - 1;
      KnownWith(cfg, KnownAt(cfg, ticks[..last]), ticks[last].probe)
  }

  /** The larger of the two totals of the j-th tick, over exactly the followed processes. */
  ghost function GuardAt(cfg: Config, ticks: seq<Tick>, j: nat): nat
    requires j < |ticks| && Sampled(ticks[j].probe)
  {
    var pids := KnownAt(cfg, ticks[..j + 1]);
    assert ticks[..j + 1][..j] == ticks[..j];
    GuardObservation(RssOf(pids, ticks[j].probe), FootprintOf(pids, ticks[j].probe)).0
  }

  predicate FailedAt(ticks: seq<Tick>, j: int) {
    0 <= j < |ticks| && Failed(ticks[j].probe)
  }

  /** Nothing at tick j that the watchdog must not survive, apart from the child's exit. */
  ghost predicate Harmless(cfg: Config, ticks: seq<Tick>, j: nat)
    requires j < |ticks|
  {
    var tick := ticks[j];
    && tick.signal.None?
    && !tick.probe.Crashes?
    && (FailedAt(ticks, j - 1) ==> tick.pollTop.None?)
    && (FailedAt(ticks, j - 1) && Sampled(tick.probe) ==> tick.pollProbe.None?)
    && (Failed(tick.probe) ==> tick.pollProbe.None?)
    && !(FailedAt(ticks, j) && FailedAt(ticks, j - 1) && FailedAt(ticks, j - 2))
    && (Sampled(tick.probe) ==> GuardAt(cfg, ticks, j) <= cfg.limit)
  }

  /** Every tick is harmless and ends with the child alive. */
  ghost predicate Quiet(cfg: Config, ticks: seq<Tick>) {
    forall j :: 0 <= j < |ticks| ==> Harmless(cfg, ticks, j) && ticks[j].pollEnd.None?
  }

  /** Quiet ticks up to a last harmless one whose probe succeeds and whose final poll sees
      the child exited with `returncode`. */
  ghost predicate CleanFinish(cfg: Config, ticks: seq<Tick>, returncode: int) {
    && ticks != []
    && Quiet(cfg, ticks[..|ticks| - 1])
    && Harmless(cfg, ticks, |ticks| - 1)
    && Sampled(ticks[|ticks| - 1].probe)
    && ticks[|ticks| - 1].pollEnd == Some(returncode)
  }

  function TrailingFailures(ticks: seq<Tick>): nat {
    if ticks == [] || !Failed(ticks[|ticks| - 1].probe) then 0
    else 1 + TrailingFailures(ticks[..|ticks| - 1])
  }

  lemma TrailingBounds(ticks: seq<Tick>)
    ensures TrailingFailures(ticks) >= 1 <==> FailedAt(ticks, |ticks| - 1)
    ensures TrailingFailures(ticks) >= 2 <==> FailedAt(ticks, |ticks| - 1) && FailedAt(ticks, |ticks| - 2)
  {
  }

  /** What the bookkeeping of a running watchdog says about the trace. */
  ghost predicate Faithful(cfg: Config, ticks: seq<Tick>, st: State) {
    && st.known == KnownAt(cfg, ticks)
    && st.consecutive == TrailingFailures(ticks) <= 2
    && (st.pending.Some? <==> st.consecutive > 0)
    && (st.pending.Some? ==>
          FailedAt(ticks, |ticks| - 1) && st.pending.value == FailureReason(ticks[|ticks| - 1].probe))
  }

  // ----- prefixes

  lemma PrefixViews(cfg: Config, ticks: seq<Tick>, j: nat)
    requires j < |ticks| - 1
    ensures ticks[..|ticks| - 1][j] == ticks[j]
    ensures Harmless(cfg, ticks[..|ticks| - 1], j) <==> Harmless(cfg, ticks, j)
  {
    hide KnownAt, RssOf, FootprintOf, GuardObservation, Sampled;
    var before := ticks[..|ticks| - 1];
    assert before[..j + 1] == ticks[..j + 1];
    assert FailedAt(before, j) <==> FailedAt(ticks, j);
    assert FailedAt(before, j - 1) <==> FailedAt(ticks, j - 1);
    assert FailedAt(before, j - 2) <==> FailedAt(ticks, j - 2);
  }

  lemma QuietExtends(cfg: Config, ticks: seq<Tick>)
    requires ticks != []
    ensures var last := |ticks| - 1;
            Quiet(cfg, ticks) <==> Quiet(cfg, ticks[..last]) && Harmless(cfg, ticks, last) && ticks[last].pollEnd.None?
  {
    hide Harmless;
    var last := |ticks| - 1;
    var before := ticks[..last];
    forall j: nat | j < last
      ensures before[j] == ticks[j] && (Harmless(cfg, before, j) <==> Harmless(cfg, ticks, j))
    {
      PrefixViews(cfg, ticks, j);
    }
    if Quiet(cfg, ticks) {
      forall j | 0 <= j < |before| ensures Harmless(cfg, before, j) && before[j].pollEnd.None? {
        assert Harmless(cfg, ticks, j);
      }
    }
    if Quiet(cfg, before) && Harmless(cfg, ticks, last) && ticks[last].pollEnd.None? {
      forall j | 0 <= j < |ticks| ensures Harmless(cfg, ticks, j) && ticks[j].pollEnd.None? {
        if j < last {
          assert Harmless(cfg, before, j);
        }
      }
    }
  }

  // ----- one step

  /** One step from faithful bookkeeping: it continues exactly on a harmless tick with the
      child alive, and finishes cleanly exactly on a harmless sampled tick with its exit. */
  lemma StepMeaning(cfg: Config, ticks: seq<Tick>, st: State)
    requires ticks != [] && Faithful(cfg, ticks[..|ticks| - 1], st)
    ensures var last := |ticks| - 1; var next := Step(cfg, st, ticks[last]);
            && (next.Running? <==> Harmless(cfg, ticks, last) && ticks[last].pollEnd.None?)
            && (Reported(next, CommandFinished)
                <==> Harmless(cfg, ticks, last) && Sampled(ticks[last].probe) && ticks[last].pollEnd.Some?)
            && (next.Running? ==> Faithful(cfg, ticks, next.state))
  {
    hide KnownWith, RssOf, FootprintOf, GuardObservation;
    var last := |ticks| - 1;
    var before := ticks[..last];
    TrailingBounds(before);
    assert forall k :: 0 <= k < last ==> before[k] == ticks[k];
    assert FailedAt(before, last - 1) <==> FailedAt(ticks, last - 1);
    assert FailedAt(before, last - 2) <==> FailedAt(ticks, last - 2);
    assert ticks[..last + 1] == ticks;
  }

  // ----- how a stopping tick leaves the loop

  /** The j-th tick gets as far as its probe. */
  predicate Probes(ticks: seq<Tick>, j: nat)
    requires j < |ticks|
  {
    ticks[j].signal.None? && !(FailedAt(ticks, j - 1) && ticks[j].pollTop.Some?)
  }

  /** The j-th tick shows the child's exit after a sample that follows a failed probe. */
  predicate ExitBeforeRecovery(ticks: seq<Tick>, j: nat)
    requires j < |ticks|
  {
    Sampled(ticks[j].probe) && FailedAt(ticks, j - 1) && ticks[j].pollProbe.Some?
  }

  /** The j-th tick brings an accepted sample above the limit. */
  ghost predicate OverLimit(cfg: Config, ticks: seq<Tick>, j: nat)
    requires j < |ticks|
  {
    && Probes(ticks, j) && Sampled(ticks[j].probe) && !ExitBeforeRecovery(ticks, j)
    && GuardAt(cfg, ticks, j) > cfg.limit
  }

  /** The j-th tick brings a third consecutive failed probe, with the child seen alive. */
  predicate ThirdFailure(ticks: seq<Tick>, j: nat)
    requires j < |ticks|
  {
    && Probes(ticks, j) && FailedAt(ticks, j) && FailedAt(ticks, j - 1) && FailedAt(ticks, j - 2)
    && ticks[j].pollProbe.None?
  }

  /** The j-th tick asks for the tree to be terminated inside the loop. */
  ghost predicate Terminates(cfg: Config, ticks: seq<Tick>, j: nat)
    requires j < |ticks|
  {
    ticks[j].signal.Some? || ThirdFailure(ticks, j) || OverLimit(cfg, ticks, j)
  }

  /** An exception leaves the loop at the j-th tick, from its probe or from a termination. */
  ghost predicate Escapes(cfg: Config, ticks: seq<Tick>, j: nat)
    requires j < |ticks|
  {
    || (Probes(ticks, j) && ticks[j].probe.Crashes?)
    || (Terminates(cfg, ticks, j) && ticks[j].terminate.Raises?)
  }

  lemma StepLeaves(cfg: Config, ticks: seq<Tick>, st: State)
    requires ticks != [] && Faithful(cfg, ticks[..|ticks| - 1], st)
    requires Step(cfg, st, ticks[|ticks| - 1]).Stopped?
    ensures var last := |ticks| - 1; var flow := Iteration(cfg, st, ticks[last]);
            && flow.Leaves?
            && (flow.leaving.report.None? <==> Escapes(cfg, ticks, last))
            && (flow.leaving.terminated <==> Terminates(cfg, ticks, last) && ticks[last].terminate.Completes?)
            && (flow.leaving.report.Some? && flow.leaving.report.value.outcome == LimitExceeded
                <==> OverLimit(cfg, ticks, last) && ticks[last].terminate.Completes?)
  {
    hide KnownWith, RssOf, FootprintOf, GuardObservation;
    var last := |ticks| - 1;
    var before := ticks[..last];
    TrailingBounds(before);
    assert forall k :: 0 <= k < last ==> before[k] == ticks[k];
    assert FailedAt(before, last - 1) <==> FailedAt(ticks, last - 1);
    assert FailedAt(before, last - 2) <==> FailedAt(ticks, last - 2);
    assert ticks[..last + 1] == ticks;
  }

  // ----- whole runs

  /**
   * A run is still going exactly when every tick so far was harmless and left the child
   * alive; its bookkeeping then agrees with the trace.
   */
  lemma {:induction false} RunningIsQuiet(cfg: Config, ticks: seq<Tick>)
    ensures Run(cfg, ticks).Running? <==> Quiet(cfg, ticks)
    ensures Run(cfg, ticks).Running? ==> Faithful(cfg, ticks, Run(cfg, ticks).state)
  {
    hide Step, Harmless, Quiet, Faithful;
    if ticks == [] {
      EmptyRun(cfg);
    } else {
      var before := ticks[..|ticks| - 1];
      RunningIsQuiet(cfg, before);
      QuietExtends(cfg, ticks);
      if Run(cfg, before).Running? {
        StepMeaning(cfg, ticks, Run(cfg, before).state);
      }
    }
  }

  lemma EmptyRun(cfg: Config)
    ensures Run(cfg, []) == Running(Initial(cfg)) && Quiet(cfg, []) && Faithful(cfg, [], Initial(cfg))
  {
  }

  /** The run stops at the last tick of the trace. */
  ghost predicate StopsNow(cfg: Config, ticks: seq<Tick>) {
    ticks != [] && Run(cfg, ticks[..|ticks| - 1]).Running? && Run(cfg, ticks).Stopped?
  }

  /**
   * Safety over whole runs: the watchdog reports the command finished exactly on a clean
   * trace. Clean means that no signal was acted on, that every successful sample was within
   * the limit over exactly the followed processes, that no three consecutive probes failed,
   * that after each failed probe the child was seen alive at every poll up to and including
   * the one after the recovering sample, and that the last probe succeeded.
   */
  lemma FinishedExactlyWhenClean(cfg: Config, ticks: seq<Tick>, returncode: int)
    ensures CleanFinish(cfg, ticks, returncode)
       <==> && StopsNow(cfg, ticks)
            && Reported(Run(cfg, ticks), CommandFinished)
            && ticks[|ticks| - 1].pollEnd == Some(returncode)
  {
    hide Step, Harmless, Quiet, Faithful;
    if ticks != [] {
      var before := ticks[..|ticks| - 1];
      RunningIsQuiet(cfg, before);
      if Run(cfg, before).Running? {
        StepMeaning(cfg, ticks, Run(cfg, before).state);
      }
    }
  }

  lemma {:induction false} StoppedStays(cfg: Config, ticks: seq<Tick>, n: nat)
    requires n <= |ticks| && Run(cfg, ticks[..n]).Stopped?
    ensures Run(cfg, ticks) == Run(cfg, ticks[..n])
  {
    hide Step;
    if n < |ticks| {
      assert ticks[..|ticks| - 1][..n] == ticks[..n];
      StoppedStays(cfg, ticks[..|ticks| - 1], n);
    } else {
      assert ticks[..n] == ticks;
    }
  }

  /** Every stopped run stopped at one particular tick. */
  lemma {:induction false} StoppingTick(cfg: Config, ticks: seq<Tick>) returns (n: nat)
    requires Run(cfg, ticks).Stopped?
    ensures 1 <= n <= |ticks| && StopsNow(cfg, ticks[..n]) && Run(cfg, ticks[..n]) == Run(cfg, ticks)
  {
    hide Step;
    if Run(cfg, ticks[..|ticks| - 1]).Running? {
      n := |ticks|;
      assert ticks[..n] == ticks;
    } else {
      n := StoppingTick(cfg, ticks[..|ticks| - 1]);
      assert ticks[..|ticks| - 1][..n] == ticks[..n];
    }
  }

  /**
   * Fail closed: once a followed sample exceeds the limit, or a third consecutive probe
   * fails, or a signal is pending at the start of a tick, no run over the trace is still
   * going after that tick, and none reports the command finished there or later.
   */
  lemma FailsClosed(cfg: Config, ticks: seq<Tick>, j: nat)
    requires j < |ticks| && !Harmless(cfg, ticks[..j + 1], j)
    ensures Run(cfg, ticks).Stopped?
    ensures Run(cfg, ticks[..j]).Running? ==> !Reported(Run(cfg, ticks), CommandFinished)
  {
    hide Step, Harmless;
    var now := ticks[..j + 1];
    assert now[..j] == ticks[..j];
    RunningIsQuiet(cfg, now);
    StoppedStays(cfg, ticks, j + 1);
    if Run(cfg, ticks[..j]).Running? && Reported(Run(cfg, now), CommandFinished) {
      RunningIsQuiet(cfg, ticks[..j]);
      StepMeaning(cfg, now, Run(cfg, ticks[..j]).state);
      assert false;
    }
  }
}
