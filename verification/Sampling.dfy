/**
 * The adaptive sampling loop of the runtime benchmark. Its bound moves while it runs: when
 * the planned blocks are done before the target duration, more are planned, up to four
 * times the initial plan.
 */
module Sampling {
  import opened Prelude
  import opened Calibration

  const MAX_SAMPLE_FACTOR := 4
  const MAX_NATIVE_PROFILES := 8

  /** How attribution profiles are taken: not at all, one call in some blocks, or as many
      repetitions as the block itself. */
  datatype Mode = NoProfiler | SingleProfiler | RepeatedProfiler

  /** What the environment does in one block. */
  datatype Event = Completed(wall: real, profile: int) | Interrupt | Fault

  datatype Plan = Plan(target: real, initial: nat, minimumSamples: int, mode: Mode)

  predicate ValidPlan(plan: Plan) {
    plan.target > 0.0 && plan.initial >= 1 && plan.minimumSamples >= 1
  }

  datatype State = State(index: nat, planned: nat, elapsed: real, walls: seq<real>, profiles: seq<int>)

  datatype Outcome =
    | Finished(state: State)
    | Interrupted(state: State)
    | InterruptedBeforeAnyBlock
    | TargetUnreachable(state: State)
    | Failed

  function Cap(plan: Plan): nat {
    plan.initial * MAX_SAMPLE_FACTOR
  }

  /** The number of leading blocks profiled by the single-call profiler. */
  function ProfileLimit(plan: Plan): int {
    Min(plan.initial, Max(1, Min(plan.minimumSamples, MAX_NATIVE_PROFILES)))
  }

  predicate TakesProfile(plan: Plan, index: nat) {
    plan.mode.RepeatedProfiler? || (plan.mode.SingleProfiler? && index < ProfileLimit(plan))
  }

  function Start(plan: Plan): State {
    State(0, plan.initial, 0.0, [], [])
  }

  /** A completed block appended to the measurements. */
  function Append(plan: Plan, st: State, wall: real, profile: int): State {
    State(st.index + 1, st.planned, st.elapsed + wall, st.walls + [wall],
          if TakesProfile(plan, st.index) then st.profiles + [profile] else st.profiles)
  }

  function AdditionalSamples(target: real, elapsed: real, count: nat): (n: int)
    requires count >= 1
    ensures n >= 1
  {
    Max(1, Ceil((target - elapsed) / MaxR(elapsed / count as real, MIN_CLOCK)))
  }

  predicate NeedsMore(plan: Plan, st: State) {
    st.index == st.planned && st.elapsed < plan.target
  }

  function Replan(plan: Plan, st: State): State
    requires st.index >= 1
  {
    st.(planned := Min(Cap(plan), st.planned + AdditionalSamples(plan.target, st.elapsed, st.index)) as nat)
  }

  /** The loop from a state on, for an environment that answers block by block. */
  function Loop(plan: Plan, env: nat -> Event, st: State): Outcome
    requires st.index <= st.planned <= Cap(plan)
    decreases Cap(plan) - st.index
  {
    if st.index == st.planned then Finished(st)
    else
      match env(st.index)
      case Fault => Failed
      case Interrupt => if st.walls == [] then InterruptedBeforeAnyBlock else Interrupted(st)
      case Completed(wall, profile) =>
        var next := Append(plan, st, wall, profile);
        if NeedsMore(plan, next) then
          if next.planned >= Cap(plan) then TargetUnreachable(next)
          else Loop(plan, env, Replan(plan, next))
        else Loop(plan, env, next)
  }

  method SampleBlocks(plan: Plan, env: nat -> Event) returns (outcome: Outcome)
    requires ValidPlan(plan)
    ensures outcome == Loop(plan, env, Start(plan))
  {
    hide AdditionalSamples, ProfileLimit;
    var planned := plan.initial;
    var maximum := plan.initial * MAX_SAMPLE_FACTOR;
    var index, elapsed := 0, 0.0;
    var walls: seq<real> := [];
    var profiles: seq<int> := [];
    while index < planned
      invariant index == |walls| && index <= planned <= maximum == Cap(plan)
      invariant Loop(plan, env, State(index, planned, elapsed, walls, profiles)) == Loop(plan, env, Start(plan))
      decreases maximum - index
    {
      var event := env(index);
      if event.Fault? {
        return Failed;
      }
      if event.Interrupt? {
        if walls == [] {
          return InterruptedBeforeAnyBlock;
        }
        return Interrupted(State(index, planned, elapsed, walls, profiles));
      }
      walls := walls + [event.wall];
      elapsed := elapsed + event.wall;
      if TakesProfile(plan, index) {
        profiles := profiles + [event.profile];
      }
      index := index + 1;
      if index == planned && elapsed < plan.target {
        if planned >= maximum {
          return TargetUnreachable(State(index, planned, elapsed, walls, profiles));
        }
        var additional := AdditionalSamples(plan.target, elapsed, |walls|);
        planned := Min(maximum, planned + additional);
      }
    }
    outcome := Finished(State(index, planned, elapsed, walls, profiles));
  }

  // ----- what every run keeps

  function Total(walls: seq<real>): real {
    if walls == [] then 0.0 else Total(walls[..|walls| - 1]) + walls[|walls| - 1]
  }

  /** The wall times of the first `n` blocks of an environment. */
  function WallsOf(env: nat -> Event, n: nat): (walls: seq<real>)
    requires forall i :: 0 <= i < n ==> env(i).Completed?
    ensures |walls| == n
  {
    seq(n, i requires 0 <= i < n => env(i).wall)
  }

  /** The number of profiles taken in the first `n` blocks. */
  function ProfileCount(plan: Plan, n: nat): int {
    match plan.mode
    case NoProfiler => 0
    case SingleProfiler => Min(n, ProfileLimit(plan))
    case RepeatedProfiler => n
  }

  /** A state reached by measuring exactly its first `index` blocks. */
  ghost predicate Measured(plan: Plan, env: nat -> Event, st: State) {
    && plan.initial <= st.planned <= Cap(plan)
    && st.index <= st.planned
    && (forall i :: 0 <= i < st.index ==> env(i).Completed?)
    && st.walls == WallsOf(env, st.index)
    && st.elapsed == Total(st.walls)
    && |st.profiles| == ProfileCount(plan, st.index)
    && (forall i :: 0 <= i < |st.profiles| ==> st.profiles[i] == env(i).profile)
  }

  lemma AppendMeasures(plan: Plan, env: nat -> Event, st: State)
    requires ValidPlan(plan) && Measured(plan, env, st) && st.index < st.planned && env(st.index).Completed?
    ensures Measured(plan, env, Append(plan, st, env(st.index).wall, env(st.index).profile))
  {
    var next := Append(plan, st, env(st.index).wall, env(st.index).profile);
    assert next.walls == WallsOf(env, next.index);
    assert next.walls[..|next.walls| - 1] == st.walls;
  }

  lemma ReplanGrows(plan: Plan, st: State)
    requires st.index >= 1 && st.planned < Cap(plan)
    ensures st.planned < Replan(plan, st).planned <= Cap(plan)
  {
  }

  /** What each way of ending says about the measured blocks. */
  ghost predicate EndsWell(plan: Plan, env: nat -> Event, outcome: Outcome) {
    match outcome
    case Finished(st) => Measured(plan, env, st) && st.index == st.planned && st.elapsed >= plan.target
    case Interrupted(st) => Measured(plan, env, st) && 1 <= st.index < st.planned && env(st.index).Interrupt?
    case InterruptedBeforeAnyBlock => env(0).Interrupt?
    case TargetUnreachable(st) => Measured(plan, env, st) && st.index == Cap(plan) && st.elapsed < plan.target
    case Failed => exists i: nat :: i < Cap(plan) && env(i).Fault? && forall j: nat :: j < i ==> env(j).Completed?
  }

  lemma {:induction false} LoopEndsWell(plan: Plan, env: nat -> Event, st: State)
    requires ValidPlan(plan) && Measured(plan, env, st) && !NeedsMore(plan, st)
    ensures EndsWell(plan, env, Loop(plan, env, st))
    decreases Cap(plan) - st.index
  {
    hide AdditionalSamples, ProfileLimit, WallsOf, Total, ProfileCount;
    if st.index < st.planned && env(st.index).Completed? {
      var next := Append(plan, st, env(st.index).wall, env(st.index).profile);
      AppendMeasures(plan, env, st);
      if !NeedsMore(plan, next) {
        LoopEndsWell(plan, env, next);
      } else if next.planned < Cap(plan) {
        ReplanGrows(plan, next);
        LoopEndsWell(plan, env, Replan(plan, next));
      }
    }
  }

  /**
   * Every way the sampling loop can end. It finishes only with every planned block measured
   * and the target duration reached, having planned between the initial count and four
   * times it; it gives up only after four times the initial count with the target still
   * missed; an interruption keeps the complete blocks before it; a failure comes from the
   * first block after completed ones; and with the repeated profiler every complete block
   * has exactly one profile of its own.
   */
  lemma SamplingEndsWell(plan: Plan, env: nat -> Event)
    requires ValidPlan(plan)
    ensures EndsWell(plan, env, Loop(plan, env, Start(plan)))
  {
    LoopEndsWell(plan, env, Start(plan));
  }

  // ----- an undisturbed run

  ghost predicate Undisturbed(plan: Plan, env: nat -> Event) {
    forall i: nat :: i < Cap(plan) ==> env(i).Completed? && env(i).wall >= 0.0
  }

  lemma {:induction false} TotalMonotone(env: nat -> Event, m: nat, n: nat)
    requires m <= n && forall i: nat :: i < n ==> env(i).Completed? && env(i).wall >= 0.0
    ensures Total(WallsOf(env, m)) <= Total(WallsOf(env, n))
  {
    if m < n {
      TotalMonotone(env, m, n - 1);
      assert WallsOf(env, n)[..n - 1] == WallsOf(env, n - 1);
    }
  }

  lemma {:induction false} UndisturbedEnds(plan: Plan, env: nat -> Event, st: State)
    requires ValidPlan(plan) && Measured(plan, env, st) && !NeedsMore(plan, st) && Undisturbed(plan, env)
    ensures Loop(plan, env, st).Finished? || Loop(plan, env, st).TargetUnreachable?
    decreases Cap(plan) - st.index
  {
    hide AdditionalSamples, ProfileLimit, WallsOf, Total, ProfileCount;
    if st.index < st.planned {
      var next := Append(plan, st, env(st.index).wall, env(st.index).profile);
      AppendMeasures(plan, env, st);
      if !NeedsMore(plan, next) {
        UndisturbedEnds(plan, env, next);
      } else if next.planned < Cap(plan) {
        ReplanGrows(plan, next);
        UndisturbedEnds(plan, env, Replan(plan, next));
      }
    }
  }

  /**
   * An undisturbed run with non-negative block times fails to reach its target exactly when
   * four times the initial number of blocks is too short, whatever is planned on the way.
   */
  lemma UnreachableExactly(plan: Plan, env: nat -> Event)
    requires ValidPlan(plan) && Undisturbed(plan, env)
    ensures Loop(plan, env, Start(plan)).TargetUnreachable? <==> Total(WallsOf(env, Cap(plan))) < plan.target
    ensures Loop(plan, env, Start(plan)).Finished? <==> Total(WallsOf(env, Cap(plan))) >= plan.target
  {
    hide Loop, Total, WallsOf, Start;
    StartIsMeasured(plan, env);
    UndisturbedEnds(plan, env, Start(plan));
    LoopEndsWell(plan, env, Start(plan));
    var outcome := Loop(plan, env, Start(plan));
    if outcome.Finished? {
      TotalMonotone(env, outcome.state.index, Cap(plan));
    }
  }

  lemma StartIsMeasured(plan: Plan, env: nat -> Event)
    requires ValidPlan(plan)
    ensures Measured(plan, env, Start(plan)) && !NeedsMore(plan, Start(plan))
  {
  }

  // ----- blocks of constant duration

  /** The number of blocks of the given duration that fill the target. */
  function BlocksNeeded(target: real, wall: real): int
    requires wall > 0.0
  {
    Ceil(target / wall)
  }

  ghost predicate Constant(plan: Plan, env: nat -> Event, wall: real) {
    forall i: nat :: i < Cap(plan) ==> env(i).Completed? && env(i).wall == wall
  }

  lemma NeededMeaning(target: real, wall: real, n: nat)
    requires target > 0.0 && wall > 0.0
    ensures n as real * wall >= target <==> n >= BlocksNeeded(target, wall)
  {
    var q := target / wall;
    assert q * wall == target;
    if n as real >= q {
      assert n as real * wall >= q * wall;
    } else {
      assert n as real * wall < q * wall;
    }
  }

  /** After n blocks of constant duration, exactly the missing blocks are planned. */
  lemma ReplanConstant(plan: Plan, st: State, wall: real)
    requires ValidPlan(plan) && wall >= MIN_CLOCK && st.index >= 1
    requires st.elapsed == st.index as real * wall && NeedsMore(plan, st)
    ensures st.planned + AdditionalSamples(plan.target, st.elapsed, st.index) == BlocksNeeded(plan.target, wall)
  {
    var n := st.index as real;
    var q := plan.target / wall;
    assert q * wall == plan.target;
    MeanIsWall(st.elapsed, n, wall);
    MissingBlocks(plan.target, st.elapsed, n, wall, q);
    NeededMeaning(plan.target, wall, st.index);
    assert Ceil(q - n) == Ceil(q) - st.index;
  }

  lemma MeanIsWall(elapsed: real, n: real, wall: real)
    requires n >= 1.0 && elapsed == n * wall
    ensures elapsed / n == wall
  {
  }

  lemma MissingBlocks(target: real, elapsed: real, n: real, wall: real, q: real)
    requires wall > 0.0 && elapsed == n * wall && q * wall == target
    ensures (target - elapsed) / wall == q - n
  {
  }

  lemma {:induction false} ConstantLoop(plan: Plan, env: nat -> Event, wall: real, st: State)
    requires ValidPlan(plan) && wall >= MIN_CLOCK && Constant(plan, env, wall)
    requires st.index <= st.planned <= Cap(plan) && !NeedsMore(plan, st)
    requires st.elapsed == st.index as real * wall
    requires st.planned == plan.initial || st.planned == Min(Cap(plan), BlocksNeeded(plan.target, wall))
    requires st.planned >= plan.initial
    ensures var outcome := Loop(plan, env, st); var needed := BlocksNeeded(plan.target, wall);
            if needed <= Cap(plan) then outcome.Finished? && outcome.state.index == Max(plan.initial, needed)
            else outcome.TargetUnreachable? && outcome.state.index == Cap(plan)
    decreases Cap(plan) - st.index
  {
    hide AdditionalSamples, BlocksNeeded, TakesProfile;
    NeededMeaning(plan.target, wall, st.index);
    if st.index < st.planned {
      var next := Append(plan, st, env(st.index).wall, env(st.index).profile);
      NextElapsed(st.index, wall);
      NeededMeaning(plan.target, wall, next.index);
      if !NeedsMore(plan, next) {
        ConstantLoop(plan, env, wall, next);
      } else if next.planned < Cap(plan) {
        ReplanGrows(plan, next);
        ReplanConstant(plan, next, wall);
        ConstantLoop(plan, env, wall, Replan(plan, next));
      }
    }
  }

  lemma NextElapsed(n: nat, wall: real)
    ensures n as real * wall + wall == (n + 1) as real * wall
  {
  }

  /**
   * With blocks of constant duration the loop measures exactly as many blocks as fill the
   * target, but never fewer than planned at first, and gives up exactly when four times
   * the initial plan does not suffice.
   */
  lemma ConstantBlocks(plan: Plan, env: nat -> Event, wall: real)
    requires ValidPlan(plan) && wall >= MIN_CLOCK && Constant(plan, env, wall)
    ensures var outcome := Loop(plan, env, Start(plan)); var needed := BlocksNeeded(plan.target, wall);
            if needed <= Cap(plan) then outcome.Finished? && outcome.state.index == Max(plan.initial, needed)
            else outcome.TargetUnreachable? && outcome.state.index == Cap(plan)
  {
    hide Loop, BlocksNeeded;
    ConstantLoop(plan, env, wall, Start(plan));
  }
}
