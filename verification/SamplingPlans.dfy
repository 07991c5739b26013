/** The successive plans of the sampling loop, from the measured block times. */
module SamplingPlans {
  import opened Prelude
  import opened Calibration
  import opened Sampling

  /**
   * The plan after `planned` blocks that took `elapsed` seconds, too few for the target: the
   * least larger one that reaches the target at the mean block time so far, or the cap. The
   * mean counts as at least 1e-12 seconds.
   */
  predicate NextPlan(target: real, planned: nat, elapsed: real, next: nat, cap: nat)
    requires planned >= 1
  {
    var mean := elapsed / planned as real;
    var clock := if mean >= 0.000000000001 then mean else 0.000000000001;
    && planned < next <= cap
    && (next < cap ==> (next - planned) as real * clock >= target - elapsed)
    && (next > planned + 1 ==> (next - planned - 1) as real * clock < target - elapsed)
  }

  /** The plans of a run up to its last: every earlier one was measured completely and fell
      short of the target. */
  ghost predicate PlansFollow(plan: Plan, env: nat -> Event, plans: seq<nat>) {
    && plans != [] && plans[0] == plan.initial && plan.initial >= 1
    && forall k :: 0 <= k < |plans| - 1 ==>
         && plans[k] >= 1 && (forall i :: 0 <= i < plans[k] ==> env(i).Completed?)
         && Total(WallsOf(env, plans[k])) < plan.target
         && NextPlan(plan.target, plans[k], Total(WallsOf(env, plans[k])), plans[k + 1], 4 * plan.initial)
  }

  /** How an ending follows from the plans. */
  ghost predicate EndsByPlan(plan: Plan, outcome: Outcome, plans: seq<nat>)
    requires plans != []
  {
    var last := plans[|plans| - 1];
    match outcome
    case Finished(st) => st.index == last && st.elapsed >= plan.target
    case TargetUnreachable(st) => st.index == last == 4 * plan.initial && st.elapsed < plan.target
    case Interrupted(st) => st.index < last == st.planned
    case InterruptedBeforeAnyBlock => last == plan.initial
    case Failed => true
  }

  lemma AdditionalIsLeast(target: real, elapsed: real, count: nat)
    requires count >= 1 && elapsed < target
    ensures var a := AdditionalSamples(target, elapsed, count);
            var mean := elapsed / count as real;
            var clock := if mean >= 0.000000000001 then mean else 0.000000000001;
            && a >= 1 && a as real * clock >= target - elapsed
            && (a > 1 ==> (a - 1) as real * clock < target - elapsed)
  {
    var clock := MaxR(elapsed / count as real, MIN_CLOCK);
    var q := (target - elapsed) / clock;
    assert q * clock == target - elapsed;
    var a := AdditionalSamples(target, elapsed, count);
    Compare(a as real, q, clock);
    if a > 1 {
      assert a == Ceil(q);
      assert (a - 1) as real == a as real - 1.0;
      Compare((a - 1) as real, q, clock);
    }
  }

  lemma Compare(a: real, q: real, clock: real)
    requires clock > 0.0
    ensures a >= q <==> a * clock >= q * clock
  {
  }

  lemma ReplanIsNext(plan: Plan, st: State)
    requires ValidPlan(plan) && NeedsMore(plan, st) && 1 <= st.index && st.planned < Cap(plan)
    ensures NextPlan(plan.target, st.index, st.elapsed, Replan(plan, st).planned, 4 * plan.initial)
  {
    hide AdditionalSamples;
    AdditionalIsLeast(plan.target, st.elapsed, st.index);
    ReplanGrows(plan, st);
    var a := AdditionalSamples(plan.target, st.elapsed, st.index);
    var next := Replan(plan, st).planned;
    var mean := st.elapsed / st.index as real;
    var clock := if mean >= 0.000000000001 then mean else 0.000000000001;
    if next > st.index + 1 {
      Smaller((next - st.index - 1) as real, (a - 1) as real, clock);
    }
  }

  lemma Smaller(a: real, b: real, clock: real)
    requires clock > 0.0 && a <= b
    ensures a * clock <= b * clock
  {
  }

  lemma PlansExtend(plan: Plan, env: nat -> Event, plans: seq<nat>, next: nat)
    requires PlansFollow(plan, env, plans)
    requires var last := plans[|plans| - 1];
             && last >= 1 && (forall i :: 0 <= i < last ==> env(i).Completed?)
             && Total(WallsOf(env, last)) < plan.target
             && NextPlan(plan.target, last, Total(WallsOf(env, last)), next, 4 * plan.initial)
    ensures PlansFollow(plan, env, plans + [next])
  {
    hide NextPlan, Total;
  }

  lemma {:induction false} LoopFollowsPlans(plan: Plan, env: nat -> Event, st: State, plans: seq<nat>)
    returns (all: seq<nat>)
    requires ValidPlan(plan) && Measured(plan, env, st) && !NeedsMore(plan, st)
    requires PlansFollow(plan, env, plans) && plans[|plans| - 1] == st.planned
    requires st.index == 0 ==> st.planned == plan.initial
    ensures PlansFollow(plan, env, all) && EndsByPlan(plan, Loop(plan, env, st), all)
    decreases Cap(plan) - st.index
  {
    hide AdditionalSamples, ProfileLimit, WallsOf, Total, ProfileCount, NextPlan, PlansFollow;
    all := plans;
    if st.index < st.planned && env(st.index).Completed? {
      var next := Append(plan, st, env(st.index).wall, env(st.index).profile);
      AppendMeasures(plan, env, st);
      if !NeedsMore(plan, next) {
        all := LoopFollowsPlans(plan, env, next, plans);
      } else if next.planned < Cap(plan) {
        ReplanGrows(plan, next);
        ReplanIsNext(plan, next);
        PlansExtend(plan, env, plans, Replan(plan, next).planned);
        all := LoopFollowsPlans(plan, env, Replan(plan, next), plans + [Replan(plan, next).planned]);
      }
    } else {
      PlansNonEmpty(plan, env, plans);
    }
  }

  lemma PlansNonEmpty(plan: Plan, env: nat -> Event, plans: seq<nat>)
    requires PlansFollow(plan, env, plans)
    ensures plans != []
  {
  }

  /**
   * Every run goes through a chain of plans, each the least that should suffice at the mean
   * block time so far and at most four times the initial one, and ends at its last plan.
   */
  lemma SamplingFollowsPlans(plan: Plan, env: nat -> Event) returns (plans: seq<nat>)
    requires ValidPlan(plan)
    ensures PlansFollow(plan, env, plans) && EndsByPlan(plan, Loop(plan, env, Start(plan)), plans)
  {
    StartIsMeasured(plan, env);
    plans := LoopFollowsPlans(plan, env, Start(plan), [plan.initial]);
  }

  /** The number of profiles after n blocks: one per block with the repeated profiler, and with
      the single one at most as many as requested samples, eight, and first planned blocks. */
  lemma ProfilesTaken(plan: Plan, env: nat -> Event, st: State)
    requires ValidPlan(plan) && Measured(plan, env, st)
    ensures plan.mode.NoProfiler? ==> st.profiles == []
    ensures plan.mode.RepeatedProfiler? ==> |st.profiles| == st.index
    ensures plan.mode.SingleProfiler? ==>
              && |st.profiles| <= st.index && |st.profiles| <= plan.initial
              && |st.profiles| <= plan.minimumSamples && |st.profiles| <= 8
              && (|st.profiles| in {st.index, plan.initial, plan.minimumSamples, 8})
  {
  }
}
