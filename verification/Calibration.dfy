/** Repetition calibration of the runtime benchmark, over exact reals. */
module Calibration {
  import opened Prelude

  const MAX_SAMPLE_RUNTIME := 0.25
  const MAX_CALIBRATION_BLOCKS := 2
  const MAX_REPETITIONS := 1_000_000_000
  const LOWER_RATIO := 0.8
  const UPPER_RATIO := 1.25
  const MIN_CLOCK := 0.000000000001

  /** The benchmark settings used here; configuration validation makes both positive. */
  datatype Config = Config(targetRuntime: real, minimumSamples: int)

  predicate ValidConfig(config: Config) {
    config.targetRuntime > 0.0 && config.minimumSamples >= 1
  }

  datatype Calibrated = Calibrated(sampleCount: int, repetitions: int, targetSample: real, probe: real,
                                   blockCount: int, evaluationCount: int, elapsed: real)

  /** One measured calibration block. */
  datatype Block = Block(repetitions: int, seconds: real)

  /** Seconds taken by the n-th measured block of the given number of repetitions. */
  type Timer = (nat, int) -> real

  // ----- pure arithmetic

  function PlannedSampleCount(config: Config, probe: real): (n: int)
    requires ValidConfig(config)
    ensures n >= config.minimumSamples
  {
    if config.minimumSamples == 1 then 1
    else
      var desired := Max(config.minimumSamples, Ceil(config.targetRuntime / MAX_SAMPLE_RUNTIME));
      var affordable := Max((config.targetRuntime / MaxR(probe, MIN_CLOCK)).Floor, 1);
      Max(config.minimumSamples, Min(desired, affordable))
  }

  function Clamp(n: int): (m: int)
    ensures 1 <= m <= MAX_REPETITIONS
  {
    Min(Max(n, 1), MAX_REPETITIONS)
  }

  function EstimatedRepetitions(current: int, observed: real, target: real): int {
    Clamp(Ceil(current as real * target / MaxR(observed, MIN_CLOCK)))
  }

  // ----- the loop

  function TotalRepetitions(blocks: seq<Block>): int {
    if blocks == [] then 0 else TotalRepetitions(blocks[..|blocks| - 1]) + blocks[|blocks| - 1].repetitions
  }

  function TotalSeconds(blocks: seq<Block>): real {
    if blocks == [] then 0.0 else TotalSeconds(blocks[..|blocks| - 1]) + blocks[|blocks| - 1].seconds
  }

  lemma EmptyTotals()
    ensures TotalRepetitions([]) == 0 && TotalSeconds([]) == 0.0
  {
  }

  lemma TotalsExtend(blocks: seq<Block>, block: Block)
    ensures TotalRepetitions(blocks + [block]) == TotalRepetitions(blocks) + block.repetitions
    ensures TotalSeconds(blocks + [block]) == TotalSeconds(blocks) + block.seconds
  {
  }

  /** The repetition count together with every measured block, in order. */
  datatype Choice = Choice(repetitions: int, blocks: seq<Block>)

  predicate Accepted(seconds: real, target: real)
    requires target > 0.0
  {
    LOWER_RATIO <= seconds / target <= UPPER_RATIO
  }

  /** The calibration loop with `left` iterations left; running out of them estimates again. */
  function Refine(timer: Timer, target: real, repetitions: int, observed: real, blocks: seq<Block>, left: nat): Choice
    requires target > 0.0
    decreases left
  {
    var candidate := EstimatedRepetitions(repetitions, observed, target);
    if left == 0 then Choice(candidate, blocks)
    else if candidate == repetitions then Choice(repetitions, blocks)
    else
      var seconds := timer(|blocks|, candidate);
      var more := blocks + [Block(candidate, seconds)];
      if Accepted(seconds, target) then Choice(candidate, more)
      else Refine(timer, target, candidate, seconds, more, left - 1)
  }

  function FirstBlocks(initialSeconds: Option<real>, timer: Timer): seq<Block> {
    if initialSeconds.None? then [Block(1, timer(0, 1))] else []
  }

  function InitialSeconds(initialSeconds: Option<real>, timer: Timer): real {
    if initialSeconds.None? then timer(0, 1) else initialSeconds.value
  }

  /** The share of the target runtime that falls to one sample. */
  function TargetSample(config: Config, sampleCount: int): (target: real)
    requires ValidConfig(config) && sampleCount >= 1
    ensures target > 0.0
  {
    config.targetRuntime / sampleCount as real
  }

  function Choose(config: Config, initialSeconds: Option<real>, timer: Timer): Choice
    requires ValidConfig(config)
  {
    var initial := InitialSeconds(initialSeconds, timer);
    var blocks := FirstBlocks(initialSeconds, timer);
    var sampleCount := PlannedSampleCount(config, initial);
    var target := TargetSample(config, sampleCount);
    if sampleCount == 1 then Choice(EstimatedRepetitions(1, initial, target), blocks)
    else Refine(timer, target, 1, initial, blocks, MAX_CALIBRATION_BLOCKS)
  }

  /** The loop with its running counters: they are the exact totals of the measured blocks. */
  method CalibrateRepetitions(config: Config, initialSeconds: Option<real>, timer: Timer) returns (c: Calibrated)
    requires ValidConfig(config)
    ensures c.probe == InitialSeconds(initialSeconds, timer)
    ensures c.sampleCount == PlannedSampleCount(config, c.probe)
    ensures c.targetSample == TargetSample(config, c.sampleCount)
    ensures var choice := Choose(config, initialSeconds, timer);
            && c.repetitions == choice.repetitions
            && c.blockCount == |choice.blocks|
            && c.evaluationCount == TotalRepetitions(choice.blocks)
            && c.elapsed == TotalSeconds(choice.blocks)
  {
    hide EstimatedRepetitions, PlannedSampleCount, Accepted, TotalSeconds, TotalRepetitions, TargetSample;
    ghost var blocks: seq<Block> := [];
    var blockCount, evaluationCount, elapsed := 0, 0, 0.0;
    var initial: real;
    EmptyTotals();
    if initialSeconds.None? {
      initial := timer(0, 1);
      TotalsExtend([], Block(1, initial));
      blocks := [] + [Block(1, initial)];
      blockCount, evaluationCount, elapsed := 1, 1, initial;
    } else {
      initial := initialSeconds.value;
    }
    assert blocks == FirstBlocks(initialSeconds, timer);
    var sampleCount := PlannedSampleCount(config, initial);
    var target := TargetSample(config, sampleCount);
    if sampleCount == 1 {
      return Calibrated(sampleCount, EstimatedRepetitions(1, initial, target), target, initial,
                        blockCount, evaluationCount, elapsed);
    }
    var observed, repetitions, exhausted := initial, 1, true;
    for i := 0 to MAX_CALIBRATION_BLOCKS
      invariant exhausted
      invariant blockCount == |blocks| && evaluationCount == TotalRepetitions(blocks) && elapsed == TotalSeconds(blocks)
      invariant Refine(timer, target, repetitions, observed, blocks, MAX_CALIBRATION_BLOCKS - i)
             == Choose(config, initialSeconds, timer)
    {
      var candidate := EstimatedRepetitions(repetitions, observed, target);
      if candidate == repetitions {
        exhausted := false;
        break;
      }
      observed := timer(blockCount, candidate);
      TotalsExtend(blocks, Block(candidate, observed));
      blocks := blocks + [Block(candidate, observed)];
      blockCount := blockCount + 1;
      evaluationCount := evaluationCount + candidate;
      elapsed := elapsed + observed;
      repetitions := candidate;
      if Accepted(observed, target) {
        exhausted := false;
        break;
      }
    }
    if exhausted {
      repetitions := EstimatedRepetitions(repetitions, observed, target);
    }
    c := Calibrated(sampleCount, repetitions, target, initial, blockCount, evaluationCount, elapsed);
  }

  /** A plan above the requested minimum is affordable: that many probes fit the target. */
  lemma PlanFitsTarget(config: Config, probe: real)
    requires ValidConfig(config) && PlannedSampleCount(config, probe) > config.minimumSamples
    ensures PlannedSampleCount(config, probe) as real * MaxR(probe, MIN_CLOCK) <= config.targetRuntime
  {
    var m, n := MaxR(probe, MIN_CLOCK), PlannedSampleCount(config, probe);
    var q := config.targetRuntime / m;
    assert q * m == config.targetRuntime;
    assert n as real <= q;
  }

  /** With more than one sample requested, the plan is the largest affordable count within
      the desired range, or the requested minimum where even that is not affordable. */
  lemma PlanIsLargestAffordable(config: Config, probe: real, m: int)
    requires ValidConfig(config) && config.minimumSamples > 1
    requires config.minimumSamples <= m <= Max(config.minimumSamples, Ceil(config.targetRuntime / MAX_SAMPLE_RUNTIME))
    requires m as real * MaxR(probe, MIN_CLOCK) <= config.targetRuntime
    ensures m <= PlannedSampleCount(config, probe)
            <= Max(config.minimumSamples, Ceil(config.targetRuntime / MAX_SAMPLE_RUNTIME))
  {
    var clock := MaxR(probe, MIN_CLOCK);
    var q := config.targetRuntime / clock;
    assert q * clock == config.targetRuntime;
    FactorBelow(m as real, q, clock);
  }

  lemma FactorBelow(a: real, b: real, c: real)
    requires c > 0.0 && a * c <= b * c
    ensures a <= b
  {
  }

  // ----- what the chosen count means

  /** Whatever the timer does, at most three blocks are measured. */
  lemma AtMostThreeBlocks(config: Config, initialSeconds: Option<real>, timer: Timer)
    requires ValidConfig(config)
    ensures |Choose(config, initialSeconds, timer).blocks| <= if initialSeconds.None? then 3 else 2
  {
  }

  /** The count that lasts `target` seconds at a cost per repetition, clamped. */
  function IdealRepetitions(target: real, cost: real): int
    requires cost > 0.0
  {
    Clamp(Ceil(target / cost))
  }

  lemma IdealMonotone(a: real, b: real)
    requires a <= b
    ensures Clamp(Ceil(a)) <= Clamp(Ceil(b))
  {
  }

  /** An observation of `repetitions` repetitions within the cost bounds. */
  predicate Plausible(repetitions: int, seconds: real, lo: real, hi: real) {
    repetitions >= 1 && lo * repetitions as real <= seconds <= hi * repetitions as real
  }

  lemma QuotientBounds(k: real, target: real, observed: real, lo: real, hi: real)
    requires k >= 1.0 && target > 0.0 && 0.0 < lo <= hi && lo * k <= observed <= hi * k && observed > 0.0
    ensures target / hi <= k * target / observed <= target / lo
  {
    var q, a, b := k * target / observed, target / hi, target / lo;
    assert q * observed == k * target;
    assert a * hi == target && b * lo == target;
    assert k * (a * hi) == a * (hi * k) && k * (b * lo) == b * (lo * k);
    ScaledBelow(a, q, hi * k, observed);
    ScaledBelow(q, b, observed, lo * k);
  }

  lemma ScaledBelow(a: real, q: real, larger: real, smaller: real)
    requires 0.0 < smaller <= larger && q >= 0.0 && a * larger == q * smaller
    ensures a <= q
  {
  }

  lemma EstimateUnfolds(repetitions: int, seconds: real, target: real, ratio: real)
    requires seconds >= MIN_CLOCK && ratio == repetitions as real * target / seconds
    ensures EstimatedRepetitions(repetitions, seconds, target) == Clamp(Ceil(ratio))
  {
  }

  lemma AtLeastOnce(lo: real, k: real)
    requires lo > 0.0 && k >= 1.0
    ensures lo * k >= lo
  {
  }

  /** An estimate from a plausible observation lies between the two ideal counts. */
  lemma EstimateBounds(repetitions: int, seconds: real, target: real, lo: real, hi: real)
    requires target > 0.0 && MIN_CLOCK <= lo <= hi && Plausible(repetitions, seconds, lo, hi)
    ensures IdealRepetitions(target, hi) <= EstimatedRepetitions(repetitions, seconds, target)
            <= IdealRepetitions(target, lo)
  {
    hide Clamp, Ceil, EstimatedRepetitions;
    var k := repetitions as real;
    AtLeastOnce(lo, k);
    QuotientBounds(k, target, seconds, lo, hi);
    var low, ratio, high := target / hi, k * target / seconds, target / lo;
    EstimateUnfolds(repetitions, seconds, target, ratio);
    IdealMonotone(low, ratio);
    IdealMonotone(ratio, high);
  }

  /** A timer whose cost per repetition stays between two bounds. */
  ghost predicate Steady(timer: Timer, lo: real, hi: real) {
    forall n: nat, k: int :: k >= 1 ==> Plausible(k, timer(n, k), lo, hi)
  }

  lemma {:induction false} RefineBounds(timer: Timer, target: real, repetitions: int, observed: real,
                                        blocks: seq<Block>, left: nat, lo: real, hi: real)
    requires target > 0.0 && MIN_CLOCK <= lo <= hi && Steady(timer, lo, hi)
    requires Plausible(repetitions, observed, lo, hi)
    ensures IdealRepetitions(target, hi) <= Refine(timer, target, repetitions, observed, blocks, left).repetitions
            <= IdealRepetitions(target, lo)
    decreases left
  {
    hide EstimatedRepetitions, IdealRepetitions, Accepted, Plausible;
    EstimateBounds(repetitions, observed, target, lo, hi);
    var candidate := EstimatedRepetitions(repetitions, observed, target);
    if left > 0 && candidate != repetitions {
      EstimatePositive(repetitions, observed, target);
      var seconds := timer(|blocks|, candidate);
      assert Plausible(candidate, seconds, lo, hi);
      RefineBounds(timer, target, candidate, seconds, blocks + [Block(candidate, seconds)], left - 1, lo, hi);
    }
  }

  lemma EstimatePositive(repetitions: int, observed: real, target: real)
    ensures EstimatedRepetitions(repetitions, observed, target) >= 1
  {
  }

  /**
   * Noise tolerance: if every measured repetition costs between `lo` and `hi` seconds, the
   * chosen count lies between the ideal counts of the two costs, whichever way the loop
   * ends.
   */
  lemma CalibrationBounds(config: Config, initialSeconds: Option<real>, timer: Timer, lo: real, hi: real)
    requires ValidConfig(config) && MIN_CLOCK <= lo <= hi && Steady(timer, lo, hi)
    requires initialSeconds.Some? ==> lo <= initialSeconds.value <= hi
    ensures var target := TargetSample(config, PlannedSampleCount(config, InitialSeconds(initialSeconds, timer)));
            IdealRepetitions(target, hi) <= Choose(config, initialSeconds, timer).repetitions
            <= IdealRepetitions(target, lo)
  {
    hide EstimatedRepetitions, IdealRepetitions, PlannedSampleCount, Refine, TargetSample;
    var initial := InitialSeconds(initialSeconds, timer);
    var target := TargetSample(config, PlannedSampleCount(config, initial));
    assert Plausible(1, timer(0, 1), lo, hi);
    assert Plausible(1, initial, lo, hi);
    EstimateBounds(1, initial, target, lo, hi);
    RefineBounds(timer, target, 1, initial, FirstBlocks(initialSeconds, timer), MAX_CALIBRATION_BLOCKS, lo, hi);
  }

  /** A timer of constant cost is calibrated exactly: the clamped ceiling of target over cost. */
  lemma ConstantCostIsExact(config: Config, initialSeconds: Option<real>, timer: Timer, cost: real)
    requires ValidConfig(config) && MIN_CLOCK <= cost
    requires forall n: nat, k: int :: k >= 1 ==> timer(n, k) == cost * k as real
    requires initialSeconds.Some? ==> initialSeconds.value == cost
    ensures Choose(config, initialSeconds, timer).repetitions
         == IdealRepetitions(TargetSample(config, PlannedSampleCount(config, cost)), cost)
  {
    hide EstimatedRepetitions, IdealRepetitions, PlannedSampleCount, Refine, TargetSample, Choose;
    assert timer(0, 1) == cost;
    CalibrationBounds(config, initialSeconds, timer, cost, cost);
  }
}
