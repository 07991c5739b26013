/** What calibration plans, measures and chooses, in terms of the timer's own answers. */
module CalibrationAnswer {
  import opened Prelude
  import opened Calibration

  // ----- counts

  /** `n` is the least count in [1, 10^9] whose duration at the observed cost reaches the
      target, or 10^9 when none does; an observation lasts at least 1e-12 seconds. */
  predicate LeastSufficient(n: int, repetitions: int, seconds: real, target: real) {
    var clock := if seconds >= 0.000000000001 then seconds else 0.000000000001;
    && 1 <= n <= 1_000_000_000
    && (n > 1 ==> (n - 1) as real * clock < repetitions as real * target)
    && (n < 1_000_000_000 ==> n as real * clock >= repetitions as real * target)
  }

  lemma EstimateIsLeast(repetitions: int, seconds: real, target: real)
    ensures LeastSufficient(EstimatedRepetitions(repetitions, seconds, target), repetitions, seconds, target)
  {
    var clock := MaxR(seconds, MIN_CLOCK);
    var needed := repetitions as real * target;
    var q := needed / clock;
    assert q * clock == needed;
    var n := EstimatedRepetitions(repetitions, seconds, target);
    if n > 1 {
      BelowQuotient((n - 1) as real, q, clock);
    }
    if n < 1_000_000_000 {
      AboveQuotient(n as real, q, clock);
    }
  }

  lemma BelowQuotient(a: real, q: real, clock: real)
    requires clock > 0.0 && a < q
    ensures a * clock < q * clock
  {
  }

  lemma AboveQuotient(a: real, q: real, clock: real)
    requires clock > 0.0 && a >= q
    ensures a * clock >= q * clock
  {
  }

  /** A count of samples that the runtime calls for and the probed cost can afford. */
  predicate Worthwhile(m: int, config: Config, probe: real) {
    var clock := if probe >= 0.000000000001 then probe else 0.000000000001;
    && m >= config.minimumSamples
    && (m == config.minimumSamples
        || (m as real - 1.0 < 4.0 * config.targetRuntime && m as real * clock <= config.targetRuntime))
  }

  /** One sample when one is the requested minimum, and otherwise the largest count that is
      the minimum itself, or needed to keep samples below 0.25 seconds and affordable. */
  lemma PlanIsLargest(config: Config, probe: real)
    requires ValidConfig(config)
    ensures var n := PlannedSampleCount(config, probe);
            && (config.minimumSamples == 1 ==> n == 1)
            && (config.minimumSamples > 1 ==>
                  Worthwhile(n, config, probe) && forall m :: Worthwhile(m, config, probe) ==> m <= n)
  {
    if config.minimumSamples > 1 {
      var n := PlannedSampleCount(config, probe);
      if n > config.minimumSamples {
        PlanFitsTarget(config, probe);
      }
      forall m | Worthwhile(m, config, probe) ensures m <= n {
        if m > config.minimumSamples {
          PlanIsLargestAffordable(config, probe, m);
        }
      }
    }
  }

  // ----- the loop

  /** The observation an estimate is made from: the block before, or the initial one. */
  function Observation(start: Block, measured: seq<Block>, j: nat): Block
    requires j <= |measured|
  {
    if j == 0 then start else measured[j - 1]
  }

  /** Within a fifth below and a quarter above the target. */
  predicate OnTarget(seconds: real, target: real) {
    0.8 * target <= seconds <= 1.25 * target
  }

  /** Each block has the count estimated from the observation before it, different from that
      one's, and the seconds the timer gives for it. */
  ghost predicate Follows(timer: Timer, target: real, start: Block, first: nat, measured: seq<Block>) {
    forall j :: 0 <= j < |measured| ==>
      var before := Observation(start, measured, j);
      && LeastSufficient(measured[j].repetitions, before.repetitions, before.seconds, target)
      && measured[j].repetitions != before.repetitions
      && measured[j].seconds == timer(first + j, measured[j].repetitions)
  }

  /**
   * What refinement towards a target does. At most `left` blocks are measured, and none but
   * the last is on target. The chosen count is that of a last block on target, and otherwise
   * the estimate from the last observation, which repeats its count unless all `left` blocks
   * were used.
   */
  ghost predicate Refined(timer: Timer, target: real, start: Block, first: nat, measured: seq<Block>, chosen: int,
                          left: nat) {
    && |measured| <= left
    && Follows(timer, target, start, first, measured)
    && (forall j :: 0 <= j < |measured| - 1 ==> !OnTarget(measured[j].seconds, target))
    && var last := Observation(start, measured, |measured|);
       if |measured| > 0 && OnTarget(last.seconds, target) then chosen == last.repetitions
       else
         && LeastSufficient(chosen, last.repetitions, last.seconds, target)
         && (|measured| < left ==> chosen == last.repetitions)
  }

  lemma RatioMeansOnTarget(seconds: real, target: real)
    requires target > 0.0
    ensures Accepted(seconds, target) <==> OnTarget(seconds, target)
  {
    var ratio := seconds / target;
    assert ratio * target == seconds;
    ProductCompares(ratio, 0.8, target);
    ProductCompares(ratio, 1.25, target);
  }

  lemma ProductCompares(a: real, b: real, c: real)
    requires c > 0.0
    ensures a * c >= b * c <==> a >= b
    ensures a * c <= b * c <==> a <= b
  {
  }

  lemma Prepend(timer: Timer, target: real, start: Block, first: nat, block: Block, rest: seq<Block>, chosen: int,
                left: nat)
    requires LeastSufficient(block.repetitions, start.repetitions, start.seconds, target)
    requires block.repetitions != start.repetitions && block.seconds == timer(first, block.repetitions)
    requires !OnTarget(block.seconds, target) && Refined(timer, target, block, first + 1, rest, chosen, left)
    ensures Refined(timer, target, start, first, [block] + rest, chosen, left + 1)
  {
    hide LeastSufficient, OnTarget;
    var measured := [block] + rest;
    assert Follows(timer, target, start, first, measured) by {
      forall j | 0 <= j < |measured|
        ensures var before := Observation(start, measured, j);
                && LeastSufficient(measured[j].repetitions, before.repetitions, before.seconds, target)
                && measured[j].repetitions != before.repetitions
                && measured[j].seconds == timer(first + j, measured[j].repetitions)
      {
        if j > 0 {
          assert measured[j] == rest[j - 1];
          assert Observation(start, measured, j) == Observation(block, rest, j - 1);
        }
      }
    }
    assert Observation(start, measured, |measured|) == Observation(block, rest, |rest|);
  }

  lemma {:induction false} RefineIsRefined(timer: Timer, target: real, start: Block, blocks: seq<Block>, left: nat)
    requires target > 0.0
    ensures var choice := Refine(timer, target, start.repetitions, start.seconds, blocks, left);
            && blocks <= choice.blocks
            && Refined(timer, target, start, |blocks|, choice.blocks[|blocks|..], choice.repetitions, left)
    decreases left
  {
    hide EstimatedRepetitions, Accepted, LeastSufficient, OnTarget;
    var choice := Refine(timer, target, start.repetitions, start.seconds, blocks, left);
    var candidate := EstimatedRepetitions(start.repetitions, start.seconds, target);
    EstimateIsLeast(start.repetitions, start.seconds, target);
    if left > 0 && candidate != start.repetitions {
      var block := Block(candidate, timer(|blocks|, candidate));
      RatioMeansOnTarget(block.seconds, target);
      if Accepted(block.seconds, target) {
        assert choice.blocks[|blocks|..] == [block];
      } else {
        RefineIsRefined(timer, target, block, blocks + [block], left - 1);
        var rest := choice.blocks[|blocks| + 1..];
        Prepend(timer, target, start, |blocks|, block, rest, choice.repetitions, left - 1);
        assert choice.blocks[|blocks|..] == [block] + rest;
      }
    } else {
      assert choice.blocks[|blocks|..] == [];
    }
  }

  /**
   * The whole calibration. Without an initial observation one repetition is timed first. For
   * one sample the count is the estimate from that; for more, refinement goes on for at most
   * two blocks towards the share of the target runtime that falls to one sample.
   */
  lemma CalibrationMeaning(config: Config, initialSeconds: Option<real>, timer: Timer)
    requires ValidConfig(config)
    ensures var initial := if initialSeconds.Some? then initialSeconds.value else timer(0, 1);
            var probes := if initialSeconds.Some? then [] else [Block(1, initial)];
            var samples := PlannedSampleCount(config, initial);
            var target := TargetSample(config, samples);
            var choice := Choose(config, initialSeconds, timer);
            && target * samples as real == config.targetRuntime
            && probes <= choice.blocks
            && (samples == 1 ==> choice.blocks == probes && LeastSufficient(choice.repetitions, 1, initial, target))
            && (samples > 1 ==>
                  Refined(timer, target, Block(1, initial), |probes|, choice.blocks[|probes|..], choice.repetitions, 2))
  {
    hide PlannedSampleCount, LeastSufficient, EstimatedRepetitions, Refined, Refine;
    var initial := InitialSeconds(initialSeconds, timer);
    var samples := PlannedSampleCount(config, initial);
    var target := TargetSample(config, samples);
    EstimateIsLeast(1, initial, target);
    RefineIsRefined(timer, target, Block(1, initial), FirstBlocks(initialSeconds, timer), 2);
  }
}
