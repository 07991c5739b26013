/**
 * The licence-dependent resource policy: one CPU budget shared between generation workers
 * and evaluator cores, and the merge of its clamps into an already resolved configuration.
 */
module ResourcePolicy {
  import opened Prelude

  const WORKERS := "generation.workers"
  const CORES := "evaluator.optimization.cores"

  const ONE_WORKER := "Symbolica restricted mode permits one generation instance"
  const ONE_CORE := "Symbolica restricted mode permits one Symbolica core"
  const SHARED_WORKERS := "shared affinity-aware CPU budget for concurrent process generation"
  const SHARED_CORES := "shared affinity-aware CPU budget for Symbolica evaluator work"

  /** A configuration value; only the two resource fields are computed with. */
  datatype Value = Auto | Amount(n: int) | Other(text: string)

  type Settings = map<string, Value>

  datatype Clamp = Clamp(path: string, effective: Value, reason: string)

  datatype Record = Record(path: string, requested: Value, effective: Value, reason: string)

  datatype Resolution = Resolution(requested: Settings, effective: Settings, clamps: seq<Record>)

  /** A detected CPU count is at least one. */
  type Cpus = n: int | 1 <= n witness 1

  /** What a resolution depends on besides the request: the licence, an explicit budget or the
      CPU count detected at the call, and the process count when it is known. */
  datatype Inputs = Inputs(restricted: bool, cpuBudget: Option<int>, detected: Cpus, processCount: Option<int>)
  {
    function Budget(): int {
      if cpuBudget.Some? then cpuBudget.value else detected
    }
  }

  datatype PolicyError = InvalidBudget | InvalidProcessCount | MissingField

  predicate IsResource(path: string) {
    path == WORKERS || path == CORES
  }

  // ----- the policy

  function WorkersFor(requested: Value, processes: int, budget: int): int {
    if requested.Amount? then Min(Min(requested.n, processes), budget) else Min(processes, budget)
  }

  function CoresFor(requested: Value, workers: int, budget: int): int
    requires workers >= 1
  {
    var share := Max(1, budget / workers);
    if requested.Amount? then Min(requested.n, share) else share
  }

  /** A clamp when the value has to change, and nothing otherwise. */
  function Change(path: string, requested: Value, effective: int, reason: string): seq<Clamp> {
    if requested == Amount(effective) then [] else [Clamp(path, Amount(effective), reason)]
  }

  /** Resource fields are `auto` or a positive amount in every valid configuration. */
  predicate Requestable(v: Value) {
    v == Auto || (v.Amount? && v.n >= 1)
  }

  function ResourceClamps(workers: Value, cores: Value, inputs: Inputs): Result<seq<Clamp>, PolicyError>
    requires Requestable(workers) && Requestable(cores)
  {
    if inputs.cpuBudget.Some? && inputs.cpuBudget.value < 1 then Err(InvalidBudget)
    else if inputs.processCount.Some? && inputs.processCount.value < 1 then Err(InvalidProcessCount)
    else if inputs.restricted then Ok(Change(WORKERS, workers, 1, ONE_WORKER) + Change(CORES, cores, 1, ONE_CORE))
    else if inputs.processCount.None? then Ok([])
    else
      var w := WorkersFor(workers, inputs.processCount.value, inputs.Budget());
      var c := CoresFor(cores, w, inputs.Budget());
      Ok(Change(WORKERS, workers, w, SHARED_WORKERS) + Change(CORES, cores, c, SHARED_CORES))
  }

  // ----- resolution of a configuration with clamps

  /** The settings after the clamps, the last clamp of a path winning. */
  function Effective(values: Settings, clamps: seq<Clamp>): Settings {
    if clamps == [] then values
    else
      var last := |clamps| - 1;
      Effective(values, clamps[..last])[clamps[last].path := clamps[last].effective]
  }

  /** The recorded clamps, each with the value it replaced. */
  function Records(values: Settings, clamps: seq<Clamp>): seq<Record>
    requires forall i :: 0 <= i < |clamps| ==> clamps[i].path in values
  {
    if clamps == [] then []
    else
      var last := |clamps| - 1;
      var before := Effective(values, clamps[..last]);
      EffectiveKeys(values, clamps[..last]);
      Records(values, clamps[..last])
      + [Record(clamps[last].path, before[clamps[last].path], clamps[last].effective, clamps[last].reason)]
  }

  lemma {:induction false} EffectiveKeys(values: Settings, clamps: seq<Clamp>)
    ensures forall path :: path in values ==> path in Effective(values, clamps)
  {
    if clamps != [] {
      EffectiveKeys(values, clamps[..|clamps| - 1]);
    }
  }

  predicate AllKnown(values: Settings, clamps: seq<Clamp>) {
    forall i :: 0 <= i < |clamps| ==> clamps[i].path in values
  }

  function ResolveConfig(values: Settings, clamps: seq<Clamp>): Result<Resolution, PolicyError> {
    if AllKnown(values, clamps) then Ok(Resolution(values, Effective(values, clamps), Records(values, clamps)))
    else Err(MissingField)
  }

  // ----- the merge

  function Request(record: Record): Clamp {
    Clamp(record.path, record.effective, record.reason)
  }

  function Requests(records: seq<Record>): (r: seq<Clamp>)
    ensures |r| == |records| && forall i :: 0 <= i < |r| ==> r[i] == Request(records[i])
  {
    seq(|records|, i requires 0 <= i < |records| => Request(records[i]))
  }

  /** Whether some clamp has the given path. */
  predicate Has(clamps: seq<Clamp>, path: string) {
    exists i :: 0 <= i < |clamps| && clamps[i].path == path
  }

  /** The last clamp with the given path. */
  function Find(clamps: seq<Clamp>, path: string): (c: Clamp)
    requires Has(clamps, path)
    ensures c in clamps && c.path == path
  {
    if clamps[|clamps| - 1].path == path then clamps[|clamps| - 1] else Find(clamps[..|clamps| - 1], path)
  }

  /** The clamps kept from the inherited ones, with resource clamps replaced in place by
      the current policy's, each at its first occurrence. */
  function KeepOrReplace(inherited: seq<Clamp>, policy: seq<Clamp>): seq<Clamp> {
    if inherited == [] then []
    else
      var last := |inherited| - 1;
      var before := KeepOrReplace(inherited[..last], policy);
      var item := inherited[last];
      if !IsResource(item.path) then before + [item]
      else if Has(policy, item.path) && !Has(before, item.path) then before + [Find(policy, item.path)]
      else before
  }

  /** The remaining policy clamps appended in policy order. */
  function AppendMissing(merged: seq<Clamp>, policy: seq<Clamp>): seq<Clamp> {
    if policy == [] then merged
    else
      var before := AppendMissing(merged, policy[..|policy| - 1]);
      var item := policy[|policy| - 1];
      if Has(before, item.path) then before else before + [item]
  }

  function Merged(inherited: seq<Clamp>, policy: seq<Clamp>): seq<Clamp> {
    AppendMissing(KeepOrReplace(inherited, policy), policy)
  }

  /** Policy clamps concern resource fields only, each at most once. */
  predicate IsPolicy(policy: seq<Clamp>) {
    && (forall i :: 0 <= i < |policy| ==> IsResource(policy[i].path))
    && (forall i, j :: 0 <= i < j < |policy| ==> policy[i].path != policy[j].path)
  }

  /** The two merging loops with their running list and set of emitted paths. */
  method MergeClamps(inherited: seq<Record>, policy: seq<Clamp>) returns (merged: seq<Clamp>)
    requires IsPolicy(policy)
    ensures merged == Merged(Requests(inherited), policy)
  {
    hide Has, Find;
    forall path ensures !Has([], path) {
      EmptyHas(path);
    }
    var requests := Requests(inherited);
    var replacements: map<string, Clamp> := map[];
    for i := 0 to |policy|
      invariant forall path :: path in replacements <==> Has(policy[..i], path)
      invariant forall path :: path in replacements ==> replacements[path] == Find(policy[..i], path)
    {
      assert policy[..i + 1][..i] == policy[..i];
      ReplacementAdded(policy, i, replacements);
      replacements := replacements[policy[i].path := policy[i]];
    }
    assert policy[..|policy|] == policy;
    merged := [];
    var emitted: set<string> := {};
    for i := 0 to |inherited|
      invariant merged == KeepOrReplace(requests[..i], policy)
      invariant forall path :: IsResource(path) ==> (path in emitted <==> Has(merged, path))
    {
      assert requests[..i + 1][..i] == requests[..i];
      var item := inherited[i];
      if IsResource(item.path) {
        if item.path in replacements && item.path !in emitted {
          HasAppend(merged, replacements[item.path]);
          merged := merged + [replacements[item.path]];
          emitted := emitted + {item.path};
        }
      } else {
        HasAppend(merged, Request(item));
        merged := merged + [Request(item)];
      }
    }
    assert requests[..|inherited|] == requests;
    ghost var kept := merged;
    for i := 0 to |policy|
      invariant merged == AppendMissing(kept, policy[..i])
      invariant forall path :: IsResource(path) ==> (path in emitted <==> Has(merged, path))
    {
      assert policy[..i + 1][..i] == policy[..i];
      if policy[i].path !in emitted {
        HasAppend(merged, policy[i]);
        merged := merged + [policy[i]];
        emitted := emitted + {policy[i].path};
      }
    }
  }

  lemma EmptyHas(path: string)
    ensures !Has([], path)
  {
  }

  lemma HasAppend(clamps: seq<Clamp>, item: Clamp)
    ensures forall path :: Has(clamps + [item], path) <==> Has(clamps, path) || path == item.path
  {
    var longer := clamps + [item];
    forall path | Has(clamps, path) || path == item.path ensures Has(longer, path) {
      if path == item.path {
        assert longer[|clamps|].path == path;
      } else {
        var i :| 0 <= i < |clamps| && clamps[i].path == path;
        assert longer[i].path == path;
      }
    }
  }

  lemma ReplacementAdded(policy: seq<Clamp>, i: nat, replacements: map<string, Clamp>)
    requires i < |policy|
    requires forall path :: path in replacements <==> Has(policy[..i], path)
    requires forall path :: path in replacements ==> replacements[path] == Find(policy[..i], path)
    ensures var next := replacements[policy[i].path := policy[i]];
            && (forall path :: path in next <==> Has(policy[..i + 1], path))
            && (forall path :: path in next ==> next[path] == Find(policy[..i + 1], path))
  {
    assert policy[..i + 1] == policy[..i] + [policy[i]];
    HasAppend(policy[..i], policy[i]);
    assert policy[..i + 1][..i] == policy[..i];
  }

  /** Resource policy for a resolved or fresh configuration, recomputed from its request. */
  function Resolve(requested: Settings, inherited: seq<Record>, inputs: Inputs): Result<Resolution, PolicyError>
    requires Configured(requested)
  {
    match ResolveConfig(requested, Preserved(Requests(inherited)))
    case Err(e) => Err(e)
    case Ok(base) =>
      PreservedLeaveResources(requested, Requests(inherited));
      match ResourceClamps(base.effective[WORKERS], base.effective[CORES], inputs)
      case Err(e) => Err(e)
      case Ok(policy) => ResolveConfig(requested, Merged(Requests(inherited), policy))
  }

  predicate Configured(requested: Settings) {
    && WORKERS in requested && Requestable(requested[WORKERS])
    && CORES in requested && Requestable(requested[CORES])
  }

  function Preserved(clamps: seq<Clamp>): seq<Clamp> {
    if clamps == [] then []
    else
      var item := clamps[|clamps| - 1];
      Preserved(clamps[..|clamps| - 1]) + if IsResource(item.path) then [] else [item]
  }

  lemma {:induction false} PreservedLeaveResources(values: Settings, clamps: seq<Clamp>)
    requires Configured(values)
    ensures WORKERS in Effective(values, Preserved(clamps)) && CORES in Effective(values, Preserved(clamps))
    ensures Effective(values, Preserved(clamps))[WORKERS] == values[WORKERS]
    ensures Effective(values, Preserved(clamps))[CORES] == values[CORES]
  {
    if clamps != [] {
      var before, item := Preserved(clamps[..|clamps| - 1]), clamps[|clamps| - 1];
      PreservedLeaveResources(values, clamps[..|clamps| - 1]);
      if IsResource(item.path) {
        assert Preserved(clamps) == before;
      } else {
        assert Preserved(clamps)[..|before|] == before;
      }
    }
  }
}
