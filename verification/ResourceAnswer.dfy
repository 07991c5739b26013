/** What a resolution answers: its errors, its effective resources and its resource records. */
module ResourceAnswer {
  import opened Prelude
  import opened ResourcePolicy
  import opened ResourceGuarantees

  /** A count of workers within the process count, the budget and a request. */
  predicate FitsWorkers(w: int, request: Value, processes: int, budget: int) {
    w <= processes && w <= budget && (request.Amount? ==> w <= request.n)
  }

  /** A count of cores per worker within the budget and a request. */
  predicate FitsCores(c: int, request: Value, workers: int, budget: int) {
    workers * c <= budget && (request.Amount? ==> c <= request.n)
  }

  ghost predicate LargestWorkers(w: int, request: Value, processes: int, budget: int) {
    && w >= 1 && FitsWorkers(w, request, processes, budget)
    && forall v :: FitsWorkers(v, request, processes, budget) ==> v <= w
  }

  ghost predicate LargestCores(c: int, request: Value, workers: int, budget: int) {
    && c >= 1 && FitsCores(c, request, workers, budget)
    && forall d :: FitsCores(d, request, workers, budget) ==> d <= c
  }

  lemma PartitionIsLargest(workers: Value, cores: Value, processes: int, budget: int)
    requires Requestable(workers) && Requestable(cores) && processes >= 1 && budget >= 1
    ensures var w := WorkersFor(workers, processes, budget);
            LargestWorkers(w, workers, processes, budget) && LargestCores(CoresFor(cores, w, budget), cores, w, budget)
  {
    var w := WorkersFor(workers, processes, budget);
    var c := CoresFor(cores, w, budget);
    CpuPartition(workers, cores, processes, budget);
    DivisionBounds(budget, w);
    forall d | FitsCores(d, cores, w, budget) ensures d <= c {
      if d > budget / w {
        ProductMonotone(w, budget / w + 1, d);
      }
    }
  }

  /** One worker and one core in restricted mode, the request while the process count is
      unknown, and otherwise the largest workers and then the largest cores. */
  ghost predicate Shared(requested: Settings, inputs: Inputs, effective: Settings)
    requires Configured(requested)
  {
    && WORKERS in effective && CORES in effective
    && if inputs.restricted then effective[WORKERS] == Amount(1) && effective[CORES] == Amount(1)
       else if inputs.processCount.None? then
         effective[WORKERS] == requested[WORKERS] && effective[CORES] == requested[CORES]
       else
         var budget := if inputs.cpuBudget.Some? then inputs.cpuBudget.value else inputs.detected;
         && effective[WORKERS].Amount? && effective[CORES].Amount?
         && LargestWorkers(effective[WORKERS].n, requested[WORKERS], inputs.processCount.value, budget)
         && LargestCores(effective[CORES].n, requested[CORES], effective[WORKERS].n, budget)
  }

  /** A changed field has a record of the change with its reason, an unchanged one has none. */
  ghost predicate Recorded(requested: Settings, effective: Settings, records: seq<Record>, path: string, reason: string)
    requires path in requested && path in effective
  {
    && (effective[path] != requested[path] <==> exists i :: 0 <= i < |records| && records[i].path == path)
    && forall i :: 0 <= i < |records| && records[i].path == path ==>
         records[i] == Record(path, requested[path], effective[path], reason)
  }

  /** The two fields the policy concerns. */
  lemma ResourceFields(path: string)
    ensures IsResource(path) <==> path in {"generation.workers", "evaluator.optimization.cores"}
    ensures WORKERS == "generation.workers" && CORES == "evaluator.optimization.cores"
  {
  }

  // ----- records

  lemma {:induction false} RecordAt(values: Settings, clamps: seq<Clamp>, i: nat)
    requires AllKnown(values, clamps) && i < |clamps|
    ensures |Records(values, clamps)| == |clamps|
    ensures clamps[i].path in Effective(values, clamps[..i])
    ensures Records(values, clamps)[i]
         == Record(clamps[i].path, Effective(values, clamps[..i])[clamps[i].path], clamps[i].effective,
                   clamps[i].reason)
  {
    var last := |clamps| - 1;
    EffectiveKeys(values, clamps[..i]);
    RecordsLength(values, clamps[..last]);
    if i < last {
      RecordAt(values, clamps[..last], i);
      assert clamps[..last][..i] == clamps[..i];
    }
  }

  lemma {:induction false} RecordsLength(values: Settings, clamps: seq<Clamp>)
    requires AllKnown(values, clamps)
    ensures |Records(values, clamps)| == |clamps|
  {
    if clamps != [] {
      RecordsLength(values, clamps[..|clamps| - 1]);
    }
  }

  /** The reason a policy clamp carries. */
  function ReasonFor(restricted: bool, path: string): string {
    if restricted then
      if path == WORKERS then "Symbolica restricted mode permits one generation instance"
      else "Symbolica restricted mode permits one Symbolica core"
    else if path == WORKERS then "shared affinity-aware CPU budget for concurrent process generation"
    else "shared affinity-aware CPU budget for Symbolica evaluator work"
  }

  lemma PolicyReasons(workers: Value, cores: Value, inputs: Inputs, path: string)
    requires Requestable(workers) && Requestable(cores) && IsResource(path)
    requires ResourceClamps(workers, cores, inputs).Ok?
    ensures var policy := ResourceClamps(workers, cores, inputs).value;
            forall i :: 0 <= i < |policy| && policy[i].path == path ==>
              && policy[i].reason == ReasonFor(inputs.restricted, path)
              && policy[i].effective != if path == WORKERS then workers else cores
  {
    assert WORKERS != CORES;
  }

  lemma FieldRecorded(requested: Settings, merged: seq<Clamp>, policy: seq<Clamp>, inputs: Inputs, path: string)
    requires Configured(requested) && AllKnown(requested, merged) && IsResource(path)
    requires ResourceClamps(requested[WORKERS], requested[CORES], inputs) == Ok(policy)
    requires FromPolicy(merged, policy) && (Has(merged, path) <==> Has(policy, path))
    ensures path in Effective(requested, merged)
    ensures Recorded(requested, Effective(requested, merged), Records(requested, merged), path,
                     ReasonFor(inputs.restricted, path))
  {
    hide ResourceClamps, Records, Effective, ReasonFor;
    EffectiveIsLast(requested, merged, path);
    RecordsLength(requested, merged);
    PolicyReasons(requested[WORKERS], requested[CORES], inputs, path);
    var records := Records(requested, merged);
    forall i: nat | i < |merged| ensures records[i].path == merged[i].path {
      RecordAt(requested, merged, i);
    }
    forall i: nat | i < |merged| && merged[i].path == path
      ensures records[i] == Record(path, requested[path], Effective(requested, merged)[path],
                                   ReasonFor(inputs.restricted, path))
      ensures Effective(requested, merged)[path] != requested[path]
    {
      RecordAt(requested, merged, i);
      assert Has(merged, path);
      FindInMerged(merged, policy, path);
      assert !Has(merged[..i], path);
      EffectiveIsLast(requested, merged[..i], path);
      assert merged[i] == Find(policy, path);
    }
    if Has(merged, path) {
      var i :| 0 <= i < |merged| && merged[i].path == path;
      assert records[i].path == path;
    }
  }

  // ----- the answer

  /**
   * A resolution fails for an inherited clamp of an unknown field, else for a budget below
   * one, else for a process count below one. Otherwise its effective resources are the
   * largest shared ones, and its records name exactly the changed resource fields, with what
   * was requested, what became effective and why.
   */
  lemma ResolutionAnswer(requested: Settings, inherited: seq<Record>, inputs: Inputs)
    requires Configured(requested)
    ensures var resolution := Resolve(requested, inherited, inputs);
            if exists i :: 0 <= i < |inherited| && inherited[i].path !in requested then resolution == Err(MissingField)
            else if inputs.cpuBudget.Some? && inputs.cpuBudget.value < 1 then resolution == Err(InvalidBudget)
            else if inputs.processCount.Some? && inputs.processCount.value < 1 then
              resolution == Err(InvalidProcessCount)
            else
              && resolution.Ok? && resolution.value.requested == requested
              && Shared(requested, inputs, resolution.value.effective)
              && forall path :: IsResource(path) ==>
                   Recorded(requested, resolution.value.effective, resolution.value.clamps, path,
                            ReasonFor(inputs.restricted, path))
  {
    hide Records, Effective, Merged, Recorded, Shared, Resolve, ReasonFor;
    var requests := Requests(inherited);
    ResolveMeaning(requested, inherited, inputs);
    Failures(requested, inherited, inputs);
    if Resolve(requested, inherited, inputs).Ok? {
      var policy := ResourceClamps(requested[WORKERS], requested[CORES], inputs).value;
      var merged := Merged(requests, policy);
      MergeFollowsPolicy(requests, policy);
      SharedResources(requested, inherited, inputs);
      forall path | IsResource(path)
        ensures path in Effective(requested, merged)
        ensures Recorded(requested, Effective(requested, merged), Records(requested, merged), path,
                         ReasonFor(inputs.restricted, path))
      {
        FieldRecorded(requested, merged, policy, inputs, path);
      }
    }
  }

  lemma Failures(requested: Settings, inherited: seq<Record>, inputs: Inputs)
    requires Configured(requested)
    ensures var resolution := Resolve(requested, inherited, inputs);
            if exists i :: 0 <= i < |inherited| && inherited[i].path !in requested then resolution == Err(MissingField)
            else if inputs.cpuBudget.Some? && inputs.cpuBudget.value < 1 then resolution == Err(InvalidBudget)
            else if inputs.processCount.Some? && inputs.processCount.value < 1 then
              resolution == Err(InvalidProcessCount)
            else resolution.Ok?
  {
    hide Records, Effective, Merged, Preserved;
    ResolveMeaning(requested, inherited, inputs);
    PreservedLeaveResources(requested, Requests(inherited));
    PreservedKnown(requested, Requests(inherited));
    assert AllKnown(requested, Requests(inherited))
      <==> forall i :: 0 <= i < |inherited| ==> inherited[i].path in requested;
  }

  lemma SharedResources(requested: Settings, inherited: seq<Record>, inputs: Inputs)
    requires Configured(requested) && Resolve(requested, inherited, inputs).Ok?
    ensures Shared(requested, inputs, Resolve(requested, inherited, inputs).value.effective)
  {
    hide Resolve, WorkersFor, CoresFor;
    EffectiveResources(requested, inherited, inputs);
    ResolveMeaning(requested, inherited, inputs);
    if !inputs.restricted && inputs.processCount.Some? {
      PartitionIsLargest(requested[WORKERS], requested[CORES], inputs.processCount.value, inputs.Budget());
    }
  }
}
