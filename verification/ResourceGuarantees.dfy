/** What the resource policy guarantees, for every configuration and every history. */
module ResourceGuarantees {
  import opened Prelude
  import opened ResourcePolicy

  // ----- the CPU partition

  lemma DivisionBounds(budget: int, workers: int)
    requires 1 <= workers <= budget
    ensures budget / workers >= 1
    ensures workers * (budget / workers) <= budget < workers * (budget / workers + 1)
  {
  }

  lemma ProductMonotone(a: int, b: int, c: int)
    requires a >= 0 && b <= c
    ensures a * b <= a * c
  {
  }

  /**
   * Workers and cores never oversubscribe the budget nor exceed what was requested, use the
   * budget as far as an automatic core count can, and are stable: applied to its own
   * result the policy changes nothing.
   */
  lemma CpuPartition(workers: Value, cores: Value, processes: int, budget: int)
    requires Requestable(workers) && Requestable(cores) && processes >= 1 && budget >= 1
    ensures var w := WorkersFor(workers, processes, budget); var c := CoresFor(cores, w, budget);
            && 1 <= w <= processes && 1 <= c
            && w * c <= budget
            && (workers.Amount? ==> w <= workers.n) && (cores.Amount? ==> c <= cores.n)
            && (cores == Auto ==> budget < w * (c + 1))
            && WorkersFor(Amount(w), processes, budget) == w
            && CoresFor(Amount(c), w, budget) == c
  {
    var w := WorkersFor(workers, processes, budget);
    var c := CoresFor(cores, w, budget);
    DivisionBounds(budget, w);
    ProductMonotone(w, c, budget / w);
  }

  /** Re-running the licensed policy on its own effective values asks for no clamps. */
  lemma PolicyStable(workers: Value, cores: Value, inputs: Inputs)
    requires Requestable(workers) && Requestable(cores)
    requires !inputs.restricted && inputs.processCount.Some? && ResourceClamps(workers, cores, inputs).Ok?
    ensures var w := WorkersFor(workers, inputs.processCount.value, inputs.Budget());
            w >= 1 &&
            var c := CoresFor(cores, w, inputs.Budget());
            c >= 1 && ResourceClamps(Amount(w), Amount(c), inputs) == Ok([])
  {
    hide WorkersFor, CoresFor;
    CpuPartition(workers, cores, inputs.processCount.value, inputs.Budget());
    var none: seq<Clamp> := [];
    assert none + none == none;
  }

  // ----- the last clamp of a path wins

  lemma HasPrefix(clamps: seq<Clamp>, path: string)
    requires clamps != []
    ensures var last := |clamps| - 1;
            Has(clamps, path) <==> Has(clamps[..last], path) || clamps[last].path == path
  {
  }

  lemma {:induction false} EffectiveIsLast(values: Settings, clamps: seq<Clamp>, path: string)
    requires path in values
    ensures path in Effective(values, clamps)
    ensures Effective(values, clamps)[path]
         == if Has(clamps, path) then Find(clamps, path).effective else values[path]
  {
    if clamps != [] {
      EffectiveIsLast(values, clamps[..|clamps| - 1], path);
      HasPrefix(clamps, path);
    }
  }

  lemma {:induction false} EffectiveDomain(values: Settings, clamps: seq<Clamp>)
    requires AllKnown(values, clamps)
    ensures Effective(values, clamps).Keys == values.Keys
  {
    if clamps != [] {
      EffectiveDomain(values, clamps[..|clamps| - 1]);
    }
  }

  // ----- what the merge keeps

  lemma PreservedAppend(clamps: seq<Clamp>, item: Clamp)
    ensures Preserved(clamps + [item]) == Preserved(clamps) + if IsResource(item.path) then [] else [item]
  {
  }

  lemma {:induction false} KeepPreserves(inherited: seq<Clamp>, policy: seq<Clamp>)
    requires IsPolicy(policy)
    ensures Preserved(KeepOrReplace(inherited, policy)) == Preserved(inherited)
  {
    if inherited != [] {
      var before, item := KeepOrReplace(inherited[..|inherited| - 1], policy), inherited[|inherited| - 1];
      KeepPreserves(inherited[..|inherited| - 1], policy);
      PreservedAppend(before, item);
      if Has(policy, item.path) {
        PreservedAppend(before, Find(policy, item.path));
      }
    }
  }

  lemma {:induction false} AppendPreserves(merged: seq<Clamp>, policy: seq<Clamp>)
    requires IsPolicy(policy)
    ensures Preserved(AppendMissing(merged, policy)) == Preserved(merged)
  {
    if policy != [] {
      AppendPreserves(merged, policy[..|policy| - 1]);
      PreservedAppend(AppendMissing(merged, policy[..|policy| - 1]), policy[|policy| - 1]);
    }
  }

  /** Unrelated clamps survive the merge unchanged and in their order. */
  lemma MergePreserves(inherited: seq<Clamp>, policy: seq<Clamp>)
    requires IsPolicy(policy)
    ensures Preserved(Merged(inherited, policy)) == Preserved(inherited)
  {
    KeepPreserves(inherited, policy);
    AppendPreserves(KeepOrReplace(inherited, policy), policy);
  }

  lemma {:induction false} PreservedFinds(clamps: seq<Clamp>, path: string)
    requires !IsResource(path)
    ensures Has(Preserved(clamps), path) <==> Has(clamps, path)
    ensures Has(clamps, path) ==> Find(Preserved(clamps), path) == Find(clamps, path)
  {
    if clamps != [] {
      var before, item := clamps[..|clamps| - 1], clamps[|clamps| - 1];
      PreservedFinds(before, path);
      HasPrefix(clamps, path);
      HasAppend(Preserved(before), item);
      if IsResource(item.path) {
        assert Preserved(clamps) == Preserved(before);
      } else {
        assert Preserved(clamps)[..|Preserved(before)|] == Preserved(before);
      }
    }
  }

  /** Every resource clamp of a list is the policy's, and no path occurs twice. */
  ghost predicate FromPolicy(merged: seq<Clamp>, policy: seq<Clamp>) {
    && (forall i :: 0 <= i < |merged| && IsResource(merged[i].path) ==>
          Has(policy, merged[i].path) && merged[i] == Find(policy, merged[i].path))
    && (forall i, j :: 0 <= i < j < |merged| && IsResource(merged[i].path) ==> merged[i].path != merged[j].path)
  }

  lemma FromPolicyAppend(merged: seq<Clamp>, policy: seq<Clamp>, item: Clamp)
    requires FromPolicy(merged, policy)
    requires IsResource(item.path) ==>
               Has(policy, item.path) && item == Find(policy, item.path) && !Has(merged, item.path)
    ensures FromPolicy(merged + [item], policy)
  {
  }

  lemma {:induction false} KeepFromPolicy(inherited: seq<Clamp>, policy: seq<Clamp>)
    ensures FromPolicy(KeepOrReplace(inherited, policy), policy)
  {
    if inherited != [] {
      var before, item := KeepOrReplace(inherited[..|inherited| - 1], policy), inherited[|inherited| - 1];
      KeepFromPolicy(inherited[..|inherited| - 1], policy);
      if !IsResource(item.path) {
        FromPolicyAppend(before, policy, item);
      } else if Has(policy, item.path) && !Has(before, item.path) {
        FromPolicyAppend(before, policy, Find(policy, item.path));
      }
    }
  }

  lemma {:induction false} FindUnique(policy: seq<Clamp>, i: nat)
    requires IsPolicy(policy) && i < |policy|
    ensures Has(policy, policy[i].path) && Find(policy, policy[i].path) == policy[i]
  {
  }

  lemma {:induction false} AppendFromPolicy(merged: seq<Clamp>, policy: seq<Clamp>, n: nat)
    requires IsPolicy(policy) && n <= |policy| && FromPolicy(merged, policy)
    ensures FromPolicy(AppendMissing(merged, policy[..n]), policy)
    ensures forall i :: 0 <= i < n ==> Has(AppendMissing(merged, policy[..n]), policy[i].path)
  {
    if n > 0 {
      var before, item := AppendMissing(merged, policy[..n - 1]), policy[n - 1];
      assert policy[..n][..n - 1] == policy[..n - 1];
      AppendFromPolicy(merged, policy, n - 1);
      FindUnique(policy, n - 1);
      HasAppend(before, item);
      if !Has(before, item.path) {
        FromPolicyAppend(before, policy, item);
      }
    }
  }

  /** After the merge the resource clamps are exactly the policy's, each once. */
  lemma MergeFollowsPolicy(inherited: seq<Clamp>, policy: seq<Clamp>)
    requires IsPolicy(policy)
    ensures FromPolicy(Merged(inherited, policy), policy)
    ensures forall path :: IsResource(path) ==> (Has(Merged(inherited, policy), path) <==> Has(policy, path))
  {
    KeepFromPolicy(inherited, policy);
    AppendFromPolicy(KeepOrReplace(inherited, policy), policy, |policy|);
    assert policy[..|policy|] == policy;
  }

  lemma FindInMerged(merged: seq<Clamp>, policy: seq<Clamp>, path: string)
    requires FromPolicy(merged, policy) && IsResource(path) && Has(merged, path)
    ensures Has(policy, path) && Find(merged, path) == Find(policy, path)
  {
  }

  // ----- idempotence of the merge

  lemma {:induction false} KeepStable(merged: seq<Clamp>, policy: seq<Clamp>)
    requires FromPolicy(merged, policy)
    ensures KeepOrReplace(merged, policy) == merged
  {
    if merged != [] {
      var before, item := merged[..|merged| - 1], merged[|merged| - 1];
      KeepStable(before, policy);
      assert merged == before + [item];
      if IsResource(item.path) {
        assert !Has(before, item.path);
      }
    }
  }

  lemma {:induction false} AppendStable(merged: seq<Clamp>, policy: seq<Clamp>)
    requires forall i :: 0 <= i < |policy| ==> Has(merged, policy[i].path)
    ensures AppendMissing(merged, policy) == merged
  {
    if policy != [] {
      AppendStable(merged, policy[..|policy| - 1]);
    }
  }

  lemma MergeIdempotent(inherited: seq<Clamp>, policy: seq<Clamp>)
    requires IsPolicy(policy)
    ensures Merged(Merged(inherited, policy), policy) == Merged(inherited, policy)
  {
    var merged := Merged(inherited, policy);
    MergeFollowsPolicy(inherited, policy);
    KeepStable(merged, policy);
    forall i | 0 <= i < |policy| ensures Has(merged, policy[i].path) {
      assert Has(policy, policy[i].path);
    }
    AppendStable(merged, policy);
  }

  // ----- resolutions

  lemma {:induction false} RequestsOfRecords(values: Settings, clamps: seq<Clamp>)
    requires AllKnown(values, clamps)
    ensures Requests(Records(values, clamps)) == clamps
  {
    if clamps != [] {
      RequestsOfRecords(values, clamps[..|clamps| - 1]);
    }
  }

  lemma PolicyShape(workers: Value, cores: Value, inputs: Inputs)
    requires Requestable(workers) && Requestable(cores)
    ensures var policy := ResourceClamps(workers, cores, inputs);
            policy.Ok? ==> IsPolicy(policy.value)
  {
  }

  lemma {:induction false} PreservedKnown(values: Settings, clamps: seq<Clamp>)
    requires Configured(values)
    ensures AllKnown(values, Preserved(clamps)) <==> AllKnown(values, clamps)
  {
    hide AllKnown;
    if clamps != [] {
      PreservedKnown(values, clamps[..|clamps| - 1]);
      var before, item := Preserved(clamps[..|clamps| - 1]), clamps[|clamps| - 1];
      KnownPrefix(values, clamps);
      if IsResource(item.path) {
        assert Preserved(clamps) == before;
      } else {
        assert Preserved(clamps) == before + [item];
        assert Preserved(clamps)[..|before|] == before;
        KnownPrefix(values, Preserved(clamps));
      }
    }
  }

  lemma KnownPrefix(values: Settings, clamps: seq<Clamp>)
    requires clamps != []
    ensures AllKnown(values, clamps)
       <==> AllKnown(values, clamps[..|clamps| - 1]) && clamps[|clamps| - 1].path in values
  {
  }

  /** A resolution succeeds exactly when the policy does and every inherited clamp is of a
      known field, and then carries the merged clamps. */
  lemma ResolveMeaning(requested: Settings, inherited: seq<Record>, inputs: Inputs)
    requires Configured(requested)
    ensures var policy := ResourceClamps(requested[WORKERS], requested[CORES], inputs);
            var resolution := Resolve(requested, inherited, inputs);
            && (resolution.Ok? <==> policy.Ok? && AllKnown(requested, Requests(inherited)))
            && (resolution.Ok? ==>
                  var merged := Merged(Requests(inherited), policy.value);
                  && IsPolicy(policy.value)
                  && AllKnown(requested, merged)
                  && resolution.value
                     == Resolution(requested, Effective(requested, merged), Records(requested, merged)))
  {
    hide ResourceClamps, Records, Effective, Merged, Preserved;
    var requests := Requests(inherited);
    PreservedLeaveResources(requested, requests);
    PreservedKnown(requested, requests);
    PolicyShape(requested[WORKERS], requested[CORES], inputs);
    var policy := ResourceClamps(requested[WORKERS], requested[CORES], inputs);
    if policy.Ok? {
      MergePreserves(requests, policy.value);
      PreservedKnown(requested, Merged(requests, policy.value));
    }
  }

  // ----- main results about resolution

  /** Resolving a resolution again with the same inputs returns it unchanged. */
  lemma ResolveIdempotent(requested: Settings, inherited: seq<Record>, inputs: Inputs)
    requires Configured(requested)
    requires Resolve(requested, inherited, inputs).Ok?
    ensures var once := Resolve(requested, inherited, inputs);
            Resolve(requested, once.value.clamps, inputs) == once
  {
    hide ResourceClamps, Records, Effective, Merged, Resolve;
    ResolveMeaning(requested, inherited, inputs);
    var once := Resolve(requested, inherited, inputs);
    ResolveMeaning(requested, once.value.clamps, inputs);
    var policy := ResourceClamps(requested[WORKERS], requested[CORES], inputs).value;
    RequestsOfRecords(requested, Merged(Requests(inherited), policy));
    MergeIdempotent(Requests(inherited), policy);
  }

  lemma SameEffective(values: Settings, a: seq<Clamp>, b: seq<Clamp>, policy: seq<Clamp>)
    requires AllKnown(values, a) && AllKnown(values, b)
    requires Preserved(a) == Preserved(b) && FromPolicy(a, policy) && FromPolicy(b, policy)
    requires forall path :: IsResource(path) ==> (Has(a, path) <==> Has(b, path))
    ensures Effective(values, a) == Effective(values, b)
  {
    EffectiveDomain(values, a);
    EffectiveDomain(values, b);
    forall path | path in values
      ensures Effective(values, a)[path] == Effective(values, b)[path]
    {
      EffectiveIsLast(values, a, path);
      EffectiveIsLast(values, b, path);
      if IsResource(path) {
        if Has(a, path) {
          FindInMerged(a, policy, path);
          FindInMerged(b, policy, path);
        }
      } else {
        PreservedFinds(a, path);
        PreservedFinds(b, path);
      }
    }
  }

  /**
   * History does not matter: resolving first with any other inputs and then with the
   * current ones gives the same effective configuration as resolving with the current ones
   * directly. Stale resource clamps leave no trace in it.
   */
  lemma HistoryIndependent(requested: Settings, inherited: seq<Record>, inputs1: Inputs, inputs2: Inputs)
    requires Configured(requested)
    requires Resolve(requested, inherited, inputs1).Ok?
    ensures var first := Resolve(requested, inherited, inputs1).value;
            var direct := Resolve(requested, inherited, inputs2);
            var again := Resolve(requested, first.clamps, inputs2);
            && (again.Ok? <==> direct.Ok?)
            && (again.Ok? ==> again.value.effective == direct.value.effective)
  {
    hide ResourceClamps, Records, Effective, Merged, Resolve, Preserved;
    var first := Resolve(requested, inherited, inputs1).value;
    ResolveMeaning(requested, inherited, inputs1);
    ResolveMeaning(requested, inherited, inputs2);
    ResolveMeaning(requested, first.clamps, inputs2);
    var requests := Requests(inherited);
    var policy1 := ResourceClamps(requested[WORKERS], requested[CORES], inputs1).value;
    var policy2 := ResourceClamps(requested[WORKERS], requested[CORES], inputs2);
    var merged1 := Merged(requests, policy1);
    RequestsOfRecords(requested, merged1);
    if policy2.Ok? {
      MergePreserves(requests, policy1);
      MergePreserves(requests, policy2.value);
      MergePreserves(merged1, policy2.value);
      MergeFollowsPolicy(requests, policy2.value);
      MergeFollowsPolicy(merged1, policy2.value);
      SameEffective(requested, Merged(merged1, policy2.value), Merged(requests, policy2.value), policy2.value);
    }
  }

  /** Policies have the shape of an optional worker clamp followed by an optional core clamp. */
  function Pair(workers: Option<Clamp>, cores: Option<Clamp>): seq<Clamp> {
    AppendOption(AppendOption([], workers), cores)
  }

  function AppendOption(clamps: seq<Clamp>, item: Option<Clamp>): seq<Clamp> {
    if item.Some? then clamps + [item.value] else clamps
  }

  predicate ClampOf(item: Option<Clamp>, path: string) {
    item.Some? ==> item.value.path == path
  }

  lemma PairHas(w: Option<Clamp>, c: Option<Clamp>)
    requires ClampOf(w, WORKERS) && ClampOf(c, CORES)
    ensures Has(Pair(w, c), WORKERS) <==> w.Some?
    ensures Has(Pair(w, c), CORES) <==> c.Some?
    ensures w.Some? ==> Find(Pair(w, c), WORKERS) == w.value
    ensures c.Some? ==> Find(Pair(w, c), CORES) == c.value
  {
    assert WORKERS != CORES;
    var first := AppendOption([], w);
    if w.Some? {
      assert first[0].path == WORKERS;
      assert Pair(w, c)[0].path == WORKERS;
    }
    if c.Some? {
      assert Pair(w, c)[|first|].path == CORES;
      assert Pair(w, c)[..|first|] == first;
    }
  }

  /** The value a policy gives to a field, clamped or not. */
  function Given(policy: seq<Clamp>, path: string, requested: Value): Value {
    if Has(policy, path) then Find(policy, path).effective else requested
  }

  lemma PairValues(a: seq<Clamp>, b: seq<Clamp>, workers: Value, cores: Value, w: int, c: int, r1: string, r2: string)
    requires a == Change(WORKERS, workers, w, r1) && b == Change(CORES, cores, c, r2)
    ensures Given(a + b, WORKERS, workers) == Amount(w) && Given(a + b, CORES, cores) == Amount(c)
  {
    hide Has, Find;
    var first := if a == [] then None else Some(a[0]);
    var second := if b == [] then None else Some(b[0]);
    assert a + b == Pair(first, second);
    PairHas(first, second);
  }

  lemma PolicyValues(workers: Value, cores: Value, inputs: Inputs)
    requires Requestable(workers) && Requestable(cores)
    requires ResourceClamps(workers, cores, inputs).Ok?
    ensures var policy := ResourceClamps(workers, cores, inputs).value;
            if inputs.restricted then
              Given(policy, WORKERS, workers) == Amount(1) && Given(policy, CORES, cores) == Amount(1)
            else if inputs.processCount.None? then policy == []
            else
              var w := WorkersFor(workers, inputs.processCount.value, inputs.Budget());
              && w >= 1
              && Given(policy, WORKERS, workers) == Amount(w)
              && Given(policy, CORES, cores) == Amount(CoresFor(cores, w, inputs.Budget()))
  {
    if inputs.restricted {
      PairValues(Change(WORKERS, workers, 1, ONE_WORKER), Change(CORES, cores, 1, ONE_CORE), workers, cores, 1, 1,
                 ONE_WORKER, ONE_CORE);
    } else if inputs.processCount.Some? {
      hide Given;
      var w := WorkersFor(workers, inputs.processCount.value, inputs.Budget());
      var c := CoresFor(cores, w, inputs.Budget());
      PairValues(Change(WORKERS, workers, w, SHARED_WORKERS), Change(CORES, cores, c, SHARED_CORES), workers, cores,
                 w, c, SHARED_WORKERS, SHARED_CORES);
    }
  }

  /** The effective resources of a successful resolution are the partition, one worker and
      one core in restricted mode, or the request when the process count is still unknown. */
  lemma EffectiveResources(requested: Settings, inherited: seq<Record>, inputs: Inputs)
    requires Configured(requested)
    requires Resolve(requested, inherited, inputs).Ok?
    ensures var effective := Resolve(requested, inherited, inputs).value.effective;
            && WORKERS in effective && CORES in effective
            && (if inputs.restricted then effective[WORKERS] == Amount(1) && effective[CORES] == Amount(1)
                else if inputs.processCount.None? then
                  effective[WORKERS] == requested[WORKERS] && effective[CORES] == requested[CORES]
                else
                  var w := WorkersFor(requested[WORKERS], inputs.processCount.value, inputs.Budget());
                  && w >= 1
                  && effective[WORKERS] == Amount(w)
                  && effective[CORES] == Amount(CoresFor(requested[CORES], w, inputs.Budget())))
  {
    hide Records, Effective, Merged, Resolve, Preserved, WorkersFor, CoresFor, Find, Has;
    ResolveMeaning(requested, inherited, inputs);
    var policy := ResourceClamps(requested[WORKERS], requested[CORES], inputs).value;
    var merged := Merged(Requests(inherited), policy);
    EffectiveIsLast(requested, merged, WORKERS);
    EffectiveIsLast(requested, merged, CORES);
    MergeFollowsPolicy(Requests(inherited), policy);
    if Has(merged, WORKERS) {
      FindInMerged(merged, policy, WORKERS);
    }
    if Has(merged, CORES) {
      FindInMerged(merged, policy, CORES);
    }
    PolicyValues(requested[WORKERS], requested[CORES], inputs);
  }
}
