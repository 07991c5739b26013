/**
 * The order in which resource clamps are recorded, and exactly when it remembers an earlier
 * resolution.
 */
module ClampOrder {
  import opened Prelude
  import opened ResourcePolicy
  import opened ResourceGuarantees

  // ----- where the resource clamps of a list stand

  /** The number of unrelated clamps recorded before the first clamp of a resource path, or
      of all of them when there is none. */
  function Slot(clamps: seq<Clamp>, path: string): nat {
    if clamps == [] then 0
    else
      var last := |clamps| - 1;
      if Has(clamps[..last], path) || clamps[last].path == path then Slot(clamps[..last], path)
      else |Preserved(clamps)|
  }

  /** A core clamp comes before any worker clamp. */
  predicate CoresFirst(clamps: seq<Clamp>) {
    if clamps == [] then false
    else
      var last := |clamps| - 1;
      if Has(clamps[..last], WORKERS) || Has(clamps[..last], CORES) then CoresFirst(clamps[..last])
      else clamps[last].path == CORES
  }

  /** Policies list a worker clamp before a core clamp. */
  predicate InOrder(policy: seq<Clamp>) {
    IsPolicy(policy) && (Has(policy, WORKERS) ==> !CoresFirst(policy))
  }

  lemma ExtendView(clamps: seq<Clamp>, item: Clamp)
    ensures var longer := clamps + [item];
            && (forall path :: Has(longer, path) <==> Has(clamps, path) || item.path == path)
            && Preserved(longer) == Preserved(clamps) + (if IsResource(item.path) then [] else [item])
            && (forall path :: Slot(longer, path) == if Has(clamps, path) || item.path == path then Slot(clamps, path)
                                                     else |Preserved(longer)|)
            && CoresFirst(longer) == (if Has(clamps, WORKERS) || Has(clamps, CORES) then CoresFirst(clamps)
                                      else item.path == CORES)
  {
    HasAppend(clamps, item);
    assert (clamps + [item])[..|clamps|] == clamps;
  }

  /** Absent clamps stand at the end, present ones within the list. */
  lemma {:induction false} SlotRange(clamps: seq<Clamp>, path: string)
    ensures Slot(clamps, path) <= |Preserved(clamps)|
    ensures !Has(clamps, path) ==> Slot(clamps, path) == |Preserved(clamps)|
  {
    if clamps != [] {
      var before := clamps[..|clamps| - 1];
      SlotRange(before, path);
      assert clamps == before + [clamps[|clamps| - 1]];
      ExtendView(before, clamps[|clamps| - 1]);
    }
  }

  lemma {:induction false} FirstOfOne(clamps: seq<Clamp>)
    ensures !Has(clamps, CORES) ==> !CoresFirst(clamps)
    ensures Has(clamps, CORES) && !Has(clamps, WORKERS) ==> CoresFirst(clamps)
  {
    if clamps != [] {
      var before := clamps[..|clamps| - 1];
      FirstOfOne(before);
      assert clamps == before + [clamps[|clamps| - 1]];
      ExtendView(before, clamps[|clamps| - 1]);
    }
  }

  // ----- where a merge puts them

  lemma {:induction false} KeepHas(inherited: seq<Clamp>, policy: seq<Clamp>, path: string)
    requires IsResource(path)
    ensures Has(KeepOrReplace(inherited, policy), path) <==> Has(inherited, path) && Has(policy, path)
  {
    if inherited != [] {
      var before, item := inherited[..|inherited| - 1], inherited[|inherited| - 1];
      KeepHas(before, policy, path);
      assert inherited == before + [item];
      HasAppend(before, item);
      HasAppend(KeepOrReplace(before, policy), item);
      if Has(policy, item.path) {
        HasAppend(KeepOrReplace(before, policy), Find(policy, item.path));
      }
    }
  }

  lemma {:induction false} KeepSlot(inherited: seq<Clamp>, policy: seq<Clamp>, path: string)
    requires IsPolicy(policy) && IsResource(path) && Has(KeepOrReplace(inherited, policy), path)
    ensures Slot(KeepOrReplace(inherited, policy), path) == Slot(inherited, path)
  {
    hide Has, Find, Slot, CoresFirst, Preserved, IsResource;
    EmptyHas(path);
    if inherited != [] {
      var before, item := inherited[..|inherited| - 1], inherited[|inherited| - 1];
      var kept := KeepOrReplace(before, policy);
      assert inherited == before + [item];
      ExtendView(before, item);
      ExtendView(kept, item);
      if Has(policy, item.path) {
        ExtendView(kept, Find(policy, item.path));
      }
      KeepHas(before, policy, path);
      KeepPreserves(before, policy);
      if Has(kept, path) {
        KeepSlot(before, policy, path);
      } else {
        SlotRange(before, path);
        SlotRange(kept, path);
      }
    }
  }

  lemma {:induction false} KeepFirst(inherited: seq<Clamp>, policy: seq<Clamp>)
    requires Has(KeepOrReplace(inherited, policy), WORKERS) && Has(KeepOrReplace(inherited, policy), CORES)
    ensures CoresFirst(KeepOrReplace(inherited, policy)) <==> CoresFirst(inherited)
  {
    hide Has, Find, Slot, CoresFirst, Preserved;
    EmptyHas(WORKERS);
    if inherited != [] {
      var before, item := inherited[..|inherited| - 1], inherited[|inherited| - 1];
      var kept := KeepOrReplace(before, policy);
      assert inherited == before + [item];
      ExtendView(before, item);
      ExtendView(kept, item);
      if Has(policy, item.path) {
        ExtendView(kept, Find(policy, item.path));
      }
      KeepHas(before, policy, WORKERS);
      KeepHas(before, policy, CORES);
      KeepHas(inherited, policy, WORKERS);
      KeepHas(inherited, policy, CORES);
      if Has(kept, WORKERS) && Has(kept, CORES) {
        KeepFirst(before, policy);
      } else {
        FirstOfOne(before);
        FirstOfOne(kept);
      }
    }
  }

  lemma {:induction false} AppendPlaces(merged: seq<Clamp>, policy: seq<Clamp>, path: string)
    requires IsPolicy(policy) && IsResource(path)
    ensures var all := AppendMissing(merged, policy);
            && (Has(all, path) <==> Has(merged, path) || Has(policy, path))
            && Slot(all, path) == Slot(merged, path)
  {
    hide Has, Slot, Preserved, IsPolicy;
    EmptyHas(path);
    if policy != [] {
      var before, item := policy[..|policy| - 1], policy[|policy| - 1];
      ShorterPolicy(policy);
      AppendPlaces(merged, before, path);
      AppendPreserves(merged, before);
      assert policy == before + [item];
      ExtendView(before, item);
      ExtendView(AppendMissing(merged, before), item);
      SlotRange(AppendMissing(merged, before), path);
    }
  }

  lemma ShorterPolicy(policy: seq<Clamp>)
    requires IsPolicy(policy) && policy != []
    ensures IsPolicy(policy[..|policy| - 1]) && IsResource(policy[|policy| - 1].path)
  {
  }

  lemma {:induction false} AppendFirst(merged: seq<Clamp>, policy: seq<Clamp>)
    requires IsPolicy(policy)
    ensures CoresFirst(AppendMissing(merged, policy))
         == if Has(merged, WORKERS) || Has(merged, CORES) then CoresFirst(merged) else CoresFirst(policy)
  {
    hide Has, Slot, Preserved, IsPolicy, CoresFirst;
    FirstOfOne([]);
    EmptyHas(CORES);
    FirstOfOne(merged);
    if policy != [] {
      var before, item := policy[..|policy| - 1], policy[|policy| - 1];
      ShorterPolicy(policy);
      AppendFirst(merged, before);
      AppendPlaces(merged, before, WORKERS);
      AppendPlaces(merged, before, CORES);
      assert policy == before + [item];
      ExtendView(before, item);
      ExtendView(AppendMissing(merged, before), item);
    }
  }

  /** Where a merge leaves the policy's clamps: those of an inherited path where it stood,
      the others at the end. */
  lemma MergePlaces(inherited: seq<Clamp>, policy: seq<Clamp>, path: string)
    requires InOrder(policy) && IsResource(path)
    ensures var merged := Merged(inherited, policy);
            && Preserved(merged) == Preserved(inherited)
            && (Has(merged, path) <==> Has(policy, path))
            && Slot(merged, path) == (if Has(policy, path) then Slot(inherited, path) else |Preserved(inherited)|)
            && CoresFirst(merged) == (if Has(policy, WORKERS) && Has(policy, CORES) then CoresFirst(inherited)
                                      else Has(policy, CORES))
  {
    var kept := KeepOrReplace(inherited, policy);
    hide Has, Slot, CoresFirst, Preserved, KeepOrReplace, AppendMissing;
    KeepHas(inherited, policy, WORKERS);
    KeepHas(inherited, policy, CORES);
    if Has(kept, path) {
      KeepSlot(inherited, policy, path);
    }
    if Has(kept, WORKERS) && Has(kept, CORES) {
      KeepFirst(inherited, policy);
    }
    AppendPlaces(kept, policy, path);
    AppendFirst(kept, policy);
    MergePreserves(inherited, policy);
    KeepPreserves(inherited, policy);
    SlotRange(kept, path);
    SlotRange(inherited, path);
    FirstOfOne(kept);
    FirstOfOne(inherited);
    FirstOfOne(policy);
  }

  // ----- a list is determined by the places of its resource clamps

  ghost predicate SamePlaces(a: seq<Clamp>, b: seq<Clamp>) {
    && Preserved(a) == Preserved(b)
    && (forall path :: IsResource(path) ==> (Has(a, path) <==> Has(b, path)))
    && Slot(a, WORKERS) == Slot(b, WORKERS) && Slot(a, CORES) == Slot(b, CORES)
    && (CoresFirst(a) <==> CoresFirst(b))
  }

  lemma ShorterList(clamps: seq<Clamp>, policy: seq<Clamp>)
    requires FromPolicy(clamps, policy) && clamps != []
    ensures var before, item := clamps[..|clamps| - 1], clamps[|clamps| - 1];
            && clamps == before + [item] && FromPolicy(before, policy)
            && (IsResource(item.path) ==> item == Find(policy, item.path) && !Has(before, item.path))
  {
    var before, item := clamps[..|clamps| - 1], clamps[|clamps| - 1];
    assert clamps == before + [item];
    assert forall i :: 0 <= i < |before| ==> before[i] == clamps[i];
  }

  /** What the places say about the last clamp of a list. */
  lemma LastPlace(clamps: seq<Clamp>, policy: seq<Clamp>)
    requires FromPolicy(clamps, policy) && clamps != []
    ensures var before, item := clamps[..|clamps| - 1], clamps[|clamps| - 1];
            && FromPolicy(before, policy)
            && (forall path :: Has(clamps, path) <==> Has(before, path) || item.path == path)
            && (IsResource(item.path) ==>
                  && item == Find(policy, item.path) && !Has(before, item.path)
                  && Preserved(clamps) == Preserved(before)
                  && (forall path :: IsResource(path) ==> Slot(clamps, path) == Slot(before, path))
                  && Slot(clamps, item.path) == |Preserved(clamps)|)
            && (!IsResource(item.path) ==>
                  && Preserved(clamps) == Preserved(before) + [item]
                  && (forall path :: IsResource(path) ==>
                        Slot(clamps, path) == if Has(before, path) then Slot(before, path) else |Preserved(clamps)|)
                  && (forall path :: IsResource(path) && Has(clamps, path) ==>
                        Slot(clamps, path) < |Preserved(clamps)|))
  {
    hide Has, Slot, Preserved, FromPolicy, CoresFirst, Find;
    var before, item := clamps[..|clamps| - 1], clamps[|clamps| - 1];
    ShorterList(clamps, policy);
    ExtendView(before, item);
    SlotRange(before, WORKERS);
    SlotRange(before, CORES);
  }

  lemma LastKind(a: seq<Clamp>, b: seq<Clamp>, policy: seq<Clamp>)
    requires FromPolicy(a, policy) && FromPolicy(b, policy) && SamePlaces(a, b) && a != []
    ensures b != [] && (IsResource(a[|a| - 1].path) ==> IsResource(b[|b| - 1].path))
  {
    hide Slot, FromPolicy, CoresFirst, Has, Preserved;
    LastPlace(a, policy);
    EmptyHas(a[|a| - 1].path);
    EmptyPreserved();
    if b != [] {
      LastPlace(b, policy);
    }
  }

  lemma EmptyPreserved()
    ensures Preserved([]) == []
  {
  }

  lemma LastAgrees(a: seq<Clamp>, b: seq<Clamp>, policy: seq<Clamp>)
    requires FromPolicy(a, policy) && FromPolicy(b, policy) && SamePlaces(a, b) && a != [] && b != []
    ensures a[|a| - 1] == b[|b| - 1]
  {
    hide Slot, FromPolicy, CoresFirst, Has, Preserved;
    LastKind(a, b, policy);
    LastKind(b, a, policy);
    LastPlace(a, policy);
    LastPlace(b, policy);
    var item, item' := a[|a| - 1], b[|b| - 1];
    if IsResource(item.path) {
      LastFirst(a);
      LastFirst(b);
      FirstOfOne(a[..|a| - 1]);
      FirstOfOne(b[..|b| - 1]);
      assert item.path == item'.path;
    } else {
      assert Preserved(a)[|Preserved(a)| - 1] == item && Preserved(b)[|Preserved(b)| - 1] == item';
    }
  }

  lemma {:induction false} PlacesDetermine(a: seq<Clamp>, b: seq<Clamp>, policy: seq<Clamp>)
    requires FromPolicy(a, policy) && FromPolicy(b, policy) && SamePlaces(a, b)
    ensures a == b
    decreases |a|
  {
    hide Slot, FromPolicy, CoresFirst, Has, Preserved;
    if a != [] {
      LastKind(a, b, policy);
      LastAgrees(a, b, policy);
      BeforeAgrees(a, b, policy);
      PlacesDetermine(a[..|a| - 1], b[..|b| - 1], policy);
      assert a == a[..|a| - 1] + [a[|a| - 1]] && b == b[..|b| - 1] + [b[|b| - 1]];
    } else if b != [] {
      LastKind(b, a, policy);
    }
  }

  lemma BeforeAgrees(a: seq<Clamp>, b: seq<Clamp>, policy: seq<Clamp>)
    requires FromPolicy(a, policy) && FromPolicy(b, policy) && SamePlaces(a, b) && a != [] && b != []
    requires a[|a| - 1] == b[|b| - 1]
    ensures FromPolicy(a[..|a| - 1], policy) && FromPolicy(b[..|b| - 1], policy)
    ensures SamePlaces(a[..|a| - 1], b[..|b| - 1])
  {
    hide Slot, FromPolicy, CoresFirst, Has, Preserved;
    LastPlace(a, policy);
    LastPlace(b, policy);
    LastFirst(a);
    LastFirst(b);
    var before, before' := a[..|a| - 1], b[..|b| - 1];
    FirstOfOne(before);
    FirstOfOne(before');
    SlotRange(before, WORKERS);
    SlotRange(before, CORES);
    SlotRange(before', WORKERS);
    SlotRange(before', CORES);
    forall path | IsResource(path) ensures Has(before, path) <==> Has(before', path) {
      assert Has(a, path) <==> Has(b, path);
    }
    if !IsResource(a[|a| - 1].path) {
      assert Preserved(before) == Preserved(a)[..|Preserved(a)| - 1];
      assert Preserved(before') == Preserved(b)[..|Preserved(b)| - 1];
    }
  }

  lemma LastFirst(clamps: seq<Clamp>)
    requires clamps != []
    ensures var before, item := clamps[..|clamps| - 1], clamps[|clamps| - 1];
            CoresFirst(clamps) == (if Has(before, WORKERS) || Has(before, CORES) then CoresFirst(before)
                                   else item.path == CORES)
  {
  }

  // ----- when the recorded order remembers an earlier policy

  /**
   * The guard on an earlier policy: every path it left unclamped that is clamped now had no
   * unrelated clamp recorded after its first inherited clamp, and, unless it clamped both
   * paths as they are now, it clamped the cores exactly when the inherited clamps have the
   * cores first.
   */
  predicate OrderSurvives(inherited: seq<Clamp>, earlier: seq<Clamp>, policy: seq<Clamp>) {
    && (Has(policy, WORKERS) && !Has(earlier, WORKERS) ==> Slot(inherited, WORKERS) == |Preserved(inherited)|)
    && (Has(policy, CORES) && !Has(earlier, CORES) ==> Slot(inherited, CORES) == |Preserved(inherited)|)
    && (Has(policy, WORKERS) && Has(policy, CORES) && !(Has(earlier, WORKERS) && Has(earlier, CORES)) ==>
          (CoresFirst(inherited) <==> Has(earlier, CORES)))
  }

  /**
   * The order of the recorded clamps, unlike the effective configuration, can remember its
   * history: for any inherited clamps, merging one policy and then another gives the list of
   * the second alone exactly under the guard.
   */
  lemma ClampOrderHistory(inherited: seq<Clamp>, earlier: seq<Clamp>, policy: seq<Clamp>)
    requires InOrder(earlier) && InOrder(policy)
    ensures Merged(Merged(inherited, earlier), policy) == Merged(inherited, policy)
       <==> OrderSurvives(inherited, earlier, policy)
  {
    hide Has, Slot, CoresFirst, Preserved, Merged, FromPolicy, IsPolicy;
    var first := Merged(inherited, earlier);
    var again, direct := Merged(first, policy), Merged(inherited, policy);
    MergePlaces(inherited, earlier, WORKERS);
    MergePlaces(inherited, earlier, CORES);
    MergePlaces(first, policy, WORKERS);
    MergePlaces(first, policy, CORES);
    MergePlaces(inherited, policy, WORKERS);
    MergePlaces(inherited, policy, CORES);
    MergeFollowsPolicy(first, policy);
    MergeFollowsPolicy(inherited, policy);
    if OrderSurvives(inherited, earlier, policy) {
      PlacesDetermine(again, direct, policy);
    }
  }

  lemma PolicyInOrder(workers: Value, cores: Value, inputs: Inputs)
    requires Requestable(workers) && Requestable(cores)
    requires ResourceClamps(workers, cores, inputs).Ok?
    ensures InOrder(ResourceClamps(workers, cores, inputs).value)
  {
  }

  /**
   * For resolutions: resolving with other inputs first leaves the recorded clamps as a direct
   * resolution records them exactly under the guard on the two policies.
   */
  lemma RecordedOrder(requested: Settings, inherited: seq<Record>, inputs1: Inputs, inputs2: Inputs)
    requires Configured(requested)
    requires Resolve(requested, inherited, inputs1).Ok?
    requires Resolve(requested, inherited, inputs2).Ok?
    ensures var first := Resolve(requested, inherited, inputs1).value;
            var direct := Resolve(requested, inherited, inputs2).value;
            var again := Resolve(requested, first.clamps, inputs2);
            var earlier := ResourceClamps(requested[WORKERS], requested[CORES], inputs1);
            var policy := ResourceClamps(requested[WORKERS], requested[CORES], inputs2);
            && again.Ok? && earlier.Ok? && policy.Ok?
            && (again.value.clamps == direct.clamps
                <==> OrderSurvives(Requests(inherited), earlier.value, policy.value))
  {
    hide ResourceClamps, Records, Effective, Merged, Resolve, Preserved, OrderSurvives, InOrder, AllKnown;
    var first := Resolve(requested, inherited, inputs1).value;
    HistoryIndependent(requested, inherited, inputs1, inputs2);
    ResolveMeaning(requested, inherited, inputs1);
    ResolveMeaning(requested, inherited, inputs2);
    ResolveMeaning(requested, first.clamps, inputs2);
    var earlier := ResourceClamps(requested[WORKERS], requested[CORES], inputs1).value;
    var policy := ResourceClamps(requested[WORKERS], requested[CORES], inputs2).value;
    PolicyInOrder(requested[WORKERS], requested[CORES], inputs1);
    PolicyInOrder(requested[WORKERS], requested[CORES], inputs2);
    var requests := Requests(inherited);
    RequestsOfRecords(requested, Merged(requests, earlier));
    ClampOrderHistory(requests, earlier, policy);
    RequestsOfRecords(requested, Merged(requests, policy));
    RequestsOfRecords(requested, Merged(Merged(requests, earlier), policy));
  }

  /** The guard can fail even without inherited clamps: four requested workers fit four
      processes exactly, and are clamped once only two processes remain. */
  lemma ClampOrderWitness()
    ensures var first := ResourceClamps(Amount(4), Auto, Inputs(false, Some(8), 1, Some(4)));
            var second := ResourceClamps(Amount(4), Auto, Inputs(false, Some(8), 1, Some(2)));
            && first == Ok([Clamp(CORES, Amount(2), SHARED_CORES)])
            && second == Ok([Clamp(WORKERS, Amount(2), SHARED_WORKERS), Clamp(CORES, Amount(4), SHARED_CORES)])
            && !OrderSurvives([], first.value, second.value)
  {
    var cores1, workers2, cores2 := Clamp(CORES, Amount(2), SHARED_CORES), Clamp(WORKERS, Amount(2), SHARED_WORKERS),
                                    Clamp(CORES, Amount(4), SHARED_CORES);
    assert WorkersFor(Amount(4), 4, 8) == 4 && CoresFor(Auto, 4, 8) == 2;
    assert WorkersFor(Amount(4), 2, 8) == 2 && CoresFor(Auto, 2, 8) == 4;
    assert Change(WORKERS, Amount(4), 4, SHARED_WORKERS) == [];
    assert Change(WORKERS, Amount(4), 2, SHARED_WORKERS) == [workers2];
    assert Change(CORES, Auto, 2, SHARED_CORES) == [cores1] && Change(CORES, Auto, 4, SHARED_CORES) == [cores2];
    assert ResourceClamps(Amount(4), Auto, Inputs(false, Some(8), 1, Some(4))).value == [cores1];
    assert ResourceClamps(Amount(4), Auto, Inputs(false, Some(8), 1, Some(2))).value == [workers2, cores2];
    assert [cores1] == Pair(None, Some(cores1)) && [workers2, cores2] == Pair(Some(workers2), Some(cores2));
    PairHas(None, Some(cores1));
    PairHas(Some(workers2), Some(cores2));
  }
}
