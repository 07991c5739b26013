/** What each slot of a batched evaluation holds, in terms of the evaluator's own answers. */
module BatchSlots {
  import opened Prelude
  import opened RealBatch

  // ----- the call that settles a point

  /** The number of calls made once a batch is done, after `calls` earlier ones. */
  function CallsAfter<P>(eval: (nat, seq<P>) -> Attempt, batch: seq<P>, calls: nat): nat
    requires Evaluable(eval, batch, calls)
    decreases |batch|
  {
    var attempt := eval(calls, batch);
    if (attempt.Values? && |attempt.values| == |batch|) || |batch| == 1 then calls + 1
    else
      var middle := |batch| / 2;
      CallsAfter(eval, batch[middle..], CallsAfter(eval, batch[..middle], calls + 1))
  }

  /** The call that settles a point: its number, and the points from `low` up to `high`
      it was made for. */
  datatype Settling = Settling(call: nat, low: nat, high: nat)

  /** The settling call of the i-th point: the first call for a batch with that point that is
      answered with one value per point, or is made for the point alone. */
  function SettlingCall<P>(eval: (nat, seq<P>) -> Attempt, points: seq<P>, low: nat, high: nat, calls: nat,
                           i: nat): Settling
    requires low <= i < high <= |points|
    decreases high - low
  {
    var attempt := eval(calls, points[low..high]);
    if (attempt.Values? && |attempt.values| == high - low) || high == low + 1 then Settling(calls, low, high)
    else
      var middle := low + (high - low) / 2;
      if i < middle then SettlingCall(eval, points, low, middle, calls + 1, i)
      else SettlingCall(eval, points, middle, high, CallsAfter(eval, points[low..middle], calls + 1), i)
  }

  /** A slot and its error as the settling call's answer makes them. */
  ghost predicate Settled<P>(eval: (nat, seq<P>) -> Attempt, points: seq<P>, s: Settling, i: nat,
                             slot: Option<real>, errors: map<int, string>)
    requires s.low <= i < s.high <= |points|
  {
    var attempt := eval(s.call, points[s.low..s.high]);
    if attempt.Values? && |attempt.values| == s.high - s.low then
      var answer := attempt.values[i - s.low];
      if answer.Finite? && answer.value > 0.0 then slot == Some(answer.value) && i !in errors
      else slot == None && i in errors && errors[i] == "non-finite or nonpositive real result"
    else
      && s.high == s.low + 1 && slot == None && i in errors
      && errors[i] == if attempt.Raised? then attempt.message
                      else "ValueError: real evaluator returned an inconsistent batch size"
  }

  // ----- one step of each description

  predicate Settles(attempt: Attempt, size: nat) {
    (attempt.Values? && |attempt.values| == size) || size == 1
  }

  lemma BisectedCalls<P>(eval: (nat, seq<P>) -> Attempt, points: seq<P>, low: nat, high: nat, calls: nat)
    requires low < high <= |points| && !Settles(eval(calls, points[low..high]), high - low)
    ensures var m := low + (high - low) / 2;
            && low < m < high
            && CallsAfter(eval, points[low..high], calls)
               == CallsAfter(eval, points[m..high], CallsAfter(eval, points[low..m], calls + 1))
  {
    var m := (high - low) / 2;
    assert points[low..high][..m] == points[low..low + m] && points[low..high][m..] == points[low + m..high];
  }

  lemma SettledCalls<P>(eval: (nat, seq<P>) -> Attempt, points: seq<P>, low: nat, high: nat, calls: nat, i: nat)
    requires low <= i < high <= |points| && Settles(eval(calls, points[low..high]), high - low)
    ensures CallsAfter(eval, points[low..high], calls) == calls + 1
    ensures SettlingCall(eval, points, low, high, calls, i) == Settling(calls, low, high)
  {
  }

  lemma BisectedSettling<P>(eval: (nat, seq<P>) -> Attempt, points: seq<P>, low: nat, high: nat, calls: nat, i: nat)
    requires low <= i < high <= |points| && !Settles(eval(calls, points[low..high]), high - low)
    ensures var m := low + (high - low) / 2;
            SettlingCall(eval, points, low, high, calls, i)
            == if i < m then SettlingCall(eval, points, low, m, calls + 1, i)
               else SettlingCall(eval, points, m, high, CallsAfter(eval, points[low..m], calls + 1), i)
  {
  }

  lemma BisectedRun<P>(eval: (nat, seq<P>) -> Attempt, points: seq<P>, low: nat, high: nat, calls: nat,
                       errors: map<int, string>)
    requires low < high <= |points| && !Settles(eval(calls, points[low..high]), high - low)
    ensures var m := low + (high - low) / 2;
            var left := RunFrom(eval, points[low..m], low, calls + 1, errors);
            var right := RunFrom(eval, points[m..high], m, left.calls, left.errors);
            && low < m < high
            && RunFrom(eval, points[low..high], low, calls, errors)
               == BatchRun(left.result + right.result, right.errors, right.calls)
  {
    hide RunFrom;
    var m := (high - low) / 2;
    assert points[low..high][..m] == points[low..low + m] && points[low..high][m..] == points[low + m..high];
    RunBisected(eval, points[low..high], low, calls, errors);
  }

  // ----- the proof

  lemma {:induction false} CallsAgree<P>(eval: (nat, seq<P>) -> Attempt, batch: seq<P>, start: int, calls: nat,
                                         errors: map<int, string>)
    requires Evaluable(eval, batch, calls)
    ensures RunFrom(eval, batch, start, calls, errors).calls == CallsAfter(eval, batch, calls)
    decreases |batch|
  {
    hide RunFrom;
    var attempt := Checked(eval(calls, batch), |batch|);
    if attempt.Values? {
      RunAccepted(eval, batch, start, calls, errors);
    } else if |batch| == 1 {
      RunRefused(eval, batch, start, calls, errors);
    } else {
      var m := |batch| / 2;
      RunBisected(eval, batch, start, calls, errors);
      var left := RunFrom(eval, batch[..m], start, calls + 1, errors);
      CallsAgree(eval, batch[..m], start, calls + 1, errors);
      CallsAgree(eval, batch[m..], start + m, left.calls, left.errors);
    }
  }

  lemma {:induction false} ScreenMessages(values: seq<Scalar>, start: int, errors: map<int, string>, i: nat)
    requires i < |values| && start + i !in errors
    ensures var after := ScreenErrors(values, start, errors); var v := values[i];
            if v.Finite? && v.value > 0.0 then start + i !in after
            else start + i in after && after[start + i] == "non-finite or nonpositive real result"
  {
    var last := |values| - 1;
    if i < last {
      ScreenMessages(values[..last], start, errors, i);
    } else {
      ScreenErrorKeys(values[..last], start, errors);
    }
  }

  lemma AcceptedSettled<P>(eval: (nat, seq<P>) -> Attempt, points: seq<P>, low: nat, high: nat, calls: nat,
                           errors: map<int, string>, i: nat)
    requires low <= i < high <= |points| && i !in errors
    requires var attempt := eval(calls, points[low..high]); attempt.Values? && |attempt.values| == high - low
    ensures var values := eval(calls, points[low..high]).values;
            Settled(eval, points, Settling(calls, low, high), i, ScreenAll(values)[i - low],
                    ScreenErrors(values, low, errors))
  {
    ScreenMessages(eval(calls, points[low..high]).values, low, errors, i - low);
  }

  lemma RefusedSettled<P>(eval: (nat, seq<P>) -> Attempt, points: seq<P>, low: nat, calls: nat,
                          errors: map<int, string>)
    requires low < |points|
    requires Checked(eval(calls, points[low..low + 1]), 1).Raised?
    ensures Settled(eval, points, Settling(calls, low, low + 1), low, None,
                    errors[low := Checked(eval(calls, points[low..low + 1]), 1).message])
  {
  }

  /** Errors recorded for other points later leave a settled slot as it is. */
  lemma LaterErrors<P>(eval: (nat, seq<P>) -> Attempt, points: seq<P>, s: Settling, i: nat, slot: Option<real>,
                       before: map<int, string>, after: map<int, string>)
    requires s.low <= i < s.high <= |points| && Settled(eval, points, s, i, slot, before)
    requires i in after <==> i in before
    requires i in before ==> after[i] == before[i]
    ensures Settled(eval, points, s, i, slot, after)
  {
  }

  lemma AnsweredAtOnce<P>(eval: (nat, seq<P>) -> Attempt, points: seq<P>, low: nat, high: nat, calls: nat,
                          errors: map<int, string>, i: nat)
    requires low <= i < high <= |points| && Settles(eval(calls, points[low..high]), high - low)
    requires forall k :: low <= k < high ==> k !in errors
    ensures var run := RunFrom(eval, points[low..high], low, calls, errors);
            && |run.result| == high - low
            && Settled(eval, points, Settling(calls, low, high), i, run.result[i - low], run.errors)
  {
    hide RunFrom, Settled;
    var attempt := eval(calls, points[low..high]);
    if attempt.Values? && |attempt.values| == high - low {
      RunAccepted(eval, points[low..high], low, calls, errors);
      AcceptedSettled(eval, points, low, high, calls, errors, i);
    } else {
      RunRefused(eval, points[low..high], low, calls, errors);
      RefusedSettled(eval, points, low, calls, errors);
    }
  }

  /** What a run on a non-empty part leaves outside it. */
  lemma HalfShape<P>(eval: (nat, seq<P>) -> Attempt, points: seq<P>, low: nat, mid: nat, high: nat, calls: nat,
                     errors: map<int, string>)
    requires low < mid <= high <= |points| && forall k :: low <= k < high ==> k !in errors
    ensures var run := RunFrom(eval, points[low..mid], low, calls, errors);
            && |run.result| == mid - low
            && (forall k :: !(low <= k < mid) ==> (k in run.errors <==> k in errors))
            && (forall k :: !(low <= k < mid) && k in errors ==> run.errors[k] == errors[k])
  {
    hide RunFrom;
    RunShape(eval, points[low..mid], low, calls, errors);
  }

  lemma {:induction false} SlotsSettled<P>(eval: (nat, seq<P>) -> Attempt, points: seq<P>, low: nat, high: nat,
                                           calls: nat, errors: map<int, string>, i: nat)
    requires low <= i < high <= |points|
    requires forall k :: low <= k < high ==> k !in errors
    ensures var run := RunFrom(eval, points[low..high], low, calls, errors);
            var s := SettlingCall(eval, points, low, high, calls, i);
            && low <= s.low <= i < s.high <= high
            && |run.result| == high - low
            && Settled(eval, points, s, i, run.result[i - low], run.errors)
    decreases high - low
  {
    hide RunFrom, Settled, SettlingCall, CallsAfter, ScreenAll, ScreenErrors, Checked;
    var attempt := eval(calls, points[low..high]);
    if Settles(attempt, high - low) {
      SettledCalls(eval, points, low, high, calls, i);
      AnsweredAtOnce(eval, points, low, high, calls, errors, i);
    } else {
      var m := low + (high - low) / 2;
      BisectedRun(eval, points, low, high, calls, errors);
      BisectedSettling(eval, points, low, high, calls, i);
      var left := RunFrom(eval, points[low..m], low, calls + 1, errors);
      HalfShape(eval, points, low, m, high, calls + 1, errors);
      if i < m {
        SlotsSettled(eval, points, low, m, calls + 1, errors, i);
        HalfShape(eval, points, m, high, high, left.calls, left.errors);
        LaterErrors(eval, points, SettlingCall(eval, points, low, m, calls + 1, i), i, left.result[i - low],
                    left.errors, RunFrom(eval, points[m..high], m, left.calls, left.errors).errors);
      } else {
        CallsAgree(eval, points[low..m], low, calls + 1, errors);
        SlotsSettled(eval, points, m, high, left.calls, left.errors, i);
      }
    }
  }

  lemma {:induction false} SettlesInTime<P>(eval: (nat, seq<P>) -> Attempt, points: seq<P>, low: nat, high: nat,
                                            calls: nat, i: nat)
    requires low <= i < high <= |points|
    ensures calls <= SettlingCall(eval, points, low, high, calls, i).call < CallsAfter(eval, points[low..high], calls)
    decreases high - low
  {
    hide SettlingCall, CallsAfter;
    if Settles(eval(calls, points[low..high]), high - low) {
      SettledCalls(eval, points, low, high, calls, i);
    } else {
      var m := low + (high - low) / 2;
      BisectedCalls(eval, points, low, high, calls);
      BisectedSettling(eval, points, low, high, calls, i);
      var next := CallsAfter(eval, points[low..m], calls + 1);
      SettlesInTime(eval, points, low, m, calls + 1, if i < m then i else low);
      SettlesInTime(eval, points, m, high, next, if i < m then m else i);
    }
  }

  /**
   * Whatever the evaluator does: every point is settled by one call, a slot is filled exactly
   * when that call answered it with a finite positive value, and then holds that value; an
   * empty slot has the error of that call.
   */
  lemma EverySlotSettled<P>(eval: (nat, seq<P>) -> Attempt, points: seq<P>, i: nat)
    requires Evaluable(eval, points, 0) && i < |points|
    ensures var run := RunFrom(eval, points, 0, 0, map[]); var s := SettlingCall(eval, points, 0, |points|, 0, i);
            && |run.result| == |points|
            && s.low <= i < s.high <= |points| && s.call < run.calls
            && Settled(eval, points, s, i, run.result[i], run.errors)
  {
    hide RunFrom, Settled, SettlingCall, CallsAfter;
    assert points[0..|points|] == points;
    SlotsSettled(eval, points, 0, |points|, 0, map[], i);
    CallsAgree(eval, points, 0, 0, map[]);
    SettlesInTime(eval, points, 0, |points|, 0, i);
  }

  /** For a pointwise evaluator, a slot holds a value exactly when the point's own value is
      finite and positive, and then holds it. */
  lemma PointwiseSlots<P(!new)>(eval: (nat, seq<P>) -> Attempt, judge: P -> Verdict, points: seq<P>, i: nat, v: real)
    requires Pointwise(eval, judge) && i < |points|
    ensures var run := RunFrom(eval, points, 0, 0, map[]);
            && |run.result| == |points|
            && (run.result[i] == Some(v) <==> judge(points[i]) == Evaluates(Finite(v)) && v > 0.0)
            && (run.result[i] == None <==> i in run.errors)
            && (i in run.errors && judge(points[i]).Evaluates? ==>
                  run.errors[i] == "non-finite or nonpositive real result")
  {
    hide RunFrom, SettlingCall;
    EverySlotSettled(eval, points, i);
    var s := SettlingCall(eval, points, 0, |points|, 0, i);
    var batch := points[s.low..s.high];
    assert batch[i - s.low] == points[i];
    if !AllEvaluate(judge, batch) {
      assert eval(s.call, batch).Raised?;
      assert s.high == s.low + 1;
      assert batch == [points[i]];
    }
  }

  /** The cost bound counts the raising points. */
  lemma {:induction false} RaisingCountIs<P>(judge: P -> Verdict, batch: seq<P>)
    ensures RaisingCount(judge, batch) == |set i | 0 <= i < |batch| && judge(batch[i]).Raises?|
  {
    var raising := set i | 0 <= i < |batch| && judge(batch[i]).Raises?;
    if batch == [] {
      assert raising == {};
    } else {
      var last := |batch| - 1;
      RaisingCountIs(judge, batch[..last]);
      RaisingCountSplits(judge, batch, last);
      var before := set i | 0 <= i < last && judge(batch[..last][i]).Raises?;
      assert before == set i | 0 <= i < last && judge(batch[i]).Raises?;
      assert batch[last..][1..] == [];
      assert raising == if judge(batch[last]).Raises? then before + {last} else before;
    }
  }
}
