/**
 * Batched evaluation of the real matrix element with diagnostic bisection: one call for
 * the whole batch, and only after a raised exception the two halves separately.
 */
module RealBatch {
  import opened Prelude

  datatype Scalar = Finite(value: real) | NonFinite

  /** One evaluation attempt: the converted values, or an exception with its description. */
  datatype Attempt = Values(values: seq<Scalar>) | Raised(message: string)

  datatype BatchRun = BatchRun(result: seq<Option<real>>, errors: map<int, string>, calls: nat)

  const SIZE_MESSAGE := "ValueError: real evaluator returned an inconsistent batch size"
  const SCREEN_MESSAGE := "non-finite or nonpositive real result"

  /** An evaluator returning the wrong number of values counts as a raised exception. */
  function Checked(attempt: Attempt, size: nat): Attempt {
    if attempt.Values? && |attempt.values| != size then Raised(SIZE_MESSAGE) else attempt
  }

  predicate Usable(v: Scalar) {
    v.Finite? && v.value > 0.0
  }

  function Screen(v: Scalar): Option<real> {
    if Usable(v) then Some(v.value) else None
  }

  function ScreenAll(values: seq<Scalar>): (r: seq<Option<real>>)
    ensures |r| == |values| && forall i :: 0 <= i < |r| ==> r[i] == Screen(values[i])
  {
    seq(|values|, i requires 0 <= i < |values| => Screen(values[i]))
  }

  /** The errors after screening the values of a batch that starts at `start`. */
  function ScreenErrors(values: seq<Scalar>, start: int, errors: map<int, string>): map<int, string> {
    if values == [] then errors
    else
      var last := |values| - 1;
      var before := ScreenErrors(values[..last], start, errors);
      if Usable(values[last]) then before else before[start + last := SCREEN_MESSAGE]
  }

  /** A batch on which the recursion ends: an empty one must not raise. */
  predicate Evaluable<P>(eval: (nat, seq<P>) -> Attempt, batch: seq<P>, calls: nat) {
    batch == [] ==> Checked(eval(calls, batch), 0).Values?
  }

  /**
   * The run on `batch`, whose first point has index `start`, after `calls` earlier calls.
   * The evaluator may answer differently at every call.
   */
  function RunFrom<P>(eval: (nat, seq<P>) -> Attempt, batch: seq<P>, start: int,
                      calls: nat, errors: map<int, string>): BatchRun
    requires Evaluable(eval, batch, calls)
    decreases |batch|
  {
    match Checked(eval(calls, batch), |batch|)
    case Values(values) => BatchRun(ScreenAll(values), ScreenErrors(values, start, errors), calls + 1)
    case Raised(message) =>
      if |batch| == 1 then BatchRun([None], errors[start := message], calls + 1)
      else
        var middle := |batch| / 2;
        var left := RunFrom(eval, batch[..middle], start, calls + 1, errors);
        var right := RunFrom(eval, batch[middle..], start + middle, left.calls, left.errors);
        BatchRun(left.result + right.result, right.errors, right.calls)
  }

  // ----- the recursion over shared counters

  class Evaluation<P> {
    const eval: (nat, seq<P>) -> Attempt
    var calls: nat
    var errors: map<int, string>

    constructor (eval: (nat, seq<P>) -> Attempt)
      ensures this.eval == eval && calls == 0 && errors == map[]
    {
      this.eval := eval;
      calls, errors := 0, map[];
    }

    method ScreenValues(values: seq<Scalar>, start: int) returns (result: seq<Option<real>>)
      modifies this`errors
      ensures result == ScreenAll(values)
      ensures errors == ScreenErrors(values, start, old(errors))
    {
      result := seq(|values|, i requires 0 <= i < |values| =>
        if values[i].Finite? then Some(values[i].value) else None);
      for index := 0 to |values|
        invariant |result| == |values|
        invariant forall i :: 0 <= i < index ==> result[i] == Screen(values[i])
        invariant forall i :: index <= i < |values| ==>
          result[i] == if values[i].Finite? then Some(values[i].value) else None
        invariant errors == ScreenErrors(values[..index], start, old(errors))
      {
        assert values[..index + 1][..index] == values[..index];
        if !values[index].Finite? || values[index].value <= 0.0 {
          errors := errors[start + index := SCREEN_MESSAGE];
          result := result[index := None];
        }
      }
      assert values[..|values|] == values;
    }

    method Run(batch: seq<P>, start: int) returns (result: seq<Option<real>>)
      requires Evaluable(eval, batch, calls)
      modifies this
      ensures RunFrom(eval, batch, start, old(calls), old(errors)) == BatchRun(result, errors, calls)
      decreases |batch|
    {
      hide RunFrom, Checked, ScreenAll, ScreenErrors;
      var attempt := Checked(eval(calls, batch), |batch|);
      calls := calls + 1;
      if attempt.Values? {
        RunAccepted(eval, batch, start, old(calls), old(errors));
        result := ScreenValues(attempt.values, start);
      } else if |batch| == 1 {
        RunRefused(eval, batch, start, old(calls), old(errors));
        errors := errors[start := attempt.message];
        result := [None];
      } else {
        RunBisected(eval, batch, start, old(calls), old(errors));
        var middle := |batch| / 2;
        var left := Run(batch[..middle], start);
        var right := Run(batch[middle..], start + middle);
        result := left + right;
      }
    }
  }

  /** The whole evaluation: values, number of calls, whether it bisected, and the errors. */
  method EvaluateRealBatch<P>(eval: (nat, seq<P>) -> Attempt, points: seq<P>)
    returns (values: seq<Option<real>>, calls: nat, bisected: bool, errors: map<int, string>)
    requires Evaluable(eval, points, 0)
    ensures RunFrom(eval, points, 0, 0, map[]) == BatchRun(values, errors, calls)
    ensures bisected <==> calls > 1
  {
    var evaluation := new Evaluation<P>(eval);
    values := evaluation.Run(points, 0);
    calls, errors := evaluation.calls, evaluation.errors;
    bisected := calls > 1;
  }

  // ----- any evaluator

  lemma {:induction false} ScreenErrorKeys(values: seq<Scalar>, start: int, errors: map<int, string>)
    ensures forall k :: start <= k < start + |values| && k !in errors ==>
      (k in ScreenErrors(values, start, errors) <==> !Usable(values[k - start]))
    ensures forall k :: !(start <= k < start + |values|) ==>
      (k in ScreenErrors(values, start, errors) <==> k in errors)
    ensures forall k :: !(start <= k < start + |values|) && k in errors ==>
      ScreenErrors(values, start, errors)[k] == errors[k]
  {
    if values != [] {
      ScreenErrorKeys(values[..|values| - 1], start, errors);
    }
  }

  lemma RunAccepted<P>(eval: (nat, seq<P>) -> Attempt, batch: seq<P>, start: int, calls: nat, errors: map<int, string>)
    requires Checked(eval(calls, batch), |batch|).Values?
    ensures var values := Checked(eval(calls, batch), |batch|).values;
            RunFrom(eval, batch, start, calls, errors)
            == BatchRun(ScreenAll(values), ScreenErrors(values, start, errors), calls + 1)
  {
  }

  lemma RunRefused<P>(eval: (nat, seq<P>) -> Attempt, batch: seq<P>, start: int, calls: nat, errors: map<int, string>)
    requires |batch| == 1 && Checked(eval(calls, batch), |batch|).Raised?
    ensures RunFrom(eval, batch, start, calls, errors)
         == BatchRun([None], errors[start := Checked(eval(calls, batch), |batch|).message], calls + 1)
  {
  }

  lemma RunBisected<P>(eval: (nat, seq<P>) -> Attempt, batch: seq<P>, start: int, calls: nat, errors: map<int, string>)
    requires |batch| >= 2 && Checked(eval(calls, batch), |batch|).Raised?
    ensures var m := |batch| / 2;
            var left := RunFrom(eval, batch[..m], start, calls + 1, errors);
            var right := RunFrom(eval, batch[m..], start + m, left.calls, left.errors);
            RunFrom(eval, batch, start, calls, errors)
            == BatchRun(left.result + right.result, right.errors, right.calls)
  {
  }

  /** What every run keeps: slots and errors agree, and nothing else is touched. */
  ghost predicate Shaped(run: BatchRun, size: nat, start: int, calls: nat, errors: map<int, string>) {
    && |run.result| == size
    && (forall k :: start <= k < start + size ==> (k in run.errors <==> run.result[k - start].None?))
    && (forall i :: 0 <= i < size && run.result[i].Some? ==> run.result[i].value > 0.0)
    && (forall k :: !(start <= k < start + size) ==> (k in run.errors <==> k in errors))
    && (forall k :: !(start <= k < start + size) && k in errors ==> run.errors[k] == errors[k])
    && calls + 1 <= run.calls <= calls + Max(1, 2 * size - 1)
  }

  lemma ShapesCombine(left: BatchRun, right: BatchRun, m: nat, n: nat, start: int, calls: nat, errors: map<int, string>)
    requires m >= 1 && n >= 1
    requires Shaped(left, m, start, calls + 1, errors)
    requires Shaped(right, n, start + m, left.calls, left.errors)
    ensures Shaped(BatchRun(left.result + right.result, right.errors, right.calls), m + n, start, calls, errors)
  {
    var result := left.result + right.result;
    forall k | start <= k < start + m + n
      ensures k in right.errors <==> result[k - start].None?
    {
      if k < start + m {
        assert k in right.errors <==> k in left.errors;
      } else {
        assert result[k - start] == right.result[k - (start + m)];
      }
    }
  }

  /**
   * Whatever the evaluator does at each call: every point gets its slot in order, a slot is
   * empty exactly when an error is recorded for its index, a filled slot holds a positive
   * value, other errors are untouched, and n points cost at most 2n-1 calls.
   */
  lemma {:induction false} RunShape<P>(eval: (nat, seq<P>) -> Attempt, batch: seq<P>, start: int,
                                       calls: nat, errors: map<int, string>)
    requires Evaluable(eval, batch, calls)
    requires forall k :: start <= k < start + |batch| ==> k !in errors
    ensures Shaped(RunFrom(eval, batch, start, calls, errors), |batch|, start, calls, errors)
    decreases |batch|
  {
    hide RunFrom, Shaped, Checked;
    var attempt := Checked(eval(calls, batch), |batch|);
    if attempt.Values? {
      RunAccepted(eval, batch, start, calls, errors);
      AcceptedShape(eval(calls, batch), |batch|, start, calls, errors);
    } else if |batch| == 1 {
      RunRefused(eval, batch, start, calls, errors);
      RefusedShape(attempt.message, start, calls, errors);
    } else {
      var m := |batch| / 2;
      var left := RunFrom(eval, batch[..m], start, calls + 1, errors);
      var right := RunFrom(eval, batch[m..], start + m, left.calls, left.errors);
      RunBisected(eval, batch, start, calls, errors);
      RunShape(eval, batch[..m], start, calls + 1, errors);
      LeftErrors(left, m, |batch| - m, start, calls + 1, errors);
      RunShape(eval, batch[m..], start + m, left.calls, left.errors);
      ShapesCombine(left, right, m, |batch| - m, start, calls, errors);
    }
  }

  lemma AcceptedShape(attempt: Attempt, size: nat, start: int, calls: nat, errors: map<int, string>)
    requires Checked(attempt, size).Values?
    requires forall k :: start <= k < start + size ==> k !in errors
    ensures var values := Checked(attempt, size).values;
            Shaped(BatchRun(ScreenAll(values), ScreenErrors(values, start, errors), calls + 1), size, start, calls,
                   errors)
  {
    ScreenErrorKeys(Checked(attempt, size).values, start, errors);
  }

  lemma RefusedShape(message: string, start: int, calls: nat, errors: map<int, string>)
    ensures Shaped(BatchRun([None], errors[start := message], calls + 1), 1, start, calls, errors)
  {
  }

  lemma LeftErrors(left: BatchRun, m: nat, n: nat, start: int, calls: nat, errors: map<int, string>)
    requires Shaped(left, m, start, calls, errors)
    requires forall k :: start <= k < start + m + n ==> k !in errors
    ensures forall k :: start + m <= k < start + m + n ==> k !in left.errors
  {
  }

  // ----- an evaluator that judges point by point

  /** A point raises, or has a value of its own. */
  datatype Verdict = Raises | Evaluates(value: Scalar)

  predicate AllEvaluate<P>(judge: P -> Verdict, batch: seq<P>) {
    forall i :: 0 <= i < |batch| ==> judge(batch[i]).Evaluates?
  }

  /** The evaluator raises on a batch exactly when some point of it raises, and otherwise
      returns the value of every point, at every call. */
  ghost predicate Pointwise<P(!new)>(eval: (nat, seq<P>) -> Attempt, judge: P -> Verdict) {
    forall calls: nat, batch: seq<P> :: batch != [] ==>
      var attempt := eval(calls, batch);
      if AllEvaluate(judge, batch) then
        && attempt.Values? && |attempt.values| == |batch|
        && forall i :: 0 <= i < |batch| ==> attempt.values[i] == judge(batch[i]).value
      else attempt.Raised?
  }

  function PointResult(verdict: Verdict): Option<real> {
    match verdict
    case Raises => None
    case Evaluates(value) => Screen(value)
  }

  function RaisingCount<P>(judge: P -> Verdict, batch: seq<P>): nat {
    if batch == [] then 0
    else (if judge(batch[0]).Raises? then 1 else 0) + RaisingCount(judge, batch[1..])
  }

  lemma {:induction false} RaisingCountSplits<P>(judge: P -> Verdict, batch: seq<P>, middle: nat)
    requires middle <= |batch|
    ensures RaisingCount(judge, batch) == RaisingCount(judge, batch[..middle]) + RaisingCount(judge, batch[middle..])
  {
    if middle == 0 {
      assert batch[0..] == batch;
    } else {
      RaisingCountSplits(judge, batch[1..], middle - 1);
      assert batch[..middle][1..] == batch[1..][..middle - 1];
      assert batch[1..][middle - 1..] == batch[middle..];
    }
  }

  lemma {:induction false} NothingRaises<P>(judge: P -> Verdict, batch: seq<P>)
    ensures AllEvaluate(judge, batch) <==> RaisingCount(judge, batch) == 0
  {
    if batch != [] {
      NothingRaises(judge, batch[1..]);
      assert forall i :: 1 <= i < |batch| ==> batch[i] == batch[1..][i - 1];
    }
  }

  /** The least exponent whose power of two is at least n. */
  function CeilLog2(n: nat): nat
    requires n >= 1
  {
    if n == 1 then 0 else 1 + CeilLog2((n + 1) / 2)
  }

  function Pow2(k: nat): nat {
    if k == 0 then 1 else 2 * Pow2(k - 1)
  }

  lemma {:induction false} CeilLog2Meaning(n: nat)
    requires n >= 1
    ensures n <= Pow2(CeilLog2(n))
    ensures forall k: nat :: n <= Pow2(k) ==> CeilLog2(n) <= k
  {
    if n > 1 {
      CeilLog2Meaning((n + 1) / 2);
      forall k: nat | n <= Pow2(k) ensures CeilLog2(n) <= k {
        assert k > 0;
        assert (n + 1) / 2 <= Pow2(k - 1);
      }
    }
  }

  lemma {:induction false} CeilLog2Monotone(m: nat, n: nat)
    requires 1 <= m <= n
    ensures CeilLog2(m) <= CeilLog2(n)
    decreases n
  {
    if m > 1 {
      CeilLog2Monotone((m + 1) / 2, (n + 1) / 2);
    }
  }

  lemma BoundCombines(r1: nat, r2: nat, c1: nat, c2: nat, h1: nat, h2: nat, h: nat)
    requires r1 + r2 >= 1 && h1 <= h && h2 <= h
    requires c1 <= 1 + 2 * (r1 * h1) && c2 <= 1 + 2 * (r2 * h2)
    ensures 1 + c1 + c2 <= 1 + 2 * ((r1 + r2) * (h + 1))
  {
    assert r1 * h1 <= r1 * h && r2 * h2 <= r2 * h;
    assert (r1 + r2) * (h + 1) == r1 * h + r2 * h + r1 + r2;
  }

  /** Every slot holds its own point's verdict. */
  ghost predicate Judged<P>(judge: P -> Verdict, batch: seq<P>, result: seq<Option<real>>) {
    |result| == |batch| && forall i :: 0 <= i < |batch| ==> result[i] == PointResult(judge(batch[i]))
  }

  /** The number of calls made for a batch, within the logarithmic bound. */
  ghost predicate Bounded<P>(judge: P -> Verdict, batch: seq<P>, made: int)
    requires |batch| >= 1
  {
    && 1 <= made <= 1 + 2 * (RaisingCount(judge, batch) * CeilLog2(|batch|))
    && (made > 1 <==> |batch| >= 2 && !AllEvaluate(judge, batch))
  }

  lemma JudgedHalves<P>(judge: P -> Verdict, batch: seq<P>, m: nat,
                        left: seq<Option<real>>, right: seq<Option<real>>)
    requires m <= |batch| && Judged(judge, batch[..m], left) && Judged(judge, batch[m..], right)
    ensures Judged(judge, batch, left + right)
  {
  }

  lemma BoundedHalves<P>(judge: P -> Verdict, batch: seq<P>, left: int, right: int)
    requires |batch| >= 2 && !AllEvaluate(judge, batch)
    requires Bounded(judge, batch[..|batch| / 2], left) && Bounded(judge, batch[|batch| / 2..], right)
    ensures Bounded(judge, batch, 1 + left + right)
  {
    var m := |batch| / 2;
    var head, tail := batch[..m], batch[m..];
    NothingRaises(judge, batch);
    RaisingCountSplits(judge, batch, m);
    CeilLog2Monotone(m, |tail|);
    assert |tail| == (|batch| + 1) / 2;
    BoundCombines(RaisingCount(judge, head), RaisingCount(judge, tail), left, right,
                  CeilLog2(m), CeilLog2(|tail|), CeilLog2(|tail|));
  }

  /**
   * A pointwise evaluator: every slot holds its own point's verdict, independently of the
   * batch it was evaluated in, and R raising points among n cost at most
   * 1 + 2 R ceil(log2 n) calls. A second call is made exactly when a batch of at least two
   * points contains a raising one.
   */
  lemma {:induction false} PointwiseRun<P(!new)>(eval: (nat, seq<P>) -> Attempt, judge: P -> Verdict,
                                                 batch: seq<P>, start: int, calls: nat, errors: map<int, string>)
    requires Pointwise(eval, judge) && |batch| >= 1
    ensures var run := RunFrom(eval, batch, start, calls, errors);
            Judged(judge, batch, run.result) && Bounded(judge, batch, run.calls - calls)
    decreases |batch|
  {
    hide RunFrom;
    if AllEvaluate(judge, batch) {
      WholeBatch(eval, judge, batch, start, calls, errors);
    } else if |batch| == 1 {
      NothingRaises(judge, batch);
      RunRefused(eval, batch, start, calls, errors);
    } else {
      RunBisected(eval, batch, start, calls, errors);
      hide Judged, Bounded, AllEvaluate, Pointwise, Checked;
      var m := |batch| / 2;
      var left := RunFrom(eval, batch[..m], start, calls + 1, errors);
      var right := RunFrom(eval, batch[m..], start + m, left.calls, left.errors);
      PointwiseRun(eval, judge, batch[..m], start, calls + 1, errors);
      PointwiseRun(eval, judge, batch[m..], start + m, left.calls, left.errors);
      JudgedHalves(judge, batch, m, left.result, right.result);
      BoundedHalves(judge, batch, left.calls - calls - 1, right.calls - left.calls);
    }
  }

  lemma WholeBatch<P(!new)>(eval: (nat, seq<P>) -> Attempt, judge: P -> Verdict,
                            batch: seq<P>, start: int, calls: nat, errors: map<int, string>)
    requires Pointwise(eval, judge) && |batch| >= 1 && AllEvaluate(judge, batch)
    ensures var run := RunFrom(eval, batch, start, calls, errors);
            Judged(judge, batch, run.result) && Bounded(judge, batch, run.calls - calls)
  {
  }

  /** The whole evaluation of a non-empty batch by a pointwise evaluator. */
  lemma PointwiseEvaluation<P(!new)>(eval: (nat, seq<P>) -> Attempt, judge: P -> Verdict, points: seq<P>)
    requires Pointwise(eval, judge) && |points| >= 1
    ensures var run := RunFrom(eval, points, 0, 0, map[]);
            && |run.result| == |points|
            && Judged(judge, points, run.result)
            && (forall i :: i in run.errors <==> 0 <= i < |points| && run.result[i].None?)
            && run.calls <= Min(2 * |points| - 1, 1 + 2 * (RaisingCount(judge, points) * CeilLog2(|points|)))
  {
    hide RunFrom, Judged, Pointwise, AllEvaluate, Shaped, RaisingCount, CeilLog2;
    PointwiseRun(eval, judge, points, 0, 0, map[]);
    RunShape(eval, points, 0, 0, map[]);
    FreshShape(RunFrom(eval, points, 0, 0, map[]), |points|);
  }

  lemma FreshShape(run: BatchRun, size: nat)
    requires Shaped(run, size, 0, 0, map[]) && size >= 1
    ensures |run.result| == size && run.calls <= 2 * size - 1
    ensures forall i :: i in run.errors <==> 0 <= i < size && run.result[i].None?
  {
  }
}
