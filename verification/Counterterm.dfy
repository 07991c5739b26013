/**
 * The local counterterms of the two limits, and their leading-power behaviour along the
 * trajectories: with fixed correlators both fall as the inverse square of delta.
 */
module Counterterm {
  import opened Prelude
  import opened FourVectors
  import opened DipoleMap
  import opened Trajectory
  import Approach

  /** The unordered pairs of the five Born legs, numbered from one. */
  const DIPOLES: seq<(nat, nat)> :=
    [(1, 2), (1, 3), (1, 4), (1, 5), (2, 3), (2, 4), (2, 5), (3, 4), (3, 5), (4, 5)]

  const ALPHA_S := 0.125

  /** Real parts of the public correlators: Born, spin projection and the dipoles by pair. */
  datatype Values = Values(born: real, spin: real, dipoles: map<(nat, nat), real>)

  /** Every pair of Born legs has its dipole. */
  predicate Complete(values: Values) {
    forall a: nat, b: nat :: 1 <= a < b <= 5 ==> (a, b) in values.dipoles
  }

  function Prefactor(pi: real): real {
    8.0 * pi * ALPHA_S
  }

  /** The soft counterterm carries the opposite sign of the eikonal sum. */
  function Subtracted(pi: real, total: real): real {
    -Prefactor(pi) * total
  }

  // ----- soft limit

  /** The eikonal weight of one dipole, from its three products. */
  function Weight(ab: real, aq: real, bq: real): Result<real, ArithmeticError> {
    if aq * bq == 0.0 then Err(DivisionByZero) else Ok(ab / (aq * bq))
  }

  function DipoleWeight(born: seq<Vec>, q: Vec, i: nat): Result<real, ArithmeticError>
    requires |born| == 5 && i < |DIPOLES|
  {
    var pa, pb := born[DIPOLES[i].0 - 1], born[DIPOLES[i].1 - 1];
    Weight(Dot(pa, pb), Dot(pa, q), Dot(pb, q))
  }

  /** The eikonal sum over the first `n` dipoles; fails where a weight does. */
  function EikonalSum(born: seq<Vec>, q: Vec, values: Values, n: nat): Result<real, ArithmeticError>
    requires |born| == 5 && Complete(values) && n <= |DIPOLES|
  {
    if n == 0 then Ok(0.0)
    else
      match EikonalSum(born, q, values, n - 1)
      case Err(e) => Err(e)
      case Ok(total) =>
        match DipoleWeight(born, q, n - 1)
        case Err(e) => Err(e)
        case Ok(weight) => Ok(Accumulate(total, weight, values.dipoles[DIPOLES[n - 1]]))
  }

  function Accumulate(total: real, weight: real, dipole: real): real {
    total + weight * 6.0 * dipole
  }

  function SoftCounterterm(born: seq<Vec>, q: Vec, values: Values, pi: real): Result<real, ArithmeticError>
    requires |born| == 5 && Complete(values)
  {
    match EikonalSum(born, q, values, |DIPOLES|)
    case Err(e) => Err(e)
    case Ok(total) => Ok(Subtracted(pi, total))
  }

  // ----- collinear limit

  function SplittingKernel(z: real, b: real, spin: real): real
    requires z != 0.0 && z != 1.0
  {
    var a := z / (1.0 - z) + (1.0 - z) / z;
    6.0 * (a * b + 2.0 * z * (1.0 - z) * spin)
  }

  function CollinearCounterterm(z: real, sij: real, values: Values, pi: real): Result<real, ArithmeticError> {
    if z == 0.0 || z == 1.0 || sij == 0.0 then Err(DivisionByZero)
    else Ok(Prefactor(pi) / sij * SplittingKernel(z, 6.0 * values.born, 6.0 * values.spin))
  }

  function LocalCounterterm(limit: string, source: Source, values: Values, pi: real): Result<real, ArithmeticError>
    requires |source.born| == 5 && |source.point| == 6 && Complete(values)
  {
    if limit == "collinear" then CollinearCounterterm(source.z, source.sij, values, pi)
    else SoftCounterterm(source.born, source.point[3], values, pi)
  }

  /** The accumulation loop of the soft branch, against the specification above. */
  method EvaluateCounterterm(limit: string, source: Source, values: Values, pi: real)
    returns (result: Result<real, ArithmeticError>)
    requires |source.born| == 5 && |source.point| == 6 && Complete(values)
    ensures result == LocalCounterterm(limit, source, values, pi)
  {
    hide Dot, Accumulate, DipoleWeight, Subtracted;
    if limit == "collinear" {
      return CollinearCounterterm(source.z, source.sij, values, pi);
    }
    var soft := source.point[3];
    var total := 0.0;
    for i := 0 to |DIPOLES|
      invariant EikonalSum(source.born, soft, values, i) == Ok(total)
    {
      var weight := DipoleWeight(source.born, soft, i);
      if weight.Err? {
        FailureSticks(source.born, soft, values, i + 1, |DIPOLES|);
        return Err(weight.error);
      }
      total := Accumulate(total, weight.value, values.dipoles[DIPOLES[i]]);
    }
    return Ok(Subtracted(pi, total));
  }

  lemma {:induction false} FailureSticks(born: seq<Vec>, q: Vec, values: Values, i: nat, n: nat)
    requires |born| == 5 && Complete(values) && i <= n <= |DIPOLES|
    requires EikonalSum(born, q, values, i).Err?
    ensures EikonalSum(born, q, values, n) == EikonalSum(born, q, values, i)
  {
    if i < n {
      FailureSticks(born, q, values, i, n - 1);
    }
  }

  /** The azimuthally averaged collinear counterterm reported beside the local one. */
  function AveragedCounterterm(z: real, sij: real, born: real, pi: real): real
    requires z != 0.0 && z != 1.0 && sij != 0.0
  {
    var pgg := 6.0 * (z / (1.0 - z) + (1.0 - z) / z + z * (1.0 - z));
    Prefactor(pi) / sij * pgg * (6.0 * born)
  }

  /** A spin projection of half the Born term turns the local counterterm into the averaged one. */
  lemma LocalAverages(z: real, sij: real, values: Values, pi: real)
    requires z != 0.0 && z != 1.0 && sij != 0.0 && values.spin == values.born / 2.0
    ensures CollinearCounterterm(z, sij, values, pi).Ok?
    ensures CollinearCounterterm(z, sij, values, pi).value == AveragedCounterterm(z, sij, values.born, pi)
  {
  }

  // ----- homogeneity of the eikonal sum

  /** One result is another one divided by `square`, or both fail alike. */
  predicate ScaledResult(scaled: Result<real, ArithmeticError>, result: Result<real, ArithmeticError>, square: real) {
    && (scaled.Ok? <==> result.Ok?)
    && (result.Ok? ==> scaled.value * square == result.value)
    && (result.Err? ==> scaled == result)
  }

  lemma WeightScales(ab: real, aq: real, bq: real, delta: real, aq': real, bq': real)
    requires delta != 0.0 && aq' == delta * aq && bq' == delta * bq
    ensures ScaledResult(Weight(ab, aq', bq'), Weight(ab, aq, bq), delta * delta)
  {
    var d, e := aq * bq, aq' * bq';
    assert e == (delta * delta) * d;
    NonzeroProduct(delta, delta);
    if d != 0.0 {
      NonzeroProduct(delta * delta, d);
      var w := ab / e;
      assert w * e == ab;
      assert (w * (delta * delta)) * d == ab;
      Quotient(w * (delta * delta), d);
    }
  }

  lemma DipoleWeightScales(born: seq<Vec>, r: Vec, delta: real, i: nat)
    requires |born| == 5 && i < |DIPOLES| && delta != 0.0
    ensures ScaledResult(DipoleWeight(born, Scale(delta, r), i), DipoleWeight(born, r, i), delta * delta)
  {
    hide Dot, Weight;
    var pa, pb := born[DIPOLES[i].0 - 1], born[DIPOLES[i].1 - 1];
    var q := Scale(delta, r);
    ScaledProduct(pa, r, delta);
    ScaledProduct(pb, r, delta);
    WeightScales(Dot(pa, pb), Dot(pa, r), Dot(pb, r), delta, Dot(pa, q), Dot(pb, q));
  }

  lemma ScaledProduct(p: Vec, r: Vec, delta: real)
    ensures Dot(p, Scale(delta, r)) == delta * Dot(p, r)
  {
  }

  /** The eikonal sum is homogeneous of degree -2 in the soft momentum: for every momentum
      and every non-zero scale it fails or succeeds alike, with the value scaled. */
  lemma {:induction false} EikonalScales(born: seq<Vec>, r: Vec, delta: real, values: Values, n: nat)
    requires |born| == 5 && Complete(values) && n <= |DIPOLES| && delta != 0.0
    ensures ScaledResult(EikonalSum(born, Scale(delta, r), values, n), EikonalSum(born, r, values, n), delta * delta)
  {
    hide DipoleWeight, Scale;
    if n > 0 {
      EikonalScales(born, r, delta, values, n - 1);
      DipoleWeightScales(born, r, delta, n - 1);
      if EikonalSum(born, r, values, n).Ok? {
        TermScales(EikonalSum(born, Scale(delta, r), values, n - 1).value,
                   DipoleWeight(born, Scale(delta, r), n - 1).value, values.dipoles[DIPOLES[n - 1]], delta * delta);
      }
    }
  }

  /** The eikonal sum is defined exactly when the momentum has a non-zero product with every
      Born leg. */
  lemma EikonalDefined(born: seq<Vec>, q: Vec, values: Values)
    requires |born| == 5 && Complete(values)
    ensures EikonalSum(born, q, values, |DIPOLES|).Ok? <==> forall i :: 0 <= i < 5 ==> Dot(born[i], q) != 0.0
  {
    hide Dot;
    WeightsDefine(born, q, values, |DIPOLES|);
    forall i: nat | i < |DIPOLES|
      ensures DipoleWeight(born, q, i).Ok?
         <==> Dot(born[DIPOLES[i].0 - 1], q) != 0.0 && Dot(born[DIPOLES[i].1 - 1], q) != 0.0
    {
      WeightDefined(Dot(born[DIPOLES[i].0 - 1], born[DIPOLES[i].1 - 1]), Dot(born[DIPOLES[i].0 - 1], q),
                    Dot(born[DIPOLES[i].1 - 1], q));
    }
    assert forall i: nat :: i < 4 ==> DIPOLES[i] == (1, i + 2);
    if EikonalSum(born, q, values, |DIPOLES|).Ok? {
      forall i | 0 <= i < 5 ensures Dot(born[i], q) != 0.0 {
        var dipole: nat := if i == 0 then 0 else i - 1;
        assert DipoleWeight(born, q, dipole).Ok?;
      }
    }
  }

  lemma {:induction false} WeightsDefine(born: seq<Vec>, q: Vec, values: Values, n: nat)
    requires |born| == 5 && Complete(values) && n <= |DIPOLES|
    ensures EikonalSum(born, q, values, n).Ok? <==> forall i: nat :: i < n ==> DipoleWeight(born, q, i).Ok?
  {
    hide DipoleWeight;
    if n > 0 {
      WeightsDefine(born, q, values, n - 1);
    }
  }

  lemma WeightDefined(ab: real, aq: real, bq: real)
    ensures Weight(ab, aq, bq).Ok? <==> aq != 0.0 && bq != 0.0
  {
    if aq != 0.0 && bq != 0.0 {
      NonzeroProduct(aq, bq);
    }
  }

  lemma TermScales(total: real, weight: real, t: real, square: real)
    ensures Accumulate(total, weight, t) * square == Accumulate(total * square, weight * square, t)
  {
  }

  // ----- the trajectories

  lemma SoftComponent(p: real, s: real, r: real, delta: real, z: real, y: real, a: real, b: real,
                      k: real, m: real, pj: real)
    requires z == 1.0 - delta * a && z * y == delta * b
    requires Combined(1.0, r, -a, p, -b, s, m) && Multiplied(-delta, m, k)
    requires Combined(1.0 - z, p, y * z, s, -1.0, k, pj)
    ensures Multiplied(delta, r, pj)
  {
  }

  /** The emitted momentum of a soft splitting is exactly delta times the soft direction. */
  lemma EmittedIsSoft(p: Vec, s: Vec, r: Vec, k: Vec, delta: real, z: real, y: real, a: real, b: real)
    requires z == 1.0 - delta * a && z * y == delta * b
    requires k == Linear([(-delta, Linear([(1.0, r), (-a, p), (-b, s)]))])
    ensures Split(p, s, k, z, y).pj == Scale(delta, r)
  {
    hide Linear, Combines, Multiplies, Scale;
    var perp := Linear([(1.0, r), (-a, p), (-b, s)]);
    var t := Split(p, s, k, z, y);
    LinearComponents(1.0, r, -a, p, -b, s, perp);
    ScaledComponents(-delta, perp, k);
    LinearComponents(1.0 - z, p, y * z, s, -1.0, k, t.pj);
    EmittedComponents(p, s, r, delta, z, y, a, b, k, perp, t.pj);
    MultipliesIsScale(delta, r, t.pj);
  }

  lemma EmittedComponents(p: Vec, s: Vec, r: Vec, delta: real, z: real, y: real, a: real, b: real,
                          k: Vec, m: Vec, pj: Vec)
    requires z == 1.0 - delta * a && z * y == delta * b
    requires Combines(1.0, r, -a, p, -b, s, m) && Multiplies(-delta, m, k)
    requires Combines(1.0 - z, p, y * z, s, -1.0, k, pj)
    ensures Multiplies(delta, r, pj)
  {
    hide Combined, Multiplied;
    SoftComponent(p.t, s.t, r.t, delta, z, y, a, b, k.t, m.t, pj.t);
    SoftComponent(p.x, s.x, r.x, delta, z, y, a, b, k.x, m.x, pj.x);
    SoftComponent(p.y, s.y, r.y, delta, z, y, a, b, k.y, m.y, pj.y);
    SoftComponent(p.z, s.z, r.z, delta, z, y, a, b, k.z, m.z, pj.z);
  }

  lemma ScaledComponents(c: real, p: Vec, v: Vec)
    requires v == Linear([(c, p)])
    ensures Multiplies(c, p, v)
  {
  }
}
