/**
 * The values of both counterterms, written out in the products and correlators they are
 * made of.
 */
module CountertermValues {
  import opened Prelude
  import opened FourVectors
  import opened DipoleMap
  import opened Trajectory
  import opened Counterterm

  // ----- soft limit

  /** The values with one dipole only. */
  function OneDipole(a: nat, b: nat, t: real): (values: Values)
    requires 1 <= a < b <= 5
    ensures Complete(values)
    ensures forall i: nat, j: nat :: 1 <= i < j <= 5 ==>
              values.dipoles[(i, j)] == if i == a && j == b then t else 0.0
  {
    Values(0.0, 0.0, map i: nat, j: nat | 1 <= i < j <= 5 :: (i, j) := if i == a && j == b then t else 0.0)
  }

  /** A momentum with a non-zero product with every Born leg. */
  predicate Separated(born: seq<Vec>, q: Vec) {
    forall i :: 0 <= i < |born| ==> Dot(born[i], q) != 0.0
  }

  /** Every pair of legs is one of the dipoles. */
  lemma PairListed(a: nat, b: nat) returns (k: nat)
    requires 1 <= a < b <= 5
    ensures k < |DIPOLES| && DIPOLES[k] == (a, b)
    ensures forall i :: 0 <= i < |DIPOLES| && DIPOLES[i] == (a, b) ==> i == k
  {
    k := if a == 1 then b - 2 else if a == 2 then b + 1 else if a == 3 then b + 3 else 9;
  }

  /** One step of the sum, from the sum before it. */
  lemma EikonalStep(born: seq<Vec>, q: Vec, values: Values, n: nat, dipole: real)
    requires |born| == 5 && Complete(values) && n < |DIPOLES| && dipole == values.dipoles[DIPOLES[n]]
    ensures EikonalSum(born, q, values, n + 1)
         == match EikonalSum(born, q, values, n)
            case Err(e) => Err(e)
            case Ok(total) =>
              match DipoleWeight(born, q, n)
              case Err(e) => Err(e)
              case Ok(weight) => Ok(Accumulate(total, weight, dipole))
  {
  }

  lemma DipoleRange(n: nat)
    requires n < |DIPOLES|
    ensures 1 <= DIPOLES[n].0 < DIPOLES[n].1 <= 5 && DIPOLES[n] == (DIPOLES[n].0, DIPOLES[n].1)
  {
  }

  lemma OneDipoleAt(a: nat, b: nat, t: real, k: nat, n: nat)
    requires 1 <= a < b <= 5 && n < |DIPOLES|
    requires k < |DIPOLES| && DIPOLES[k] == (a, b)
    requires forall i :: 0 <= i < |DIPOLES| && DIPOLES[i] == (a, b) ==> i == k
    ensures Complete(OneDipole(a, b, t)) && DIPOLES[n] in OneDipole(a, b, t).dipoles
    ensures OneDipole(a, b, t).dipoles[DIPOLES[n]] == if n == k then t else 0.0
  {
    hide OneDipole;
    DipoleRange(n);
  }

  lemma Terms(total: real, weight: real, t: real)
    ensures Accumulate(total, weight, 0.0) == total
    ensures Accumulate(0.0, weight, t) == 6.0 * (weight * t)
  {
  }

  /** With one dipole the sum has one term. */
  lemma {:induction false} OneTerm(born: seq<Vec>, q: Vec, a: nat, b: nat, t: real, k: nat, n: nat, weight: real)
    requires |born| == 5 && 1 <= a < b <= 5 && n <= |DIPOLES|
    requires k < |DIPOLES| && DIPOLES[k] == (a, b) && DipoleWeight(born, q, k) == Ok(weight)
    requires forall i :: 0 <= i < |DIPOLES| && DIPOLES[i] == (a, b) ==> i == k
    requires forall i: nat :: i < |DIPOLES| ==> DipoleWeight(born, q, i).Ok?
    ensures EikonalSum(born, q, OneDipole(a, b, t), n).Ok?
    ensures EikonalSum(born, q, OneDipole(a, b, t), n).value == if k < n then 6.0 * (weight * t) else 0.0
  {
    hide DipoleWeight, Accumulate, OneDipole, Complete;
    if n > 0 {
      hide EikonalSum;
      OneTerm(born, q, a, b, t, k, n - 1, weight);
      OneDipoleAt(a, b, t, k, n - 1);
      EikonalStep(born, q, OneDipole(a, b, t), n - 1, if n - 1 == k then t else 0.0);
      Terms(EikonalSum(born, q, OneDipole(a, b, t), n - 1).value, DipoleWeight(born, q, n - 1).value, t);
    }
  }

  lemma WeightProduct(ab: real, aq: real, bq: real)
    requires aq != 0.0 && bq != 0.0
    ensures Weight(ab, aq, bq).Ok? && Weight(ab, aq, bq).value * (aq * bq) == ab
  {
    NonzeroProduct(aq, bq);
  }

  lemma SoftScalar(pi: real, weight: real, t: real, products: real, ab: real)
    requires weight * products == ab
    ensures Subtracted(pi, 6.0 * (weight * t)) * products == -6.0 * pi * ab * t
  {
    assert Subtracted(pi, 6.0 * (weight * t)) == -6.0 * pi * (weight * t);
    assert pi * (weight * t) * products == pi * t * (weight * products);
  }

  lemma WeightOf(born: seq<Vec>, q: Vec, a: nat, b: nat, k: nat) returns (weight: real)
    requires |born| == 5 && 1 <= a < b <= 5 && Separated(born, q) && k < |DIPOLES| && DIPOLES[k] == (a, b)
    ensures DipoleWeight(born, q, k) == Ok(weight)
    ensures weight * (Dot(born[a - 1], q) * Dot(born[b - 1], q)) == Dot(born[a - 1], born[b - 1])
  {
    hide Dot, Weight;
    var pa, pb := born[a - 1], born[b - 1];
    WeightProduct(Dot(pa, pb), Dot(pa, q), Dot(pb, q));
    weight := Weight(Dot(pa, pb), Dot(pa, q), Dot(pb, q)).value;
  }

  lemma SeparatedDipole(born: seq<Vec>, q: Vec, a: nat, b: nat, t: real, pi: real)
    requires |born| == 5 && 1 <= a < b <= 5 && Separated(born, q)
    ensures var soft := SoftCounterterm(born, q, OneDipole(a, b, t), pi);
            && soft.Ok?
            && soft.value * (Dot(born[a - 1], q) * Dot(born[b - 1], q))
               == -6.0 * pi * Dot(born[a - 1], born[b - 1]) * t
  {
    hide Dot, Weight, DipoleWeight, Subtracted, EikonalSum, OneDipole, Complete;
    EikonalDefined(born, q, OneDipole(a, b, t));
    WeightsDefine(born, q, OneDipole(a, b, t), |DIPOLES|);
    var k := PairListed(a, b);
    var weight := WeightOf(born, q, a, b, k);
    OneTerm(born, q, a, b, t, k, |DIPOLES|, weight);
    SoftScalar(pi, weight, t, Dot(born[a - 1], q) * Dot(born[b - 1], q), Dot(born[a - 1], born[b - 1]));
  }

  /**
   * One dipole of value t contributes -6 pi t times its eikonal weight: the product of the
   * two legs over their products with the emitted momentum.
   */
  lemma OneDipoleValue(born: seq<Vec>, q: Vec, a: nat, b: nat, t: real, pi: real)
    requires |born| == 5 && 1 <= a < b <= 5
    ensures var soft := SoftCounterterm(born, q, OneDipole(a, b, t), pi);
            && (soft.Ok? <==> Separated(born, q))
            && (soft.Ok? ==>
                  soft.value * (Dot(born[a - 1], q) * Dot(born[b - 1], q))
                  == -6.0 * pi * Dot(born[a - 1], born[b - 1]) * t)
  {
    hide Dot, Weight, Subtracted;
    EikonalDefined(born, q, OneDipole(a, b, t));
    if Separated(born, q) {
      SeparatedDipole(born, q, a, b, t, pi);
    }
  }

  /** Dipole by dipole addition; the other correlators do not enter the soft counterterm. */
  function SumOfDipoles(v: Values, w: Values): (values: Values)
    requires Complete(v) && Complete(w)
    ensures Complete(values)
  {
    Values(v.born, w.spin, map i: nat, j: nat | 1 <= i < j <= 5 :: (i, j) := v.dipoles[(i, j)] + w.dipoles[(i, j)])
  }

  lemma SumAt(v: Values, w: Values, n: nat)
    requires Complete(v) && Complete(w) && n < |DIPOLES|
    ensures DIPOLES[n] in v.dipoles && DIPOLES[n] in w.dipoles && DIPOLES[n] in SumOfDipoles(v, w).dipoles
    ensures SumOfDipoles(v, w).dipoles[DIPOLES[n]] == v.dipoles[DIPOLES[n]] + w.dipoles[DIPOLES[n]]
  {
  }

  lemma AccumulateAdds(x: real, y: real, weight: real, s: real, t: real)
    ensures Accumulate(x + y, weight, s + t) == Accumulate(x, weight, s) + Accumulate(y, weight, t)
  {
  }

  lemma {:induction false} EikonalAdds(born: seq<Vec>, q: Vec, v: Values, w: Values, n: nat)
    requires |born| == 5 && Complete(v) && Complete(w) && n <= |DIPOLES|
    ensures var sum := EikonalSum(born, q, SumOfDipoles(v, w), n);
            var left, right := EikonalSum(born, q, v, n), EikonalSum(born, q, w, n);
            && (sum.Ok? <==> left.Ok?) && (sum.Ok? <==> right.Ok?)
            && (sum.Ok? ==> sum.value == left.value + right.value)
            && (sum.Err? ==> sum == left == right)
  {
    hide DipoleWeight, Accumulate, SumOfDipoles, Complete;
    if n > 0 {
      hide EikonalSum;
      EikonalAdds(born, q, v, w, n - 1);
      SumAt(v, w, n - 1);
      var s, t := v.dipoles[DIPOLES[n - 1]], w.dipoles[DIPOLES[n - 1]];
      EikonalStep(born, q, SumOfDipoles(v, w), n - 1, s + t);
      EikonalStep(born, q, v, n - 1, s);
      EikonalStep(born, q, w, n - 1, t);
      if EikonalSum(born, q, v, n - 1).Ok? && DipoleWeight(born, q, n - 1).Ok? {
        AccumulateAdds(EikonalSum(born, q, v, n - 1).value, EikonalSum(born, q, w, n - 1).value,
                       DipoleWeight(born, q, n - 1).value, s, t);
      }
    }
  }

  lemma SubtractedAdds(pi: real, a: real, b: real)
    ensures Subtracted(pi, a + b) == Subtracted(pi, a) + Subtracted(pi, b)
  {
  }

  /** The soft counterterm is additive in the dipoles. With the single contributions this
      determines it. */
  lemma SoftAdds(born: seq<Vec>, q: Vec, v: Values, w: Values, pi: real)
    requires |born| == 5 && Complete(v) && Complete(w)
    ensures var sum := SoftCounterterm(born, q, SumOfDipoles(v, w), pi);
            var left, right := SoftCounterterm(born, q, v, pi), SoftCounterterm(born, q, w, pi);
            && (sum.Ok? <==> left.Ok? && right.Ok?)
            && (sum.Ok? ==> sum.value == left.value + right.value)
  {
    hide EikonalSum, SumOfDipoles, Complete, Subtracted;
    EikonalAdds(born, q, v, w, |DIPOLES|);
    if EikonalSum(born, q, v, |DIPOLES|).Ok? {
      SubtractedAdds(pi, EikonalSum(born, q, v, |DIPOLES|).value, EikonalSum(born, q, w, |DIPOLES|).value);
    }
  }

  // ----- collinear limit

  lemma CollinearScalar(f: real, sij: real, kernel: real, zx: real, pi: real)
    requires f * sij == pi
    ensures f * kernel * sij * zx == pi * (kernel * zx)
  {
    assert f * kernel * sij == pi * kernel;
  }

  lemma KernelCleared(z: real, x: real, b: real, spin: real, kernel: real)
    requires z != 0.0 && x != 0.0 && x == 1.0 - z && kernel == SplittingKernel(z, b, spin)
    ensures kernel * (z * x) == 6.0 * ((z * z + x * x) * b + 2.0 * (z * x) * (z * x) * spin)
  {
    var u, w := z / x, x / z;
    assert u * x == z && w * z == x;
    assert kernel == 6.0 * ((u + w) * b + 2.0 * z * x * spin);
    assert (u + w) * (z * x) == (u * x) * z + (w * z) * x;
    assert (u + w) * b * (z * x) == (z * z + x * x) * b;
  }

  lemma CollinearCleared(z: real, sij: real, values: Values, pi: real)
    requires z != 0.0 && z != 1.0 && sij != 0.0
    ensures CollinearCounterterm(z, sij, values, pi).value * sij * (z * (1.0 - z))
         == 36.0 * pi * ((z * z + (1.0 - z) * (1.0 - z)) * values.born
                         + 2.0 * (z * (1.0 - z)) * (z * (1.0 - z)) * values.spin)
  {
    var x, b, spin := 1.0 - z, 6.0 * values.born, 6.0 * values.spin;
    var kernel := SplittingKernel(z, b, spin);
    var f := pi / sij;
    assert f * sij == pi;
    assert Prefactor(pi) / sij == f;
    KernelCleared(z, x, b, spin, kernel);
    assert CollinearCounterterm(z, sij, values, pi).value == f * kernel;
    CollinearScalar(f, sij, kernel, z * x, pi);
  }

  /**
   * The collinear counterterm, with its denominators cleared: the Born term carries
   * z^2 + (1-z)^2 and the spin projection 2 z^2 (1-z)^2.
   */
  lemma CollinearValue(z: real, sij: real, values: Values, pi: real)
    ensures var collinear := CollinearCounterterm(z, sij, values, pi);
            && (collinear.Ok? <==> z != 0.0 && z != 1.0 && sij != 0.0)
            && (collinear.Ok? ==>
                  collinear.value * sij * (z * (1.0 - z))
                  == 36.0 * pi * ((z * z + (1.0 - z) * (1.0 - z)) * values.born
                                  + 2.0 * (z * (1.0 - z)) * (z * (1.0 - z)) * values.spin))
  {
    if z != 0.0 && z != 1.0 && sij != 0.0 {
      CollinearCleared(z, sij, values, pi);
    }
  }
}
