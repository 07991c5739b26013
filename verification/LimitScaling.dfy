/** Leading-power behaviour of both counterterms along the trajectories of the study. */
module LimitScaling {
  import opened Prelude
  import opened FourVectors
  import opened DipoleMap
  import opened Trajectory
  import opened Approach
  import opened Counterterm

  // ----- soft limit

  /** Along the soft trajectory the emitted momentum is exactly delta times a fixed one. */
  lemma SoftEmission(g: Geometry, delta: real)
    requires Regular(g) && 0.0 < delta <= 0.1
    ensures var source := ApproachFrom(g, "soft", delta);
            && source.Ok? && |source.value.point| == 6 && source.value.born == g.born
            && source.value.point[3] == Scale(delta, SoftDirection(g.e1))
  {
    hide Dot, Exact, SoftDirection, OnShell, SoftSplitting, TransverseSpin, Scale, Linear, PointChecks, ForwardMap,
         Splittable;
    var p, s, r := g.born[2], g.born[3], SoftDirection(g.e1);
    RegularPoint("soft", g, delta);
    ExactShape(ApproachFrom(g, "soft", delta).value, g.born, delta);
    SoftSplits(p, s, r, delta, Dot(p, s));
    var sp := SoftSplitting(p, s, r, delta).value;
    EmittedIsSoft(p, s, r, sp.transverse, delta, sp.z, sp.y, 585.0 / 832.0, 13.0 / 8.0);
  }

  lemma ExactShape(source: Source, born: seq<Vec>, delta: real)
    requires Exact(source, born, delta)
    ensures source.born == born && |source.point| == 6
  {
  }

  /** A momentum that resolves every Born leg. */
  predicate Resolves(born: seq<Vec>, q: Vec) {
    forall i :: 0 <= i < |born| ==> Dot(born[i], q) > 0.0
  }

  /** No Born leg is collinear with the soft direction: no eikonal denominator vanishes. */
  lemma SoftResolvesBorn()
    ensures var g := BornGeometry(); Resolves(g.born, SoftDirection(g.e1))
  {
  }

  function SoftLeading(g: Geometry, values: Values, pi: real): real
    requires |g.born| == 5 && Complete(values)
    requires EikonalSum(g.born, SoftDirection(g.e1), values, |DIPOLES|).Ok?
  {
    Subtracted(pi, EikonalSum(g.born, SoftDirection(g.e1), values, |DIPOLES|).value)
  }

  lemma SubtractedScales(pi: real, total: real, square: real, scaled: real)
    requires total * square == scaled
    ensures Subtracted(pi, total) * square == Subtracted(pi, scaled)
  {
  }

  lemma SoftScaling(g: Geometry, delta: real, values: Values, pi: real)
    requires Regular(g) && 0.0 < delta <= 0.1 && Complete(values)
    requires Resolves(g.born, SoftDirection(g.e1))
    ensures var source := ApproachFrom(g, "soft", delta);
            && source.Ok? && |source.value.point| == 6 && |source.value.born| == 5
            && EikonalSum(g.born, SoftDirection(g.e1), values, |DIPOLES|).Ok?
            && LocalCounterterm("soft", source.value, values, pi).Ok?
            && LocalCounterterm("soft", source.value, values, pi).value * (delta * delta)
               == SoftLeading(g, values, pi)
  {
    hide Dot, SoftDirection, OnShell, ApproachFrom, TransverseSpin, WideAngle, BornPair, Scale, EikonalSum, Subtracted;
    var r := SoftDirection(g.e1);
    SoftEmission(g, delta);
    EikonalDefined(g.born, r, values);
    EikonalScales(g.born, r, delta, values, |DIPOLES|);
    SubtractedScales(pi, EikonalSum(g.born, Scale(delta, r), values, |DIPOLES|).value, delta * delta,
                     EikonalSum(g.born, r, values, |DIPOLES|).value);
  }

  // ----- collinear limit

  /** s_ij / delta^2 along the collinear trajectory. */
  const COLLINEAR_MASS := 2.0 * (2925.0 / 192.0 * (16000000.0 / 117.0))

  lemma CollinearMass(g: Geometry, delta: real)
    requires Regular(g) && 0.0 < delta <= 0.1
    ensures var source := ApproachFrom(g, "collinear", delta);
            && source.Ok? && |source.value.point| == 6 && source.value.born == g.born
            && source.value.z == 0.6
            && source.value.sij == delta * (delta * COLLINEAR_MASS)
  {
    hide Dot, Exact, SpinVector, OnShell, CollinearSplitting, WideAngle, Linear, Split, ForwardMap, PointChecks;
    var p, s, e := g.born[2], g.born[3], SpinVector(g);
    var v, ps := 2925.0 / 192.0 * delta, Dot(p, s);
    LimitPhysical("collinear", g, delta);
    RegularPoint("collinear", g, delta);
    ExactShape(ApproachFrom(g, "collinear", delta).value, g.born, delta);
    CollinearSplits(p, s, e, delta, ps, v);
    var sp := CollinearSplitting(p, s, e, delta);
    SplitThenMerge(g.born, sp.transverse, sp.z, sp.y, ps);
    MassScalar(delta, v, sp.y, ps);
  }

  lemma MassScalar(delta: real, v: real, y: real, ps: real)
    requires v == 2925.0 / 192.0 * delta && y == delta * v && ps == 16000000.0 / 117.0
    ensures 2.0 * (y * ps) == delta * (delta * COLLINEAR_MASS)
  {
  }

  function CollinearLeading(values: Values, pi: real): real {
    Prefactor(pi) / COLLINEAR_MASS * SplittingKernel(0.6, 6.0 * values.born, 6.0 * values.spin)
  }

  lemma InverseMassScales(f: real, kernel: real, delta: real, mass: real, sij: real)
    requires delta > 0.0 && mass > 0.0 && sij == delta * (delta * mass)
    ensures sij != 0.0
    ensures f / sij * kernel * (delta * delta) == f / mass * kernel
  {
    PositiveProduct(delta, mass);
    PositiveProduct(delta, delta * mass);
    var a := f / sij;
    assert a * sij == f;
    assert a * sij == (a * (delta * delta)) * mass;
    Quotient(a * (delta * delta), mass);
    assert f / sij * kernel * (delta * delta) == (a * (delta * delta)) * kernel;
  }

  lemma CollinearScaling(g: Geometry, delta: real, values: Values, pi: real)
    requires Regular(g) && 0.0 < delta <= 0.1 && Complete(values)
    ensures var source := ApproachFrom(g, "collinear", delta);
            && source.Ok? && |source.value.point| == 6 && |source.value.born| == 5
            && LocalCounterterm("collinear", source.value, values, pi).Ok?
            && LocalCounterterm("collinear", source.value, values, pi).value * (delta * delta)
               == CollinearLeading(values, pi)
  {
    hide OnShell, ApproachFrom, TransverseSpin, WideAngle, BornPair, SplittingKernel, Prefactor;
    CollinearMass(g, delta);
    InverseMassScales(Prefactor(pi), SplittingKernel(0.6, 6.0 * values.born, 6.0 * values.spin), delta,
                      COLLINEAR_MASS, ApproachFrom(g, "collinear", delta).value.sij);
  }

  // ----- both limits

  lemma LimitScaling(limit: string, exponent: int, digits: int, values: Values, pi: real)
    requires limit == "collinear" || limit == "soft"
    requires exponent >= 1 && digits >= 16 && Complete(values)
    ensures var source := MakePoint(limit, exponent, digits); var delta := 1.0 / Pow10(exponent);
            && source.Ok? && |source.value.point| == 6 && |source.value.born| == 5
            && LocalCounterterm(limit, source.value, values, pi).Ok?
            && EikonalSum(BornGeometry().born, SoftDirection(BornGeometry().e1), values, |DIPOLES|).Ok?
            && LocalCounterterm(limit, source.value, values, pi).value * (delta * delta)
               == if limit == "collinear" then CollinearLeading(values, pi)
                  else SoftLeading(BornGeometry(), values, pi)
  {
    hide Dot, Regular, ApproachFrom, BornGeometry, SoftDirection, Resolves, EikonalSum, SoftLeading,
         CollinearLeading, LocalCounterterm, Pow10;
    var g, delta := BornGeometry(), 1.0 / Pow10(exponent);
    SmallDelta(exponent);
    BornIsRegular();
    SoftResolvesBorn();
    SoftScaling(g, delta, values, pi);
    if limit == "collinear" {
      CollinearScaling(g, delta, values, pi);
    }
  }

  /**
   * With fixed correlators both counterterms grow exactly as delta^-2 along their
   * trajectories: at any two exponents the counterterm times delta^2 is the same.
   */
  lemma InverseSquareGrowth(limit: string, m: int, n: int, digits: int, values: Values, pi: real)
    requires limit == "collinear" || limit == "soft"
    requires m >= 1 && n >= 1 && digits >= 16 && Complete(values)
    ensures var near, far := MakePoint(limit, m, digits), MakePoint(limit, n, digits);
            var dm, dn := 1.0 / Pow10(m), 1.0 / Pow10(n);
            && near.Ok? && |near.value.point| == 6 && |near.value.born| == 5
            && far.Ok? && |far.value.point| == 6 && |far.value.born| == 5
            && LocalCounterterm(limit, near.value, values, pi).Ok?
            && LocalCounterterm(limit, far.value, values, pi).Ok?
            && LocalCounterterm(limit, near.value, values, pi).value * (dm * dm)
               == LocalCounterterm(limit, far.value, values, pi).value * (dn * dn)
  {
    hide Dot, MakePoint, LocalCounterterm, EikonalSum, BornGeometry, SoftDirection, SoftLeading, CollinearLeading,
         Pow10;
    LimitScaling(limit, m, digits, values, pi);
    LimitScaling(limit, n, digits, values, pi);
  }
}
