/**
 * Both trajectories of the study stay physical for every exponent: the splitting variables
 * lie in (0,1), every leg is massless with positive energy, momentum is conserved, and the
 * forward map returns the Born point and the splitting variables exactly.
 */
module Approach {
  import opened Prelude
  import opened FourVectors
  import opened DipoleMap
  import opened Trajectory

  // ----- the transverse vectors

  /** A space-like unit vector orthogonal to parent and spectator. */
  predicate TransverseSpin(e: Vec, p: Vec, s: Vec) {
    Dot(e, p) == 0.0 && Dot(e, s) == 0.0 && Dot(e, e) == -1.0 && e.t == 0.4
  }

  lemma SpinIsTransverse()
    ensures var g := BornGeometry(); TransverseSpin(SpinVector(g), g.born[2], g.born[3])
  {
  }

  lemma ScaledProducts(c: real, e: Vec, p: Vec, s: Vec, k: Vec)
    requires k == Linear([(c, e)]) && Dot(e, p) == 0.0 && Dot(e, s) == 0.0
    ensures Dot(k, p) == 0.0 && Dot(k, s) == 0.0 && Dot(k, k) == c * (c * Dot(e, e))
  {
    Linear1(c, e);
    DotScale(c, e, p);
    DotScale(c, e, s);
    DotScale(c, e, k);
    DotSymmetric(e, k);
    DotScale(c, e, e);
  }

  lemma CollinearSplits(p: Vec, s: Vec, e: Vec, delta: real, ps: real, v: real)
    requires v == 2925.0 / 192.0 * delta
    requires Massless(p) && Massless(s) && ps == Dot(p, s) == 16000000.0 / 117.0
    requires Dot(e, p) == 0.0 && Dot(e, s) == 0.0 && Dot(e, e) == -1.0
    ensures var sp := CollinearSplitting(p, s, e, delta);
            && Splittable(p, s, sp.transverse, sp.z, sp.y)
            && sp.z == 0.6
            && sp.transverse == Linear([(delta * 1000.0, e)])
            && sp.y == delta * v
  {
    var sp := CollinearSplitting(p, s, e, delta);
    var kt := delta * 1000.0;
    ScaledProducts(kt, e, p, s, sp.transverse);
    CollinearScalars(delta, kt, ps, v);
  }

  lemma CollinearScalars(delta: real, kt: real, ps: real, v: real)
    requires kt == delta * 1000.0 && ps == 16000000.0 / 117.0 && v == 2925.0 / 192.0 * delta
    ensures var z := 3.0 / 5.0;
            var y := kt * kt / (2.0 * z * (1.0 - z) * ps);
            y == delta * v && kt * (kt * -1.0) == -2.0 * z * (1.0 - z) * y * ps
  {
  }

  // ----- the soft direction

  /** A massless direction with fixed products against parent and spectator. */
  predicate WideAngle(r: Vec, p: Vec, s: Vec) {
    && Massless(r) && r.t == 500.0
    && Dot(r, p) == 2000000.0 / 9.0
    && Dot(r, s) == 5000000.0 / 52.0
  }

  lemma SoftWithParent()
    ensures var g := BornGeometry(); Dot(SoftDirection(g.e1), g.born[2]) == 2000000.0 / 9.0
  {
  }

  lemma SoftWithSpectator()
    ensures var g := BornGeometry(); Dot(SoftDirection(g.e1), g.born[3]) == 5000000.0 / 52.0
  {
  }

  lemma SoftMassless()
    ensures var r := SoftDirection(BornGeometry().e1); Massless(r) && r.t == 500.0
  {
  }

  lemma SoftDirectionIsWide()
    ensures var g := BornGeometry(); WideAngle(SoftDirection(g.e1), g.born[2], g.born[3])
  {
    hide BornGeometry, SoftDirection, Dot, Massless;
    SoftMassless();
    SoftWithParent();
    SoftWithSpectator();
  }

  lemma PerpProducts(p: Vec, s: Vec, r: Vec, a: real, b: real, ps: real, perp: Vec)
    requires Massless(p) && Massless(s) && Massless(r) && ps == Dot(p, s)
    requires Dot(r, s) == a * ps && Dot(r, p) == b * ps
    requires perp == Linear([(1.0, r), (-a, p), (-b, s)])
    ensures Dot(perp, p) == 0.0 && Dot(perp, s) == 0.0 && Dot(perp, perp) == -2.0 * (a * b * ps)
  {
    hide Dot, Linear;
    Dot3(1.0, r, -a, p, -b, s, p);
    Dot3(1.0, r, -a, p, -b, s, s);
    Dot3(1.0, r, -a, p, -b, s, r);
    Dot3(1.0, r, -a, p, -b, s, perp);
    DotSymmetric(p, s);
    DotSymmetric(p, r);
    DotSymmetric(s, r);
    DotSymmetric(p, perp);
    DotSymmetric(s, perp);
    DotSymmetric(r, perp);
  }

  lemma SoftSplits(p: Vec, s: Vec, r: Vec, delta: real, ps: real)
    requires Massless(p) && Massless(s) && Massless(r) && ps == Dot(p, s) == 16000000.0 / 117.0
    requires Dot(r, p) == 2000000.0 / 9.0 && Dot(r, s) == 5000000.0 / 52.0
    requires 0.0 < delta <= 0.1
    ensures var result := SoftSplitting(p, s, r, delta);
            && result.Ok?
            && result.value.z == 1.0 - delta * (585.0 / 832.0)
            && result.value.z * result.value.y == delta * (13.0 / 8.0)
            && result.value.transverse
               == Linear([(-delta, Linear([(1.0, r), (-(585.0 / 832.0), p), (-(13.0 / 8.0), s)]))])
            && Splittable(p, s, result.value.transverse, result.value.z, result.value.y)
  {
    hide Dot, Linear;
    var perp := Linear([(1.0, r), (-(585.0 / 832.0), p), (-(13.0 / 8.0), s)]);
    assert Dot(r, s) / ps == 585.0 / 832.0 && Dot(r, p) / ps == 13.0 / 8.0;
    PerpProducts(p, s, r, 585.0 / 832.0, 13.0 / 8.0, ps, perp);
    var z := 1.0 - delta * (585.0 / 832.0);
    var y := delta * (13.0 / 8.0) / z;
    ScaledProducts(-delta, perp, p, s, Linear([(-delta, perp)]));
    assert z * y == delta * (13.0 / 8.0);
    SoftScalars(delta, z, y, ps);
  }

  lemma SoftScalars(delta: real, z: real, y: real, ps: real)
    requires z == 1.0 - delta * (585.0 / 832.0) && z * y == delta * (13.0 / 8.0)
    ensures -delta * (-delta * (-2.0 * (585.0 / 832.0 * (13.0 / 8.0) * ps))) == -2.0 * z * (1.0 - z) * y * ps
  {
  }

  // ----- energies and the physical domain

  lemma SmallDelta(exponent: int)
    requires exponent >= 1
    ensures 0.0 < 1.0 / Pow10(exponent) <= 0.1
  {
  }

  lemma PositiveProduct(a: real, b: real)
    requires a > 0.0 && b > 0.0
    ensures a * b > 0.0
  {
  }

  lemma EnergyScalars(p: real, s: real, k: real, z: real, y: real)
    requires 0.0 < y < 1.0 && s > 0.0 && 0.0 < z < 1.0
    requires z * p + k > 0.0 && (1.0 - z) * p - k > 0.0
    ensures z * p + (y * (1.0 - z) * s + 1.0 * k) > 0.0
    ensures (1.0 - z) * p + (y * z * s + -1.0 * k) > 0.0
    ensures (1.0 - y) * s > 0.0
  {
  }

  lemma SplitEnergies(p: Vec, s: Vec, k: Vec, z: real, y: real)
    requires 0.0 < y < 1.0 && s.t > 0.0 && 0.0 < z < 1.0
    requires z * p.t + k.t > 0.0 && (1.0 - z) * p.t - k.t > 0.0
    ensures var t := Split(p, s, k, z, y); t.pi.t > 0.0 && t.pj.t > 0.0 && t.pk.t > 0.0
  {
    hide Linear;
    EnergyScalars(p.t, s.t, k.t, z, y);
    LinearEnergy(z, p, y * (1.0 - z), s, 1.0, k);
    LinearEnergy(1.0 - z, p, y * z, s, -1.0, k);
    Linear1(1.0 - y, s);
  }

  lemma LinearEnergy(a: real, p: Vec, b: real, q: Vec, c: real, r: Vec)
    ensures Linear([(a, p), (b, q), (c, r)]).t == a * p.t + (b * q.t + c * r.t)
  {
    Linear3(a, p, b, q, c, r);
  }

  /** What both limits establish about the splitting they choose. */
  predicate Physical(p: Vec, s: Vec, sp: Splitting) {
    && 0.0 < sp.z < 1.0
    && 0.0 < sp.y < 1.0
    && Splittable(p, s, sp.transverse, sp.z, sp.y)
    && sp.z * p.t + sp.transverse.t > 0.0
    && (1.0 - sp.z) * p.t - sp.transverse.t > 0.0
  }

  /** The facts about parent and spectator both limits rely on. */
  predicate BornPair(p: Vec, s: Vec) {
    && Massless(p) && Massless(s)
    && p.t == 4000.0 / 9.0 && s.t == 5000.0 / 26.0
    && Dot(p, s) == 16000000.0 / 117.0
  }

  lemma CollinearPhysical(p: Vec, s: Vec, e: Vec, delta: real)
    requires BornPair(p, s) && 0.0 < delta <= 0.1
    requires TransverseSpin(e, p, s)
    ensures Physical(p, s, CollinearSplitting(p, s, e, delta))
  {
    hide Dot, Splittable, CollinearSplitting;
    var v := 2925.0 / 192.0 * delta;
    CollinearSplits(p, s, e, delta, Dot(p, s), v);
    CollinearDomain(delta, v, CollinearSplitting(p, s, e, delta).y);
    CollinearEnergy(e, delta);
  }

  lemma CollinearDomain(delta: real, v: real, y: real)
    requires 0.0 < delta <= 0.1 && v == 2925.0 / 192.0 * delta && y == delta * v
    ensures 0.0 < y < 1.0
  {
    PositiveProduct(delta, v);
    assert delta * v <= 0.1 * v;
  }

  lemma CollinearEnergy(e: Vec, delta: real)
    requires 0.0 < delta <= 0.1 && e.t == 0.4
    ensures 0.0 < Linear([(delta * 1000.0, e)]).t <= 40.0
  {
  }

  lemma SoftPhysical(p: Vec, s: Vec, r: Vec, delta: real)
    requires BornPair(p, s) && 0.0 < delta <= 0.1 && WideAngle(r, p, s)
    ensures SoftSplitting(p, s, r, delta).Ok? && Physical(p, s, SoftSplitting(p, s, r, delta).value)
  {
    hide Dot, Splittable, Linear;
    SoftSplits(p, s, r, delta, Dot(p, s));
    var sp := SoftSplitting(p, s, r, delta).value;
    SoftDomain(delta, sp.z, sp.y);
    SoftTransverseEnergy(p, s, r, delta);
  }

  lemma SoftDomain(delta: real, z: real, y: real)
    requires 0.0 < delta <= 0.1 && z == 1.0 - delta * (585.0 / 832.0) && z * y == delta * (13.0 / 8.0)
    ensures 0.0 < z < 1.0 && 0.0 < y < 1.0
  {
  }

  lemma SoftTransverseEnergy(p: Vec, s: Vec, r: Vec, delta: real)
    requires p.t == 4000.0 / 9.0 && s.t == 5000.0 / 26.0 && r.t == 500.0 && 0.0 < delta <= 0.1
    ensures var k := Linear([(-delta, Linear([(1.0, r), (-(585.0 / 832.0), p), (-(13.0 / 8.0), s)]))]);
            var z := 1.0 - delta * (585.0 / 832.0);
            z * p.t + k.t > 0.0 && (1.0 - z) * p.t - k.t > 0.0
  {
    Linear3(1.0, r, -(585.0 / 832.0), p, -(13.0 / 8.0), s);
    Linear1(-delta, Linear([(1.0, r), (-(585.0 / 832.0), p), (-(13.0 / 8.0), s)]));
  }

  // ----- the whole point

  predicate OnShell(point: seq<Vec>) {
    forall i :: 0 <= i < |point| ==> Massless(point[i]) && point[i].t > 0.0
  }

  /** Everything the construction uses of the Born geometry. */
  predicate Regular(g: Geometry) {
    && |g.born| == 5
    && OnShell(g.born)
    && Add(g.born[0], g.born[1]) == Add(Add(g.born[2], g.born[3]), g.born[4])
    && BornPair(g.born[2], g.born[3])
    && TransverseSpin(SpinVector(g), g.born[2], g.born[3])
    && WideAngle(SoftDirection(g.e1), g.born[2], g.born[3])
  }

  lemma BornIsRegular()
    ensures Regular(BornGeometry())
  {
    hide BornGeometry, Dot, Massless, Add, SpinVector, SoftDirection, TransverseSpin, WideAngle;
    BornPoint();
    SpinIsTransverse();
    SoftDirectionIsWide();
  }

  /** The splitting of either limit, seen from a regular Born point. */
  lemma LimitPhysical(limit: string, g: Geometry, delta: real)
    requires (limit == "collinear" || limit == "soft") && Regular(g) && 0.0 < delta <= 0.1
    ensures var sp := ChooseSplitting(limit, g, delta);
            sp.Ok? && Physical(g.born[2], g.born[3], sp.value)
  {
    hide Physical, Dot;
    if limit == "collinear" {
      CollinearPhysical(g.born[2], g.born[3], SpinVector(g), delta);
    } else {
      SoftPhysical(g.born[2], g.born[3], SoftDirection(g.e1), delta);
    }
  }

  lemma SumOfFour(point: seq<Vec>)
    requires |point| == 6
    ensures Sum(point[2..]) == Add(Add(Add(point[2], point[3]), point[4]), point[5])
  {
    assert point[2..][1..] == point[3..];
    assert point[3..][1..] == point[4..];
    assert point[4..][1..] == point[5..];
    assert point[5..][1..] == [];
    assert Sum(point[5..]) == point[5];
    assert Sum(point[4..]) == Add(point[4], point[5]);
    assert Sum(point[3..]) == Add(point[3], Add(point[4], point[5]));
  }

  /** Replacing a parent and spectator by three legs of the same total keeps the balance. */
  lemma EmissionBalances(born: seq<Vec>, t: Triple)
    requires |born| == 5 && Add(Add(t.pi, t.pj), t.pk) == Add(born[2], born[3])
    requires Add(born[0], born[1]) == Add(Add(born[2], born[3]), born[4])
    ensures Imbalance(Emission(born, t)) == ZERO
  {
    SumOfFour(Emission(born, t));
  }

  /** A source point with exact kinematics. */
  ghost predicate Exact(s: Source, born: seq<Vec>, delta: real) {
    && s.delta == delta
    && s.born == born
    && |s.point| == 6
    && 0.0 < s.z < 1.0
    && 0.0 < s.y < 1.0
    && OnShell(s.point)
    && Imbalance(s.point) == ZERO
    && ForwardMap(s.point) == Ok(Mapped(born, s.y, s.z, s.sij))
    && s.checks == Checks(0.0, 0.0, true, 0.0, 0.0, 0.0)
  }

  lemma EmissionLegs(born: seq<Vec>, sp: Splitting)
    requires |born| == 5 && Physical(born[2], born[3], sp)
    requires OnShell(born)
    ensures var point := Emission(born, Split(born[2], born[3], sp.transverse, sp.z, sp.y));
            OnShell(point)
  {
    hide Dot, Split, Linear, Massless, Splittable;
    var p, s, k := born[2], born[3], sp.transverse;
    SplitEnergies(p, s, k, sp.z, sp.y);
    EmitterMassless(p, s, k, sp.z, sp.y);
    EmittedMassless(p, s, k, sp.z, sp.y);
    RecoilLegMassless(p, s, k, sp.z, sp.y);
  }

  lemma RecoilLegMassless(p: Vec, s: Vec, k: Vec, z: real, y: real)
    requires Massless(s)
    ensures Massless(Split(p, s, k, z, y).pk)
  {
    RecoilMassless(s, 1.0 - y);
  }

  lemma ExactChecks(point: seq<Vec>, born: seq<Vec>, z: real, y: real, mapped: Mapped)
    requires |point| == 6 && OnShell(point)
    requires Imbalance(point) == ZERO && mapped.born == born && mapped.y == y && mapped.z == z
    ensures PointChecks(point, born, z, y, mapped) == Checks(0.0, 0.0, true, 0.0, 0.0, 0.0)
  {
  }

  lemma {:induction false} ZeroDifferences(a: seq<Vec>, b: seq<Vec>)
    requires |a| == |b| && forall i :: 0 <= i < |Differences(a, b)| ==> Differences(a, b)[i] == 0.0
    ensures a == b
  {
    if a != [] {
      var first, rest := Components(Subtract(a[0], b[0])), Differences(a[1..], b[1..]);
      assert forall i :: 0 <= i < 4 ==> first[i] == Differences(a, b)[i];
      assert forall i :: 0 <= i < |rest| ==> rest[i] == Differences(a, b)[i + 4];
      ZeroDifferences(a[1..], b[1..]);
      assert first[0] == first[1] == first[2] == first[3] == 0.0;
      assert a[0] == b[0];
      assert a == [a[0]] + a[1..] && b == [b[0]] + b[1..];
    }
  }

  lemma ZeroQuotient(a: real, b: real)
    requires b > 0.0 && a / b == 0.0
    ensures a == 0.0
  {
  }

  /** The recorded checks are all zero only for a point that is exact in every respect. */
  lemma ZeroChecksMeanExact(point: seq<Vec>, born: seq<Vec>, z: real, y: real, mapped: Mapped)
    requires |point| >= 2 && |mapped.born| == |born|
    requires PointChecks(point, born, z, y, mapped) == Checks(0.0, 0.0, true, 0.0, 0.0, 0.0)
    ensures OnShell(point) && Imbalance(point) == ZERO
    ensures mapped.born == born && mapped.y == y && mapped.z == z
  {
    hide Dot, Imbalance;
    ZeroQuotient(MaxAbs(MassResiduals(point)), 1000000.0);
    ZeroQuotient(MaxAbs(Components(Imbalance(point))), 1000.0);
    ZeroQuotient(MaxAbs(Differences(mapped.born, born)), 1000.0);
    assert forall i :: 0 <= i < |point| ==> Abs(MassResiduals(point)[i]) <= 0.0;
    var components := Components(Imbalance(point));
    assert forall i :: 0 <= i < 4 ==> Abs(components[i]) <= 0.0;
    assert components[0] == components[1] == components[2] == components[3] == 0.0;
    ZeroDifferences(mapped.born, born);
  }

  /**
   * For both limits and every exponent the constructed point is exact: the splitting
   * variables lie in the physical domain, every leg is massless with positive energy,
   * momentum is conserved, the forward map undoes the construction, and every recorded
   * check is zero.
   */
  lemma PhysicalTrajectory(limit: string, exponent: int, digits: int)
    requires limit == "collinear" || limit == "soft"
    requires exponent >= 1 && digits >= 16
    ensures MakePoint(limit, exponent, digits).Ok?
    ensures Exact(MakePoint(limit, exponent, digits).value, BornGeometry().born, 1.0 / Pow10(exponent))
  {
    hide BornGeometry, Exact, Pow10, ApproachFrom, Regular;
    var g, delta := BornGeometry(), 1.0 / Pow10(exponent);
    SmallDelta(exponent);
    BornIsRegular();
    RegularPoint(limit, g, delta);
  }

  lemma RegularPoint(limit: string, g: Geometry, delta: real)
    requires (limit == "collinear" || limit == "soft") && Regular(g) && 0.0 < delta <= 0.1
    ensures var source := ApproachFrom(g, limit, delta);
            source.Ok? && Exact(source.value, g.born, delta)
  {
    hide Physical, Exact, OnShell, BornPair, TransverseSpin, WideAngle, ApproachWith, ChooseSplitting;
    LimitPhysical(limit, g, delta);
    ApproachExact(g, delta, ChooseSplitting(limit, g, delta).value);
  }

  lemma ApproachExact(g: Geometry, delta: real, sp: Splitting)
    requires Regular(g) && Physical(g.born[2], g.born[3], sp)
    ensures ApproachWith(g, delta, sp).Ok? && Exact(ApproachWith(g, delta, sp).value, g.born, delta)
  {
    hide Dot, Linear, Split, Imbalance, PointChecks;
    var p, s, k := g.born[2], g.born[3], sp.transverse;
    var t := Split(p, s, k, sp.z, sp.y);
    var point := Emission(g.born, t);
    SplitThenMerge(g.born, k, sp.z, sp.y, Dot(p, s));
    SplitConserves(p, s, k, sp.z, sp.y);
    EmissionBalances(g.born, t);
    EmissionLegs(g.born, sp);
    ExactChecks(point, g.born, sp.z, sp.y, ForwardMap(point).value);
  }

  /** The domain error is unreachable: a point is refused only for its arguments. */
  lemma OnlyArgumentsAreRefused(limit: string, exponent: int, digits: int)
    ensures MakePoint(limit, exponent, digits).Ok?
        <==> (limit == "collinear" || limit == "soft") && exponent >= 1 && digits >= 16
    ensures MakePoint(limit, exponent, digits).Err?
        ==> MakePoint(limit, exponent, digits).error == InvalidArgument
  {
    if (limit == "collinear" || limit == "soft") && exponent >= 1 && digits >= 16 {
      PhysicalTrajectory(limit, exponent, digits);
    }
  }
}
