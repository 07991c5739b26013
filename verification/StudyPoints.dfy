/** The study's vectors, steps and checks in numbers. */
module StudyPoints {
  import opened Prelude
  import opened FourVectors
  import opened DipoleMap
  import opened Trajectory
  import opened Approach
  import opened LimitScaling

  // ----- fixed vectors

  /** The Born point and the two transverse vectors, component by component. */
  lemma BornVectors()
    ensures var g := BornGeometry();
            && g.born == [Vec(500.0, 0.0, 0.0, 500.0), Vec(500.0, 0.0, 0.0, -500.0),
                          Vec(4000.0 / 9.0, 8000.0 / 27.0, 4000.0 / 27.0, 8000.0 / 27.0),
                          Vec(2500.0 / 13.0, -1000.0 / 39.0, 2500.0 / 39.0, -7000.0 / 39.0),
                          Vec(42500.0 / 117.0, -95000.0 / 351.0, -74500.0 / 351.0, -41000.0 / 351.0)]
            && g.e1 == Vec(0.0, 2.0 / 3.0, -2.0 / 3.0, -1.0 / 3.0)
            && g.e2 == Vec(0.5, 2.0 / 3.0, 5.0 / 6.0, -1.0 / 3.0)
  {
  }

  /** The direction of the spin correlator and of the soft momentum. */
  lemma StudyDirections()
    ensures SpinVector(BornGeometry()) == Vec(2.0 / 5.0, 14.0 / 15.0, 4.0 / 15.0, -7.0 / 15.0)
    ensures SoftDirection(BornGeometry().e1) == Vec(500.0, 1000.0 / 3.0, -1000.0 / 3.0, -500.0 / 3.0)
  {
    var g := BornGeometry();
    Linear2(3.0 / 5.0, g.e1, 4.0 / 5.0, g.e2);
  }

  // ----- the steps

  lemma {:induction false} PowersAdd(m: nat, n: nat)
    ensures Pow10(m + n) == Pow10(m) * Pow10(n) && Pow10(1) == 10.0
  {
    if m > 0 {
      PowersAdd(m - 1, n);
      PowersStep(Pow10(m - 1), Pow10(n));
    }
    assert Pow10(1) == 10.0 * Pow10(0);
  }

  lemma PowersStep(a: real, b: real)
    ensures 10.0 * (a * b) == (10.0 * a) * b
  {
  }

  /** Delta times ten to the exponent is one, whatever the limit; the recorded directions are
      those of the Born point. */
  lemma StepSize(limit: string, exponent: int, digits: int)
    requires (limit == "collinear" || limit == "soft") && exponent >= 1 && digits >= 16
    ensures MakePoint(limit, exponent, digits).Ok?
    ensures var source := MakePoint(limit, exponent, digits).value;
            source.delta * Pow10(exponent) == 1.0 && source.spin == SpinVector(BornGeometry())
  {
    hide BornGeometry, Regular, Pow10, Dot, Linear, SpinVector, ForwardMap, PointChecks;
    PhysicalTrajectory(limit, exponent, digits);
    InverseOf(Pow10(exponent));
  }

  lemma InverseOf(p: real)
    requires p >= 1.0
    ensures 1.0 / p * p == 1.0
  {
  }

  // ----- which way the legs go

  lemma Projection(a: real, p: Vec, b: real, s: Vec, c: real, k: Vec, e: Vec)
    requires Dot(p, e) == 0.0 && Dot(s, e) == 0.0
    ensures Dot(Linear([(a, p), (b, s), (c, k)]), e) == c * Dot(k, e)
  {
    Dot3(a, p, b, s, c, k, e);
  }

  /** In the collinear limit z is 3/5, and the emitting pair opens along the spin direction
      with opposite momenta of 1000 delta, the first leg along it. */
  lemma CollinearOpening(g: Geometry, delta: real)
    requires Regular(g) && 0.0 < delta <= 0.1
    ensures var source := ApproachFrom(g, "collinear", delta); var e := SpinVector(g);
            && source.Ok? && |source.value.point| == 6 && source.value.z == 0.6
            && Dot(source.value.point[2], e) == -1000.0 * delta && Dot(source.value.point[3], e) == 1000.0 * delta
  {
    hide Dot, Exact, SpinVector, OnShell, CollinearSplitting, WideAngle, Linear, ForwardMap, PointChecks;
    var p, s, e := g.born[2], g.born[3], SpinVector(g);
    LimitPhysical("collinear", g, delta);
    RegularPoint("collinear", g, delta);
    ExactShape(ApproachFrom(g, "collinear", delta).value, g.born, delta);
    CollinearSplits(p, s, e, delta, Dot(p, s), 2925.0 / 192.0 * delta);
    var sp := CollinearSplitting(p, s, e, delta);
    DotSymmetric(e, p);
    DotSymmetric(e, s);
    Projection(sp.z, p, sp.y * (1.0 - sp.z), s, 1.0, sp.transverse, e);
    Projection(1.0 - sp.z, p, sp.y * sp.z, s, -1.0, sp.transverse, e);
    Linear1(delta * 1000.0, e);
    DotScale(delta * 1000.0, e, e);
  }

  // ----- the recorded checks

  /** `m` is the largest absolute value in a non-empty list. */
  ghost predicate IsLargest(m: real, values: seq<real>) {
    && (forall i :: 0 <= i < |values| ==> -m <= values[i] <= m)
    && exists i :: 0 <= i < |values| && (values[i] == m || values[i] == -m)
  }

  lemma {:induction false} MaxAbsIsLargest(values: seq<real>)
    requires values != []
    ensures IsLargest(MaxAbs(values), values)
  {
    var rest := values[1..];
    if rest != [] && MaxAbs(rest) > Abs(values[0]) {
      MaxAbsIsLargest(rest);
      var i :| 0 <= i < |rest| && (rest[i] == MaxAbs(rest) || rest[i] == -MaxAbs(rest));
      assert values[i + 1] == rest[i];
    } else {
      assert MaxAbs(values) == Abs(values[0]);
      assert values[0] == Abs(values[0]) || values[0] == -Abs(values[0]);
    }
  }

  /** The recorded residuals, in units of the centre-of-mass energy of 1000 GeV: the largest
      violations of the mass shells, of momentum balance and of the mapped Born point, the sign
      of all energies, and the errors of y and z. */
  lemma ChecksMeaning(point: seq<Vec>, born: seq<Vec>, z: real, y: real, mapped: Mapped)
    requires |point| >= 2 && |mapped.born| == |born| >= 1
    ensures var checks := PointChecks(point, born, z, y, mapped); var imbalance := Imbalance(point);
            && IsLargest(checks.massShell * 1000000.0, MassResiduals(point))
            && IsLargest(checks.conservation * 1000.0, [imbalance.t, imbalance.x, imbalance.y, imbalance.z])
            && (checks.positiveEnergies <==> forall i :: 0 <= i < |point| ==> point[i].t > 0.0)
            && IsLargest(checks.mappedBorn * 1000.0, Differences(mapped.born, born))
            && (checks.yError == mapped.y - y || checks.yError == y - mapped.y) && checks.yError >= 0.0
            && (checks.zError == mapped.z - z || checks.zError == z - mapped.z) && checks.zError >= 0.0
  {
    hide IsLargest, Imbalance, MaxAbs;
    MaxAbsIsLargest(MassResiduals(point));
    MaxAbsIsLargest(Components(Imbalance(point)));
    DifferencesAt(mapped.born, born, 0);
    MaxAbsIsLargest(Differences(mapped.born, born));
  }

  /** The differences are those of all components, in order. */
  lemma {:induction false} DifferencesAt(a: seq<Vec>, b: seq<Vec>, i: nat)
    requires |a| == |b| && i < |a|
    ensures |Differences(a, b)| == 4 * |a|
    ensures Differences(a, b)[4 * i..4 * i + 4] == [a[i].t - b[i].t, a[i].x - b[i].x, a[i].y - b[i].y, a[i].z - b[i].z]
  {
    var first := Components(Subtract(a[0], b[0]));
    if |a| == 1 {
      assert Differences(a[1..], b[1..]) == [];
    } else {
      DifferencesAt(a[1..], b[1..], if i > 0 then i - 1 else 0);
    }
    var rest := Differences(a[1..], b[1..]);
    assert Differences(a, b) == first + rest;
    if i > 0 {
      assert (first + rest)[4 * i..4 * i + 4] == rest[4 * (i - 1)..4 * (i - 1) + 4];
    } else {
      assert (first + rest)[0..4] == first;
    }
  }

  /** The balance is between the two incoming and all outgoing momenta. */
  lemma ImbalanceOfSix(point: seq<Vec>)
    requires |point| == 6
    ensures Imbalance(point)
         == Subtract(Add(point[0], point[1]), Add(Add(Add(point[2], point[3]), point[4]), point[5]))
  {
    SumOfFour(point);
  }
}
