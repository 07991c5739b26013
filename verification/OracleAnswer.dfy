/** When the gravity oracle answers, and with what, in terms of the momenta. */
module OracleAnswer {
  import opened Prelude
  import opened FourVectors
  import opened AnalyticOracle

  // ----- the scale of a point

  /** `m` is the largest absolute momentum component, but at least one. */
  ghost predicate LargestComponent(point: seq<Vec>, m: real) {
    && m >= 1.0
    && (forall i :: 0 <= i < |point| ==> Within(point[i], m))
    && (m == 1.0 || exists i :: 0 <= i < |point| && Attains(point[i], m))
  }

  predicate Within(v: Vec, m: real) {
    && -m <= v.t <= m && -m <= v.x <= m && -m <= v.y <= m && -m <= v.z <= m
  }

  predicate Attains(v: Vec, m: real) {
    v.t == m || v.t == -m || v.x == m || v.x == -m || v.y == m || v.y == -m || v.z == m || v.z == -m
  }

  lemma LargestOfVector(v: Vec)
    ensures Within(v, Largest(v)) && Attains(v, Largest(v))
    ensures forall m :: Within(v, m) <==> Largest(v) <= m
  {
  }

  lemma {:induction false} ScaleIsLargest(point: seq<Vec>)
    ensures LargestComponent(point, ScaleOf(point))
  {
    hide Within, Attains, Largest;
    if point != [] {
      ScaleIsLargest(point[1..]);
      LargestOfVector(point[0]);
      var m, rest := ScaleOf(point), ScaleOf(point[1..]);
      forall i | 0 <= i < |point| ensures Within(point[i], m) {
        if i > 0 {
          assert Within(point[1..][i - 1], rest);
          LargestOfVector(point[i]);
        }
      }
      if rest > 1.0 && m == rest {
        var i :| 0 <= i < |point[1..]| && Attains(point[1..][i], rest);
        assert Attains(point[i + 1], m);
      }
    }
  }

  lemma LargestIsUnique(point: seq<Vec>, m: real, n: real)
    requires LargestComponent(point, m) && LargestComponent(point, n)
    ensures m == n
  {
  }

  // ----- acceptance

  /** Positive energies, masses and imbalance within tolerance, a positive s, and the massless
      identity within tolerance. */
  ghost predicate Answerable(point: seq<Vec>, rho: real, shell: real, balance: real)
    requires |point| == 4
  {
    var s, t, u := MassSquared(Plus(point[0], point[1])), MassSquared(Minus(point[0], point[2])),
                   MassSquared(Minus(point[0], point[3]));
    && TolerableKinematics(point, shell, balance)
    && s > 0.0
    && SomeBounds(s + t + u, s, t, u, rho)
  }

  ghost predicate TolerableKinematics(point: seq<Vec>, shell: real, balance: real)
    requires |point| == 4
  {
    && (forall i :: 0 <= i < 4 ==> point[i].t > 0.0 && Small(MassSquared(point[i]), shell))
    && Within(Minus(Plus(point[0], point[1]), Plus(point[2], point[3])), balance)
  }

  predicate Small(a: real, bound: real) {
    -bound <= a <= bound
  }

  /** Within `rho` times the magnitude of `x`. */
  predicate BoundedBy(sum: real, x: real, rho: real) {
    Small(sum, x * rho) || Small(sum, -(x * rho))
  }

  /** Within `rho` times one of the magnitudes, or of one. */
  predicate SomeBounds(sum: real, s: real, t: real, u: real, rho: real) {
    BoundedBy(sum, 1.0, rho) || BoundedBy(sum, s, rho) || BoundedBy(sum, t, rho) || BoundedBy(sum, u, rho)
  }

  function MassSquared(v: Vec): real {
    v.t * v.t - v.x * v.x - v.y * v.y - v.z * v.z
  }

  function Plus(a: Vec, b: Vec): Vec {
    Vec(a.t + b.t, a.x + b.x, a.y + b.y, a.z + b.z)
  }

  function Minus(a: Vec, b: Vec): Vec {
    Vec(a.t - b.t, a.x - b.x, a.y - b.y, a.z - b.z)
  }

  lemma SquareIs(v: Vec)
    ensures Square(v) == MassSquared(v)
  {
  }

  lemma SmallIs(a: real, bound: real)
    ensures Abs(a) <= bound <==> Small(a, bound)
  {
  }

  lemma InvariantsAre(point: seq<Vec>)
    requires |point| == 4
    ensures InvariantsOf(point)
         == Invariants(MassSquared(Plus(point[0], point[1])), MassSquared(Minus(point[0], point[2])),
                       MassSquared(Minus(point[0], point[3])))
  {
    hide Square, MassSquared;
    SquareIs(Add(point[0], point[1]));
    SquareIs(Subtract(point[0], point[2]));
    SquareIs(Subtract(point[0], point[3]));
  }

  lemma BoundedIs(sum: real, x: real, rho: real)
    requires rho >= 0.0
    ensures BoundedBy(sum, x, rho) <==> Abs(sum) <= Abs(x) * rho
  {
  }

  lemma MaxReaches(sum: real, a: real, b: real, rho: real)
    requires rho >= 0.0
    ensures sum <= MaxR(a, b) * rho <==> sum <= a * rho || sum <= b * rho
  {
    if a >= b {
      assert a * rho >= b * rho;
    } else {
      assert b * rho >= a * rho;
    }
  }

  lemma IdentityIs(v: Invariants, rho: real)
    requires rho >= 0.0
    ensures IdentityHolds(v, rho) <==> SomeBounds(v.s + v.t + v.u, v.s, v.t, v.u, rho)
  {
    hide MaxR, BoundedBy, Abs;
    var sum := v.s + v.t + v.u;
    UnitMagnitude();
    MaxReaches(Abs(sum), MaxR(Abs(v.s), Abs(v.t)), MaxR(Abs(v.u), 1.0), rho);
    MaxReaches(Abs(sum), Abs(v.s), Abs(v.t), rho);
    MaxReaches(Abs(sum), Abs(v.u), 1.0, rho);
    BoundedIs(sum, v.s, rho);
    BoundedIs(sum, v.t, rho);
    BoundedIs(sum, v.u, rho);
    BoundedIs(sum, 1.0, rho);
  }

  lemma UnitMagnitude()
    ensures Abs(1.0) == 1.0
  {
  }

  function Squared(m: real): real {
    m * m
  }

  /** The legs of any kinematics: positive energies, and masses squared within tolerance. */
  lemma LegsAre(point: seq<Vec>, masses: seq<real>, tolerance: real)
    requires |masses| == |point|
    ensures FirstBadLeg(point, masses, tolerance, 0).None?
       <==> forall i :: 0 <= i < |point| ==>
              point[i].t > 0.0 && Small(MassSquared(point[i]) - Squared(masses[i]), tolerance)
  {
    hide Square, MassSquared, FirstBadLeg, OnShell, Small, Squared;
    GoodLegs(point, masses, tolerance, 0);
    forall i | 0 <= i < |point|
      ensures OnShell(point[i], masses[i], tolerance)
         <==> Small(MassSquared(point[i]) - Squared(masses[i]), tolerance)
    {
      ShellIs(point[i], masses[i], tolerance);
    }
  }

  lemma ShellIs(v: Vec, mass: real, tolerance: real)
    ensures OnShell(v, mass, tolerance) <==> Small(MassSquared(v) - Squared(mass), tolerance)
  {
    hide Square, MassSquared, Small;
    SquareIs(v);
    SmallIs(MassSquared(v) - mass * mass, tolerance);
  }

  /** The error of the first bad leg: its energy before its shell. */
  lemma {:induction false} FirstBadLegIs(point: seq<Vec>, masses: seq<real>, tolerance: real, index: nat, k: nat)
    requires |masses| == |point| && index <= k < |point|
    requires forall i :: index <= i < k ==>
               point[i].t > 0.0 && Small(MassSquared(point[i]) - Squared(masses[i]), tolerance)
    ensures point[k].t <= 0.0 ==> FirstBadLeg(point, masses, tolerance, index) == Some(NonPositiveEnergy(k))
    ensures point[k].t > 0.0 && !Small(MassSquared(point[k]) - Squared(masses[k]), tolerance) ==>
              FirstBadLeg(point, masses, tolerance, index) == Some(OffShell(k))
    decreases k - index
  {
    hide OnShell, MassSquared, Small, Squared;
    ShellIs(point[index], masses[index], tolerance);
    if index < k {
      FirstBadLegIs(point, masses, tolerance, index + 1, k);
    }
  }

  lemma MasslessLegs(point: seq<Vec>, tolerance: real)
    requires |point| == 4
    ensures FirstBadLeg(point, [0.0, 0.0, 0.0, 0.0], tolerance, 0).None?
       <==> forall i :: 0 <= i < 4 ==> point[i].t > 0.0 && Small(MassSquared(point[i]), tolerance)
  {
    hide FirstBadLeg, MassSquared;
    assert Squared(0.0) == 0.0;
    LegsAre(point, [0.0, 0.0, 0.0, 0.0], tolerance);
  }

  lemma KinematicsAre(point: seq<Vec>, rho: real, m: real, shell: real, balance: real)
    requires |point| == 4 && rho >= 0.0
    requires m == ScaleOf(point) && shell == m * (m * rho) && balance == m * rho
    ensures ValidateKinematics(point, [0.0, 0.0, 0.0, 0.0], 2, rho).None?
       <==> TolerableKinematics(point, shell, balance)
  {
    hide MassSquared, ScaleOf, FirstBadLeg, ImbalanceOf, Largest, Within, Small, ShellTolerance;
    ScaleAtLeastOne(point);
    ScaleSquared(m, rho);
    MasslessLegs(point, shell);
    BalanceOf(point);
    LargestOfVector(ImbalanceOf(point, 2));
    assert ShellTolerance(m, rho) == shell;
  }

  /** The oracle answers exactly for tolerably exact momenta: with the largest component m,
      masses squared within m^2 rho, the imbalance within m rho, and the identity within rho
      times the largest magnitude of s, t, u and one. */
  lemma AnsweredExactly(point: seq<Vec>, coupling: real, rho: real, m: real, shell: real, balance: real)
    requires |point| == 4 && rho >= 0.0
    requires LargestComponent(point, m) && shell == m * (m * rho) && balance == m * rho
    ensures Observe(point, coupling, rho).Ok? <==> Answerable(point, rho, shell, balance)
  {
    hide ValidateKinematics, InvariantsOf, IdentityHolds, GravityTotal, MassSquared, Within, SomeBounds, ScaleOf,
         TolerableKinematics;
    ScaleIsLargest(point);
    LargestIsUnique(point, m, ScaleOf(point));
    KinematicsAre(point, rho, m, shell, balance);
    InvariantsAre(point);
    IdentityIs(InvariantsOf(point), rho);
  }

  lemma Divided(n: real, d: real)
    requires d != 0.0
    ensures n / d * d == n
  {
  }

  /**
   * The public entry answers for at least 32 digits of precision, a certified accuracy of at
   * least one digit and at most eight below the precision, and four momenta of four components,
   * exactly when the point is answerable; and then with that observation. The tolerance is
   * 10^-(digits + 3).
   */
  lemma EntryExactly(momenta: seq<seq<real>>, coupling: real, precision: int, digits: int)
    ensures ScalarGravity(momenta, coupling, precision, digits).Ok?
       <==> && precision >= 32 && 1 <= digits <= precision - 8
            && |momenta| == 4 && (forall i :: 0 <= i < 4 ==> |momenta[i]| == 4)
            && Observe(Vectors(momenta), coupling, Tolerance(digits)).Ok?
    ensures ScalarGravity(momenta, coupling, precision, digits).Ok? ==>
              && ScalarGravity(momenta, coupling, precision, digits)
                 == Observe(Vectors(momenta), coupling, Tolerance(digits))
              && ScalarGravity(momenta, coupling, precision, digits).value.tolerance * Pow10(digits + 3) == 1.0
  {
    hide Observe;
    if |momenta| == 4 && (forall i :: 0 <= i < 4 ==> |momenta[i]| == 4) {
      Parsed(momenta);
      if digits > 0 {
        Divided(1.0, Pow10(digits + 3));
        ToleranceKept(Vectors(momenta), coupling, Tolerance(digits));
      }
    }
  }

  lemma ToleranceKept(point: seq<Vec>, coupling: real, rho: real)
    requires |point| == 4
    ensures Observe(point, coupling, rho).Ok? ==> Observe(point, coupling, rho).value.tolerance == rho
  {
  }

  function VectorOf(c: seq<real>): Vec
    requires |c| == 4
  {
    Vec(c[0], c[1], c[2], c[3])
  }

  function Vectors(momenta: seq<seq<real>>): seq<Vec>
    requires |momenta| == 4 && forall i :: 0 <= i < 4 ==> |momenta[i]| == 4
  {
    [VectorOf(momenta[0]), VectorOf(momenta[1]), VectorOf(momenta[2]), VectorOf(momenta[3])]
  }

  lemma Parsed(momenta: seq<seq<real>>)
    requires |momenta| == 4 && forall i :: 0 <= i < 4 ==> |momenta[i]| == 4
    ensures ParsePoint(momenta, 4) == Ok(Vectors(momenta))
  {
    var point := seq(4, i requires 0 <= i < 4 => Vec(momenta[i][0], momenta[i][1], momenta[i][2], momenta[i][3]));
    assert ParsePoint(momenta, 4) == Ok(point);
    assert point == Vectors(momenta);
  }

  // ----- the answer

  /** The answer is kappa^4 t^2 u^2 / (16 s^2) with u = -s-t, its denominator cleared. */
  lemma AnswerIs(point: seq<Vec>, coupling: real, rho: real)
    requires |point| == 4 && Observe(point, coupling, rho).Ok?
    ensures var s, t := MassSquared(Plus(point[0], point[1])), MassSquared(Minus(point[0], point[2]));
            Observe(point, coupling, rho).value.total * (16.0 * (s * s))
            == (coupling * coupling) * (coupling * coupling) * (t * t) * ((s + t) * (s + t))
  {
    hide ValidateKinematics, IdentityHolds, MassSquared, Square;
    InvariantsAre(point);
    var v := InvariantsOf(point);
    TotalCleared(coupling, v.s, v.t);
  }

  lemma TotalCleared(coupling: real, s: real, t: real)
    requires s > 0.0
    ensures GravityTotal(coupling, s, t) * (16.0 * (s * s))
         == (coupling * coupling) * (coupling * coupling) * (t * t) * ((s + t) * (s + t))
  {
    hide Numerator;
    NumeratorIs(coupling, t, s + t);
    ClearedQuotient(Numerator(coupling, t, -s - t), s, s * s);
  }

  lemma ProductPositive(a: real, b: real, product: real)
    requires a > 0.0 && b > 0.0 && product == a * b
    ensures product > 0.0
  {
  }

  lemma ClearedQuotient(n: real, s: real, square: real)
    requires s > 0.0 && square == s * s
    ensures square > 0.0 && n / (16.0 * square) * (16.0 * square) == n
  {
    ProductPositive(s, s, square);
    Divided(n, 16.0 * square);
  }

  lemma NumeratorIs(coupling: real, t: real, sum: real)
    ensures Numerator(coupling, t, -sum) == (coupling * coupling) * (coupling * coupling) * (t * t) * (sum * sum)
  {
    var f, g := coupling * coupling, t * t;
    assert Numerator(coupling, t, -sum) == coupling * coupling * coupling * coupling * g * (sum * sum);
    assert coupling * coupling * coupling * coupling == f * f;
  }

  lemma CentreOfMassScalars(e: real, z: real, pT2: real, k: real, s: real, t: real, total: real, f: real, ff: real)
    requires e > 0.0 && pT2 + z * z == f && f == e * e && ff == f * f
    requires s == 4.0 * f && t == -2.0 * (e * (e - z))
    requires total * (16.0 * (s * s)) == k * (t * t) * ((s + t) * (s + t))
    ensures 16.0 * total == k * (pT2 * pT2)
  {
    assert t * (s + t) == -4.0 * (f * pT2) by {
      assert s + t == 2.0 * (e * (e + z));
      assert (e * (e - z)) * (e * (e + z)) == f * pT2;
    }
    assert (t * t) * ((s + t) * (s + t)) == 16.0 * (ff * (pT2 * pT2));
    assert s * s == 16.0 * ff;
    ProductPositive(e, e, f);
    ProductPositive(f, f, ff);
    assert k * (t * t) * ((s + t) * (s + t)) == k * ((t * t) * ((s + t) * (s + t)));
    assert (16.0 * total) * (16.0 * ff) == (k * (pT2 * pT2)) * (16.0 * ff);
    Cancel(16.0 * total, k * (pT2 * pT2), 16.0 * ff);
  }

  lemma Cancel(a: real, b: real, c: real)
    requires c != 0.0 && a * c == b * c
    ensures a == b
  {
  }

  /** At an exact centre-of-mass point of beam energy e the answer is kappa^4 pT^4 / 16. */
  lemma CentreOfMassAnswer(e: real, x: real, y: real, z: real, coupling: real, rho: real)
    requires e > 0.0 && rho >= 0.0 && x * x + y * y + z * z == e * e
    ensures var point := [Vec(e, 0.0, 0.0, e), Vec(e, 0.0, 0.0, -e), Vec(e, x, y, z), Vec(e, -x, -y, -z)];
            var pT2 := x * x + y * y;
            && Observe(point, coupling, rho).Ok?
            && 16.0 * Observe(point, coupling, rho).value.total
               == (coupling * coupling) * (coupling * coupling) * (pT2 * pT2)
  {
    hide Observe, GravityTotal, Square;
    var point := [Vec(e, 0.0, 0.0, e), Vec(e, 0.0, 0.0, -e), Vec(e, x, y, z), Vec(e, -x, -y, -z)];
    forall i | 0 <= i < 4 ensures Square(point[i]) == 0.0 {
      SquareIs(point[i]);
    }
    assert Add(point[0], point[1]) == Add(point[2], point[3]);
    ExactObservation(point, coupling, rho);
    var f := e * e;
    var s, t, k := 4.0 * f, -2.0 * (e * (e - z)), (coupling * coupling) * (coupling * coupling);
    BeamInvariants(e, x, y, z);
    InvariantsAre(point);
    ProductPositive(e, e, f);
    TotalCleared(coupling, s, t);
    CentreOfMassScalars(e, z, x * x + y * y, k, s, t, GravityTotal(coupling, s, t), f, f * f);
  }

  lemma BeamInvariants(e: real, x: real, y: real, z: real)
    requires x * x + y * y + z * z == e * e
    ensures MassSquared(Plus(Vec(e, 0.0, 0.0, e), Vec(e, 0.0, 0.0, -e))) == 4.0 * (e * e)
    ensures MassSquared(Minus(Vec(e, 0.0, 0.0, e), Vec(e, x, y, z))) == -2.0 * (e * (e - z))
  {
  }
}
