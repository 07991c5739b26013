/**
 * The closed-form oracle for two massless scalars into two gravitons: validation of the
 * supplied kinematics, the invariants, and the resolved result.
 */
module AnalyticOracle {
  import opened Prelude
  import opened FourVectors

  const MINIMUM_PRECISION := 32
  const ARITHMETIC_GUARD := 8
  const VALIDATION_GUARD := 3

  datatype OracleError =
    | InvalidPrecision | InvalidAccuracy | WrongCount | WrongSize
    | NonPositiveEnergy(index: nat) | OffShell(index: nat) | NotConserved
    | NonPositiveS | InvariantsViolated

  datatype Observation = Observation(total: real, resolved: seq<real>, tolerance: real)

  function ValidatePolicy(precision: int, digits: int): Option<OracleError> {
    if precision < MINIMUM_PRECISION then Some(InvalidPrecision)
    else if digits <= 0 || digits > precision - ARITHMETIC_GUARD then Some(InvalidAccuracy)
    else None
  }

  function ParsePoint(momenta: seq<seq<real>>, count: nat): Result<seq<Vec>, OracleError> {
    if |momenta| != count then Err(WrongCount)
    else if exists i :: 0 <= i < |momenta| && |momenta[i]| != 4 then Err(WrongSize)
    else Ok(seq(count, i requires 0 <= i < count =>
                  Vec(momenta[i][0], momenta[i][1], momenta[i][2], momenta[i][3])))
  }

  function Square(v: Vec): real {
    Dot(v, v)
  }

  // ----- kinematic validation

  function Largest(v: Vec): real {
    MaxR(MaxR(Abs(v.t), Abs(v.x)), MaxR(Abs(v.y), Abs(v.z)))
  }

  /** The largest absolute component, but at least one. */
  function ScaleOf(point: seq<Vec>): real {
    if point == [] then 1.0 else MaxR(Largest(point[0]), ScaleOf(point[1..]))
  }

  function Tolerance(digits: int): real
    requires digits > 0
  {
    1.0 / Pow10(digits + VALIDATION_GUARD)
  }

  predicate OnShell(v: Vec, mass: real, tolerance: real) {
    Abs(Square(v) - mass * mass) <= tolerance
  }

  /** The first momentum from `index` on with a non-positive energy or off its shell. */
  function FirstBadLeg(point: seq<Vec>, masses: seq<real>, tolerance: real, index: nat): Option<OracleError>
    requires |masses| == |point| && index <= |point|
    decreases |point| - index
  {
    if index == |point| then None
    else if point[index].t <= 0.0 then Some(NonPositiveEnergy(index))
    else if !OnShell(point[index], masses[index], tolerance) then Some(OffShell(index))
    else FirstBadLeg(point, masses, tolerance, index + 1)
  }

  function ImbalanceOf(point: seq<Vec>, incoming: nat): Vec
    requires incoming <= |point|
  {
    Subtract(Sum(point[..incoming]), Sum(point[incoming..]))
  }

  function ShellTolerance(scale: real, rho: real): real {
    MaxR(scale * scale, 1.0) * rho
  }

  function ValidateKinematics(point: seq<Vec>, masses: seq<real>, incoming: nat, rho: real): Option<OracleError>
    requires |masses| == |point| && incoming <= |point|
  {
    var scale := ScaleOf(point);
    match FirstBadLeg(point, masses, ShellTolerance(scale, rho), 0)
    case Some(e) => Some(e)
    case None => if Largest(ImbalanceOf(point, incoming)) > scale * rho then Some(NotConserved) else None
  }

  // ----- the observation

  datatype Invariants = Invariants(s: real, t: real, u: real)

  function InvariantsOf(point: seq<Vec>): Invariants
    requires |point| == 4
  {
    Invariants(Square(Add(point[0], point[1])), Square(Subtract(point[0], point[2])),
               Square(Subtract(point[0], point[3])))
  }

  predicate IdentityHolds(v: Invariants, rho: real) {
    Abs(v.s + v.t + v.u) <= MaxR(MaxR(Abs(v.s), Abs(v.t)), MaxR(Abs(v.u), 1.0)) * rho
  }

  /** kappa^4 t^2 u^2 / (16 s^2), with u eliminated through the massless identity. */
  function GravityTotal(coupling: real, s: real, t: real): real
    requires s != 0.0
  {
    Numerator(coupling, t, -s - t) / (16.0 * (s * s))
  }

  function Numerator(coupling: real, t: real, u: real): real {
    coupling * coupling * coupling * coupling * (t * t) * (u * u)
  }

  function Observe(point: seq<Vec>, coupling: real, rho: real): Result<Observation, OracleError>
    requires |point| == 4
  {
    match ValidateKinematics(point, [0.0, 0.0, 0.0, 0.0], 2, rho)
    case Some(e) => Err(e)
    case None =>
      var v := InvariantsOf(point);
      if v.s <= 0.0 then Err(NonPositiveS)
      else if !IdentityHolds(v, rho) then Err(InvariantsViolated)
      else
        var total := GravityTotal(coupling, v.s, v.t);
        Ok(Observation(total, [0.0, total / 2.0, total / 2.0, 0.0], rho))
  }

  function ScalarGravity(momenta: seq<seq<real>>, coupling: real, precision: int, digits: int)
    : Result<Observation, OracleError>
  {
    match ValidatePolicy(precision, digits)
    case Some(e) => Err(e)
    case None =>
      match ParsePoint(momenta, 4)
      case Err(e) => Err(e)
      case Ok(point) => Observe(point, coupling, Tolerance(digits))
  }

  // ----- the error bound

  lemma {:induction false} ScaleBounds(point: seq<Vec>, i: nat)
    requires i < |point|
    ensures Largest(point[i]) <= ScaleOf(point) && ScaleOf(point) >= 1.0
  {
    if i > 0 {
      ScaleBounds(point[1..], i - 1);
    } else {
      ScaleAtLeastOne(point[1..]);
    }
  }

  lemma {:induction false} ScaleAtLeastOne(point: seq<Vec>)
    ensures ScaleOf(point) >= 1.0
  {
    if point != [] {
      ScaleAtLeastOne(point[1..]);
    }
  }

  lemma {:induction false} GoodLegs(point: seq<Vec>, masses: seq<real>, tolerance: real, index: nat)
    requires |masses| == |point| && index <= |point|
    ensures FirstBadLeg(point, masses, tolerance, index).None?
       <==> forall i :: index <= i < |point| ==> point[i].t > 0.0 && OnShell(point[i], masses[i], tolerance)
    decreases |point| - index
  {
    hide OnShell;
    if index < |point| {
      GoodLegs(point, masses, tolerance, index + 1);
    }
  }

  /** s + t + u of the direct invariants, in terms of the masses and the imbalance. */
  lemma InvariantSum(a: Vec, b: Vec, c: Vec, d: Vec, imbalance: Vec)
    requires imbalance == Subtract(Add(a, b), Add(c, d))
    ensures Square(Add(a, b)) + Square(Subtract(a, c)) + Square(Subtract(a, d))
         == Square(a) + Square(b) + Square(c) + Square(d) + 2.0 * Dot(a, imbalance)
  {
  }

  lemma ProductBound(a: real, b: real, m: real, n: real, product: real, bound: real)
    requires Abs(a) <= m && Abs(b) <= n && product == a * b && bound == m * n
    ensures Abs(product) <= bound
  {
  }

  lemma LargestBounds(v: Vec, m: real)
    requires Largest(v) <= m
    ensures Abs(v.t) <= m && Abs(v.x) <= m && Abs(v.y) <= m && Abs(v.z) <= m
  {
  }

  lemma DotBound(a: Vec, b: Vec, m: real, n: real, bound: real)
    requires Largest(a) <= m && Largest(b) <= n && bound == m * n
    ensures Abs(Dot(a, b)) <= 4.0 * bound
  {
    hide Abs, Largest;
    var pt, px, py, pz := a.t * b.t, a.x * b.x, a.y * b.y, a.z * b.z;
    LargestBounds(a, m);
    LargestBounds(b, n);
    ProductBound(a.t, b.t, m, n, pt, bound);
    ProductBound(a.x, b.x, m, n, px, bound);
    ProductBound(a.y, b.y, m, n, py, bound);
    ProductBound(a.z, b.z, m, n, pz, bound);
    FourTerms(pt, px, py, pz, bound);
    assert Dot(a, b) == pt - (px + py + pz);
  }

  lemma FourTerms(a: real, b: real, c: real, d: real, bound: real)
    requires Abs(a) <= bound && Abs(b) <= bound && Abs(c) <= bound && Abs(d) <= bound
    ensures Abs(a - (b + c + d)) <= 4.0 * bound
  {
  }

  lemma SumOfTwo(a: Vec, b: Vec)
    ensures Sum([a, b]) == Add(a, b)
  {
    assert [a, b][1..] == [b];
    assert [b][1..] == [];
    assert Sum([b]) == Add(b, ZERO) == b;
  }

  lemma BalanceOf(point: seq<Vec>)
    requires |point| == 4
    ensures ImbalanceOf(point, 2) == Subtract(Add(point[0], point[1]), Add(point[2], point[3]))
  {
    assert point[..2] == [point[0], point[1]] && point[2..] == [point[2], point[3]];
    SumOfTwo(point[0], point[1]);
    SumOfTwo(point[2], point[3]);
  }

  /**
   * How far the validated kinematics can violate the massless identity: by at most twelve
   * times the relative tolerance times the squared scale of the point.
   */
  lemma MandelstamBound(point: seq<Vec>, rho: real)
    requires |point| == 4 && rho >= 0.0
    requires ValidateKinematics(point, [0.0, 0.0, 0.0, 0.0], 2, rho).None?
    ensures var v := InvariantsOf(point); var scale := ScaleOf(point);
            Abs(v.s + v.t + v.u) <= 12.0 * (scale * (scale * rho))
  {
    hide Square, Dot, ScaleOf, Largest, Add, Subtract, Sum, ImbalanceOf, Abs, ValidateKinematics;
    var scale, imbalance := ScaleOf(point), ImbalanceOf(point, 2);
    var bound := scale * (scale * rho);
    ShellResiduals(point, rho, bound);
    MomentumResidual(point, rho, scale, imbalance);
    ScaleBounds(point, 0);
    DotBound(point[0], imbalance, scale, scale * rho, bound);
    BalanceOf(point);
    InvariantSum(point[0], point[1], point[2], point[3], imbalance);
    FiveTerms(Square(point[0]), Square(point[1]), Square(point[2]), Square(point[3]), Dot(point[0], imbalance), bound);
  }

  lemma ShellResiduals(point: seq<Vec>, rho: real, bound: real)
    requires |point| == 4 && bound == ScaleOf(point) * (ScaleOf(point) * rho)
    requires ValidateKinematics(point, [0.0, 0.0, 0.0, 0.0], 2, rho).None?
    ensures forall i :: 0 <= i < 4 ==> Abs(Square(point[i])) <= bound
  {
    hide Square, ScaleOf, FirstBadLeg, ImbalanceOf, OnShell, ShellTolerance, Abs, Largest;
    var scale := ScaleOf(point);
    var tolerance := ShellTolerance(scale, rho);
    ScaleAtLeastOne(point);
    ScaleSquared(scale, rho);
    GoodLegs(point, [0.0, 0.0, 0.0, 0.0], tolerance, 0);
    forall i | 0 <= i < 4 ensures Abs(Square(point[i])) <= bound {
      assert OnShell(point[i], [0.0, 0.0, 0.0, 0.0][i], tolerance);
      MasslessShell(point[i], tolerance);
    }
  }

  lemma MasslessShell(v: Vec, tolerance: real)
    ensures OnShell(v, 0.0, tolerance) <==> Abs(Square(v)) <= tolerance
  {
  }

  lemma MomentumResidual(point: seq<Vec>, rho: real, scale: real, imbalance: Vec)
    requires |point| == 4 && scale == ScaleOf(point) && imbalance == ImbalanceOf(point, 2)
    requires ValidateKinematics(point, [0.0, 0.0, 0.0, 0.0], 2, rho).None?
    ensures Largest(imbalance) <= scale * rho
  {
    hide Square, ScaleOf, FirstBadLeg, ImbalanceOf, Largest, ShellTolerance;
  }

  lemma ScaleSquared(scale: real, rho: real)
    requires scale >= 1.0
    ensures ShellTolerance(scale, rho) == scale * (scale * rho)
  {
  }

  lemma FiveTerms(a: real, b: real, c: real, d: real, e: real, bound: real)
    requires Abs(a) <= bound && Abs(b) <= bound && Abs(c) <= bound && Abs(d) <= bound && Abs(e) <= 4.0 * bound
    ensures Abs(a + b + c + d + 2.0 * e) <= 12.0 * bound
  {
  }

  // ----- exact kinematics

  /** Massless legs of positive energy that conserve momentum exactly. */
  ghost predicate ExactPoint(point: seq<Vec>) {
    && |point| == 4
    && (forall i :: 0 <= i < 4 ==> Square(point[i]) == 0.0 && point[i].t > 0.0)
    && Add(point[0], point[1]) == Add(point[2], point[3])
  }

  lemma ExactAccepted(point: seq<Vec>, rho: real)
    requires ExactPoint(point) && rho >= 0.0
    ensures ValidateKinematics(point, [0.0, 0.0, 0.0, 0.0], 2, rho).None?
  {
    hide Square, ScaleOf, FirstBadLeg, ImbalanceOf, Add, OnShell;
    var scale := ScaleOf(point);
    ScaleAtLeastOne(point);
    ScaleSquared(scale, rho);
    NonNegativeProducts(scale, rho);
    BalanceOf(point);
    forall i | 0 <= i < 4 ensures OnShell(point[i], [0.0, 0.0, 0.0, 0.0][i], ShellTolerance(scale, rho)) {
      MasslessShell(point[i], ShellTolerance(scale, rho));
    }
    GoodLegs(point, [0.0, 0.0, 0.0, 0.0], ShellTolerance(scale, rho), 0);
  }

  lemma NonNegativeProducts(scale: real, rho: real)
    requires scale >= 1.0 && rho >= 0.0
    ensures scale * rho >= 0.0 && scale * (scale * rho) >= 0.0
  {
  }

  /** The massless identity holds exactly, and the eliminated u is the direct one. */
  lemma ExactIdentity(point: seq<Vec>)
    requires ExactPoint(point)
    ensures var v := InvariantsOf(point); v.s + v.t + v.u == 0.0
  {
    hide Square, Add, Dot;
    BalanceOf(point);
    InvariantSum(point[0], point[1], point[2], point[3], Subtract(Add(point[0], point[1]), Add(point[2], point[3])));
    NullProduct(point[0]);
  }

  lemma NullProduct(v: Vec)
    ensures Dot(v, ZERO) == 0.0
  {
  }

  lemma IdentityForExact(v: Invariants, rho: real)
    requires v.s + v.t + v.u == 0.0 && rho >= 0.0
    ensures IdentityHolds(v, rho)
  {
  }

  /** On exact points the oracle only depends on s and t. */
  lemma ExactObservation(point: seq<Vec>, coupling: real, rho: real)
    requires ExactPoint(point) && rho >= 0.0
    ensures Observe(point, coupling, rho)
         == var v := InvariantsOf(point);
            if v.s <= 0.0 then Err(NonPositiveS)
            else
              var total := GravityTotal(coupling, v.s, v.t);
              Ok(Observation(total, [0.0, total / 2.0, total / 2.0, 0.0], rho))
  {
    hide InvariantsOf, GravityTotal, IdentityHolds, ValidateKinematics;
    ExactAccepted(point, rho);
    ExactIdentity(point);
    IdentityForExact(InvariantsOf(point), rho);
  }

  lemma GravitySymmetric(coupling: real, s: real, t: real, u: real)
    requires s != 0.0 && s + t + u == 0.0
    ensures GravityTotal(coupling, s, t) == GravityTotal(coupling, s, u)
  {
    hide Numerator;
    NumeratorSymmetric(coupling, t, u);
  }

  lemma NumeratorSymmetric(coupling: real, t: real, u: real)
    ensures Numerator(coupling, t, u) == Numerator(coupling, u, t)
  {
  }

  lemma SwappedInvariants(point: seq<Vec>)
    requires ExactPoint(point)
    ensures var v := InvariantsOf(point);
            && InvariantsOf([point[0], point[1], point[3], point[2]]) == Invariants(v.s, v.u, v.t)
            && InvariantsOf([point[1], point[0], point[2], point[3]]) == Invariants(v.s, v.u, v.t)
  {
    hide Square;
    var a, b, c, d := point[0], point[1], point[2], point[3];
    assert Add(a, b) == Add(b, a);
    assert Subtract(b, c) == Subtract(d, a) && Subtract(b, d) == Subtract(c, a);
    SquareOfDifference(a, c);
    SquareOfDifference(a, d);
  }

  lemma SquareOfDifference(a: Vec, b: Vec)
    ensures Square(Subtract(a, b)) == Square(Subtract(b, a))
  {
  }

  /**
   * On exact kinematics the observation, error cases included, does not change when the
   * two incoming or the two outgoing legs are exchanged.
   */
  lemma ExchangeSymmetry(point: seq<Vec>, coupling: real, rho: real)
    requires ExactPoint(point) && rho >= 0.0
    ensures Observe([point[0], point[1], point[3], point[2]], coupling, rho) == Observe(point, coupling, rho)
    ensures Observe([point[1], point[0], point[2], point[3]], coupling, rho) == Observe(point, coupling, rho)
  {
    hide InvariantsOf, GravityTotal, Observe, Square;
    var v := InvariantsOf(point);
    ExactIdentity(point);
    SwappedInvariants(point);
    ExactObservation(point, coupling, rho);
    assert Add(point[3], point[2]) == Add(point[2], point[3]) && Add(point[1], point[0]) == Add(point[0], point[1]);
    ExactObservation([point[0], point[1], point[3], point[2]], coupling, rho);
    ExactObservation([point[1], point[0], point[2], point[3]], coupling, rho);
    if v.s > 0.0 {
      GravitySymmetric(coupling, v.s, v.t, v.u);
    }
  }

  lemma NonNegativeTotal(coupling: real, s: real, t: real)
    requires s > 0.0
    ensures GravityTotal(coupling, s, t) >= 0.0
  {
    hide Numerator;
    NumeratorNonNegative(coupling, t, -s - t);
    NonNegativeQuotient(Numerator(coupling, t, -s - t), s, s);
  }

  lemma NonNegativeQuotient(a: real, b: real, c: real)
    requires a >= 0.0 && b > 0.0 && c > 0.0
    ensures b * c > 0.0 && a / (16.0 * (b * c)) >= 0.0
  {
  }

  lemma NumeratorNonNegative(coupling: real, t: real, u: real)
    ensures Numerator(coupling, t, u) >= 0.0
  {
  }

  /** The resolved helicities are non-negative, sum to the total, and only the two opposite
      ones contribute, equally. */
  lemma ResolvedSumsToTotal(momenta: seq<seq<real>>, coupling: real, precision: int, digits: int)
    requires ScalarGravity(momenta, coupling, precision, digits).Ok?
    ensures var o := ScalarGravity(momenta, coupling, precision, digits).value;
            && |o.resolved| == 4 && o.total >= 0.0
            && o.resolved[0] == o.resolved[3] == 0.0 && o.resolved[1] == o.resolved[2] >= 0.0
            && o.resolved[0] + o.resolved[1] + o.resolved[2] + o.resolved[3] == o.total
  {
    hide GravityTotal, InvariantsOf, ValidateKinematics, IdentityHolds;
    var point := ParsePoint(momenta, 4).value;
    NonNegativeTotal(coupling, InvariantsOf(point).s, InvariantsOf(point).t);
  }

  /** The oracle accepts only points whose invariants violate the identity within the bound. */
  lemma AcceptedWithinBound(momenta: seq<seq<real>>, coupling: real, precision: int, digits: int)
    requires ScalarGravity(momenta, coupling, precision, digits).Ok?
    ensures var point := ParsePoint(momenta, 4); var rho := Tolerance(digits);
            && point.Ok? && |point.value| == 4
            && Abs(InvariantsOf(point.value).s + InvariantsOf(point.value).t + InvariantsOf(point.value).u)
               <= 12.0 * (ScaleOf(point.value) * (ScaleOf(point.value) * rho))
  {
    hide GravityTotal, InvariantsOf, ValidateKinematics, IdentityHolds, ScaleOf, Abs;
    MandelstamBound(ParsePoint(momenta, 4).value, Tolerance(digits));
  }
}
