/**
 * Approach points of the NLO stability study: the rational Born point, the collinear and
 * soft trajectories through the inverse splitting map, and the checks recorded with them.
 */
module Trajectory {
  import opened Prelude
  import opened FourVectors
  import opened DipoleMap

  datatype Geometry = Geometry(born: seq<Vec>, e1: Vec, e2: Vec)

  datatype PointError = InvalidArgument | OutsideDomain | Arithmetic(error: ArithmeticError)

  datatype Checks = Checks(massShell: real, conservation: real, positiveEnergies: bool,
                           mappedBorn: real, yError: real, zError: real)

  datatype Source = Source(delta: real, point: seq<Vec>, born: seq<Vec>, spin: Vec,
                           sij: real, z: real, y: real, checks: Checks)

  /** A splitting chosen by one of the two limits. */
  datatype Splitting = Splitting(z: real, y: real, transverse: Vec)

  // ----- the Born point

  const Q := 1000.0

  const N := Vec(0.0, 2.0 / 3.0, 1.0 / 3.0, 2.0 / 3.0)
  const TA := Vec(0.0, 2.0 / 3.0, -2.0 / 3.0, -1.0 / 3.0)
  const TB := Vec(0.0, 1.0 / 3.0, 2.0 / 3.0, -2.0 / 3.0)

  /** The vector of energy `t` whose direction is a combination of `n` and `tb`. */
  function InFrame(t: real, a: real, b: real): Vec {
    Vec(t, a * N.x + b * TB.x, a * N.y + b * TB.y, a * N.z + b * TB.z)
  }

  /** The rational 1 TeV Born point and its two transverse unit vectors. The direction of
      the parent is `N`, and (N, TA, TB) is an orthonormal frame of rational vectors. */
  function BornGeometry(): (g: Geometry)
    ensures |g.born| == 5
  {
    Geometry(
      [Vec(Q / 2.0, 0.0, 0.0, Q / 2.0),
       Vec(Q / 2.0, 0.0, 0.0, -Q / 2.0),
       InFrame(4.0 * Q / 9.0, 4.0 * Q / 9.0, 0.0),
       InFrame(5.0 * Q / 26.0, Q * -3.0 / 26.0, Q * 2.0 / 13.0),
       InFrame(85.0 * Q / 234.0, Q * -77.0 / 234.0, Q * -2.0 / 13.0)],
      TA,
      InFrame(0.5, 0.5, 1.0))
  }

  // ----- the checks recorded with a point

  /** The largest absolute value in a list; zero for an empty list. */
  function MaxAbs(values: seq<real>): (m: real)
    ensures m >= 0.0
    ensures forall i :: 0 <= i < |values| ==> Abs(values[i]) <= m
    ensures (forall i :: 0 <= i < |values| ==> values[i] == 0.0) ==> m == 0.0
  {
    if values == [] then 0.0
    else
      var rest := MaxAbs(values[1..]);
      assert forall i :: 1 <= i < |values| ==> values[i] == values[1..][i - 1];
      assert forall i :: 0 <= i < |values| - 1 ==> values[1..][i] == values[i + 1];
      MaxR(Abs(values[0]), rest)
  }

  function Components(v: Vec): seq<real> {
    [v.t, v.x, v.y, v.z]
  }

  function MassResiduals(point: seq<Vec>): (r: seq<real>)
    ensures |r| == |point| && forall i :: 0 <= i < |r| ==> r[i] == Dot(point[i], point[i])
  {
    seq(|point|, i requires 0 <= i < |point| => Dot(point[i], point[i]))
  }

  /** Incoming minus outgoing momentum. */
  function Imbalance(point: seq<Vec>): Vec
    requires |point| >= 2
  {
    Subtract(Add(point[0], point[1]), Sum(point[2..]))
  }

  function Differences(a: seq<Vec>, b: seq<Vec>): (r: seq<real>)
    requires |a| == |b|
    ensures a == b ==> forall i :: 0 <= i < |r| ==> r[i] == 0.0
  {
    if a == [] then []
    else Components(Subtract(a[0], b[0])) + Differences(a[1..], b[1..])
  }

  function PointChecks(point: seq<Vec>, born: seq<Vec>, z: real, y: real, mapped: Mapped): Checks
    requires |point| >= 2 && |mapped.born| == |born|
  {
    Checks(MaxAbs(MassResiduals(point)) / 1000000.0,
           MaxAbs(Components(Imbalance(point))) / 1000.0,
           forall i :: 0 <= i < |point| ==> point[i].t > 0.0,
           MaxAbs(Differences(mapped.born, born)) / 1000.0,
           Abs(mapped.y - y),
           Abs(mapped.z - z))
  }

  // ----- the two trajectories

  function SpinVector(g: Geometry): Vec {
    Linear([(3.0 / 5.0, g.e1), (4.0 / 5.0, g.e2)])
  }

  function CollinearSplitting(parent: Vec, spectator: Vec, e: Vec, delta: real): Splitting
    requires Dot(parent, spectator) != 0.0
  {
    var z := 3.0 / 5.0;
    var kt := delta * 1000.0;
    var denominator := 2.0 * z * (1.0 - z) * Dot(parent, spectator);
    Splitting(z, kt * kt / denominator, Linear([(kt, e)]))
  }

  /** The fixed wide-angle null direction of the soft momentum. */
  function SoftDirection(e1: Vec): Vec {
    Vec(1000.0 / 2.0, 1000.0 * e1.x / 2.0, 1000.0 * e1.y / 2.0, 1000.0 * e1.z / 2.0)
  }

  function SoftSplitting(parent: Vec, spectator: Vec, r: Vec, delta: real): Result<Splitting, ArithmeticError> {
    var ps := Dot(parent, spectator);
    if ps == 0.0 then Err(DivisionByZero)
    else
      var alpha, beta := Dot(r, spectator) / ps, Dot(r, parent) / ps;
      var perp := Linear([(1.0, r), (-alpha, parent), (-beta, spectator)]);
      var z := 1.0 - delta * alpha;
      if z == 0.0 then Err(DivisionByZero)
      else Ok(Splitting(z, delta * beta / z, Linear([(-delta, perp)])))
  }

  function ChooseSplitting(limit: string, g: Geometry, delta: real): Result<Splitting, ArithmeticError>
    requires |g.born| == 5
  {
    var parent, spectator := g.born[2], g.born[3];
    if limit == "collinear" then
      if Dot(parent, spectator) == 0.0 then Err(DivisionByZero)
      else Ok(CollinearSplitting(parent, spectator, SpinVector(g), delta))
    else SoftSplitting(parent, spectator, SoftDirection(g.e1), delta)
  }

  function MakePoint(limit: string, exponent: int, digits: int): Result<Source, PointError> {
    if (limit != "collinear" && limit != "soft") || exponent < 1 || digits < 16 then Err(InvalidArgument)
    else
      ApproachFrom(BornGeometry(), limit, 1.0 / Pow10(exponent))
  }

  function ApproachFrom(g: Geometry, limit: string, delta: real): Result<Source, PointError>
    requires |g.born| == 5
  {
    match ChooseSplitting(limit, g, delta)
    case Err(e) => Err(Arithmetic(e))
    case Ok(sp) => ApproachWith(g, delta, sp)
  }

  function ApproachWith(g: Geometry, delta: real, sp: Splitting): Result<Source, PointError>
    requires |g.born| == 5
  {
    if !(0.0 < sp.z < 1.0 && 0.0 < sp.y < 1.0) then Err(OutsideDomain)
    else
      var point := Emission(g.born, Split(g.born[2], g.born[3], sp.transverse, sp.z, sp.y));
      match ForwardMap(point)
      case Err(e) => Err(Arithmetic(e))
      case Ok(mapped) =>
        Ok(Source(delta, point, g.born, SpinVector(g), mapped.sij, sp.z, sp.y,
                  PointChecks(point, g.born, sp.z, sp.y, mapped)))
  }

  // ----- the Born point is physical

  lemma BornPoint()
    ensures var g := BornGeometry(); var b := g.born;
            && (forall i :: 0 <= i < 5 ==> Massless(b[i]) && b[i].t > 0.0)
            && Add(b[0], b[1]) == Add(Add(b[2], b[3]), b[4])
            && b[2].t == 4000.0 / 9.0 && b[3].t == 5000.0 / 26.0
            && Dot(b[2], b[3]) == 16000000.0 / 117.0
  {
  }

  lemma TransverseBasis()
    ensures var g := BornGeometry(); var p, s := g.born[2], g.born[3];
            && Dot(g.e1, g.e1) == -1.0 && Dot(g.e2, g.e2) == -1.0 && Dot(g.e1, g.e2) == 0.0
            && Dot(g.e1, p) == 0.0 && Dot(g.e1, s) == 0.0
            && Dot(g.e2, p) == 0.0 && Dot(g.e2, s) == 0.0
  {
  }
}
