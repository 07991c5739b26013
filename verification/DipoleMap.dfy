/**
 * The final-final dipole map of the NLO study and its inverse splitting map.
 *
 * `ForwardMap` merges legs 2, 3, 4 of a six-leg point into a parent and a spectator.
 * `Split` is the inverse construction: from a parent, a spectator, a transverse vector
 * and the two splitting variables it builds the three legs.
 */
module DipoleMap {
  import opened Prelude
  import opened FourVectors

  datatype ArithmeticError = DivisionByZero

  datatype Mapped = Mapped(born: seq<Vec>, y: real, z: real, sij: real)

  datatype Triple = Triple(pi: Vec, pj: Vec, pk: Vec)

  function ForwardMap(point: seq<Vec>): Result<Mapped, ArithmeticError>
    requires |point| >= 6
  {
    Merge(point, Dot(point[2], point[3]), Dot(point[2], point[4]), Dot(point[3], point[4]))
  }

  /** The mapped point in terms of the three mutual products of the merged legs. */
  function Merge(point: seq<Vec>, ij: real, ik: real, jk: real): Result<Mapped, ArithmeticError>
    requires |point| >= 6
  {
    if ij + ik + jk == 0.0 || ik + jk == 0.0 then Err(DivisionByZero)
    else
      var y := ij / (ij + ik + jk);
      if 1.0 - y == 0.0 then Err(DivisionByZero)
      else
        var parent := Linear([(1.0, point[2]), (1.0, point[3]), (-y / (1.0 - y), point[4])]);
        var spectator := Linear([(1.0 / (1.0 - y), point[4])]);
        Ok(Mapped([point[0], point[1], parent, spectator, point[5]], y, ik / (ik + jk), 2.0 * ij))
  }

  function Split(parent: Vec, spectator: Vec, transverse: Vec, z: real, y: real): Triple {
    Triple(Linear([(z, parent), (y * (1.0 - z), spectator), (1.0, transverse)]),
           Linear([(1.0 - z, parent), (y * z, spectator), (-1.0, transverse)]),
           Linear([(1.0 - y, spectator)]))
  }

  /** The point in which the three legs replace parent and spectator of a Born point. */
  function Emission(born: seq<Vec>, t: Triple): seq<Vec>
    requires |born| == 5
  {
    [born[0], born[1], t.pi, t.pj, t.pk, born[4]]
  }

  /** What the inverse map demands of its input: two massless legs and a transverse
      vector orthogonal to both, of the length fixed by the splitting variables. */
  predicate Splittable(parent: Vec, spectator: Vec, k: Vec, z: real, y: real) {
    && Massless(parent)
    && Massless(spectator)
    && Dot(k, parent) == 0.0
    && Dot(k, spectator) == 0.0
    && Dot(k, k) == -2.0 * z * (1.0 - z) * y * Dot(parent, spectator)
  }

  // ----- products of combinations of parent, spectator and transverse vector

  lemma SudakovProduct(p: Vec, s: Vec, k: Vec,
                       a: real, b: real, c: real, a': real, b': real, c': real)
    requires Massless(p) && Massless(s) && Dot(k, p) == 0.0 && Dot(k, s) == 0.0
    ensures Dot(Linear([(a, p), (b, s), (c, k)]), Linear([(a', p), (b', s), (c', k)]))
         == (a * b' + b * a') * Dot(p, s) + c * c' * Dot(k, k)
  {
    hide Dot;
    var w := Linear([(a', p), (b', s), (c', k)]);
    Dot3(a, p, b, s, c, k, w);
    Dot3(a', p, b', s, c', k, p);
    Dot3(a', p, b', s, c', k, s);
    Dot3(a', p, b', s, c', k, k);
    DotSymmetric(w, p);
    DotSymmetric(w, s);
    DotSymmetric(w, k);
    DotSymmetric(k, p);
    DotSymmetric(k, s);
    DotSymmetric(p, s);
    var ps, kk := Dot(p, s), Dot(k, k);
    assert Dot(p, w) == b' * ps;
    assert Dot(s, w) == a' * ps;
    assert Dot(k, w) == c' * kk;
    assert a * (b' * ps) + b * (a' * ps) + c * (c' * kk) == (a * b' + b * a') * ps + c * c' * kk;
  }

  // ----- masses and mutual products of the three legs

  lemma EmitterMassless(p: Vec, s: Vec, k: Vec, z: real, y: real)
    requires Splittable(p, s, k, z, y)
    ensures Massless(Split(p, s, k, z, y).pi)
  {
    hide Dot, Linear;
    var b := y * (1.0 - z);
    SudakovProduct(p, s, k, z, b, 1.0, z, b, 1.0);
    SplitScalars(z, y, Dot(p, s), Dot(k, k));
  }

  lemma EmittedMassless(p: Vec, s: Vec, k: Vec, z: real, y: real)
    requires Splittable(p, s, k, z, y)
    ensures Massless(Split(p, s, k, z, y).pj)
  {
    hide Dot, Linear;
    var b := y * z;
    SudakovProduct(p, s, k, 1.0 - z, b, -1.0, 1.0 - z, b, -1.0);
    SplitScalars(z, y, Dot(p, s), Dot(k, k));
  }

  lemma EmittingPair(p: Vec, s: Vec, k: Vec, z: real, y: real)
    requires Splittable(p, s, k, z, y)
    ensures var t := Split(p, s, k, z, y); Dot(t.pi, t.pj) == y * Dot(p, s)
  {
    hide Dot, Linear;
    SudakovProduct(p, s, k, z, y * (1.0 - z), 1.0, 1.0 - z, y * z, -1.0);
    SplitScalars(z, y, Dot(p, s), Dot(k, k));
  }

  /** A leg of the pair against the recoiling spectator. */
  lemma RecoilProduct(p: Vec, s: Vec, k: Vec, a: real, b: real, c: real, d: real)
    requires Massless(s) && Dot(k, s) == 0.0
    ensures Dot(Linear([(a, p), (b, s), (c, k)]), Linear([(d, s)])) == a * (d * Dot(p, s))
  {
    hide Dot;
    var w := Linear([(d, s)]);
    Linear1(d, s);
    Dot3(a, p, b, s, c, k, w);
    DotSymmetric(p, w);
    DotSymmetric(s, w);
    DotSymmetric(k, w);
    DotScale(d, s, p);
    DotScale(d, s, s);
    DotScale(d, s, k);
    DotSymmetric(s, p);
    DotSymmetric(s, k);
  }

  lemma RecoilMassless(s: Vec, d: real)
    requires Massless(s)
    ensures Massless(Linear([(d, s)]))
  {
  }

  /** The polynomial identities behind the products. */
  lemma SplitScalars(z: real, y: real, ps: real, kk: real)
    requires kk == -2.0 * z * (1.0 - z) * y * ps
    ensures (z * (y * (1.0 - z)) + y * (1.0 - z) * z) * ps + kk == 0.0
    ensures ((1.0 - z) * (y * z) + y * z * (1.0 - z)) * ps + kk == 0.0
    ensures (z * (y * z) + y * (1.0 - z) * (1.0 - z)) * ps - kk == y * ps
  {
  }

  lemma EmitterRecoil(p: Vec, s: Vec, k: Vec, z: real, y: real)
    requires Massless(s) && Dot(k, s) == 0.0
    ensures var t := Split(p, s, k, z, y); Dot(t.pi, t.pk) == z * ((1.0 - y) * Dot(p, s))
  {
    hide Dot, Linear;
    RecoilProduct(p, s, k, z, y * (1.0 - z), 1.0, 1.0 - y);
  }

  lemma EmittedRecoil(p: Vec, s: Vec, k: Vec, z: real, y: real)
    requires Massless(s) && Dot(k, s) == 0.0
    ensures var t := Split(p, s, k, z, y); Dot(t.pj, t.pk) == (1.0 - z) * ((1.0 - y) * Dot(p, s))
  {
    hide Dot, Linear;
    RecoilProduct(p, s, k, 1.0 - z, y * z, -1.0, 1.0 - y);
  }

  // ----- the momenta themselves

  lemma SplitComponent(p: real, s: real, k: real, z: real, y: real)
    ensures z * p + (y * (1.0 - z) * s + 1.0 * k) + ((1.0 - z) * p + (y * z * s + -1.0 * k)) == p + y * s
    ensures (1.0 - y) * s == s - y * s
  {
  }

  lemma PairComponent(p: real, s: real, k: real, z: real, y: real, pi: real, pj: real, share: real)
    requires Combined(z, p, y * (1.0 - z), s, 1.0, k, pi) && Combined(1.0 - z, p, y * z, s, -1.0, k, pj)
    requires Multiplied(y, s, share)
    ensures pi + pj == p + share
  {
    SplitComponent(p, s, k, z, y);
  }

  /** The emitting pair carries the parent's momentum and a share of the spectator's. */
  lemma PairMomentum(p: Vec, s: Vec, k: Vec, z: real, y: real)
    ensures var t := Split(p, s, k, z, y); Add(t.pi, t.pj) == Add(p, Scale(y, s))
  {
    hide Linear, Combined, Multiplied, Scale;
    var t, share := Split(p, s, k, z, y), Scale(y, s);
    ScaleComponents(y, s, share);
    LinearComponents(z, p, y * (1.0 - z), s, 1.0, k, t.pi);
    LinearComponents(1.0 - z, p, y * z, s, -1.0, k, t.pj);
    PairComponent(p.t, s.t, k.t, z, y, t.pi.t, t.pj.t, share.t);
    PairComponent(p.x, s.x, k.x, z, y, t.pi.x, t.pj.x, share.x);
    PairComponent(p.y, s.y, k.y, z, y, t.pi.y, t.pj.y, share.y);
    PairComponent(p.z, s.z, k.z, z, y, t.pi.z, t.pj.z, share.z);
  }

  lemma RecoilMomentum(s: Vec, y: real)
    ensures Linear([(1.0 - y, s)]) == Subtract(s, Scale(y, s))
  {
  }

  /** The three legs carry exactly the momentum of parent and spectator. */
  lemma SplitConserves(p: Vec, s: Vec, k: Vec, z: real, y: real)
    ensures var t := Split(p, s, k, z, y); Add(Add(t.pi, t.pj), t.pk) == Add(p, s)
  {
    hide Linear, Scale;
    PairMomentum(p, s, k, z, y);
    RecoilMomentum(s, y);
  }

  lemma Quotient(a: real, b: real)
    requires b != 0.0
    ensures (a * b) / b == a
  {
  }

  lemma NonzeroProduct(a: real, b: real)
    requires a != 0.0 && b != 0.0
    ensures a * b != 0.0
  {
  }

  lemma MergedScalars(z: real, y: real, ps: real, ij: real, ik: real, jk: real)
    requires ps != 0.0 && y != 1.0
    requires ij == y * ps && ik == z * ((1.0 - y) * ps) && jk == (1.0 - z) * ((1.0 - y) * ps)
    ensures ij + ik + jk != 0.0 && ik + jk != 0.0
    ensures ij / (ij + ik + jk) == y && ik / (ik + jk) == z
  {
    var w := (1.0 - y) * ps;
    NonzeroProduct(1.0 - y, ps);
    assert jk == w - z * w;
    assert w == ps - y * ps;
    Quotient(y, ps);
    Quotient(z, w);
  }

  lemma UnscaleVector(y: real, s: Vec)
    requires y != 1.0
    ensures var pk := Subtract(s, Scale(y, s));
            Linear([(1.0 / (1.0 - y), pk)]) == s && Scale(-y / (1.0 - y), pk) == Scale(-y, s)
  {
  }

  lemma MergedMomenta(p: Vec, s: Vec, k: Vec, z: real, y: real)
    requires y != 1.0
    ensures var t := Split(p, s, k, z, y);
            && Linear([(1.0, t.pi), (1.0, t.pj), (-y / (1.0 - y), t.pk)]) == p
            && Linear([(1.0 / (1.0 - y), t.pk)]) == s
  {
    hide Linear;
    var t := Split(p, s, k, z, y);
    PairMomentum(p, s, k, z, y);
    RecoilMomentum(s, y);
    UnscaleVector(y, s);
    PairPlus(t.pi, t.pj, -y / (1.0 - y), t.pk);
    assert Add(Add(p, Scale(y, s)), Scale(-y, s)) == p;
  }

  lemma PairPlus(a: Vec, b: Vec, w: real, c: Vec)
    ensures Linear([(1.0, a), (1.0, b), (w, c)]) == Add(Add(a, b), Scale(w, c))
  {
    Linear3(1.0, a, 1.0, b, w, c);
  }

  lemma ForwardMapMerges(point: seq<Vec>, ij: real, ik: real, jk: real)
    requires |point| >= 6
    requires ij == Dot(point[2], point[3]) && ik == Dot(point[2], point[4]) && jk == Dot(point[3], point[4])
    ensures ForwardMap(point) == Merge(point, ij, ik, jk)
  {
  }

  /** What the forward map returns from the three products. */
  lemma MergeFromProducts(point: seq<Vec>, ij: real, ik: real, jk: real, y: real, p: Vec, s: Vec)
    requires |point| == 6
    requires ij + ik + jk != 0.0 && ik + jk != 0.0 && y == ij / (ij + ik + jk) && y != 1.0
    requires p == Linear([(1.0, point[2]), (1.0, point[3]), (-y / (1.0 - y), point[4])])
    requires s == Linear([(1.0 / (1.0 - y), point[4])])
    ensures Merge(point, ij, ik, jk)
         == Ok(Mapped([point[0], point[1], p, s, point[5]], y, ik / (ik + jk), 2.0 * ij))
  {
  }

  /**
   * Round trip: whatever was split is merged back exactly. The forward map returns the
   * parent, the spectator and the two splitting variables it was split with, together
   * with the invariant mass of the emitting pair.
   */
  lemma SplitThenMerge(born: seq<Vec>, k: Vec, z: real, y: real, ps: real)
    requires |born| == 5
    requires Splittable(born[2], born[3], k, z, y)
    requires ps == Dot(born[2], born[3]) != 0.0 && y != 1.0
    ensures ForwardMap(Emission(born, Split(born[2], born[3], k, z, y)))
         == Ok(Mapped(born, y, z, 2.0 * (y * ps)))
  {
    hide Dot, Linear, Merge;
    var p, s := born[2], born[3];
    var t := Split(p, s, k, z, y);
    var ij, ik, jk := y * ps, z * ((1.0 - y) * ps), (1.0 - z) * ((1.0 - y) * ps);
    EmittingPair(p, s, k, z, y);
    EmitterRecoil(p, s, k, z, y);
    EmittedRecoil(p, s, k, z, y);
    MergedScalars(z, y, ps, ij, ik, jk);
    MergedMomenta(p, s, k, z, y);
    ForwardMapMerges(Emission(born, t), ij, ik, jk);
    MergeFromProducts(Emission(born, t), ij, ik, jk, y, p, s);
    assert [born[0], born[1], p, s, born[4]] == born;
  }
}
