/**
 * The converse direction of the dipole map: every massless triple the forward map accepts
 * is a split, and its parent, spectator, splitting variables and transverse vector are
 * what `Split` needs to rebuild it.
 */
module DipoleInverse {
  import opened FourVectors
  import opened DipoleMap

  /** The transverse vector of a leg with respect to a parent and a spectator. */
  function Transverse(pi: Vec, p: Vec, s: Vec, z: real, y: real): Vec {
    Linear([(1.0, pi), (-z, p), (-(y * (1.0 - z)), s)])
  }

  // ----- the splitting variables, without their quotients

  /** `w` stands for y/(1-y). */
  lemma SplittingVariables(ij: real, ik: real, jk: real, y: real, z: real, w: real)
    requires ij + ik + jk != 0.0 && ik + jk != 0.0
    requires y == ij / (ij + ik + jk) && z == ik / (ik + jk) && w == ij / (ik + jk)
    ensures ij == w * (ik + jk) && ik == z * (ik + jk) && y * (ij + ik + jk) == ij
    ensures y != 1.0 && y * (1.0 + w) == w
    ensures -y / (1.0 - y) == -w && 1.0 / (1.0 - y) == 1.0 + w
  {
  }

  // ----- products of the merged parent and spectator

  lemma ParentWithLeg(pi: Vec, pj: Vec, pk: Vec, w: real, v: Vec)
    ensures Dot(Linear([(1.0, pi), (1.0, pj), (-w, pk)]), v) == Dot(pi, v) + Dot(pj, v) - w * Dot(pk, v)
  {
    Dot3(1.0, pi, 1.0, pj, -w, pk, v);
  }

  /** Products of the parent with itself and with the legs, from the leg products. */
  lemma ParentProducts(pi: Vec, pj: Vec, pk: Vec, ij: real, ik: real, jk: real, w: real, p: Vec)
    requires Massless(pi) && Massless(pj) && Massless(pk)
    requires ij == Dot(pi, pj) && ik == Dot(pi, pk) && jk == Dot(pj, pk) && ij == w * (ik + jk)
    requires p == Linear([(1.0, pi), (1.0, pj), (-w, pk)])
    ensures Massless(p) && Dot(pi, p) == ij - w * ik && Dot(pk, p) == ik + jk
  {
    hide Dot, Linear;
    ParentWithLeg(pi, pj, pk, w, pi);
    ParentWithLeg(pi, pj, pk, w, pj);
    ParentWithLeg(pi, pj, pk, w, pk);
    ParentWithLeg(pi, pj, pk, w, p);
    DotSymmetric(p, pi);
    DotSymmetric(p, pj);
    DotSymmetric(p, pk);
    DotSymmetric(pi, pj);
    DotSymmetric(pi, pk);
    DotSymmetric(pj, pk);
    assert w * (ik + jk) == w * ik + w * jk;
  }

  lemma SpectatorProducts(pi: Vec, pk: Vec, p: Vec, c: real, s: Vec)
    requires Massless(pk) && s == Linear([(c, pk)])
    ensures Massless(s) && Dot(pi, s) == c * Dot(pi, pk) && Dot(p, s) == c * Dot(pk, p)
  {
  }

  // ----- the transverse vector

  lemma TransverseWith(pi: Vec, p: Vec, s: Vec, z: real, y: real, v: Vec)
    ensures Dot(Transverse(pi, p, s, z, y), v) == Dot(pi, v) - z * Dot(p, v) - y * (1.0 - z) * Dot(s, v)
  {
    hide Dot;
    Dot3(1.0, pi, -z, p, -(y * (1.0 - z)), s, v);
  }

  lemma TransverseOrthogonal(pi: Vec, p: Vec, s: Vec, z: real, y: real, ps: real, k: Vec)
    requires Massless(p) && Massless(s) && ps == Dot(p, s)
    requires Dot(pi, p) == y * (1.0 - z) * ps && Dot(pi, s) == z * ps
    requires k == Transverse(pi, p, s, z, y)
    ensures Dot(k, p) == 0.0 && Dot(k, s) == 0.0
  {
    hide Dot, Transverse;
    TransverseWith(pi, p, s, z, y, p);
    TransverseWith(pi, p, s, z, y, s);
    DotSymmetric(p, s);
  }

  lemma TransverseSquare(pi: Vec, p: Vec, s: Vec, z: real, y: real, ps: real, k: Vec)
    requires Massless(pi) && Dot(k, p) == 0.0 && Dot(k, s) == 0.0
    requires Dot(pi, p) == y * (1.0 - z) * ps && Dot(pi, s) == z * ps
    requires k == Transverse(pi, p, s, z, y)
    ensures Dot(k, k) == -2.0 * z * (1.0 - z) * y * ps
  {
    hide Dot, Transverse;
    TransverseWith(pi, p, s, z, y, k);
    TransverseWith(pi, p, s, z, y, pi);
    DotSymmetric(p, k);
    DotSymmetric(s, k);
    DotSymmetric(pi, k);
    DotSymmetric(p, pi);
    DotSymmetric(s, pi);
    SquareScalar(z, y, ps);
  }

  lemma SquareScalar(z: real, y: real, ps: real)
    ensures 0.0 - z * (y * (1.0 - z) * ps) - y * (1.0 - z) * (z * ps) == -2.0 * z * (1.0 - z) * y * ps
  {
  }

  lemma LegScalars(ij: real, ik: real, jk: real, y: real, z: real, w: real, ps: real)
    requires ij == w * (ik + jk) && ik == z * (ik + jk) && y * (ij + ik + jk) == ij
    requires ps == (1.0 + w) * (ik + jk)
    ensures ps == ij + ik + jk
    ensures ij - w * ik == y * (1.0 - z) * ps && (1.0 + w) * ik == z * ps
  {
  }

  /** Everything `Split` demands, for the parent, spectator and leg of a merged triple. */
  lemma MergedIsSplittable(pi: Vec, pj: Vec, pk: Vec, ij: real, ik: real, jk: real,
                           y: real, z: real, w: real, p: Vec, s: Vec)
    requires Massless(pi) && Massless(pj) && Massless(pk)
    requires ij == Dot(pi, pj) && ik == Dot(pi, pk) && jk == Dot(pj, pk)
    requires ij == w * (ik + jk) && ik == z * (ik + jk) && y * (ij + ik + jk) == ij
    requires p == Linear([(1.0, pi), (1.0, pj), (-w, pk)]) && s == Linear([(1.0 + w, pk)])
    ensures Splittable(p, s, Transverse(pi, p, s, z, y), z, y)
    ensures Dot(p, s) == ij + ik + jk
  {
    hide Dot, Linear, Transverse;
    var ps, k := Dot(p, s), Transverse(pi, p, s, z, y);
    ParentProducts(pi, pj, pk, ij, ik, jk, w, p);
    SpectatorProducts(pi, pk, p, 1.0 + w, s);
    LegScalars(ij, ik, jk, y, z, w, ps);
    TransverseOrthogonal(pi, p, s, z, y, ps, k);
    TransverseSquare(pi, p, s, z, y, ps, k);
  }

  // ----- rebuilding the legs

  lemma EmitterRebuilt(pi: Vec, p: Vec, s: Vec, z: real, y: real)
    ensures Split(p, s, Transverse(pi, p, s, z, y), z, y).pi == pi
  {
    hide Linear;
    var b := y * (1.0 - z);
    Linear3(1.0, pi, -z, p, -b, s);
    Linear3(z, p, b, s, 1.0, Transverse(pi, p, s, z, y));
  }

  lemma ShareComponent(a: real, b: real, c: real, y: real, w: real)
    requires y * (1.0 + w) == w
    ensures 1.0 * a + (1.0 * b + -w * c) + y * ((1.0 + w) * c) == a + b
    ensures (1.0 + w) * c - y * ((1.0 + w) * c) == c
  {
  }

  /** Parent plus the spectator's share is the pair; the rest of the spectator is the recoil. */
  lemma SharedMomentum(pi: Vec, pj: Vec, pk: Vec, y: real, w: real)
    requires y * (1.0 + w) == w
    ensures var p, s := Linear([(1.0, pi), (1.0, pj), (-w, pk)]), Linear([(1.0 + w, pk)]);
            Add(p, Scale(y, s)) == Add(pi, pj) && Subtract(s, Scale(y, s)) == pk
  {
    hide Linear;
    Linear3(1.0, pi, 1.0, pj, -w, pk);
    Linear1(1.0 + w, pk);
    ShareComponent(pi.t, pj.t, pk.t, y, w);
    ShareComponent(pi.x, pj.x, pk.x, y, w);
    ShareComponent(pi.y, pj.y, pk.y, y, w);
    ShareComponent(pi.z, pj.z, pk.z, y, w);
  }

  lemma AddCancels(a: Vec, b: Vec, c: Vec)
    requires Add(a, b) == Add(a, c)
    ensures b == c
  {
  }

  lemma TripleRebuilt(pi: Vec, pj: Vec, pk: Vec, y: real, z: real, w: real, p: Vec, s: Vec)
    requires y * (1.0 + w) == w
    requires p == Linear([(1.0, pi), (1.0, pj), (-w, pk)]) && s == Linear([(1.0 + w, pk)])
    ensures Split(p, s, Transverse(pi, p, s, z, y), z, y) == Triple(pi, pj, pk)
  {
    hide Linear, Transverse;
    var k := Transverse(pi, p, s, z, y);
    var t := Split(p, s, k, z, y);
    EmitterRebuilt(pi, p, s, z, y);
    PairMomentum(p, s, k, z, y);
    RecoilMomentum(s, y);
    SharedMomentum(pi, pj, pk, y, w);
    AddCancels(pi, t.pj, pj);
  }

  /**
   * The converse of `SplitThenMerge`: the forward map of any massless triple it accepts
   * yields a massless pair of non-zero product, and splitting that pair again with the
   * returned variables and the triple's transverse vector gives the triple back. In
   * particular the pair carries the triple's momentum.
   */
  lemma MergeThenSplit(point: seq<Vec>)
    requires |point| == 6 && ForwardMap(point).Ok?
    requires Massless(point[2]) && Massless(point[3]) && Massless(point[4])
    ensures var m := ForwardMap(point).value;
            var p, s := m.born[2], m.born[3];
            var k := Transverse(point[2], p, s, m.z, m.y);
            && |m.born| == 5 && m.y != 1.0 && Dot(p, s) != 0.0
            && Splittable(p, s, k, m.z, m.y)
            && Emission(m.born, Split(p, s, k, m.z, m.y)) == point
            && Add(p, s) == Add(Add(point[2], point[3]), point[4])
  {
    hide Dot, Linear, Transverse;
    var pi, pj, pk := point[2], point[3], point[4];
    var ij, ik, jk := Dot(pi, pj), Dot(pi, pk), Dot(pj, pk);
    ForwardMapMerges(point, ij, ik, jk);
    var y, z, w := ij / (ij + ik + jk), ik / (ik + jk), ij / (ik + jk);
    SplittingVariables(ij, ik, jk, y, z, w);
    var p, s := Linear([(1.0, pi), (1.0, pj), (-w, pk)]), Linear([(1.0 + w, pk)]);
    MergeFromProducts(point, ij, ik, jk, y, p, s);
    MergedIsSplittable(pi, pj, pk, ij, ik, jk, y, z, w, p, s);
    TripleRebuilt(pi, pj, pk, y, z, w, p, s);
    SplitConserves(p, s, Transverse(pi, p, s, z, y), z, y);
  }

  /** The forward map accepts a point exactly when both of its denominators are non-zero. */
  lemma ForwardMapDomain(point: seq<Vec>)
    requires |point| == 6
    ensures ForwardMap(point).Ok? <==>
            && Dot(point[2], point[3]) + Dot(point[2], point[4]) + Dot(point[3], point[4]) != 0.0
            && Dot(point[2], point[4]) + Dot(point[3], point[4]) != 0.0
  {
  }
}
