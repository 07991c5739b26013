/** Minkowski four-vectors with metric (+,-,-,-) over exact reals. */
module FourVectors {

  datatype Vec = Vec(t: real, x: real, y: real, z: real)

  const ZERO := Vec(0.0, 0.0, 0.0, 0.0)

  function Dot(a: Vec, b: Vec): real {
    a.t * b.t - (a.x * b.x + a.y * b.y + a.z * b.z)
  }

  function Add(a: Vec, b: Vec): Vec {
    Vec(a.t + b.t, a.x + b.x, a.y + b.y, a.z + b.z)
  }

  function Subtract(a: Vec, b: Vec): Vec {
    Vec(a.t - b.t, a.x - b.x, a.y - b.y, a.z - b.z)
  }

  function Scale(c: real, v: Vec): Vec {
    Vec(c * v.t, c * v.x, c * v.y, c * v.z)
  }

  /** Componentwise weighted sum of any number of (scale, vector) terms. */
  function Linear(terms: seq<(real, Vec)>): Vec {
    if terms == [] then ZERO
    else Add(Scale(terms[0].0, terms[0].1), Linear(terms[1..]))
  }

  function Sum(vectors: seq<Vec>): Vec {
    if vectors == [] then ZERO else Add(vectors[0], Sum(vectors[1..]))
  }

  predicate Massless(v: Vec) {
    Dot(v, v) == 0.0
  }

  lemma DotScaleAdd(c: real, a: Vec, b: Vec, v: Vec)
    ensures Dot(Add(Scale(c, a), b), v) == c * Dot(a, v) + Dot(b, v)
  {
  }

  lemma DotSymmetric(a: Vec, b: Vec)
    ensures Dot(a, b) == Dot(b, a)
  {
  }

  lemma Linear1(a: real, p: Vec)
    ensures Linear([(a, p)]) == Scale(a, p)
  {
  }

  lemma Linear2(a: real, p: Vec, b: real, q: Vec)
    ensures Linear([(a, p), (b, q)]) == Add(Scale(a, p), Scale(b, q))
  {
    assert [(a, p), (b, q)][1..] == [(b, q)];
    Linear1(b, q);
  }

  lemma Linear3(a: real, p: Vec, b: real, q: Vec, c: real, r: Vec)
    ensures Linear([(a, p), (b, q), (c, r)]) == Add(Scale(a, p), Add(Scale(b, q), Scale(c, r)))
  {
    assert [(a, p), (b, q), (c, r)][1..] == [(b, q), (c, r)];
    Linear2(b, q, c, r);
  }

  lemma Dot3(a: real, p: Vec, b: real, q: Vec, c: real, r: Vec, v: Vec)
    ensures Dot(Linear([(a, p), (b, q), (c, r)]), v) == a * Dot(p, v) + b * Dot(q, v) + c * Dot(r, v)
  {
    Linear3(a, p, b, q, c, r);
    DotScaleAdd(a, p, Add(Scale(b, q), Scale(c, r)), v);
    DotScaleAdd(b, q, Scale(c, r), v);
    DotScale(c, r, v);
  }

  lemma DotScale(c: real, r: Vec, v: Vec)
    ensures Dot(Scale(c, r), v) == c * Dot(r, v)
  {
  }

  /** One component of a combination of three vectors. */
  predicate Combined(a: real, p: real, b: real, q: real, c: real, r: real, v: real) {
    v == a * p + (b * q + c * r)
  }

  predicate Combines(a: real, p: Vec, b: real, q: Vec, c: real, r: Vec, v: Vec) {
    && Combined(a, p.t, b, q.t, c, r.t, v.t) && Combined(a, p.x, b, q.x, c, r.x, v.x)
    && Combined(a, p.y, b, q.y, c, r.y, v.y) && Combined(a, p.z, b, q.z, c, r.z, v.z)
  }

  lemma LinearComponents(a: real, p: Vec, b: real, q: Vec, c: real, r: Vec, v: Vec)
    requires v == Linear([(a, p), (b, q), (c, r)])
    ensures Combines(a, p, b, q, c, r, v)
  {
    hide Linear;
    Linear3(a, p, b, q, c, r);
  }

  predicate Multiplied(c: real, p: real, v: real) {
    v == c * p
  }

  predicate Multiplies(c: real, p: Vec, v: Vec) {
    Multiplied(c, p.t, v.t) && Multiplied(c, p.x, v.x) && Multiplied(c, p.y, v.y) && Multiplied(c, p.z, v.z)
  }

  lemma MultipliesIsScale(c: real, p: Vec, v: Vec)
    requires Multiplies(c, p, v)
    ensures v == Scale(c, p)
  {
  }

  lemma ScaleComponents(c: real, p: Vec, v: Vec)
    requires v == Scale(c, p)
    ensures Multiplies(c, p, v)
  {
  }
}
